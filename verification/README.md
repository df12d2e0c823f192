# CW Skimmer: the streaming decoders, modelled and proved

CW Skimmer decodes Morse code while it arrives. Every decoder in it keeps a little state between
calls, drops what it no longer needs, and must still say what a decoder would say that had the whole
signal in front of it. This project models those decoders in Dafny and proves that they do. Code that
updates structures in place is modelled by classes and loops; each is proved against a definition
of the batch meaning, and the theorems are about that definition.

| Files | What they model |
|---|---|
| CtcGreedy, CtcEncoding | greedy decoding, and that it reads what a label sequence spells |
| Stitching, WindowWeights, StreamProof, CommitProgress, Stitcher | score rows added by overlapping windows, how windows are weighed, and committing text piece by piece, neither too early nor too late |
| FrameClock, DeepCwEngine, DeepCwDecoder | windows over streamed audio: steps, dropped audio, finishing |
| FrontEnd, DeepCwFront | mixer, circular delay line, streamed interpolation |
| Viterbi, Segments, Folding, FoldKeying, CwskDecoder | the explicit-duration channel decoder: scores, traced path, runs, lagged commit, speed adaptation, and that a keyed text comes back |
| BitReversal, Fft | the in-place radix-2 transform over any commutative ring |
| Basics, Morse, Keying, Sorting | shared types, the code table, the keying of a text by Recommendation ITU-R M.1677-1, order statistics |
| SpectrumRuns, SpectrumTiming, SpectrumMeasure, SpectrumKeying | decoding spectrum runs, and measuring dit, dah, letter and word from histograms |
| SpectrumScan, SpectrumDecoder, SpectrumPower | runs out of columns behind a moving lag, sealing, the shown text, and the way from measured power to text |
| SlotTracking, SlotFollowing, MultiChannelDecoder | slices of the spectrum, when a slice locks on to a peak, follows it, and moves to another one |
| Intervals, Ditdah, DitdahRuns, DitdahKeying | intervals of a thresholded signal, reading them, and when a keyed text comes back |
| WorkerProtocol, WorkerProgress, DecodeWorker | controller and decode threads as interleaved steps, what they get done, and the sections under the lock |
| CallSigns, CopyMarks | call signs against their regular expression, and the marks of the copy highlighter |
| ScrollText, ThresholdText | the text of the threshold decoder, and the split of glued letters |

## What is proved

- **Stream equals batch.** For any windows, with any overlaps and gaps, the committed pieces join to one
  greedy decode of the final scores, and what was frozen or committed is never changed
  (`StreamProof.StreamEqualsBatch`, `StreamProof.FrozenForGood`); after every window, all that ended in
  front of the last frozen frame has been written (`CommitProgress.RunUpToDate`); whatever a label
  sequence spells is read (`CtcEncoding.SpelledTextComesBack`); where a window's interior and another
  one's edge disagree, the interior decides (`WindowWeights.InteriorDecides`). From the first audio
  sample to `finish`, for any chunks, the transcript is that of one batch decode in which every frame
  has been seen, with one finishing pass
  (`DeepCwEngine.DecoderEqualsBatch`, `DeepCwDecoders.ChunkIndependence`, `DeepCwEngine.NoCoverageGap`).
- **Viterbi optimality and conservation.** The traced path is legal and of greatest weight while hazards
  change from frame to frame; the extracted lengths add up to the frames if and only if no run outlasts
  its cap; the committed text is one left fold, and for lengths heard as the keying of a text that fold
  is the text (`Viterbi.ViterbiOptimal`, `Segments.LengthsAddUp`, `CwskDecoders.CwskDecoder.CommitStable`,
  `FoldKeying.KeyedTextComesBack`, `Folding.SpeedFollows`).
- **FFT.** Permutation, butterflies and the multiplied-up factor give the transform
  (`Fft.FftRadix2`).
- **Spectrum round trip.** Any runs that respect the cuts of a text are read as that text; cuts are sound;
  sealing keeps meaning; and a text keyed evenly is timed from its own runs and comes back under a
  condition that is exact (`SpectrumRuns.KeyedTextComesBack`, `SpectrumTiming.DahCutSeparates`,
  `SpectrumKeying.MeasuredTextComesBack`). Lag and trimming never change the runs
  (`SpectrumScan.ScanIsBatch`, `SpectrumDecoders.SpectrumDecoder.FeedColumn`).
- **From power to text.** A text keyed in power that stays clear of the two thresholds is shown, through
  hysteresis, lag, scan, measurement and the open last gap (`SpectrumPower.KeyedPowerIsCopied`,
  `SpectrumPower.KeyedPowerIsShown`).
- **Slices** lock on exactly when a bin of theirs is eligible, follow the strongest one near by, and leave
  their follow window exactly after two columns (`SlotFollowing.ArmsWhenHeard`,
  `SlotFollowing.FollowsDrift`, `SlotTracking.LeavesAfterTwo`).
- **Ditdah round trip**, again with the exact condition (`DitdahKeying.KeyedTextComesBack`), and for runs of
  any length that fit the boundaries (`DitdahRuns.UnevenTextCopied`).
- **Worker protocol** over all interleavings (`WorkerProtocol.QueueIsFifo`,
  `WorkerProtocol.DecoderOutlivesUse`, `WorkerProtocol.JoinedOnce`, `WorkerProtocol.JoinEnds`), and what is
  taken in is handled (`WorkerProgress.SubmitAccepts`, `WorkerProgress.ChunksProgress`).
- **Highlighter** against a regular expression and an interval colouring (`CallSigns.CallSignIsRegex`,
  `CopyMarks.CwCopyMarks`).

Three promises hold only under a condition, and the condition is proved exact:

- A text keyed 1:3:7 does not always come back from `decode_with_params`: with dits only and more than 18
  samples to the dit, dits are taken for dahs, and with few dits among many dahs the estimate is three
  times too long. `DitdahKeying.KeyedTextComesBack` says exactly when it is right;
  `DitdahKeying.LongDitIsLost`, `DitdahKeying.FewDitsAreLost` and `DitdahKeying.ShortDahsAreLost` are
  inputs for which it is not.
- `measure` takes every mark of an evenly keyed text for a dit when the dits do not outnumber the dahs
  and one of the two is too rare to be a peak: `SpectrumKeying.MeasuredTextComesBack`, with
  `SpectrumKeying.DahsAloneAreLost` and `SpectrumKeying.FewDitsAreLost` as inputs.
- The split of glued letters can yield a question mark, because the question mark has a code of its own
  (`ThresholdTexts.SplitCanYieldQuestion`); it does so exactly where that code is a piece
  (`ThresholdTexts.SplitQuestions`), and never where it stands nowhere in the pattern
  (`ThresholdTexts.NoQuestionInside`).

The comment at cw-skimmer/src/cwsk_decoder.c:673 calls the length of a run the duration on its last
frame; the code reports the streak at the cap where that is longer, and `Segments.RunLength` follows the
code.

## Model

| member | source | states |
|---|---|---|
| `CtcGreedy.FillWordGaps` | cw-skimmer/src/deepcw_engine.cpp:497-528 | the first pass of the greedy decoder fills exactly the blanks at which a word gap begins that ends in a character; the carried symbol and blank count stand for the dropped frames |
| `CtcGreedy.ShippedIsUsable` | cw-skimmer/models/model.onnx.json:2-45 | the shipped class table meets the assumption: every class but blank has a character, and one is a space |
| `CtcGreedy.CollapseSpans` | cw-skimmer/src/deepcw_engine.cpp:530-557 | the second pass collapses equal neighbours to spans |
| `CtcGreedy.TwoPasses` | cw-skimmer/src/deepcw_engine.cpp:490-559 | the two passes together find one span for each group of equal labels that is a character, a space or a word gap, whatever state is carried in |
| `CtcGreedy.DecodeCtcGreedy` | cw-skimmer/src/deepcw_engine.cpp:490-559 | the decoder returns those spans |
| `CtcGreedy.ToLaneText` | cw-skimmer/src/deepcw_engine.cpp:561-583 | spans become text with single spaces, none in front and none behind, and a flag for a space before it |
| `CtcGreedy.BatchReads` | cw-skimmer/src/deepcw_engine.cpp:490-583 | one greedy decode of a whole timeline gives the same text as reading it frame by frame without lookahead, with only the last symbol and a blank count in memory |
| `CtcGreedy.CommitReads` | cw-skimmer/src/deepcw_engine.cpp:490-583 | a prefix of the spans that ends in a character is what the frame reader has read by then, and a fresh decode from there finds the remaining spans |
| `CtcGreedy.QuietBefore` | cw-skimmer/src/deepcw_engine.cpp:632-656 | in front of the first character span there are only blanks and spaces |
| `CtcEncoding.SpelledTextComesBack` | cw-skimmer/src/deepcw_engine.cpp:490-583 | whatever text a label sequence spells, with runs of any length and any filler between them, is what a greedy decode reads; a word ends with a space class or with blanks enough |
| `Stitching.AddWindow` | cw-skimmer/src/deepcw_engine.cpp:406-445 | frames that are frozen never change, the timeline never shrinks, the frozen edge never moves back nor beyond it, and the committed state is untouched |
| `WindowWeights.RampValues` | cw-skimmer/src/deepcw_engine.cpp:272-281 | the ramp is 0 and 1 outside, has the values of the cubic at a quarter, a half and three quarters, and is symmetric |
| `WindowWeights.RampRises` | cw-skimmer/src/deepcw_engine.cpp:272-281 | the ramp never falls |
| `WindowWeights.InteriorCounts` | cw-skimmer/src/deepcw_engine.cpp:419-438 | two seconds behind the left edge or in a first window, and one second in front of the right edge or in a final one, a frame has weight 1 |
| `WindowWeights.EdgeHardlyCounts` | cw-skimmer/src/deepcw_engine.cpp:419-438 | frame 0 of a later window and the last frame of one that is not final have the least weight |
| `WindowWeights.RampCounts` | cw-skimmer/src/deepcw_engine.cpp:419-438 | a quarter and half way up each ramp the weight is that of the cubic |
| `WindowWeights.WeightRises` | cw-skimmer/src/deepcw_engine.cpp:419-438 | the weight never falls when a frame moves away from an edge, nor when the edge goes |
| `WindowWeights.LabelIsStrongest` | cw-skimmer/src/deepcw_engine.cpp:447-488 | a frame some window has seen is labelled with the first class of the greatest sum, any other one as blank |
| `WindowWeights.OneWindowDecides` | cw-skimmer/src/deepcw_engine.cpp:406-488 | a frame that one window has seen is labelled with the first greatest class of its row there |
| `WindowWeights.InteriorDecides` | cw-skimmer/src/deepcw_engine.cpp:406-488 | where one window has weight 1 and another the least, the label is that of the first, in either order, unless its margin is below a thousandth of that of the other |
| `WindowWeights.FrozenExactly` | cw-skimmer/src/deepcw_engine.cpp:406-445 | a window freezes exactly the frames that lie at least the guard in front of its end, a final one all |
| `Stitching.Strongest` | cw-skimmer/src/deepcw_engine.cpp:472-488 | the first greatest class of a row |
| `Stitching.TakeCount` | cw-skimmer/src/deepcw_engine.cpp:611-621 | a call that is not final commits only characters that end two frames before the frozen edge; a final one leaves no character |
| `CommitProgress.TakeReaches` | cw-skimmer/src/deepcw_engine.cpp:611-630 | a character run at or behind the committed edge that ended in front of the last frozen frame is committed by the next call, whatever else is still open |
| `CommitProgress.TakeReleases` | cw-skimmer/src/deepcw_engine.cpp:632-656 | up to one frame in front of the first open character run, or of the frozen edge, all frames are passed |
| `CommitProgress.TakeTextUpToDate` | cw-skimmer/src/deepcw_engine.cpp:590-664 | behind a call that is not final the transcript begins with all that was read up to the end of every character run that ended in front of the last frozen frame |
| `CommitProgress.RunUpToDate` | cw-skimmer/src/deepcw_engine.cpp:590-664 | the same after every window of any run |
| `StreamProof.SpansShift` | cw-skimmer/src/deepcw_engine.cpp:600-609 | spans of the retained rows are spans of the whole timeline, moved by the committed frames |
| `StreamProof.TakeTextStreams` | cw-skimmer/src/deepcw_engine.cpp:590-664 | a call that is not final keeps the stream invariant: carried symbol and blank count are those of the frame reader at the committed edge, and the transcript is what it has read |
| `StreamProof.TakeTextFinal` | cw-skimmer/src/deepcw_engine.cpp:590-664 | after the final call the transcript is one greedy decode of the whole timeline |
| `StreamProof.StreamEqualsBatch` | cw-skimmer/src/deepcw_engine.cpp:406-664 | stream equals batch: for any windows, with any overlaps, gaps and empty results, the transcript after the final one is one greedy decode of all final scores from frame 0 |
| `StreamProof.FrozenForGood` | cw-skimmer/src/deepcw_engine.cpp:406-445 | over any run, frames once frozen never change again, both edges only move forward, and committed text is never taken back |
| `StreamProof.FrozenToTheEnd` | cw-skimmer/src/deepcw_engine.cpp:406-664 | the final window keeps all of that as well |
| `Stitchers.Stitcher.constructor` | cw-skimmer/src/deepcw_engine.cpp:334-367 | an empty stitcher satisfies row_base <= committed_end <= frozen_end <= covered_end = row_base + rows and sums.size = rows * classes, the invariant of every method below |
| `Stitchers.Stitcher.Clear` | cw-skimmer/src/deepcw_engine.cpp:356-367 | clearing gives the empty timeline |
| `Stitchers.Stitcher.EnsureRows` | cw-skimmer/src/deepcw_engine.cpp:382-392 | new rows are blank, old ones unchanged, none negative |
| `Stitchers.Stitcher.DropRowsBefore` | cw-skimmer/src/deepcw_engine.cpp:393-404 | rows in front of a frame are cut off, as far as there are any; in front of a committed frame the timeline the buffer stands for stays the same |
| `Stitchers.Stitcher.AddFrames` | cw-skimmer/src/deepcw_engine.cpp:419-438 | only frames that are not frozen are added to, each with its own weight |
| `Stitchers.Stitcher.AddWindow` | cw-skimmer/src/deepcw_engine.cpp:406-445 | the flat, cut buffer is updated in place exactly as the uncut timeline is |
| `Stitchers.Stitcher.ReadLabels` | cw-skimmer/src/deepcw_engine.cpp:447-488 | the strongest classes of the retained rows are those of the timeline; an uncovered row reads as blank |
| `Stitchers.Stitcher.CommitSpans` | cw-skimmer/src/deepcw_engine.cpp:611-630 | the first half of take_text |
| `Stitchers.Stitcher.ReleaseFrames` | cw-skimmer/src/deepcw_engine.cpp:632-662 | the second half: frames without a character are passed, one is kept back |
| `Stitchers.Stitcher.TakeText` | cw-skimmer/src/deepcw_engine.cpp:590-664 | take_text on the cut buffer is take_text on the whole timeline, which CommitProgress.TakeReaches and StreamProof.StreamEqualsBatch pin from below and above; rows in front of the committed edge are dropped |
| `FrameClock.StartBound` | cw-skimmer/src/deepcw_engine.cpp:369-380 | a window starts neither before the audio that is kept nor behind its own end |
| `FrameClock.NextWindow` | cw-skimmer/src/deepcw_engine.cpp:369-380 | while the frozen edge keeps up, the next window starts at or before it and is at least a second long |
| `FrameClock.GrowFollows` | cw-skimmer/src/deepcw_engine.cpp:406-445 | a window of a second or more moves the frozen edge so far that it keeps up |
| `FrameClock.FinishReaches` | cw-skimmer/src/deepcw_engine.cpp:1086-1111 | while the frozen edge keeps up, one finishing window reaches the end of the audio |
| `FrameClock.SettledUnique` | cw-skimmer/src/deepcw_engine.cpp:1061-1084 | how many steps a number of samples allows is determined |
| `FrameClock.ContextGrows` | cw-skimmer/src/deepcw_engine.cpp:369-372 | the audio that must be kept only moves forward |
| `FrameClock.WindowIsLongest` | cw-skimmer/src/deepcw_engine.cpp:369-380 | a window goes back as far as it may: at most 12 seconds, and at most the left context in front of the frozen edge |
| `FrameClock.Distances` | cw-skimmer/src/deepcw_engine.cpp:962-985 | the left context is four seconds of frames and the freeze guard two, to the nearest frame; step n ends n + 2 seconds into the audio |
| `DeepCwEngine.StepsReach` | cw-skimmer/src/deepcw_engine.cpp:785-914 | after any steps no row lies behind what the audio seen so far can give |
| `DeepCwEngine.StepsLocal` | cw-skimmer/src/deepcw_engine.cpp:909-914 | steps see only audio in front of their ends, so later audio cannot matter |
| `DeepCwEngine.ShippedModel` | cw-skimmer/src/deepcw_engine.cpp:957-982 | with the shipped metadata (41 characters, 42 classes, blank last, hop 48, stride 2) the preconditions of all results here reduce to the frame count of the model |
| `DeepCwEngine.NoCoverageGap` | cw-skimmer/src/deepcw_engine.cpp:369-445 | after any number of steps every frame has positive weight and the next window starts at or before the frozen edge |
| `DeepCwEngine.FinishIsOnePass` | cw-skimmer/src/deepcw_engine.cpp:1086-1111 | the first finishing pass is already final, so the guard of 64 passes is never used up |
| `DeepCwEngine.DecoderEqualsBatch` | cw-skimmer/src/deepcw_engine.cpp:785-1111 | from first sample to finish: the transcript is one greedy decode of the final scores, and a window has seen every frame |
| `DeepCwDecoders.DeepCwDecoder.RunWindow` | cw-skimmer/src/deepcw_engine.cpp:785-907 | a window is refused exactly if it leaves the retained buffer; otherwise it sees the same samples as in the whole audio |
| `DeepCwDecoders.DeepCwDecoder.Step` | cw-skimmer/src/deepcw_engine.cpp:909-914 | a step is never refused, and is the step of the batch definition |
| `DeepCwDecoders.DeepCwDecoder.DropAudioBefore` | cw-skimmer/src/deepcw_engine.cpp:916-924 | audio no coming window starts in may be dropped |
| `DeepCwDecoders.DeepCwDecoder.StepOnce` | cw-skimmer/src/deepcw_engine.cpp:1070-1082 | one round of the processing loop is one step of the batch definition |
| `DeepCwDecoders.DeepCwDecoder.Process` | cw-skimmer/src/deepcw_engine.cpp:1061-1084 | after any chunk all steps the samples allow have been made, and the new text is what the transcript gained |
| `DeepCwDecoders.DeepCwDecoder.FinishPass` | cw-skimmer/src/deepcw_engine.cpp:1092-1108 | one pass of finishing, whose window is never refused either |
| `DeepCwDecoders.DeepCwDecoder.Finish` | cw-skimmer/src/deepcw_engine.cpp:1086-1111 | finishing makes at most 64 passes; with a complete model the transcript is one greedy decode of all final scores |
| `DeepCwDecoders.ChunkIndependence` | cw-skimmer/src/deepcw_engine.cpp:1061-1084 | two decoders fed the same samples in any chunks are in the same state with the same transcript |
| `FrontEnd.Front.OutputIsUnique` | cw-skimmer/src/deepcw_engine.cpp:1225-1294 | the samples fed determine the whole output |
| `FrontEnd.Front.PosIsMultiple` | cw-skimmer/src/deepcw_engine.cpp:1270-1284 | output m lies at m steps of the resampling ratio |
| `FrontEnd.Front.DueWhenThere` | cw-skimmer/src/deepcw_engine.cpp:1270-1284 | an output is due exactly when both samples around it are there |
| `FrontEnd.Front.FilteredSnoc` | cw-skimmer/src/deepcw_engine.cpp:1254-1267 | a new sample adds one dot product of the filter with the last taps samples, once there are so many |
| `FrontEnd.Front.EmittedStays` | cw-skimmer/src/deepcw_engine.cpp:1272-1285 | what was put out stays right when more is filtered |
| `FrontEnd.Front.MixesAtAngle` | cw-skimmer/src/deepcw_engine.cpp:1236-1244 | with trigonometric functions of period 2 pi, wrapping the phase does not change the mixed signal |
| `FrontEnd.Front.ToneLands` | cw-skimmer/src/deepcw_engine.cpp:1236-1244 | under the addition formula, a complex tone comes out as a cosine turned back by the angle of the mixer |
| `FrontEnd.Front.RealToneLands` | cw-skimmer/src/deepcw_engine.cpp:1236-1244 | a real tone comes out as two halves, one turned back and one turned on by the angle of the mixer |
| `FrontEnd.Front.PitchLandsOnCenter` | cw-skimmer/src/deepcw_engine.cpp:1236-1244 | so a tone at the pitch lands on the center frequency |
| `FrontEnd.Front.ImpulseResponse` | cw-skimmer/src/deepcw_engine.cpp:1254-1267 | a single one is answered by the filter, read backwards |
| `FrontEnd.Front.DotLinear` | cw-skimmer/src/deepcw_engine.cpp:1254-1267 | the filter is linear |
| `FrontEnd.Front.LinesStay` | cw-skimmer/src/deepcw_engine.cpp:1270-1284 | samples on a straight line are interpolated on that line |
| `DeepCwFronts.DeepCwFront.Enter` | cw-skimmer/src/deepcw_engine.cpp:1246-1253 | a sample enters the circular delay line, which then holds the last taps samples |
| `DeepCwFronts.DeepCwFront.Filter` | cw-skimmer/src/deepcw_engine.cpp:1257-1267 | the walk round the line is the direct dot product of the last taps samples, oldest first |
| `DeepCwFronts.DeepCwFront.Emit` | cw-skimmer/src/deepcw_engine.cpp:1270-1285 | all output that is due is put out; the guard that would break off is never met |
| `DeepCwFronts.DeepCwFront.DropSource` | cw-skimmer/src/deepcw_engine.cpp:1286-1293 | what is kept of the filtered signal is enough for all further output |
| `DeepCwFronts.DeepCwFront.Process` | cw-skimmer/src/deepcw_engine.cpp:1225-1294 | after any split into calls all output so far is the interpolation of the whole filtered signal so far |
| `DeepCwFronts.FrontChunkIndependence` | cw-skimmer/src/deepcw_engine.cpp:1225-1294 | two front ends fed the same samples in any chunks have put out the same |
| `Viterbi.BestEnd` | cw-skimmer/src/cwsk_decoder.c:584-597 | the best way to end a run of one kind is found, and no other is better |
| `Viterbi.StepBound` | cw-skimmer/src/cwsk_decoder.c:551-640 | no legal step gives a state a higher score |
| `Viterbi.StepAttained` | cw-skimmer/src/cwsk_decoder.c:551-640 | the back pointer of a reachable state attains its score over a legal step |
| `Viterbi.ScoreBounds` | cw-skimmer/src/cwsk_decoder.c:551-640 | every legal duration path weighs at most the score of the state it ends in |
| `Viterbi.TraceAttains` | cw-skimmer/src/cwsk_decoder.c:665-671 | following back pointers gives a legal path of exactly the score |
| `Viterbi.Reachable` | cw-skimmer/src/cwsk_decoder.c:551-640 | after every frame a new mark and a new space can be reached |
| `Viterbi.ViterbiOptimal` | cw-skimmer/src/cwsk_decoder.c:551-671 | the traced path is legal, starts at duration 1 and no legal path weighs more, with hazards that may differ from frame to frame |
| `Viterbi.BestState` | cw-skimmer/src/cwsk_decoder.c:657-664 | the first state of the highest score |
| `Viterbi.RunWeighs` | cw-skimmer/src/cwsk_decoder.c:551-640 | a run of d frames weighs one emission of its kind a frame, the hazards of going on at each length, and one hazard of ending at length d; at the cap it goes on at that |
| `Segments.RunLength` | cw-skimmer/src/cwsk_decoder.c:673-718 | the length reported for a run of R frames is R up to the cap and max(cap, R - cap + 1) beyond it |
| `Segments.NextRun` | cw-skimmer/src/cwsk_decoder.c:673-718 | where a run of a legal path stops, one of the other kind starts at duration 1 |
| `Segments.RunsPartition` | cw-skimmer/src/cwsk_decoder.c:673-718 | the runs alternate, end at strictly growing frames, the last at the last frame, and cover the path |
| `Segments.LengthsAddUp` | cw-skimmer/src/cwsk_decoder.c:673-718 | the lengths never exceed the frames, and add up to them if and only if no run outlasts its cap |
| `Folding.AppendText` | cw-skimmer/src/cwsk_decoder.c:432-446 | text only grows, within its buffer |
| `Folding.LookupSays` | cw-skimmer/src/cwsk_decoder.c:254-262 | a pattern yields the first table entry that has it, and nothing only where none has |
| `Folding.UnknownLeavesNothing` | cw-skimmer/src/cwsk_decoder.c:459-467 | a pattern without an entry leaves no trace |
| `Folding.SortSorts` | cw-skimmer/src/cwsk_decoder.c:522-533 | the scratch copy of mark lengths is a sorted rearrangement |
| `Folding.TextGrows` | cw-skimmer/src/cwsk_decoder.c:451-475 | folding more lengths only extends the text, and never outgrows the buffer |
| `Folding.RatiosKept` | cw-skimmer/src/cwsk_decoder.c:501-549 | adaptation keeps every difference of two log-means at its seed value |
| `Folding.MarksRemembered` | cw-skimmer/src/cwsk_decoder.c:501-519 | over any lengths the decoder remembers the last 64 marks and how many there were since the last multiple of fourteen |
| `Folding.SpeedFollows` | cw-skimmer/src/cwsk_decoder.c:501-549 | at every fourteenth mark, and then only, where the remembered marks hold both kinds and their median is within 0.8 in the logarithm, the log-mean of the dit goes half way to the logarithm of the median and the other log-means move by as much |
| `FoldKeying.LookupKnown` | cw-skimmer/src/cwsk_decoder.c:81-112 | the first table entry that matches the code of a letter or figure is its own |
| `FoldKeying.KeyedTextComesBack` | cw-skimmer/src/cwsk_decoder.c:233-475 | lengths that are likeliest to be the marks and gaps of a keyed text, at whatever speed the decoder has adapted to by then, fold to that text as far as the buffer reaches, and closing makes up for a last gap that has not come |
| `CwskDecoders.NextColumn` | cw-skimmer/src/cwsk_decoder.c:571-636 | the three loops of a frame compute the next column with its back pointers |
| `CwskDecoders.ExtractRuns` | cw-skimmer/src/cwsk_decoder.c:673-718 | the second half of backtrace cuts a path into its runs, as far as the table reaches |
| `CwskDecoders.InsertionSort` | cw-skimmer/src/cwsk_decoder.c:528-533 | the in-place insertion sort of the scratch lengths |
| `CwskDecoders.CwskDecoder.constructor` | cw-skimmer/src/cwsk_decoder.c:377-417 | a new decoder: no frames, no text, seed means |
| `CwskDecoders.CwskDecoder.ViterbiFrame` | cw-skimmer/src/cwsk_decoder.c:551-640 | one column is added, unless the frame buffer is full; scores stay those of the dynamic program |
| `CwskDecoders.CwskDecoder.TracePath` | cw-skimmer/src/cwsk_decoder.c:657-671 | the path traced is the best path |
| `CwskDecoders.CwskDecoder.Backtrace` | cw-skimmer/src/cwsk_decoder.c:644-718 | the elements are the runs of the best path over all frames |
| `CwskDecoders.CwskDecoder.AdaptSpeed` | cw-skimmer/src/cwsk_decoder.c:501-549 | one mark length enters the ring and may shift all means; the hazards are rebuilt with them |
| `CwskDecoders.CwskDecoder.FoldElements` | cw-skimmer/src/cwsk_decoder.c:451-475 | the runs behind those folded are folded, before and after finishing; text, pattern, means and marks stay one left fold of all folded lengths from the seed, with the open character closed where finish closed it; FoldKeying.KeyedTextComesBack says what that fold writes |
| `CwskDecoders.CwskDecoder.PrefixMoved` | cw-skimmer/src/cwsk_decoder.c:728-732 | whether the path still begins with the lengths folded before |
| `CwskDecoders.CwskDecoder.CommitStable` | cw-skimmer/src/cwsk_decoder.c:720-743 | runs that ended long enough ago are folded; if the path no longer begins with the folded lengths nothing happens |
| `CwskDecoders.CwskDecoder.CopyNew` | cw-skimmer/src/cwsk_decoder.c:745-760 | the concatenated output is a prefix of the text, handed out once |
| `CwskDecoders.CwskDecoder.PushFrame` | cw-skimmer/src/cwsk_decoder.c:769-816 | a frame adds a column and then commits behind the lag, before and after finishing |
| `CwskDecoders.CwskDecoder.Finish` | cw-skimmer/src/cwsk_decoder.c:919-955 | finishing takes the frame of a partial last hop, folds the rest and closes an open character, unless the path moved; a second call only takes its frame |
| `CwskDecoders.BestRunsPartition` | cw-skimmer/src/cwsk_decoder.c:644-718 | the elements of the best path are its alternating segments |
| `CwskDecoders.CommittedRuns` | cw-skimmer/src/cwsk_decoder.c:720-743 | a look at the runs never changes lengths committed before; where the runs still begin with them, exactly those and all that ended by the limit are committed then |
| `CwskDecoders.FrameMonotone` | cw-skimmer/src/cwsk_decoder.c:551-565 | a greater mark probability speaks for a mark and against a space; the emissions are the logarithms of the probabilities between 0.0001 and 0.9999 |
| `CwskDecoders.MarkSpeaksForMark` | cw-skimmer/src/cwsk_decoder.c:551-640 | a frame of greater mark probability never lowers the weight of a path that is marked there, and never raises that of one that is not |
| `BitReversal.RevInvolution` | cw-skimmer/src/audio_processor.c:15-26 | reversing the bits of an index twice changes nothing |
| `BitReversal.RevNext` | cw-skimmer/src/audio_processor.c:17-20 | the reversal of i + 1 is the counter advanced from the reversal of i |
| `BitReversal.RevBelowTop` | cw-skimmer/src/audio_processor.c:17-20 | the counter is never advanced from the index with all bits set |
| `BitReversal.BumpCounter` | cw-skimmer/src/audio_processor.c:16-20 | the inner loop ends and advances the reversed counter |
| `BitReversal.Permute` | cw-skimmer/src/audio_processor.c:15-26 | the first loop leaves the elements in bit-reversed order |
| `Fft.SumSplit` | cw-skimmer/src/audio_processor.c:28-41 | a sum of terms is that of the even ones and a power times that of the odd ones |
| `Fft.DftSplit` | cw-skimmer/src/audio_processor.c:33-38 | a transform from the transforms of its even and odd halves, for a root with W^(n/2) = -1 |
| `Fft.StageStep` | cw-skimmer/src/audio_processor.c:28-41 | a stage turns transformed blocks of len/2 into transformed blocks of len |
| `Fft.BlocksStart` | cw-skimmer/src/audio_processor.c:15-28 | the bit-reversed array holds the transforms of its single elements |
| `Fft.ButterflyInPlace` | cw-skimmer/src/audio_processor.c:31-39 | the butterflies of one block, with w multiplied up |
| `Fft.Stage` | cw-skimmer/src/audio_processor.c:29-40 | one stage over the whole array |
| `Fft.FftRadix2` | cw-skimmer/src/audio_processor.c:12-42 | X[k] is the sum of x[t] W^(t k), for every power-of-two length, in place, over any commutative ring with W^(n/2) = -1 |
| `Morse.MorseRoundTrip` | cw-skimmer/gui/spectrummorsewindow.cpp:37-60 | the table gives back every letter and figure from its code |
| `Morse.MorseSound` | cw-skimmer/src/ditdah_decoder.c:121-161 | a pattern the table knows is the code of the character it gives, so no code stands twice |
| `SpectrumRuns.Decode` | cw-skimmer/gui/spectrummorsewindow.cpp:512-538 | the loop computes the reading of the runs |
| `SpectrumRuns.SealKeepsText` | cw-skimmer/gui/spectrummorsewindow.cpp:349-361 | cutting at a space of at least letterCut: the two halves decoded apart give what the whole gives |
| `SpectrumRuns.KeyedTextComesBack` | cw-skimmer/gui/spectrummorsewindow.cpp:512-538 | any runs, however uneven, that respect the cuts of a keyed text are decoded to exactly that text |
| `SpectrumTiming.BinMonotone` | cw-skimmer/gui/spectrummorsewindow.cpp:96-100 | a shorter run never falls into a higher bin |
| `SpectrumTiming.BinNearest` | cw-skimmer/gui/spectrummorsewindow.cpp:96-100 | a length falls into the bin nearest to it in quanta, halves into the higher, and into none below the first |
| `SpectrumTiming.ThresholdSays` | cw-skimmer/gui/spectrummorsewindow.cpp:124 | a peak needs a twentieth of the lengths, to the nearest whole number, but at least three |
| `SpectrumTiming.HistogramSays` | cw-skimmer/gui/spectrummorsewindow.cpp:102-116 | a bin holds the number, the least and the greatest of the lengths that fall into it |
| `SpectrumTiming.PeaksAreMaxima` | cw-skimmer/gui/spectrummorsewindow.cpp:118-159 | where some bin is a tall local maximum, the peaks are exactly those bins |
| `SpectrumTiming.PeaksOccupied` | cw-skimmer/gui/spectrummorsewindow.cpp:118-159 | peaks ascend and are occupied |
| `SpectrumTiming.PlateauEnds` | cw-skimmer/gui/spectrummorsewindow.cpp:136-147 | of a plateau its last bin alone is a peak |
| `SpectrumTiming.BestPairSays` | cw-skimmer/gui/spectrummorsewindow.cpp:398-417 | of all pairs of peaks in the admitted ratio range the one nearest 1:3 is taken, none only if there is none |
| `SpectrumTiming.SkewSays` | cw-skimmer/gui/spectrummorsewindow.cpp:406-415 | the distance from 1:3 is the ratio over three above it and three over the ratio below it |
| `SpectrumTiming.GapsSay` | cw-skimmer/gui/spectrummorsewindow.cpp:450-472 | of the gap peaks, the first of 0.22 to 1.8 dits is the element, the first other one of 1.45 to 4.6 the letter, and the first further one of 3.8 to 14 the word |
| `SpectrumTiming.DahCutSeparates` | cw-skimmer/gui/spectrummorsewindow.cpp:421-440 | when two peaks are found both clusters are occupied, and dahCut lies strictly between all marks binned below the valley and all binned above |
| `SpectrumTiming.CutsOrdered` | cw-skimmer/gui/spectrummorsewindow.cpp:445-509 | whenever measuring succeeds, the dit is in range and 0 < letterCut < wordCut |
| `SpectrumMeasure.HistogramPeaks` | cw-skimmer/gui/spectrummorsewindow.cpp:118-159 | the loops find the peaks |
| `SpectrumMeasure.FindPair` | cw-skimmer/gui/spectrummorsewindow.cpp:398-417 | the nested loop finds the best pair |
| `SpectrumMeasure.CutMarks` | cw-skimmer/gui/spectrummorsewindow.cpp:419-444 | dit and dahCut from the two clusters |
| `SpectrumMeasure.CutEdge` | cw-skimmer/gui/spectrummorsewindow.cpp:474-495 | the cut between two gap peaks |
| `SpectrumMeasure.MeasureRuns` | cw-skimmer/gui/spectrummorsewindow.cpp:364-510 | measure as it runs computes the timing |
| `SpectrumKeying.MeasuredMarks` | cw-skimmer/gui/spectrummorsewindow.cpp:397-444 | the dit and the cut found in evenly keyed marks |
| `SpectrumKeying.MeasuredSpaces` | cw-skimmer/gui/spectrummorsewindow.cpp:452-502 | for evenly keyed spaces both cuts fall between the spaces they separate, whichever kinds are common enough to be peaks |
| `SpectrumKeying.MeasuredTextComesBack` | cw-skimmer/gui/spectrummorsewindow.cpp:364-538 | a text keyed evenly at a speed the columns resolve is timed from its own runs and comes back if and only if at least three marks were sent and the dits outnumber the dahs or both are peaks |
| `SpectrumKeying.DahsAloneAreLost` | cw-skimmer/gui/spectrummorsewindow.cpp:364-538 | an input that fails: the letter O alone at 60 ms to the dit |
| `SpectrumKeying.FewDitsAreLost` | cw-skimmer/gui/spectrummorsewindow.cpp:364-538 | another: the letter J, one dit among three dahs |
| `SpectrumKeying.WrongCutLoses` | cw-skimmer/gui/spectrummorsewindow.cpp:512-538 | taken for dits, the dahs of a text cannot come back |
| `SpectrumScan.StretchMaximal` | cw-skimmer/gui/spectrummorsewindow.cpp:310-322 | a stretch of equal columns is uniform and cannot be extended to the left |
| `SpectrumScan.ScanIsBatch` | cw-skimmer/gui/spectrummorsewindow.cpp:303-324 | the scan state summarises the columns consumed, and its runs are their run-length encoding with short stretches and leading spaces dropped |
| `SpectrumDecoders.LagOf` | cw-skimmer/gui/spectrummorsewindow.cpp:270-276 | the lag is 18 dits of the measured speed, at least 18 times 40 ms, and 4.32 s before the speed is known |
| `SpectrumDecoders.LastCut` | cw-skimmer/gui/spectrummorsewindow.cpp:349-355 | the cut is at the last long enough space of the range |
| `SpectrumDecoders.SpectrumDecoder.ClearDecode` | cw-skimmer/gui/spectrummorsewindow.cpp:217-230 | the copy goes and a new scan begins where the old one stood |
| `SpectrumDecoders.SpectrumDecoder.AdoptText` | cw-skimmer/gui/spectrummorsewindow.cpp:232-241 | the text is kept and everything else starts anew |
| `SpectrumDecoders.SpectrumDecoder.ResetTiming` | cw-skimmer/gui/spectrummorsewindow.cpp:243-260 | all but the shown text starts anew |
| `SpectrumDecoders.SpectrumDecoder.TrimHistory` | cw-skimmer/gui/spectrummorsewindow.cpp:296-300 | only consumed columns older than a minute are dropped |
| `SpectrumDecoders.SpectrumDecoder.ScanSample` | cw-skimmer/gui/spectrummorsewindow.cpp:304-323 | one column consumed is one step of the scan |
| `SpectrumDecoders.SpectrumDecoder.Consume` | cw-skimmer/gui/spectrummorsewindow.cpp:302-324 | every column up to the cursor is consumed, once and in order, and none beyond it |
| `SpectrumDecoders.SpectrumDecoder.SealOldest` | cw-skimmer/gui/spectrummorsewindow.cpp:340-362 | the runs in front of the cut become sealed text, decoded under their own timing; the others stay |
| `SpectrumDecoders.SealKeepsMeaning` | cw-skimmer/gui/spectrummorsewindow.cpp:340-362 | what sealed text and remaining runs say under that timing is what all the runs said |
| `SpectrumDecoders.SpectrumDecoder.SetText` | cw-skimmer/gui/spectrummorsewindow.cpp:567-586 | an overlong text is cut to its end, and the sealed text with it |
| `SpectrumDecoders.SpectrumDecoder.Publish` | cw-skimmer/gui/spectrummorsewindow.cpp:540-565 | with a timing the speed moves, and the text becomes all sealed text followed by what the runs in view say, cut to size together with the sealed text; without one only sealing goes on |
| `SpectrumDecoders.SpectrumDecoder.FeedColumn` | cw-skimmer/gui/spectrummorsewindow.cpp:278-330 | whatever lag, trimming and sealing did, sealed and waiting runs are the encoding of the columns consumed so far, every column is on or off as the hysteresis of 16 and 12.5 dB over what was measured says, and text, sealed text and speed follow from the state before and the column |
| `SpectrumDecoders.SetTextSays` | cw-skimmer/gui/spectrummorsewindow.cpp:567-585 | a shown text is kept whole up to 8000 characters and of a longer one the last 6000; the sealed part stays the front of it |
| `SpectrumPower.CleanColumns` | cw-skimmer/gui/spectrummorsewindow.cpp:71-79 | where no power lies between the two thresholds, the key is down exactly where it is at least 16 dB above the floor |
| `SpectrumPower.DipsDoNotSplit` | cw-skimmer/gui/spectrummorsewindow.cpp:62-79 | from a loud column on, columns stay on until one falls below 12.5 dB |
| `SpectrumPower.RisesDoNotSplit` | cw-skimmer/gui/spectrummorsewindow.cpp:62-79 | from a quiet column on, columns stay off until one reaches 16 dB |
| `SpectrumPower.PowerIsRuns` | cw-skimmer/gui/spectrummorsewindow.cpp:278-323 | sealed and waiting, a decoder that has consumed keyed power holds exactly the tones that were keyed, as long as their columns |
| `SpectrumPower.SixDahsBehind` | cw-skimmer/gui/spectrummorsewindow.cpp:269-323 | a column is read exactly when six dahs of newer spectrum have been drawn |
| `SpectrumPower.KeyedPowerIsCopied` | cw-skimmer/gui/spectrummorsewindow.cpp:278-330 | a text keyed in power that is clear of the thresholds is the text shown, where its lengths fit the cuts measured in them |
| `SpectrumPower.KeyedPowerIsShown` | cw-skimmer/gui/spectrummorsewindow.cpp:540-565 | a text is not held up by its last gap: it is shown as soon as the silence behind its last mark is long enough |
| `SpectrumPower.PaceSays` | cw-skimmer/gui/spectrummorsewindow.cpp:540-565 | the first measurement sets the speed, every further one brings it nearer to the measured dit by fifteen hundredths of the distance |
| `SlotTracking.SlotContainsItsOffsets` | cw-skimmer/gui/multichanneldecoder.cpp:187-200 | inside the span a slot contains exactly the offsets that map to it |
| `SlotTracking.SlotCountSays` | cw-skimmer/gui/multichanneldecoder.cpp:172-185 | the number of slots is the whole number of kilohertz nearest to the span, from 1 to 48 |
| `SlotTracking.StrongestIsStrongest` | cw-skimmer/gui/multichanneldecoder.cpp:212-254 | the peak found is an eligible bin of the greatest power, the first of them; none is found only if there is none |
| `SlotTracking.CandidateOutside` | cw-skimmer/gui/multichanneldecoder.cpp:304-340 | a switch candidate lies outside the whole follow window |
| `SlotTracking.TrackedCases` | cw-skimmer/gui/multichanneldecoder.cpp:304-340 | an active slice stays in its window and forgets, counts a first candidate, or moves to the second one |
| `SlotTracking.StaysInSlot` | cw-skimmer/gui/multichanneldecoder.cpp:288-341 | over every run at a fixed span, an active slice stays inside its slot, and the slot arithmetic maps it back |
| `SlotTracking.LeavesAfterTwo` | cw-skimmer/gui/multichanneldecoder.cpp:288-341 | over every run a slice leaves its follow window if and only if the strongest peak of this column and of the one before were outside it, over the margin where a near peak exists, and lie within 150 Hz of each other |
| `SlotFollowing.PeakBinSays` | cw-skimmer/gui/multichanneldecoder.cpp:212-240 | a peak is at least 16 dB above the noise, not below any bin up to two away, and not level with both neighbours |
| `SlotFollowing.SearchSays` | cw-skimmer/gui/multichanneldecoder.cpp:212-254 | the search finds the bin that is the strongest eligible one, and nothing only where no bin is eligible |
| `SlotFollowing.ArmsWhenHeard` | cw-skimmer/gui/multichanneldecoder.cpp:288-300 | over every run a free slice is locked behind a column if and only if some bin of its slot is eligible, and then on the strongest of them |
| `SlotFollowing.CandidateSays` | cw-skimmer/gui/multichanneldecoder.cpp:302-331 | a column holds a candidate if and only if an eligible bin more than 150 Hz away is stronger by more than 1.5 dB than every one in the window |
| `SlotFollowing.FollowsDrift` | cw-skimmer/gui/multichanneldecoder.cpp:302-331 | over every run a locked slice without a rival moves to the strongest bin of its window, and waits where it is when the slot is silent |
| `MultiChannelDecoders.PowerIsGreatest` | cw-skimmer/gui/spectrumwidget.cpp:130-150 | the power fed to a decoder is that of the strongest bin in reach of its offset, or the floor |
| `MultiChannelDecoders.HearsItsBin` | cw-skimmer/gui/multichanneldecoder.cpp:548-556 | the offset of a bin leads back to it, so a decoder is never fed less than the power of the bin its slice follows |
| `MultiChannelDecoders.MultiChannelDecoder.StepSlot` | cw-skimmer/gui/multichanneldecoder.cpp:544-558 | one slice: track, start the decoder anew where the slice locks on, and where it is active feed it the power at the offset followed |
| `MultiChannelDecoders.FindStrongestPeak` | cw-skimmer/gui/multichanneldecoder.cpp:212-254 | the loop finds the strongest peak |
| `MultiChannelDecoders.Channel.ArmSlot` | cw-skimmer/gui/multichanneldecoder.cpp:256-271 | a free slice locks on with an empty text |
| `MultiChannelDecoders.Channel.RetargetSlot` | cw-skimmer/gui/multichanneldecoder.cpp:273-286 | moving to another peak leaves the decoded text unchanged |
| `MultiChannelDecoders.Channel.TrackSlot` | cw-skimmer/gui/multichanneldecoder.cpp:288-341 | one column of tracking, as SlotFollowing.ArmsWhenHeard, SlotFollowing.FollowsDrift and SlotTracking.LeavesAfterTwo say of whole runs; a decoder starts anew only where the slice locks on, and only arming a free slice loses its text |
| `MultiChannelDecoders.TrackedAtHome` | cw-skimmer/gui/multichanneldecoder.cpp:536-545 | as long as the span stays the same every active channel stays in its own slot |
| `MultiChannelDecoders.MultiChannelDecoder.ProcessSpectrumColumn` | cw-skimmer/gui/multichanneldecoder.cpp:505-559 | every used slot tracks the column by its own edges and feeds its decoder, the others keep lock and decoder, and a change of span frees them all first |
| `Intervals.RunsAlternate` | cw-skimmer/src/ditdah_decoder.c:163-195 | the runs of a signal alternate |
| `Intervals.RunsAddUp` | cw-skimmer/src/ditdah_decoder.c:163-195 | their lengths add up to the signal |
| `Intervals.GetRawIntervals` | cw-skimmer/src/ditdah_decoder.c:163-195 | the on and off lengths of all runs, as far as the tables reach |
| `Intervals.MovingAverage` | cw-skimmer/src/ditdah_decoder.c:197-224 | each output is the mean of the last window samples, or of all there are |
| `Sorting.SortedOrders` | cw-skimmer/src/ditdah_decoder.c:427-428 | sorted lengths are in order |
| `Sorting.SortedRearranges` | cw-skimmer/src/ditdah_decoder.c:427-428 | and a rearrangement |
| `Sorting.SortedTwo` | cw-skimmer/src/ditdah_decoder.c:427-441 | with two kinds of lengths the shorter ones come first |
| `Ditdah.DecodeWithParams` | cw-skimmer/src/ditdah_decoder.c:396-501 | both passes and the flush compute the decoded and the pending text |
| `Ditdah.CopySignal` | cw-skimmer/src/ditdah_decoder.c:445-485 | the second pass folds all runs but the one still open behind an extra zero sample |
| `DitdahRuns.UnevenTextCopied` | cw-skimmer/src/ditdah_decoder.c:445-501 | runs that fit the boundaries of a keyed text, however uneven, are copied as that text |
| `DitdahRuns.GlitchIgnored` | cw-skimmer/src/ditdah_decoder.c:453-485 | a run too short to count might as well not be there |
| `DitdahRuns.DebounceSays` | cw-skimmer/src/ditdah_decoder.c:446-447 | too short is up to three tenths of a dot, to the nearest sample, and a single sample |
| `DitdahRuns.CopyTidy` | cw-skimmer/src/ditdah_decoder.c:445-501 | whatever runs come, the copy has no space in front and no two together |
| `DitdahRuns.DotSays` | cw-skimmer/src/ditdah_decoder.c:425-443 | where some mark is more than twice as long as another one, the dot is the mark at the lower quarter; else the middle one, or a third of it above 18 samples |
| `DitdahKeying.DotOfTwo` | cw-skimmer/src/ditdah_decoder.c:430-443 | the dot length found in marks of one and three units |
| `DitdahKeying.SignalRuns` | cw-skimmer/src/ditdah_decoder.c:445-485 | the runs of a keyed signal with silence before and behind |
| `DitdahKeying.RightDotCopies` | cw-skimmer/src/ditdah_decoder.c:445-501 | with the right dot length the text is copied, last character included |
| `DitdahKeying.WrongDotLoses` | cw-skimmer/src/ditdah_decoder.c:445-501 | with a wrong one it cannot be |
| `DitdahKeying.KeyedTextComesBack` | cw-skimmer/src/ditdah_decoder.c:396-501 | a text keyed 1:3:7 at two or more samples per dit comes back if and only if the dot estimate is right: with both kinds of marks a dit at the lower quartile, with dits only at most 18 samples, with dahs only more than 18 samples; then the pending pattern is that of the last character |
| `DitdahKeying.LongDitIsLost` | cw-skimmer/src/ditdah_decoder.c:430-440 | an input that fails: the letter E at 19 samples to the dit |
| `DitdahKeying.FewDitsAreLost` | cw-skimmer/src/ditdah_decoder.c:430-440 | another: the letter J alone, at any speed |
| `DitdahKeying.ShortDahsAreLost` | cw-skimmer/src/ditdah_decoder.c:430-440 | another: the letter O at 6 samples to the dit |
| `WorkerProtocol.SubmitKeepsQueue` | cw-skimmer/src/decode_worker.c:277-303 | an accepted chunk goes behind those waiting and overwrites none of them |
| `WorkerProtocol.TakeKeepsQueue` | cw-skimmer/src/decode_worker.c:35-45 | the thread takes the oldest chunk that waits, unchanged |
| `WorkerProtocol.NextKeeps` | cw-skimmer/src/decode_worker.c:12-227 | every step of controller and threads keeps the invariant |
| `WorkerProtocol.QueueIsFifo` | cw-skimmer/src/decode_worker.c:12-109 | in every interleaving queue_write = queue_read + queue_count mod 8, at most 8 wait, and the chunks handled are the first ones accepted, in order, each at most once |
| `WorkerProtocol.DecoderOutlivesUse` | cw-skimmer/src/decode_worker.c:47-74 | as long as a thread runs, its decoder exists, outside the lock as well; the thread loses no chunk, and has gone before the last section of stop destroys the decoder |
| `WorkerProtocol.JoinedOnce` | cw-skimmer/src/decode_worker.c:190-214 | no thread is joined twice, and between calls every thread but the running one has been joined |
| `WorkerProtocol.JoinEnds` | cw-skimmer/src/decode_worker.c:190-214 | a join cannot hang: the thread can always take a step, and each brings it nearer to its end |
| `WorkerProgress.SubmitAccepts` | cw-skimmer/src/decode_worker.c:277-303 | in every run a chunk is taken in if and only if it is not empty, the worker is active and unmarked, and fewer than eight wait; of a longer one the first 1024 samples |
| `WorkerProgress.StartWorks` | cw-skimmer/src/decode_worker.c:152-188 | a start that succeeds leaves an active worker with an empty queue and a new thread |
| `WorkerProgress.ActiveUntil` | cw-skimmer/src/decode_worker.c:47-74 | an active worker stays active until a stop begins or a steady carrier is reported |
| `WorkerProgress.ChunksProgress` | cw-skimmer/src/decode_worker.c:12-74 | while the worker is active, the next step of its thread is possible and handles the oldest chunk that is left, or comes nearer to it |
| `DecodeWorkers.DecodeWorker.constructor` | cw-skimmer/src/decode_worker.c:111-122 | an initialised worker is the start of every run |
| `DecodeWorkers.DecodeWorker.SubmitIq` | cw-skimmer/src/decode_worker.c:277-303 | the section of submit |
| `DecodeWorkers.DecodeWorker.TakeWork` | cw-skimmer/src/decode_worker.c:19-45 | the section at the top of the thread loop |
| `DecodeWorkers.DecodeWorker.MarkBirdie` | cw-skimmer/src/decode_worker.c:60-65 | the section after a steady carrier |
| `DecodeWorkers.DecodeWorker.BeginStop` | cw-skimmer/src/decode_worker.c:199-208 | the first section of stop |
| `DecodeWorkers.DecodeWorker.FinishStop` | cw-skimmer/src/decode_worker.c:215-226 | the last section of stop |
| `DecodeWorkers.DecodeWorker.Start` | cw-skimmer/src/decode_worker.c:159-187 | the section of start, with failures |
| `CallSigns.IsCallSign` | cw-skimmer/gui/cwcopyformat.cpp:60-92 | the loops decide the letter and digit shapes |
| `CallSigns.CallSignIsRegex` | cw-skimmer/gui/cwcopyformat.cpp:60-92 | the shapes are exactly the language of the regular expression in the comment |
| `CopyMarks.FindCalls` | cw-skimmer/gui/cwcopyformat.cpp:144-175 | every occurrence of a call sign is found once, and counted by its key |
| `CopyMarks.CountedElsewhere` | cw-skimmer/gui/cwcopyformat.cpp:172-180 | a key counted twice stands in two places |
| `CopyMarks.ElsewhereCounted` | cw-skimmer/gui/cwcopyformat.cpp:172-180 | and what stands in two places is counted twice |
| `CopyMarks.PaintedIsRepeated` | cw-skimmer/gui/cwcopyformat.cpp:177-184 | red covers exactly the occurrences of call signs that occur at least twice |
| `CopyMarks.PaintCq` | cw-skimmer/gui/cwcopyformat.cpp:136-142 | green covers exactly the letters of CQ |
| `CopyMarks.Marks` | cw-skimmer/gui/cwcopyformat.cpp:186-200 | the marks are the maximal runs of one colour, sorted and disjoint |
| `CopyMarks.RunsAreUnique` | cw-skimmer/gui/cwcopyformat.cpp:186-200 | there is only one such list |
| `CopyMarks.CwCopyMarks` | cw-skimmer/gui/cwcopyformat.cpp:125-201 | a position is red if and only if a repeated call sign covers it, green if and only if it lies in CQ and is not red, and the marks are the runs of that colouring |
| `ScrollText.TrimKeeps` | cw-skimmer/gui/thresholdmorsewindow.cpp:1500-1512 | trimming leaves no space in front and a text within the limit |
| `ScrollText.AppendKeeps` | cw-skimmer/gui/thresholdmorsewindow.cpp:1456-1498 | an append keeps the text free of leading and double spaces and within its bound |
| `ScrollText.AlwaysSpaced` | cw-skimmer/gui/thresholdmorsewindow.cpp:1456-1512 | from a clear state, for any characters: never a leading space, never two together, never more than one over the limit |
| `ScrollText.AppendAddsLetter` | cw-skimmer/gui/thresholdmorsewindow.cpp:1456-1498 | until it is trimmed the text gains exactly the letters not held back, in order |
| `ScrollText.ProtocolSpaceSays` | cw-skimmer/gui/thresholdmorsewindow.cpp:1103-1130 | a space is added exactly in front of a D behind CQ or behind a Q that stands alone, and in front of anything but a space behind DE |
| `ScrollText.EvenCallIsSetOff` | cw-skimmer/gui/thresholdmorsewindow.cpp:1103-1130 | CQDEW5 with even gaps is copied as CQ DE W5 |
| `ScrollText.SuppressedSays` | cw-skimmer/gui/thresholdmorsewindow.cpp:1465-1474 | a T or E is held back exactly if at least ten characters are remembered and four fifths of them are T or E |
| `ScrollText.RememberedSays` | cw-skimmer/gui/thresholdmorsewindow.cpp:1477-1480 | the last 24 characters are remembered in order |
| `ScrollText.TrimKeepsEnd` | cw-skimmer/gui/thresholdmorsewindow.cpp:1500-1512 | trimming keeps the end of the text |
| `ScrollText.HintSays` | cw-skimmer/gui/thresholdmorsewindow.cpp:1477-1492 | the hint of noise stays between 0 and 10 and rises where three quarters of at least eight characters are T or E |
| `ThresholdTexts.FindCode` | cw-skimmer/gui/thresholdmorsewindow.cpp:958-969 | the inner loop finds the longest code that fits |
| `ThresholdTexts.SplitGlued` | cw-skimmer/gui/thresholdmorsewindow.cpp:955-974 | the split of a glued pattern |
| `ThresholdTexts.PiecesCover` | cw-skimmer/gui/thresholdmorsewindow.cpp:955-974 | the codes of the pieces join to the pattern, and each is a code |
| `ThresholdTexts.SplitQuestions` | cw-skimmer/gui/thresholdmorsewindow.cpp:955-974 | a split yields a question mark if and only if the code of the question mark is one of its pieces |
| `ThresholdTexts.NoQuestionInside` | cw-skimmer/gui/thresholdmorsewindow.cpp:955-974 | no question mark comes where its code stands nowhere in the pattern |
| `ThresholdTexts.SplitCanYieldQuestion` | cw-skimmer/gui/thresholdmorsewindow.cpp:952-977 | a pattern whose split does yield one |
| `ThresholdTexts.ThresholdText.MaybeInsertProtocolSpace` | cw-skimmer/gui/thresholdmorsewindow.cpp:1103-1130 | the text becomes that of `WithProtocolSpace` |
| `ThresholdTexts.ThresholdText.TrimScrollBuffer` | cw-skimmer/gui/thresholdmorsewindow.cpp:1500-1512 | the text becomes that of `Trimmed` |
| `ThresholdTexts.ThresholdText.AppendChar` | cw-skimmer/gui/thresholdmorsewindow.cpp:1456-1498 | text, recent characters and spam count become those of `Appended` |
| `ThresholdTexts.ThresholdText.EmitOneLetter` | cw-skimmer/gui/thresholdmorsewindow.cpp:905-1013 | a letter that is not dropped has all its characters appended and its loudest peak noted; one that is dropped changes nothing |
| `ThresholdTexts.LettersAreKept` | cw-skimmer/gui/thresholdmorsewindow.cpp:918-1004 | only single marks are ever dropped, and of those only by their length or, before the speed is known, for being faint |
| `ThresholdTexts.ShortMarksDropped` | cw-skimmer/gui/thresholdmorsewindow.cpp:932-944 | a single mark of less than 15 ms, one of dah length below 100 ms and, at a known speed, one of dit length below 0.28 units are dropped |
| `ThresholdTexts.FaintMarksDropped` | cw-skimmer/gui/thresholdmorsewindow.cpp:981-1004 | a short faint dit is dropped, far below the marks before and barely above the threshold |
| `ThresholdTexts.LetterComesBack` | cw-skimmer/gui/thresholdmorsewindow.cpp:911-952 | marks that are dahs where the code of a letter or figure has them are emitted as that character |
| `ThresholdTexts.SignsComeBack` | cw-skimmer/gui/thresholdmorsewindow.cpp:1525-1560 | nine further signs come back from their codes |
| `ThresholdTexts.LoudestSays` | cw-skimmer/gui/thresholdmorsewindow.cpp:925-929 | the peak of a letter is the greatest of its marks |

## Left out

Numbers and foreign code:

- Floating point: all arithmetic is on exact reals and unbounded integers, without rounding, NaN or wrap-around; frame, sample and column counters never overflow.
- The sentinel -1e30 of the channel decoder is a separate minus infinity; the edges at 1e300 of a first or final window are weight 1.
- The neural model, its spectrogram and `dilate_log_probs` are one open function from a slice of audio to rows of scores, or to a failure; ONNX Runtime, metadata files, configuration, capture files and logging are not modelled.
- Sine, cosine, exponentials and logarithms are open functions; filter and window design, the Goertzel filter and the search for speed and threshold are not modelled.
- Widgets, painting, status lines, sliders and signals to the user interface.

DeepCW:

- StreamProof.StreamEqualsBatch: frame numbers stay below 2000000000, the limit the code itself uses for a final commit; blank and space differ, there is one space class, every class but blank has a character, and the word boundary is at least one frame. The shipped metadata meet this (CtcGreedy.ShippedIsUsable).
- DeepCwEngine.NoCoverageGap: for a model that leaves no frame of a slice out, and metadata with a hop and a transform of at most a second.
- DeepCwEngine.DecoderEqualsBatch: under the same two assumptions.
- Stitchers.Stitcher.ReadLabels: scores are read row by row; the code copies them into one flat vector first.
- Stitchers.Stitcher.AddWindow: the growing vectors are sequences, so reallocation and aliasing are not modelled.
- FrontEnd.Front.PitchLandsOnCenter: for complex samples; for real ones FrontEnd.Front.RealToneLands shows the mirror image beside it.
- DeepCwFronts.DeepCwFront.Process: `deepcw_front_reset` and the design of the filter are not modelled.
- The second radix-2 transform in deepcw_engine.cpp differs only in the sign of the angle.

Channel decoder:

- CwskDecoders.CwskDecoder.PushFrame: it takes the mark probability; baseband filter, envelope history and percentiles are not modelled.
- CwskDecoders.CwskDecoder.ViterbiFrame: the frame buffer stops at its cap; a failing allocation is not modelled.
- Segments.LengthsAddUp: about all runs of a path; the element table keeps the first 4096.
- FoldKeying.KeyedTextComesBack: densities and the logarithm are open functions; which lengths are likeliest under them is not modelled.
- Folding.RatiosKept: hazards are an open function of the log-means.

FFT:

- Fft.FftRadix2: the stage factors are powers of one root of unity; that cosf and sinf approximate them is not modelled.

Spectrum decoder and slices:

- SpectrumKeying.MeasuredTextComesBack: for even keying with a dit of at least one and a half columns, at least 20 ms, and dahs below 2.5 s; uneven runs are covered by SpectrumRuns.KeyedTextComesBack once the cuts are right.
- SpectrumPower.KeyedPowerIsCopied: up to the first sealing, at 4000 runs, and up to 8000 characters; sealing and cutting are covered by SpectrumDecoders.SealKeepsMeaning and SpectrumDecoders.SetTextSays.
- SpectrumDecoders.SpectrumDecoder.Publish: sealed text was decoded under earlier timings, so no single timing covers the whole text.
- SpectrumDecoders.SpectrumDecoder.FeedColumn: the noise floor is finite.
- MultiChannelDecoders.MultiChannelDecoder.ProcessSpectrumColumn: threshold and mask backends and the timed snapshot are not modelled; a channel has its decoder from the start, where the code creates it when the slice is first armed.
- SlotTracking.StaysInSlot: at a fixed span; the code tolerates a change of up to 1 Hz without freeing the slices, which moves the slot edges.

Ditdah:

- DitdahKeying.KeyedTextComesBack: two or more samples to the dit and a threshold that is not negative; every threshold the search offers is an interpolated quantile of positive powers.
- Ditdah.DecodeWithParams: the arguments are there; null pointers are not modelled.

Worker:

- WorkerProtocol.NextKeeps: one controlling thread. Two controllers stopping at once, metadata setters, `wait_idle` and `flush_decode` beside a decoding thread, and the result callback are outside the model. Waiting on the condition variable is a step that cannot be taken.

Highlighter and threshold text:

- CopyMarks.CwCopyMarks: upper case is that of ASCII letters; case conversions that change the length of other text are not modelled.
- ScrollText.AlwaysSpaced: from a clear state; adopting a text replaces it by any other.
- ThresholdTexts.ThresholdText.EmitOneLetter: it is given the marks of one letter; how marks and gaps are cut into letters, and the automatic speed and threshold, are not modelled.
