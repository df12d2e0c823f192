/** The streaming decoder as it runs: audio arrives in chunks of any size, the front of the buffer
    is dropped, and the state is always that of `DeepCwEngine.AfterSteps` on all samples so far. */
module DeepCwDecoders {
  import opened Options
  import opened Integers
  import opened CtcGreedy
  import opened Stitching
  import opened StreamProof
  import opened Stitchers
  import opened DeepCwEngine
  import F = FrameClock

  class DeepCwDecoder {
    const cfg: Config
    const stitcher: Stitcher
    var transcript: string
    var audio: seq<real>
    var audioOrigin: nat
    var nextEnd: nat
    var haveNext: bool
    var failed: bool
    ghost var fed: seq<real>
    ghost var steps: nat

    ghost function State(): Engine
      reads this, stitcher
    {
      Engine(Lanes(stitcher.State(), transcript), failed)
    }

    /** The retained audio is the end of all samples fed, and reaches back as far as any window
        to come may start. */
    ghost predicate Holds()
      reads this, stitcher
    {
      && cfg.Usable() && stitcher.cfg == cfg.StitchSettings() && stitcher.Valid()
      && audioOrigin <= |fed| && audio == fed[audioOrigin..]
      && audioOrigin <= cfg.clock.At(cfg.clock.ContextStart(stitcher.frozenEnd))
    }

    /** The state is a function of the samples fed so far and the number of steps made. */
    ghost predicate Valid()
      reads this, stitcher
    {
      && Holds()
      && State() == AfterSteps(cfg, fed, steps)
      && (haveNext ==> nextEnd == cfg.clock.EndOf(steps))
      && (!haveNext ==> fed == [] && steps == 0)
      && cfg.clock.SeenEnd(steps) <= |fed|
      && (0 < steps ==> cfg.clock.SeenEnd(steps) < |fed|)
    }

    /** Between calls, every step the samples allow has been made. */
    ghost predicate Idle()
      reads this, stitcher
    {
      Valid() && cfg.clock.Settled(steps, |fed|)
    }

    constructor (cfg: Config)
      requires cfg.Usable()
      ensures Idle() && fresh(stitcher) && this.cfg == cfg
      ensures fed == [] && steps == 0 && transcript == ""
    {
      this.cfg := cfg;
      stitcher := new Stitcher(cfg.StitchSettings(), cfg.clock.LeftContext());
      transcript, audio, audioOrigin, nextEnd, haveNext, failed := "", [], 0, 0, false, false;
      fed, steps := [], 0;
    }

    ghost function LanesNow(): Lanes
      reads this, stitcher
    {
      Lanes(stitcher.State(), transcript)
    }

    /** The transcript half of `run_window`. */
    method AppendPiece(committed: Option<LaneText>) returns (piece: string)
      modifies this`transcript
      ensures transcript == old(transcript) + piece == AppendTaken(old(transcript), committed)
    {
      piece := "";
      if committed.None? || committed.value.text == "" {
        return;
      }
      if committed.value.prependSpace && transcript != "" {
        piece := " ";
      }
      piece := piece + committed.value.text;
      assert transcript + piece == Append(transcript, committed.value);
      transcript := transcript + piece;
    }

    /** One window of score rows through the stitcher. */
    method StitchWindow(startFrame: nat, logits: seq<seq<real>>, isFinal: bool) returns (piece: string)
      requires stitcher.Valid() && LanesOk(stitcher.cfg, LanesNow()) && Matrix(logits, stitcher.cfg.al.classes)
      modifies this`transcript, stitcher
      ensures stitcher.Valid() && transcript == old(transcript) + piece && old(stitcher.frozenEnd) <= stitcher.frozenEnd
      ensures LanesNow() == StreamProof.RunWindow(stitcher.cfg, old(LanesNow()), Window(startFrame, logits), isFinal)
    {
      stitcher.AddWindow(startFrame, logits, isFinal);
      hide AppendTaken, Stitching.AddWindow, TakeText, TakenLane, LabelsOf, Matrix, Takes;
      assert isFinal ==> stitcher.frozenEnd == stitcher.coveredEnd by { FinalFreezes(stitcher.cfg, old(stitcher.State()), startFrame, logits); }
      var committed := stitcher.TakeText(isFinal);
      piece := AppendPiece(committed);
    }

    /** The spectrogram and model half of `run_window`. */
    method Infer(slice: seq<real>) returns (logits: Option<seq<seq<real>>>)
      ensures logits == RowsOf(cfg, slice)
    {
      logits := Some([]);
      if |slice| >= cfg.fftLength {
        logits := cfg.infer(slice);
      }
    }

    /** `run_window`. A window outside the retained buffer is refused; `refused` tells. */
    method RunWindow(startSample: nat, endSample: nat, isFinal: bool) returns (piece: string, bad: bool, refused: bool)
      requires Holds() && EngineOk(cfg, State())
      modifies this`transcript, stitcher
      ensures Holds() && transcript == old(transcript) + piece
      ensures refused <==> startSample < audioOrigin || |fed| < Max(startSample, endSample)
      ensures refused ==> bad && State() == old(State())
      ensures !refused ==>
                State().(failed := failed || bad)
                == RunSlice(cfg, old(State()), Frame(startSample), SliceOf(fed, startSample, endSample), isFinal)
    {
      hide Config.Usable, LanesStream, EngineOk, Stitcher.Valid, StreamProof.RunWindow, F.Clock.At, RowsOf, Matrix,
           F.Clock.FreezeGuard, F.Clock.Ok;
      ghost var before := State();
      EngineParts(cfg, before);
      piece, bad, refused := "", false, false;
      var startFrame := Frame(startSample);
      var end := if endSample < startSample then startSample else endSample;
      var sliceBegin, sliceEnd := startSample - audioOrigin, end - audioOrigin;
      if sliceBegin < 0 || sliceEnd > |audio| {
        bad, refused := true, true;
        return;
      }
      var slice := audio[sliceBegin..sliceEnd];
      assert slice == SliceOf(fed, startSample, endSample);
      var logits := Infer(slice);
      if logits.None? {
        bad := true;
        return;
      }
      ModelParts(cfg, slice);
      StreamOk(cfg, before);
      piece := StitchWindow(startFrame, logits.value, isFinal);
      F.ContextGrows(cfg.clock, Frozen(before), stitcher.frozenEnd);
    }

    /** `step`: never refused, because a window starts between what is kept and its own end. */
    method Step(endSample: nat, ghost end: nat) returns (piece: string, bad: bool, refused: bool)
      requires Holds() && EngineOk(cfg, State())
      requires EngineReach(cfg, State(), end) && end <= endSample <= |fed|
      modifies this`transcript, stitcher
      ensures !refused && Holds() && transcript == old(transcript) + piece
      ensures State().(failed := failed || bad) == DeepCwEngine.Step(cfg, old(State()), fed, endSample)
    {
      hide EngineOk, LanesStream, Config.Usable, Stitcher.Valid, F.Clock.At, F.Clock.WindowStart, F.Clock.ContextStart,
           RunSlice, F.Clock.Reach, SliceOf;
      EngineParts(cfg, State());
      StepReach(cfg, State(), fed, end, endSample);
      var startFrame := cfg.clock.WindowStart(stitcher.frozenEnd, endSample);
      F.FrameOf(cfg.clock, startFrame);
      var startSample := cfg.clock.At(startFrame);
      piece, bad, refused := RunWindow(startSample, endSample, false);
    }

    method DropAudioBefore(sample: nat)
      requires Holds() && sample <= cfg.clock.At(cfg.clock.ContextStart(stitcher.frozenEnd))
      modifies this`audio, this`audioOrigin
      ensures Holds()
    {
      hide F.Clock.At, F.Clock.ContextStart, Stitcher.Valid;
      if sample <= audioOrigin {
        return;
      }
      var drop := Min(sample - audioOrigin, |audio|);
      assert audio[drop..] == fed[audioOrigin + drop..];
      audio := audio[drop..];
      audioOrigin := audioOrigin + drop;
    }

    method Feed(samples: seq<real>)
      requires Valid()
      modifies this`audio, this`fed, this`haveNext, this`nextEnd
      ensures Valid() && fed == old(fed) + samples && haveNext
    {
      hide EngineOk, LanesStream, Config.Usable, Stitcher.Valid, F.Clock.At, F.Clock.ContextStart, AfterSteps;
      StepsLocal(cfg, fed, samples, steps);
      assert (fed + samples)[audioOrigin..] == audio + samples;
      audio := audio + samples;
      fed := fed + samples;
      if !haveNext {
        nextEnd := cfg.clock.MinPending();
        haveNext := true;
      }
    }

    /** One round of the loop in `deepcw_decoder_process`. */
    method StepOnce() returns (piece: string)
      requires Valid() && haveNext && nextEnd < |fed|
      modifies this`transcript, this`failed, this`nextEnd, this`audio, this`audioOrigin, this`steps, stitcher
      ensures Valid() && steps == old(steps) + 1 && nextEnd == old(nextEnd) + cfg.clock.StepSamples()
      ensures transcript == old(transcript) + piece
    {
      hide LanesStream, Config.Usable, Stitcher.Valid, F.Clock.At, F.Clock.ContextStart, AfterSteps, EngineReach,
           DeepCwEngine.Step, F.Clock.Settled;
      StepsReach(cfg, fed, steps);
      F.EndsGrow(cfg.clock, steps);
      AfterStep(cfg, fed, steps + 1);
      NextEndOf(cfg.clock, steps);
      var bad, refused;
      piece, bad, refused := Step(nextEnd, cfg.clock.SeenEnd(steps));
      failed := failed || bad;
      nextEnd := nextEnd + cfg.clock.StepSamples();
      steps := steps + 1;
      EngineParts(cfg, State());
      var keep := cfg.clock.At(cfg.clock.ContextStart(stitcher.frozenEnd));
      DropAudioBefore(keep);
    }

    /** `deepcw_decoder_process`. Whatever the chunks were, the state afterwards is that of all
        steps the samples fed so far allow, and the new text is what the transcript gained. */
    method Process(samples: seq<real>) returns (newly: string)
      requires Idle()
      modifies this, stitcher
      ensures Idle() && fed == old(fed) + samples && transcript == old(transcript) + newly
    {
      newly := "";
      if |samples| <= 0 {
        return;
      }
      Feed(samples);
      newly := CatchUp();
    }

    /** The loop of `deepcw_decoder_process`. */
    method CatchUp() returns (newly: string)
      requires Valid() && haveNext
      modifies this`transcript, this`failed, this`nextEnd, this`audio, this`audioOrigin, this`steps, stitcher
      ensures Valid() && transcript == old(transcript) + newly
      ensures cfg.clock.Settled(steps, |fed|)
    {
      hide EngineOk, LanesStream, Config.Usable, Stitcher.Valid, F.Clock.At, F.Clock.ContextStart, AfterSteps, F.Clock.EndOf,
           F.Clock.SeenEnd;
      newly := "";
      Lengths();
      while nextEnd < audioOrigin + |audio|
        invariant Valid() && haveNext && audioOrigin + |audio| == |fed|
        invariant transcript == old(transcript) + newly
        decreases |fed| - nextEnd
      {
        var piece := StepOnce();
        newly := newly + piece;
        Lengths();
      }
    }

    lemma Lengths()
      requires Valid()
      ensures audioOrigin + |audio| == |fed| && 0 < cfg.clock.StepSamples()
    {
    }

    /** One pass of `deepcw_decoder_finish`; its window is never refused either. */
    method FinishPass(ghost guard: nat) returns (piece: string, isFinal: bool, refused: bool)
      requires Holds() && EngineOk(cfg, State()) && EngineReach(cfg, State(), |fed|) && guard < 64
      modifies this`transcript, this`failed, stitcher
      ensures !refused && Holds() && transcript == old(transcript) + piece
      ensures isFinal ==> State() == FinishFrom(cfg, old(State()), fed, guard)
      ensures !isFinal ==> EngineOk(cfg, State()) && EngineReach(cfg, State(), |fed|)
                           && FinishFrom(cfg, State(), fed, guard + 1) == FinishFrom(cfg, old(State()), fed, guard)
    {
      hide EngineOk, LanesStream, Config.Usable, Stitcher.Valid, F.Clock.At, F.Clock.ContextStart, RunSlice, EngineReach;
      ghost var before := State();
      EngineParts(cfg, before);
      StepReach(cfg, before, fed, |fed|, |fed|);
      var startFrame := cfg.clock.ContextStart(stitcher.frozenEnd);
      F.FrameOf(cfg.clock, startFrame);
      var startSample := cfg.clock.At(startFrame);
      var endSample := startSample + cfg.clock.MaxSegment();
      if endSample > audioOrigin + |audio| {
        endSample := audioOrigin + |audio|;
      }
      isFinal := endSample >= audioOrigin + |audio|;
      var bad;
      piece, bad, refused := RunWindow(startSample, endSample, isFinal);
      failed := failed || bad;
      if !isFinal {
        SliceReach(cfg, before, startFrame, SliceOf(fed, startSample, endSample), |fed|, |fed|);
      }
    }

    /** `deepcw_decoder_finish`: at most 64 passes. With a model that leaves no frame out the
        first pass is final, and the transcript is one greedy decode of all final scores. */
    method Finish() returns (newly: string)
      requires Idle()
      modifies this`transcript, this`failed, stitcher
      ensures transcript == old(transcript) + newly
      ensures State() == FinishFrom(cfg, old(State()), fed, 0)
      ensures cfg.Complete() && |fed| + 1 < FINAL_LIMIT ==>
                && Rows(stitcher.rows, cfg.al.classes)
                && AllSeen(stitcher.rows)
                && transcript == BatchText(cfg.al, LabelsOf(cfg.al, stitcher.rows))
    {
      hide *;
      IdleParts();
      if cfg.Complete() && |fed| + 1 < FINAL_LIMIT {
        IdleSteps();
        DecoderEqualsBatch(cfg, fed, steps);
      }
      newly := FinishPasses();
      StateParts();
    }

    method FinishPasses() returns (newly: string)
      requires Holds() && EngineOk(cfg, State()) && EngineReach(cfg, State(), |fed|)
      modifies this`transcript, this`failed, stitcher
      ensures transcript == old(transcript) + newly
      ensures State() == FinishFrom(cfg, old(State()), fed, 0)
    {
      hide *;
      newly := "";
      var guard := 0;
      while guard < 64
        invariant 0 <= guard <= 64
        invariant Holds() && EngineOk(cfg, State()) && EngineReach(cfg, State(), |fed|)
        invariant FinishFrom(cfg, State(), fed, guard) == FinishFrom(cfg, old(State()), fed, 0)
        invariant transcript == old(transcript) + newly
      {
        var piece, isFinal, refused := FinishPass(guard);
        newly := newly + piece;
        if isFinal {
          return;
        }
        guard := guard + 1;
      }
      NoPassLeft(cfg, State(), fed);
    }

    lemma StateParts()
      ensures State().lanes.stitch.rows == stitcher.rows && State().lanes.transcript == transcript
    {
    }

    lemma IdleSteps()
      requires Idle()
      ensures cfg.Usable() && State() == AfterSteps(cfg, fed, steps) && cfg.clock.Settled(steps, |fed|)
    {
      hide Config.Usable, Stitcher.Valid, AfterSteps, F.Clock.Settled;
    }

    lemma IdleParts()
      requires Idle()
      ensures Holds() && EngineOk(cfg, State()) && EngineReach(cfg, State(), |fed|)
    {
      hide EngineOk, LanesStream, F.Clock.At, F.Clock.ContextStart, F.Clock.Settled, Config.Usable;
      StepsReach(cfg, fed, steps);
    }

    function Frame(sample: nat): nat
    {
      if 0 < cfg.clock.hop then sample / cfg.clock.hop else 0
    }
  }

  /** Chunk independence: two decoders that were fed the same samples, in whatever chunks, are in
      the same state and have produced the same text. */
  lemma ChunkIndependence(a: DeepCwDecoder, b: DeepCwDecoder)
    requires a.Idle() && b.Idle() && a.cfg == b.cfg && a.fed == b.fed
    ensures a.State() == b.State() && a.steps == b.steps && a.transcript == b.transcript
  {
    a.IdleSteps();
    b.IdleSteps();
    F.SettledUnique(a.cfg.clock, a.steps, b.steps, |a.fed|);
    a.StateParts();
    b.StateParts();
  }

  lemma NoPassLeft(cfg: Config, e: Engine, audio: seq<real>)
    requires EngineOk(cfg, e)
    ensures FinishFrom(cfg, e, audio, 64) == e
  {
    hide EngineOk;
  }

  lemma NextEndOf(k: F.Clock, n: nat)
    ensures k.EndOf(n + 1) == k.EndOf(n) + k.StepSamples()
    ensures k.SeenEnd(n + 1) == k.EndOf(n)
  {
    F.Scale(n, 1, k.StepSamples());
  }

  lemma StreamOk(cfg: Config, e: Engine)
    requires EngineOk(cfg, e) && cfg.clock.Ok()
    ensures LanesOk(cfg.StitchSettings(), e.lanes)
  {
    hide Streams, LanesOk;
  }

  lemma FinalFreezes(cfg: Settings, s: Stitch, start: nat, logProbs: seq<seq<real>>)
    requires cfg.Usable() && Rows(s.rows, cfg.al.classes) && Matrix(logProbs, cfg.al.classes)
    ensures AddWindow(cfg, s, start, logProbs, true).edge.frozen == |AddWindow(cfg, s, start, logProbs, true).rows|
  {
  }
}
