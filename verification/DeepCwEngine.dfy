/** The streaming decoder around the stitcher: audio arrives in chunks, windows are cut from a
    buffer whose front is dropped, and the model (an arbitrary function from a slice of audio
    to score rows) sees each window once.

    `AfterSteps` says what the decoder has to have done after some number of steps as a function
    of all samples together; the class in DeepCwDecoder.dfy refines it whatever the chunks were. */
module DeepCwEngine {
  import opened Options
  import opened Integers
  import opened CtcGreedy
  import opened Stitching
  import opened StreamProof
  import F = FrameClock

  type Matrices = seq<real> -> Option<seq<seq<real>>>

  /** `infer` is the model together with the spectrogram in front of it and the dilation behind
      it; it may fail. */
  datatype Config = Config(al: Alphabet, clock: F.Clock, fftLength: nat, infer: Matrices) {

    function StitchSettings(): Settings
      requires clock.Ok()
    {
      Settings(al, clock.sampleRate as real / clock.hop as real, clock.FreezeGuard())
    }

    /** The model's rows have one score per class and come at most one per hop. */
    ghost predicate Usable() {
      && al.Usable() && clock.Ok()
      && (forall a :: infer(a).Some? ==>
            Matrix(infer(a).value, al.classes) && clock.AtMost(|infer(a).value|, |a|))
    }

    /** A model that never fails and leaves no frame out, behind an FFT of at most a second. */
    ghost predicate Complete() {
      && Usable() && fftLength <= clock.sampleRate
      && (forall a :: fftLength <= |a| ==> infer(a).Some? && clock.AtLeast(|infer(a).value|, |a|))
    }
  }

  /** 3200 samples a second, one row of scores for two hops of 48 samples, transforms of 256. */
  function Shipped(infer: Matrices): Config {
    Config(SHIPPED, F.Clock(3200, 96), 256, infer)
  }

  /** Rows of 42 scores, at most one per 96 samples and one more. */
  ghost predicate ShippedRows(infer: Matrices) {
    forall a :: infer(a).Some? ==> Matrix(infer(a).value, 42) && |infer(a).value| <= |a| / 96 + 1
  }

  /** No failure, and no frame of a slice left out. */
  ghost predicate ShippedFrames(infer: Matrices) {
    forall a :: 256 <= |a| ==> infer(a).Some? && |a| / 96 <= |infer(a).value|
  }

  /** With the shipped metadata all that is asked is the frame count of the model. */
  lemma ShippedModel(infer: Matrices)
    ensures ShippedRows(infer) ==> Shipped(infer).Usable()
    ensures ShippedRows(infer) && ShippedFrames(infer) ==> Shipped(infer).Complete()
  {
    hide Alphabet.Usable, Matrix;
    ShippedIsUsable();
  }

  // ---------------------------------------------------------------- what one step means

  datatype Engine = Engine(lanes: Lanes, failed: bool)

  const FRESH := Engine(Lanes(EMPTY, ""), false)

  ghost predicate EngineOk(cfg: Config, e: Engine) {
    cfg.Usable() && LanesStream(cfg.StitchSettings(), e.lanes)
  }

  ghost function Frozen(e: Engine): nat {
    e.lanes.stitch.edge.frozen
  }

  ghost function RowCount(e: Engine): nat {
    |e.lanes.stitch.rows|
  }

  /** What the model makes of a slice; slices shorter than the FFT are not shown to it. */
  function RowsOf(cfg: Config, slice: seq<real>): Option<seq<seq<real>>> {
    if cfg.fftLength <= |slice| then cfg.infer(slice) else Some([])
  }

  /** `run_window` on a slice of audio. */
  ghost function RunSlice(cfg: Config, e: Engine, startFrame: nat, slice: seq<real>, isFinal: bool): (after: Engine)
    requires EngineOk(cfg, e)
    ensures !isFinal ==> EngineOk(cfg, after)
  {
    var rows := RowsOf(cfg, slice);
    if rows.None? then e.(failed := true)
    else
      RunWindowStreams(cfg.StitchSettings(), e.lanes, Window(startFrame, rows.value));
      e.(lanes := RunWindow(cfg.StitchSettings(), e.lanes, Window(startFrame, rows.value), isFinal))
  }

  /** The part of the audio a window sees; an end before its start makes it empty. */
  ghost function SliceOf(audio: seq<real>, start: int, end: int): (slice: seq<real>)
    ensures 0 <= start <= end <= |audio| ==> |slice| == end - start
  {
    if 0 <= start <= end <= |audio| then audio[start..end] else []
  }

  ghost function Step(cfg: Config, e: Engine, audio: seq<real>, endSample: nat): (after: Engine)
    requires EngineOk(cfg, e)
    ensures EngineOk(cfg, after)
  {
    var start := cfg.clock.WindowStart(Frozen(e), endSample);
    RunSlice(cfg, e, start, SliceOf(audio, cfg.clock.At(start), endSample), false)
  }

  /** The decoder after `n` steps on this audio. */
  ghost function AfterSteps(cfg: Config, audio: seq<real>, n: nat): (e: Engine)
    requires cfg.Usable()
    ensures EngineOk(cfg, e)
  {
    if n == 0 then StartStreams(cfg.StitchSettings()); FRESH
    else Step(cfg, AfterSteps(cfg, audio, n - 1), audio, cfg.clock.EndOf(n - 1))
  }

  lemma AfterNone(cfg: Config, audio: seq<real>)
    requires cfg.Usable()
    ensures AfterSteps(cfg, audio, 0) == FRESH && RowCount(FRESH) == 0 == Frozen(FRESH)
  {
  }

  lemma AfterStep(cfg: Config, audio: seq<real>, n: nat)
    requires cfg.Usable() && 0 < n
    ensures AfterSteps(cfg, audio, n) == Step(cfg, AfterSteps(cfg, audio, n - 1), audio, cfg.clock.EndOf(n - 1))
    ensures cfg.clock.SeenEnd(n) == cfg.clock.EndOf(n - 1)
  {
    hide Step;
  }

  lemma EngineParts(cfg: Config, e: Engine)
    requires EngineOk(cfg, e)
    ensures cfg.Usable() && cfg.clock.Ok() && cfg.StitchSettings().Usable()
    ensures Rows(e.lanes.stitch.rows, cfg.al.classes)
    ensures Frozen(e) <= RowCount(e)
  {
    hide Streams;
  }

  lemma ModelParts(cfg: Config, slice: seq<real>)
    requires cfg.Usable() && RowsOf(cfg, slice).Some?
    ensures cfg.clock.Ok() && Matrix(RowsOf(cfg, slice).value, cfg.al.classes)
    ensures |RowsOf(cfg, slice).value| == 0 || cfg.clock.AtMost(|RowsOf(cfg, slice).value|, |slice|)
  {
  }

  lemma CompleteParts(cfg: Config, slice: seq<real>)
    requires cfg.Complete()
    ensures cfg.clock.Ok() && RowsOf(cfg, slice).Some?
    ensures cfg.clock.sampleRate <= |slice| ==> cfg.clock.AtLeast(|RowsOf(cfg, slice).value|, |slice|)
  {
  }

  // ---------------------------------------------------------------- how far windows reach

  lemma TakeKeepsFrozen(cfg: Config, e: Engine, startFrame: nat, logProbs: seq<seq<real>>, isFinal: bool)
    requires EngineOk(cfg, e) && Matrix(logProbs, cfg.al.classes)
    ensures cfg.clock.Ok() && cfg.StitchSettings().Usable() && Rows(e.lanes.stitch.rows, cfg.al.classes)
    ensures var s := AddWindow(cfg.StitchSettings(), e.lanes.stitch, startFrame, logProbs, isFinal);
            var t := RunWindow(cfg.StitchSettings(), e.lanes, Window(startFrame, logProbs), isFinal).stitch;
            t.rows == s.rows && t.edge.frozen == s.edge.frozen
  {
    hide AddWindow, Seen, LabelsOf, TakeCount, Release, ReleaseEnd;
  }

  lemma AddWindowFrames(cfg: Settings, s: Stitch, start: nat, logProbs: seq<seq<real>>)
    requires cfg.Usable() && Rows(s.rows, cfg.al.classes) && Matrix(logProbs, cfg.al.classes)
    ensures var t := AddWindow(cfg, s, start, logProbs, false);
            if |logProbs| == 0 then t == s
            else && |t.rows| == Max(|s.rows|, start + |logProbs|)
                 && t.edge.frozen == Max(s.edge.frozen, start + |logProbs| - cfg.freezeGuard)
  {
    hide NewRow, Settings.Usable;
  }

  /** The frame and edge numbers after a window that is not final. */
  lemma RunSliceFrames(cfg: Config, e: Engine, startFrame: nat, slice: seq<real>)
    requires EngineOk(cfg, e)
    ensures cfg.clock.Ok()
    ensures var f, rows := RunSlice(cfg, e, startFrame, slice, false), RowsOf(cfg, slice);
            if rows.None? || |rows.value| == 0 then RowCount(f) == RowCount(e) && Frozen(f) == Frozen(e)
            else && RowCount(f) == Max(RowCount(e), startFrame + |rows.value|)
                 && Frozen(f) == Max(Frozen(e), startFrame + |rows.value| - cfg.clock.FreezeGuard())
  {
    hide Config.Usable, LanesStream, EngineOk, AddWindow, RunWindow, F.Clock.FreezeGuard, Matrix, Rows, Settings.Usable,
         RowsOf, F.Clock.Ok;
    EngineParts(cfg, e);
    var rows := RowsOf(cfg, slice);
    if rows.Some? {
      ModelParts(cfg, slice);
      TakeKeepsFrozen(cfg, e, startFrame, rows.value, false);
      AddWindowFrames(cfg.StitchSettings(), e.lanes.stitch, startFrame, rows.value);
    }
  }

  ghost predicate EngineReach(cfg: Config, e: Engine, end: int) {
    cfg.clock.Reach(RowCount(e), end)
  }

  lemma StepReach(cfg: Config, e: Engine, audio: seq<real>, end: nat, next: nat)
    requires EngineOk(cfg, e) && EngineReach(cfg, e, end) && end <= next
    ensures cfg.clock.Ok()
    ensures 0 <= cfg.clock.At(cfg.clock.ContextStart(Frozen(e))) <= end
    ensures cfg.clock.At(cfg.clock.ContextStart(Frozen(e))) <= cfg.clock.At(cfg.clock.WindowStart(Frozen(e), next)) <= next
    ensures EngineReach(cfg, Step(cfg, e, audio, next), next)
  {
    EngineParts(cfg, e);
    hide EngineOk, F.Clock.Reach, F.Clock.At, F.Clock.WindowStart, F.Clock.ContextStart, Config.Usable;
    F.StartBound(cfg.clock, RowCount(e), Frozen(e), end, next);
    var start := cfg.clock.WindowStart(Frozen(e), next);
    SliceReach(cfg, e, start, SliceOf(audio, cfg.clock.At(start), next), end, next);
  }

  lemma SliceReach(cfg: Config, e: Engine, start: nat, slice: seq<real>, end: nat, next: nat)
    requires EngineOk(cfg, e) && EngineReach(cfg, e, end) && end <= next
    requires cfg.clock.At(start) + |slice| <= next
    ensures EngineReach(cfg, RunSlice(cfg, e, start, slice, false), next)
  {
    hide EngineOk, F.Clock.Reach, F.Clock.At, Config.Usable, F.Clock.AtMost, RunSlice, RowsOf, RowCount, F.Clock.FreezeGuard,
         F.Clock.Ok;
    EngineParts(cfg, e);
    RunSliceFrames(cfg, e, start, slice);
    var rows := RowsOf(cfg, slice);
    if rows.Some? { ModelParts(cfg, slice); }
    F.GrowReach(cfg.clock, RowCount(e), end, next, start, |slice|, if rows.Some? then |rows.value| else 0);
  }

  lemma {:induction false} StepsReach(cfg: Config, audio: seq<real>, n: nat)
    requires cfg.Usable()
    ensures EngineReach(cfg, AfterSteps(cfg, audio, n), cfg.clock.SeenEnd(n))
  {
    hide *;
    if n > 0 {
      AfterStep(cfg, audio, n);
      StepsReach(cfg, audio, n - 1);
      F.EndsGrow(cfg.clock, n - 1);
      StepReach(cfg, AfterSteps(cfg, audio, n - 1), audio, cfg.clock.SeenEnd(n - 1), cfg.clock.EndOf(n - 1));
    } else {
      FreshReach(cfg, audio);
    }
  }

  lemma FreshReach(cfg: Config, audio: seq<real>)
    requires cfg.Usable()
    ensures EngineReach(cfg, AfterSteps(cfg, audio, 0), cfg.clock.SeenEnd(0))
  {
    AfterNone(cfg, audio);
    hide AfterSteps, Config.Usable;
  }

  /** Steps only see the audio in front of their ends, so what arrives later cannot matter. */
  lemma {:induction false} StepsLocal(cfg: Config, audio: seq<real>, more: seq<real>, n: nat)
    requires cfg.Usable() && cfg.clock.SeenEnd(n) <= |audio|
    ensures AfterSteps(cfg, audio, n) == AfterSteps(cfg, audio + more, n)
  {
    hide *;
    if n > 0 {
      F.EndsGrow(cfg.clock, n - 1);
      AfterStep(cfg, audio, n);
      AfterStep(cfg, audio + more, n);
      Positive(cfg.clock);
      StepsLocal(cfg, audio, more, n - 1);
      StepsReach(cfg, audio, n - 1);
      StepLocal(cfg, AfterSteps(cfg, audio, n - 1), audio, more, cfg.clock.EndOf(n - 1));
    } else {
      AfterNone(cfg, audio);
      AfterNone(cfg, audio + more);
    }
  }

  lemma Positive(k: F.Clock)
    ensures 0 <= k.StepSamples()
  {
  }

  lemma StepLocal(cfg: Config, e: Engine, audio: seq<real>, more: seq<real>, end: nat)
    requires EngineOk(cfg, e) && end <= |audio|
    ensures Step(cfg, e, audio, end) == Step(cfg, e, audio + more, end)
  {
    EngineParts(cfg, e);
    hide EngineOk, RunSlice, F.Clock.At, F.Clock.WindowStart;
    var start := cfg.clock.At(cfg.clock.WindowStart(Frozen(e), end));
    assert SliceOf(audio, start, end) == SliceOf(audio + more, start, end);
  }

  // ---------------------------------------------------------------- no gap in the coverage

  /** Every frame has been seen by some window. */
  ghost predicate AllSeen(rows: seq<Acc>) {
    forall i :: 0 <= i < |rows| ==> 0.0 < rows[i].weight
  }

  lemma AddWindowSeen(cfg: Settings, s: Stitch, start: nat, logProbs: seq<seq<real>>, isFinal: bool)
    requires cfg.Usable() && Rows(s.rows, cfg.al.classes) && Matrix(logProbs, cfg.al.classes)
    requires start <= s.edge.frozen <= |s.rows| && AllSeen(s.rows)
    ensures AllSeen(AddWindow(cfg, s, start, logProbs, isFinal).rows)
  {
  }

  ghost predicate KeepsUp(cfg: Config, e: Engine, end: int)
    requires cfg.clock.Ok()
  {
    AllSeen(e.lanes.stitch.rows) && cfg.clock.Follows(RowCount(e), Frozen(e), end)
  }

  lemma SliceSeen(cfg: Config, e: Engine, start: nat, slice: seq<real>, isFinal: bool)
    requires EngineOk(cfg, e) && AllSeen(e.lanes.stitch.rows) && start <= Frozen(e)
    ensures AllSeen(RunSlice(cfg, e, start, slice, isFinal).lanes.stitch.rows)
  {
    EngineParts(cfg, e);
    var rows := RowsOf(cfg, slice);
    if rows.Some? {
      ModelParts(cfg, slice);
      hide Config.Usable, LanesStream, AddWindow, RunWindow, F.RoundDiv, Matrix, Rows, AllSeen;
      TakeKeepsFrozen(cfg, e, start, rows.value, isFinal);
      AddWindowSeen(cfg.StitchSettings(), e.lanes.stitch, start, rows.value, isFinal);
    }
  }

  /** One step of a complete model: its window starts at or before the frozen edge, so no frame
      is left without weight, and the frozen edge keeps up. */
  lemma StepKeepsUp(cfg: Config, e: Engine, audio: seq<real>, end: nat, next: nat)
    requires cfg.Complete() && EngineOk(cfg, e) && cfg.clock.Ok()
    requires EngineReach(cfg, e, end) && KeepsUp(cfg, e, end)
    requires end + cfg.clock.StepSamples() <= next <= end + cfg.clock.MinPending() && next <= |audio|
    ensures cfg.clock.WindowStart(Frozen(e), next) <= Frozen(e)
    ensures KeepsUp(cfg, Step(cfg, e, audio, next), next)
  {
    hide Config.Complete, EngineOk, F.Clock.Follows, F.Clock.Reach, F.Clock.At, F.Clock.WindowStart, F.Clock.ContextStart,
         AllSeen;
    F.NextWindow(cfg.clock, RowCount(e), Frozen(e), end, next);
    StepReach(cfg, e, audio, end, next);
    var start := cfg.clock.WindowStart(Frozen(e), next);
    SliceKeepsUp(cfg, e, start, SliceOf(audio, cfg.clock.At(start), next), end, next);
  }

  lemma SliceKeepsUp(cfg: Config, e: Engine, start: nat, slice: seq<real>, end: nat, next: nat)
    requires cfg.Complete() && EngineOk(cfg, e) && cfg.clock.Ok() && KeepsUp(cfg, e, end)
    requires start <= Frozen(e) && cfg.clock.sampleRate <= |slice| == next - cfg.clock.At(start)
    ensures KeepsUp(cfg, RunSlice(cfg, e, start, slice, false), next)
  {
    hide Config.Complete, EngineOk, F.Clock.Follows, F.Clock.At, F.Clock.AtLeast, AllSeen, RunSlice, RowsOf,
         F.Clock.FreezeGuard, Frozen, RowCount, F.Clock.Ok;
    CompleteParts(cfg, slice);
    FollowsParts(cfg.clock, RowCount(e), Frozen(e), end);
    SliceSeen(cfg, e, start, slice, false);
    RunSliceFrames(cfg, e, start, slice);
    F.GrowFollows(cfg.clock, RowCount(e), Frozen(e), next, start, |slice|, |RowsOf(cfg, slice).value|);
  }

  lemma FollowsParts(k: F.Clock, rows: nat, frozen: nat, end: int)
    requires k.Ok() && k.Follows(rows, frozen, end)
    ensures frozen == 0 || frozen + k.FreezeGuard() <= rows
  {
    hide F.Clock.FreezeGuard, F.Clock.At;
  }

  /** No coverage gap: after any number of steps every frame has positive weight, and the next
      window starts at or before the frozen edge. */
  lemma {:induction false} NoCoverageGap(cfg: Config, audio: seq<real>, n: nat)
    requires cfg.Complete() && cfg.clock.SeenEnd(n) <= |audio|
    ensures cfg.Usable() && cfg.clock.Ok() && KeepsUp(cfg, AfterSteps(cfg, audio, n), cfg.clock.SeenEnd(n))
    ensures AllSeen(AfterSteps(cfg, audio, n).lanes.stitch.rows)
    ensures cfg.clock.WindowStart(Frozen(AfterSteps(cfg, audio, n)), cfg.clock.EndOf(n)) <= Frozen(AfterSteps(cfg, audio, n))
  {
    hide *;
    CompleteUsable(cfg);
    if n > 0 {
      F.EndsGrow(cfg.clock, n - 1);
      AfterStep(cfg, audio, n);
      Positive(cfg.clock);
      NoCoverageGap(cfg, audio, n - 1);
      NextKeepsUp(cfg, audio, n);
    } else {
      FreshKeepsUp(cfg, audio);
    }
    F.EndsGrow(cfg.clock, n);
    StepsReach(cfg, audio, n);
    NextStart(cfg, AfterSteps(cfg, audio, n), cfg.clock.SeenEnd(n), cfg.clock.EndOf(n));
  }

  lemma CompleteUsable(cfg: Config)
    requires cfg.Complete()
    ensures cfg.Usable() && cfg.clock.Ok()
  {
  }

  lemma NextKeepsUp(cfg: Config, audio: seq<real>, n: nat)
    requires cfg.Complete() && cfg.Usable() && cfg.clock.Ok() && 0 < n && cfg.clock.SeenEnd(n) <= |audio|
    requires KeepsUp(cfg, AfterSteps(cfg, audio, n - 1), cfg.clock.SeenEnd(n - 1))
    ensures KeepsUp(cfg, AfterSteps(cfg, audio, n), cfg.clock.SeenEnd(n))
  {
    hide *;
    AfterStep(cfg, audio, n);
    F.EndsGrow(cfg.clock, n - 1);
    StepsReach(cfg, audio, n - 1);
    StepKeepsUp(cfg, AfterSteps(cfg, audio, n - 1), audio, cfg.clock.SeenEnd(n - 1), cfg.clock.EndOf(n - 1));
  }

  lemma NextStart(cfg: Config, e: Engine, end: nat, next: nat)
    requires cfg.clock.Ok() && EngineReach(cfg, e, end) && KeepsUp(cfg, e, end)
    requires end + cfg.clock.StepSamples() <= next <= end + cfg.clock.MinPending()
    ensures cfg.clock.WindowStart(Frozen(e), next) <= Frozen(e)
    ensures AllSeen(e.lanes.stitch.rows)
  {
    hide F.Clock.Follows, F.Clock.Reach, F.Clock.At, F.Clock.WindowStart, AllSeen;
    F.NextWindow(cfg.clock, RowCount(e), Frozen(e), end, next);
  }

  lemma FreshKeepsUp(cfg: Config, audio: seq<real>)
    requires cfg.Usable() && cfg.clock.Ok()
    ensures KeepsUp(cfg, AfterSteps(cfg, audio, 0), cfg.clock.SeenEnd(0))
  {
    AfterNone(cfg, audio);
    hide AfterSteps, Config.Usable, F.Clock.Follows;
    F.FollowsFromStart(cfg.clock);
  }

  // ---------------------------------------------------------------- finishing

  /** The passes of `deepcw_decoder_finish`, the first of them number `guard`. */
  ghost function FinishFrom(cfg: Config, e: Engine, audio: seq<real>, guard: nat): Engine
    requires EngineOk(cfg, e) && guard <= 64
    decreases 64 - guard
  {
    if guard == 64 then e
    else
      var start, end := cfg.clock.ContextStart(Frozen(e)), cfg.clock.FinishEnd(Frozen(e), |audio|);
      var after := RunSlice(cfg, e, start, SliceOf(audio, cfg.clock.At(start), end), end >= |audio|);
      if end >= |audio| then after else FinishFrom(cfg, after, audio, guard + 1)
  }

  lemma OnePass(cfg: Config, e: Engine, audio: seq<real>)
    requires EngineOk(cfg, e) && cfg.clock.Ok() && cfg.clock.FinishEnd(Frozen(e), |audio|) == |audio|
    ensures var start := cfg.clock.ContextStart(Frozen(e));
            FinishFrom(cfg, e, audio, 0) == RunSlice(cfg, e, start, SliceOf(audio, cfg.clock.At(start), |audio|), true)
  {
    hide RunSlice, EngineOk, SliceOf, F.Clock.ContextStart, F.Clock.FinishEnd;
  }

  lemma SettledEnd(k: F.Clock, n: nat, length: nat)
    requires k.Settled(n, length)
    ensures k.SeenEnd(n) <= length <= k.SeenEnd(n) + k.MinPending()
  {
    F.EndsGrow(k, n);
  }

  /** The first pass of finishing is already the final one, so the bound of 64 passes is never
      reached; and its window starts at or before the frozen edge. */
  lemma FinishIsOnePass(cfg: Config, audio: seq<real>, n: nat)
    requires cfg.Complete() && cfg.clock.Settled(n, |audio|)
    ensures cfg.Usable() && cfg.clock.Ok()
    ensures var e := AfterSteps(cfg, audio, n);
            var start := cfg.clock.ContextStart(Frozen(e));
            && start <= Frozen(e)
            && cfg.clock.FinishEnd(Frozen(e), |audio|) == |audio|
            && FinishFrom(cfg, e, audio, 0) == RunSlice(cfg, e, start, SliceOf(audio, cfg.clock.At(start), |audio|), true)
  {
    hide *;
    SettledEnd(cfg.clock, n, |audio|);
    NoCoverageGap(cfg, audio, n);
    FinishStart(cfg, AfterSteps(cfg, audio, n), cfg.clock.SeenEnd(n), |audio|);
    OnePass(cfg, AfterSteps(cfg, audio, n), audio);
  }

  lemma FinishStart(cfg: Config, e: Engine, end: nat, length: nat)
    requires cfg.clock.Ok() && KeepsUp(cfg, e, end) && length <= end + cfg.clock.MinPending()
    ensures cfg.clock.ContextStart(Frozen(e)) <= Frozen(e)
    ensures cfg.clock.FinishEnd(Frozen(e), length) == length
  {
    hide F.Clock.ContextStart, F.Clock.FinishEnd, F.Clock.Follows, F.Clock.Ok, AllSeen;
    F.FinishReaches(cfg.clock, RowCount(e), Frozen(e), end, length);
  }

  /** From the first sample to the end: the transcript of the finished decoder is one greedy
      decode of all final scores, and every one of those frames was seen by a window. */
  lemma DecoderEqualsBatch(cfg: Config, audio: seq<real>, n: nat)
    requires cfg.Complete() && cfg.clock.Settled(n, |audio|) && |audio| + 1 < FINAL_LIMIT
    ensures cfg.Usable()
    ensures var e := FinishFrom(cfg, AfterSteps(cfg, audio, n), audio, 0);
            && Rows(e.lanes.stitch.rows, cfg.al.classes)
            && AllSeen(e.lanes.stitch.rows)
            && e.lanes.transcript == BatchText(cfg.al, LabelsOf(cfg.al, e.lanes.stitch.rows))
  {
    hide *;
    CompleteUsable(cfg);
    FinishIsOnePass(cfg, audio, n);
    SettledEnd(cfg.clock, n, |audio|);
    NoCoverageGap(cfg, audio, n);
    StepsReach(cfg, audio, n);
    var e := AfterSteps(cfg, audio, n);
    FinalPass(cfg, e, audio, cfg.clock.SeenEnd(n));
  }

  lemma FinalPass(cfg: Config, e: Engine, audio: seq<real>, end: nat)
    requires cfg.Complete() && cfg.clock.Ok() && EngineOk(cfg, e) && AllSeen(e.lanes.stitch.rows)
    requires EngineReach(cfg, e, end) && end <= |audio| && |audio| + 1 < FINAL_LIMIT
    requires cfg.clock.ContextStart(Frozen(e)) <= Frozen(e)
    ensures var start := cfg.clock.ContextStart(Frozen(e));
            var f := RunSlice(cfg, e, start, SliceOf(audio, cfg.clock.At(start), |audio|), true);
            && Rows(f.lanes.stitch.rows, cfg.al.classes)
            && AllSeen(f.lanes.stitch.rows)
            && f.lanes.transcript == BatchText(cfg.al, LabelsOf(cfg.al, f.lanes.stitch.rows))
  {
    hide *;
    EngineParts(cfg, e);
    var start := cfg.clock.ContextStart(Frozen(e));
    StepReach(cfg, e, audio, end, |audio|);
    var slice := SliceOf(audio, cfg.clock.At(start), |audio|);
    FinalCount(cfg, e, start, slice, end, |audio|);
    SliceSeen(cfg, e, start, slice, true);
    FinalText(cfg, e, start, slice);
  }

  lemma FinalCount(cfg: Config, e: Engine, start: nat, slice: seq<real>, end: nat, length: nat)
    requires cfg.Complete() && cfg.clock.Ok() && EngineReach(cfg, e, end) && end <= length
    requires cfg.clock.At(start) + |slice| <= length
    ensures RowsOf(cfg, slice).Some? && Matrix(RowsOf(cfg, slice).value, cfg.al.classes)
    ensures RowCount(e) <= length + 1 && start + |RowsOf(cfg, slice).value| <= length + 1
  {
    CompleteUsable(cfg);
    CompleteParts(cfg, slice);
    ModelParts(cfg, slice);
    hide Config.Complete, Config.Usable, F.Clock.Reach, F.Clock.At, F.Clock.AtMost, RowsOf, RowCount, Matrix, F.Clock.Ok;
    var count := |RowsOf(cfg, slice).value|;
    LongerReach(cfg.clock, RowCount(e), end, length);
    F.FramesBound(cfg.clock, RowCount(e), length);
    StartReach(cfg.clock, start, length);
    F.GrowReach(cfg.clock, start, length, length, start, |slice|, count);
    F.FramesBound(cfg.clock, Max(start, start + count), length);
  }

  lemma LongerReach(k: F.Clock, rows: nat, end: nat, length: nat)
    requires k.Reach(rows, end) && end <= length
    ensures k.Reach(rows, length)
  {
    hide F.Clock.At;
  }

  lemma StartReach(k: F.Clock, start: nat, length: nat)
    requires k.At(start) <= length
    ensures k.Reach(start, length)
  {
    hide F.Clock.At;
  }

  lemma FinalText(cfg: Config, e: Engine, start: nat, slice: seq<real>)
    requires EngineOk(cfg, e) && RowsOf(cfg, slice).Some? && Matrix(RowsOf(cfg, slice).value, cfg.al.classes)
    requires RowCount(e) < FINAL_LIMIT && start + |RowsOf(cfg, slice).value| < FINAL_LIMIT
    ensures var f := RunSlice(cfg, e, start, slice, true);
            && Rows(f.lanes.stitch.rows, cfg.al.classes)
            && f.lanes.transcript == BatchText(cfg.al, LabelsOf(cfg.al, f.lanes.stitch.rows))
  {
    hide BatchText, AddWindow, RunWindow, LabelsOf, Matrix, LanesStream, RowsOf, Config.Usable;
    EngineParts(cfg, e);
    FinalWindow(cfg.StitchSettings(), e.lanes, Window(start, RowsOf(cfg, slice).value));
  }
}
