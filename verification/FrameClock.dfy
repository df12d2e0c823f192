/** Frame and sample numbers of the streaming decoder: which frame a window starts at, how far
    windows reach, and how closely the frozen edge follows the audio. */
module FrameClock {
  import opened Integers

  const MAX_SEGMENT_SECONDS := 12
  const MIN_PENDING_SECONDS := 2
  const STEP_SECONDS := 1
  const LEFT_CONTEXT_SECONDS := 4
  const FREEZE_GUARD_SECONDS := 2

  function CeilDiv(a: int, b: int): int
    requires 0 < b
  {
    -((-a) / b)
  }

  /** a / b to the nearest integer, halves up. */
  function RoundDiv(a: nat, b: nat): nat
    requires 0 < b
  {
    (2 * a + b) / (2 * b)
  }

  datatype Clock = Clock(sampleRate: nat, hop: nat) {
    /** Frames are at most a second apart. */
    predicate Ok() { 0 < hop <= sampleRate }

    function MaxSegment(): nat { MAX_SEGMENT_SECONDS * sampleRate }
    function MinPending(): nat { MIN_PENDING_SECONDS * sampleRate }
    function StepSamples(): nat { STEP_SECONDS * sampleRate }
    function LeftContext(): nat requires Ok() { RoundDiv(LEFT_CONTEXT_SECONDS * sampleRate, hop) }
    function FreezeGuard(): nat requires Ok() { RoundDiv(FREEZE_GUARD_SECONDS * sampleRate, hop) }

    /** The sample a frame starts at. */
    function At(frame: int): int { frame * hop }

    /** `context_start_frame` */
    function ContextStart(frozen: nat): nat
      requires Ok()
    {
      Max(0, frozen - LeftContext())
    }

    /** `window_start_frame` */
    function WindowStart(frozen: nat, endSample: nat): nat
      requires Ok()
    {
      Max(ContextStart(frozen), CeilDiv(endSample - MaxSegment(), hop))
    }

    /** The end of one pass of `deepcw_decoder_finish`. */
    function FinishEnd(frozen: nat, length: nat): int
      requires Ok()
    {
      Min(At(ContextStart(frozen)) + MaxSegment(), length)
    }

    /** The end of step `n`, counted from 0. */
    function EndOf(n: nat): nat { MinPending() + n * StepSamples() }

    /** Where the audio seen by the first `n` steps ends. */
    function SeenEnd(n: nat): nat { if n == 0 then 0 else EndOf(n - 1) }

    /** All steps that this much audio allows have been made. */
    ghost predicate Settled(n: nat, length: nat) {
      length <= EndOf(n) && (0 < n ==> SeenEnd(n) < length)
    }

    /** A slice of this many samples yields at most one frame per hop, and one more. */
    ghost predicate AtMost(count: nat, samples: nat)
      requires Ok()
    {
      count <= samples / hop + 1
    }

    /** A slice of this many samples yields at least one frame per hop. */
    ghost predicate AtLeast(count: nat, samples: nat)
      requires Ok()
    {
      samples / hop <= count
    }

    /** No window so far reaches more than one hop past the end of its audio. */
    ghost predicate Reach(rows: nat, end: int) {
      At(rows) <= end + hop || rows == 0
    }

    /** The frozen edge follows the audio at the distance of the freeze guard. */
    ghost predicate Follows(rows: nat, frozen: nat, end: int)
      requires Ok()
    {
      end - hop < At(frozen + FreezeGuard()) && (frozen == 0 || frozen + FreezeGuard() <= rows)
    }
  }

  // ---------------------------------------------------------------- arithmetic

  lemma DivFloor(a: int, b: nat)
    requires 0 < b
    ensures (a / b) * b <= a < (a / b) * b + b
  {
  }

  lemma CeilBound(a: int, b: nat)
    requires 0 < b
    ensures a <= CeilDiv(a, b) * b < a + b
  {
    DivFloor(-a, b);
    assert CeilDiv(a, b) * b == -(((-a) / b) * b);
  }

  lemma RoundBound(a: nat, b: nat)
    requires 0 < b
    ensures 2 * a - b < 2 * (RoundDiv(a, b) * b) <= 2 * a + b
  {
    DivFloor(2 * a + b, 2 * b);
    assert RoundDiv(a, b) * (2 * b) == 2 * (RoundDiv(a, b) * b);
  }

  lemma Scale(a: int, b: int, c: nat)
    ensures (a + b) * c == a * c + b * c && (a - b) * c == a * c - b * c
    ensures a <= b ==> a * c <= b * c
    ensures 0 <= a ==> 0 <= a * c
  {
    if a <= b { assert (b - a) * c >= 0; }
  }

  lemma ScaleBack(a: int, b: int, c: nat)
    requires 0 < c && a * c < b * c + c
    ensures a <= b
  {
    assert (b + 1) * c == b * c + c;
    Scale(b + 1, a, c);
  }

  lemma EndsGrow(k: Clock, n: nat)
    ensures k.SeenEnd(n) + k.StepSamples() <= k.EndOf(n) <= k.SeenEnd(n) + k.MinPending()
  {
    if n > 0 { Scale(n - 1, 1, k.StepSamples()); }
  }

  lemma SettledUnique(k: Clock, m: nat, n: nat, length: nat)
    requires k.Settled(m, length) && k.Settled(n, length)
    ensures m == n
  {
    if m < n { Scale(m, n - 1, k.StepSamples()); }
    if n < m { Scale(n, m - 1, k.StepSamples()); }
  }

  // ---------------------------------------------------------------- where windows lie

  /** A window never starts behind the end of its own audio, nor before what is kept. */
  lemma StartBound(k: Clock, rows: nat, frozen: nat, end: nat, next: nat)
    requires k.Ok() && frozen <= rows && k.Reach(rows, end) && end <= next
    ensures 0 <= k.At(k.ContextStart(frozen)) <= end
    ensures k.At(k.ContextStart(frozen)) <= k.At(k.WindowStart(frozen, next)) <= next
  {
    var hop, left := k.hop, k.LeftContext();
    RoundBound(LEFT_CONTEXT_SECONDS * k.sampleRate, hop);
    Scale(frozen, rows, hop);
    Scale(frozen, left, hop);
    CeilBound(next - k.MaxSegment(), hop);
    hide RoundDiv, CeilDiv;
    Scale(k.ContextStart(frozen), k.WindowStart(frozen, next), hop);
  }

  lemma GrowReach(k: Clock, rows: nat, end: nat, next: nat, start: nat, slice: nat, count: nat)
    requires k.Ok() && k.Reach(rows, end) && end <= next
    requires k.At(start) + slice <= next && (count == 0 || k.AtMost(count, slice))
    ensures k.Reach(if count == 0 then rows else Max(rows, start + count), next)
  {
    var hop := k.hop;
    DivFloor(slice, hop);
    Scale(start, count, hop);
    Scale(count, slice / hop + 1, hop);
    Scale(slice / hop, 1, hop);
  }

  lemma FramesBound(k: Clock, rows: nat, length: nat)
    requires k.Ok() && k.Reach(rows, length)
    ensures rows <= length + 1
  {
    if rows > length + 1 {
      Scale(length + 2, rows, k.hop);
      assert (length + 2) * k.hop == length * k.hop + 2 * k.hop;
      Scale(1, k.hop, length);
    }
  }

  /** While the frozen edge follows, the next window starts at or before it and is at least a
      second long. */
  lemma NextWindow(k: Clock, rows: nat, frozen: nat, end: nat, next: nat)
    requires k.Ok() && k.Follows(rows, frozen, end) && k.Reach(rows, end)
    requires end + k.sampleRate <= next <= end + k.MinPending()
    ensures k.WindowStart(frozen, next) <= frozen
    ensures k.sampleRate <= next - k.At(k.WindowStart(frozen, next))
  {
    var hop, guard, start := k.hop, k.FreezeGuard(), k.WindowStart(frozen, next);
    RoundBound(FREEZE_GUARD_SECONDS * k.sampleRate, hop);
    CeilBound(next - k.MaxSegment(), hop);
    hide RoundDiv, CeilDiv;
    Scale(frozen, guard, hop);
    ScaleBack(CeilDiv(next - k.MaxSegment(), hop), frozen, hop);
    Scale(start, frozen, hop);
    Scale(frozen + guard, rows, hop);
  }

  /** A window of at least a second through a model that leaves no frame out. */
  lemma GrowFollows(k: Clock, rows: nat, frozen: nat, next: nat, start: nat, slice: nat, count: nat)
    requires k.Ok() && (frozen == 0 || frozen + k.FreezeGuard() <= rows)
    requires k.sampleRate <= slice == next - k.At(start) && k.AtLeast(count, slice)
    ensures 0 < count
    ensures k.Follows(Max(rows, start + count), Max(frozen, start + count - k.FreezeGuard()), next)
  {
    var hop, guard := k.hop, k.FreezeGuard();
    hide RoundDiv;
    DivFloor(slice, hop);
    Scale(1, slice / hop, hop);
    ScaleBack(1, slice / hop, hop);
    Scale(start, slice / hop, hop);
    Scale(start + slice / hop, Max(frozen, start + count - guard) + guard, hop);
  }

  /** While the frozen edge follows, one pass of finishing reaches the end. */
  lemma FinishReaches(k: Clock, rows: nat, frozen: nat, end: nat, length: nat)
    requires k.Ok() && k.Follows(rows, frozen, end) && length <= end + k.MinPending()
    ensures k.FinishEnd(frozen, length) == length && k.ContextStart(frozen) <= frozen
  {
    var hop := k.hop;
    RoundBound(FREEZE_GUARD_SECONDS * k.sampleRate, hop);
    RoundBound(LEFT_CONTEXT_SECONDS * k.sampleRate, hop);
    hide RoundDiv;
    Scale(frozen, k.FreezeGuard(), hop);
    Scale(frozen, k.LeftContext(), hop);
    Scale(frozen - k.LeftContext(), k.ContextStart(frozen), hop);
  }

  lemma FollowsFromStart(k: Clock)
    requires k.Ok()
    ensures k.Follows(0, 0, 0)
  {
    Scale(k.FreezeGuard(), 1, k.hop);
  }

  lemma FrameOf(k: Clock, frame: nat)
    requires k.Ok()
    ensures 0 <= k.At(frame) && k.At(frame) / k.hop == frame
  {
    DivFloor(frame * k.hop, k.hop);
    ScaleBack((frame * k.hop) / k.hop, frame, k.hop);
    ScaleBack(frame, (frame * k.hop) / k.hop, k.hop);
  }

  /** What is kept only moves forward. */
  lemma ContextGrows(k: Clock, frozen: nat, later: nat)
    requires k.Ok() && frozen <= later
    ensures k.At(k.ContextStart(frozen)) <= k.At(k.ContextStart(later))
  {
    hide RoundDiv;
    Scale(k.ContextStart(frozen), k.ContextStart(later), k.hop);
  }

  lemma NextSample(k: Clock, frame: int)
    ensures k.At(frame + 1) == k.At(frame) + k.hop
  {
  }

  /** A window goes back as far as it may: to the first frame that is at most 12 seconds in front of its
      end and at most the left context in front of the frozen edge. */
  lemma WindowIsLongest(k: Clock, frozen: nat, end: nat)
    requires k.Ok()
    ensures var start := k.WindowStart(frozen, end);
            && end - k.At(start) <= 12 * k.sampleRate && frozen - start <= k.LeftContext()
            && (0 < start ==> 12 * k.sampleRate < end - k.At(start - 1) || k.LeftContext() < frozen - (start - 1))
  {
    hide RoundDiv;
    var start: int, back := k.WindowStart(frozen, end), CeilDiv(end - k.MaxSegment(), k.hop);
    CeilBound(end - k.MaxSegment(), k.hop);
    Scale(back, start, k.hop);
    NextSample(k, start - 1);
  }

  /** The left context is four seconds of frames and the freeze guard two, to the nearest frame; step
      `n` ends `n + 2` seconds into the audio. */
  lemma Distances(k: Clock, n: nat)
    requires k.Ok()
    ensures 8 * k.sampleRate - k.hop < 2 * k.At(k.LeftContext()) <= 8 * k.sampleRate + k.hop
    ensures 4 * k.sampleRate - k.hop < 2 * k.At(k.FreezeGuard()) <= 4 * k.sampleRate + k.hop
    ensures k.EndOf(n) == (n + 2) * k.sampleRate
  {
    RoundBound(LEFT_CONTEXT_SECONDS * k.sampleRate, k.hop);
    RoundBound(FREEZE_GUARD_SECONDS * k.sampleRate, k.hop);
    hide RoundDiv;
    Scale(n, 2, k.sampleRate);
  }
}
