/** The runs of the best path, as `backtrace` reports them. */
module Segments {
  import opened Integers
  import opened Viterbi

  const ELEM_MAX := 4096

  /** A run: its length, negative for a space, and its last frame. */
  datatype Elem = Elem(len: int, end: nat)

  /** A run starts at frame `t`. */
  predicate Starts(path: seq<int>, t: nat)
    requires 0 < t < |path|
  {
    IsMark(path[t]) != IsMark(path[t - 1]) || Dur(path[t]) == 1
  }

  /** The frame behind the run that starts at `i`. */
  function RunStop(path: seq<int>, i: nat): (stop: nat)
    requires i < |path|
    ensures i < stop <= |path|
    ensures forall t :: i < t < stop ==> !Starts(path, t)
    ensures stop < |path| ==> Starts(path, stop)
    decreases |path| - i
  {
    if i + 1 == |path| || Starts(path, i + 1) then i + 1 else RunStop(path, i + 1)
  }

  /** How many frames up to `end`, not before `start`, are in state `s`. */
  function StreakOf(path: seq<int>, start: nat, end: int, s: int): (n: nat)
    requires start <= end + 1 <= |path|
    ensures n <= end + 1 - start
    decreases end + 1 - start
  {
    if start <= end && path[end] == s then 1 + StreakOf(path, start, end - 1, s) else 0
  }

  /** The reported length of the run of frames `i` up to `stop`. */
  function RunLen(path: seq<int>, i: nat, stop: nat): int
    requires i < stop <= |path|
  {
    var s := path[stop - 1];
    var dur := Dur(s);
    var len := if dur == Cap(IsMark(s)) then Max(dur, StreakOf(path, i, stop - 1, s)) else dur;
    Signed(len, IsMark(s))
  }

  function Signed(len: int, mark: bool): int {
    if mark then len else -len
  }

  /** All runs from frame `i` on. */
  function Runs(path: seq<int>, i: nat): (elems: seq<Elem>)
    requires i <= |path|
    decreases |path| - i
  {
    if i == |path| then []
    else [Elem(RunLen(path, i, RunStop(path, i)), RunStop(path, i) - 1)] + Runs(path, RunStop(path, i))
  }

  // ---------------------------------------------------------------- what the runs of a legal path are

  /** The length reported for a run of `frames` frames. */
  function Reported(frames: nat, mark: bool): nat {
    if frames <= Cap(mark) then frames else Max(Cap(mark), frames - Cap(mark) + 1)
  }

  /** Inside a run of a legal path the duration counts up to the cap and stays there. */
  lemma {:induction false} DurInRun(path: seq<int>, i: nat, t: nat)
    requires Legal(path) && i <= t < |path| && Dur(path[i]) == 1
    requires forall k :: i < k <= t ==> !Starts(path, k)
    ensures IsMark(path[t]) == IsMark(path[i])
    ensures Dur(path[t]) == if t - i < Cap(IsMark(path[i])) then t - i + 1 else Cap(IsMark(path[i]))
  {
    if i < t {
      DurInRun(path, i, t - 1);
      assert Edge(path[t - 1], path[t]) && !Starts(path, t);
    }
  }

  lemma {:induction false} StreakInRun(path: seq<int>, i: nat, end: int, s: int, n: nat)
    requires i <= end + 1 <= |path| && n <= end + 1 - i
    requires forall t :: end + 1 - n <= t <= end ==> path[t] == s
    requires i <= end - n ==> path[end - n] != s
    ensures StreakOf(path, i, end, s) == n
    decreases n
  {
    if n > 0 { StreakInRun(path, i, end - 1, s, n - 1); }
  }

  lemma RunStates(path: seq<int>, i: nat)
    requires Legal(path) && i < |path| && Dur(path[i]) == 1
    ensures forall t :: i <= t < RunStop(path, i) ==>
              path[t] == State(IsMark(path[i]), if t - i < Cap(IsMark(path[i])) then t - i + 1 else Cap(IsMark(path[i])))
  {
    forall t | i <= t < RunStop(path, i)
      ensures path[t] == State(IsMark(path[i]), if t - i < Cap(IsMark(path[i])) then t - i + 1 else Cap(IsMark(path[i])))
    {
      DurInRun(path, i, t);
    }
  }

  /** The exact length reported for a run, past the cap as well as below it. */
  lemma RunLength(path: seq<int>, i: nat)
    requires Legal(path) && i < |path| && Dur(path[i]) == 1
    ensures RunLen(path, i, RunStop(path, i)) == Signed(Reported(RunStop(path, i) - i, IsMark(path[i])), IsMark(path[i]))
  {
    hide Legal, RunStop, StreakOf;
    var stop, mark := RunStop(path, i), IsMark(path[i]);
    RunStates(path, i);
    CappedStreak(path, i, stop, mark, Cap(mark));
  }

  /** States that count up to a cap and stay: the streak at the end, if the cap was reached. */
  lemma CappedStreak(path: seq<int>, i: nat, stop: nat, mark: bool, cap: nat)
    requires i < stop <= |path| && 0 < cap
    requires forall t :: i <= t < stop ==> path[t] == State(mark, if t - i < cap then t - i + 1 else cap)
    ensures cap <= stop - i ==> StreakOf(path, i, stop - 1, path[stop - 1]) == stop - i - cap + 1
  {
    if cap <= stop - i {
      hide Base;
      StreakInRun(path, i, stop - 1, path[stop - 1], stop - i - cap + 1);
    }
  }

  /** Where the run that starts at `i` stops, the next one starts with the other kind. */
  lemma NextRun(path: seq<int>, i: nat)
    requires Legal(path) && i < |path| && Dur(path[i]) == 1 && RunStop(path, i) < |path|
    ensures Dur(path[RunStop(path, i)]) == 1
    ensures IsMark(path[RunStop(path, i)]) != IsMark(path[i])
  {
    var stop := RunStop(path, i);
    DurInRun(path, i, stop - 1);
    assert Edge(path[stop - 1], path[stop]);
  }

  /** The frame a run starts at, read off the end of the run before it. */
  function StartOf(elems: seq<Elem>, k: nat, from: nat): nat
    requires k < |elems|
  {
    if k == 0 then from else elems[k - 1].end + 1
  }

  /** Element `k` covers the frames behind the one before it, with the length such a run reports. */
  ghost predicate RunAt(path: seq<int>, i: nat, elems: seq<Elem>, k: nat)
    requires k < |elems|
  {
    var start, elem := StartOf(elems, k, i), elems[k];
    start <= elem.end < |path|
    && elem.len == Signed(Reported(elem.end + 1 - start, IsMark(path[start])), IsMark(path[start]))
  }

  /** Runs partition the path: ends increase strictly up to the last frame, marks and spaces
      alternate, and each length is exactly what a run of that many frames reports. */
  ghost predicate Partition(path: seq<int>, i: nat, elems: seq<Elem>) {
    && (if elems == [] then i == |path| else elems[|elems| - 1].end + 1 == |path|)
    && (forall k :: 0 <= k < |elems| ==> RunAt(path, i, elems, k))
    && (forall k :: 0 < k < |elems| ==> (elems[k].len > 0) != (elems[k - 1].len > 0))
  }

  lemma PartitionCons(path: seq<int>, i: nat, first: Elem, rest: seq<Elem>)
    requires RunAt(path, i, [first], 0) && Partition(path, first.end + 1, rest)
    requires rest != [] ==> (rest[0].len > 0) != (first.len > 0)
    ensures Partition(path, i, [first] + rest)
  {
    var elems := [first] + rest;
    hide Reported;
    forall k | 0 <= k < |elems| ensures RunAt(path, i, elems, k) {
      if k > 0 {
        assert RunAt(path, first.end + 1, rest, k - 1);
        assert StartOf(elems, k, i) == StartOf(rest, k - 1, first.end + 1);
      }
    }
  }

  lemma FirstRun(path: seq<int>, i: nat)
    requires Legal(path) && i < |path| && Dur(path[i]) == 1
    ensures var stop := RunStop(path, i);
            var first := Elem(RunLen(path, i, stop), stop - 1);
            && RunAt(path, i, [first], 0) && (first.len > 0 <==> IsMark(path[i]))
            && Runs(path, i) == [first] + Runs(path, stop)
            && (stop < |path| ==> Dur(path[stop]) == 1 && IsMark(path[stop]) != IsMark(path[i]))
  {
    hide RunLen, Legal, RunStop;
    RunLength(path, i);
    if RunStop(path, i) < |path| { NextRun(path, i); }
  }

  /** The runs of a legal path partition it. */
  lemma {:induction false} RunsPartition(path: seq<int>, i: nat)
    requires Legal(path) && i <= |path| && (i < |path| ==> Dur(path[i]) == 1)
    ensures Partition(path, i, Runs(path, i))
    ensures i < |path| ==> Runs(path, i) != [] && (Runs(path, i)[0].len > 0 <==> IsMark(path[i]))
    decreases |path| - i
  {
    if i < |path| {
      hide *;
      var stop := RunStop(path, i);
      FirstRun(path, i);
      RunsPartition(path, stop);
      NoRuns(path, stop);
      PartitionCons(path, i, Elem(RunLen(path, i, stop), stop - 1), Runs(path, stop));
    }
  }

  lemma NoRuns(path: seq<int>, i: nat)
    requires i <= |path|
    ensures i == |path| <==> Runs(path, i) == []
  {
  }

  function SumLen(elems: seq<Elem>): nat {
    if elems == [] then 0 else Abs(elems[0].len) + SumLen(elems[1..])
  }

  /** No run is longer than its cap. */
  ghost predicate WithinCaps(path: seq<int>, i: nat)
    requires i <= |path|
    decreases |path| - i
  {
    i == |path| || (RunStop(path, i) - i <= Cap(IsMark(path[i])) && WithinCaps(path, RunStop(path, i)))
  }

  lemma ReportedAtMost(frames: nat, mark: bool)
    ensures frames > 0 ==> Reported(frames, mark) <= frames
    ensures frames > 0 ==> (Reported(frames, mark) == frames <==> frames <= Cap(mark))
  {
  }

  /** Conservation: the lengths never add up to more than the frames, and they add up to exactly
      the frames if and only if no run outlasts its cap. */
  lemma {:induction false} LengthsAddUp(path: seq<int>, i: nat)
    requires Legal(path) && i <= |path| && (i < |path| ==> Dur(path[i]) == 1)
    ensures SumLen(Runs(path, i)) <= |path| - i
    ensures SumLen(Runs(path, i)) == |path| - i <==> WithinCaps(path, i)
    decreases |path| - i
  {
    if i < |path| {
      hide Legal, RunStop, RunLen, Reported;
      var stop := RunStop(path, i);
      RunLength(path, i);
      FirstRun(path, i);
      ReportedAtMost(stop - i, IsMark(path[i]));
      LengthsAddUp(path, stop);
      assert Runs(path, i)[1..] == Runs(path, stop);
    }
  }
}
