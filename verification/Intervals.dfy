/** Runs of a thresholded signal, and the running mean that smooths it first. */
module Intervals {
  const MAX_INTERVALS := 512

  datatype Interval = Interval(on: bool, len: nat)

  /** The maximal runs of the first `n` levels, the last one still open. */
  function Runs(levels: seq<bool>, n: nat): (runs: seq<Interval>)
    requires n <= |levels|
    ensures n == 0 <==> runs == []
    ensures 0 < n ==> runs[|runs| - 1].on == levels[n - 1]
  {
    if n == 0 then []
    else
      var before := Runs(levels, n - 1);
      if before != [] && before[|before| - 1].on == levels[n - 1]
      then before[..|before| - 1] + [Interval(levels[n - 1], before[|before| - 1].len + 1)]
      else before + [Interval(levels[n - 1], 1)]
  }

  function TotalLength(runs: seq<Interval>, n: nat): nat
    requires n <= |runs|
  {
    if n == 0 then 0 else TotalLength(runs, n - 1) + runs[n - 1].len
  }

  ghost predicate Alternate(runs: seq<Interval>) {
    forall i :: 0 <= i < |runs| ==> 1 <= runs[i].len && (0 < i ==> runs[i].on != runs[i - 1].on)
  }

  lemma {:induction false} TotalPrefix(runs: seq<Interval>, more: seq<Interval>, n: nat)
    requires n <= |runs|
    ensures TotalLength(runs + more, n) == TotalLength(runs, n)
  {
    if 0 < n {
      TotalPrefix(runs, more, n - 1);
    }
  }

  lemma SwapLast(runs: seq<Interval>, last: Interval)
    requires runs != []
    ensures var init := runs[..|runs| - 1];
            TotalLength(init + [last], |runs|) + runs[|runs| - 1].len == TotalLength(runs, |runs|) + last.len
  {
    var init := runs[..|runs| - 1];
    TotalPrefix(init, [last], |init|);
    assert runs == init + [runs[|runs| - 1]];
    TotalPrefix(init, [runs[|runs| - 1]], |init|);
  }

  lemma AlternateGrows(runs: seq<Interval>, run: Interval)
    requires Alternate(runs) && 1 <= run.len
    ensures runs == [] || runs[|runs| - 1].on != run.on ==> Alternate(runs + [run])
    ensures runs != [] && runs[|runs| - 1].on == run.on ==> Alternate(runs[..|runs| - 1] + [run])
  {
  }

  lemma {:induction false} RunsAlternate(levels: seq<bool>, n: nat)
    requires n <= |levels|
    ensures Alternate(Runs(levels, n))
  {
    hide Alternate;
    if 0 < n {
      RunsAlternate(levels, n - 1);
      var before := Runs(levels, n - 1);
      AlternateGrows(before, Interval(levels[n - 1], 1));
      if before != [] {
        AlternateGrows(before, Interval(levels[n - 1], before[|before| - 1].len + 1));
      }
    } else {
      NothingAlternates();
    }
  }

  /** The lengths of the runs add up to the signal. */
  lemma {:induction false} RunsAddUp(levels: seq<bool>, n: nat)
    requires n <= |levels|
    ensures TotalLength(Runs(levels, n), |Runs(levels, n)|) == n
  {
    if 0 < n {
      RunsAddUp(levels, n - 1);
      var before := Runs(levels, n - 1);
      if before != [] && before[|before| - 1].on == levels[n - 1] {
        SwapLast(before, Interval(levels[n - 1], before[|before| - 1].len + 1));
      } else {
        TotalPrefix(before, [Interval(levels[n - 1], 1)], |before|);
      }
    }
  }

  lemma NothingAlternates()
    ensures Alternate([])
  {
  }

  /** The lengths of the runs of one kind, as many as the table holds. */
  function Lens(runs: seq<Interval>, on: bool, n: nat): (lens: seq<nat>)
    requires n <= |runs|
    ensures |lens| <= MAX_INTERVALS
  {
    if n == 0 then []
    else
      var lens := Lens(runs, on, n - 1);
      if runs[n - 1].on == on && |lens| < MAX_INTERVALS then lens + [runs[n - 1].len] else lens
  }

  function Levels(power: seq<real>, threshold: real): (levels: seq<bool>)
    ensures |levels| == |power|
    ensures forall i :: 0 <= i < |power| ==> levels[i] == (power[i] > threshold)
  {
    seq(|power|, i requires 0 <= i < |power| => power[i] > threshold)
  }

  lemma {:induction false} LensPrefix(runs: seq<Interval>, more: seq<Interval>, on: bool, n: nat)
    requires n <= |runs|
    ensures Lens(runs + more, on, n) == Lens(runs, on, n)
  {
    if 0 < n {
      LensPrefix(runs, more, on, n - 1);
    }
  }

  /** The runs that are closed once sample `n` is reached: all but the open one. */
  ghost predicate OpenRun(levels: seq<bool>, n: nat, closed: seq<Interval>, isOn: bool, current: nat)
    requires n <= |levels|
  {
    if n == 0 then closed == [] && current == 0 && (levels != [] ==> isOn == levels[0])
    else Runs(levels, n) == closed + [Interval(isOn, current)]
  }

  lemma OpenNext(levels: seq<bool>, n: nat, closed: seq<Interval>, isOn: bool, current: nat)
    requires n < |levels| && OpenRun(levels, n, closed, isOn, current)
    ensures levels[n] == isOn ==> OpenRun(levels, n + 1, closed, isOn, current + 1)
    ensures levels[n] != isOn ==> 0 < n && OpenRun(levels, n + 1, closed + [Interval(isOn, current)], !isOn, 1)
  {
    if 0 < n {
      var runs := closed + [Interval(isOn, current)];
      assert runs[..|runs| - 1] == closed;
    }
  }

  method Push(table: seq<nat>, len: nat) returns (pushed: seq<nat>)
    ensures pushed == if |table| < MAX_INTERVALS then table + [len] else table
  {
    pushed := if |table| < MAX_INTERVALS then table + [len] else table;
  }

  lemma LensSnoc(closed: seq<Interval>, run: Interval, on: bool)
    ensures Lens(closed + [run], on, |closed| + 1)
         == if run.on == on && |Lens(closed, on, |closed|)| < MAX_INTERVALS then Lens(closed, on, |closed|) + [run.len]
            else Lens(closed, on, |closed|)
  {
    LensPrefix(closed, [run], on, |closed|);
  }

  /** `get_raw_intervals`: the lengths of all runs, on and off apart, as far as the tables reach. */
  method GetRawIntervals(power: seq<real>, threshold: real) returns (on: seq<nat>, off: seq<nat>)
    ensures var runs := Runs(Levels(power, threshold), |power|);
            on == Lens(runs, true, |runs|) && off == Lens(runs, false, |runs|)
  {
    hide Lens, Runs, OpenRun;
    on, off := [], [];
    ghost var levels := Levels(power, threshold);
    if power == [] {
      NoRuns(levels);
      return;
    }
    var isOn := power[0] > threshold;
    var current := 0;
    ghost var closed: seq<Interval> := [];
    NoRuns(levels);
    for i := 0 to |power|
      invariant OpenRun(levels, i, closed, isOn, current)
      invariant on == Lens(closed, true, |closed|) && off == Lens(closed, false, |closed|)
    {
      OpenNext(levels, i, closed, isOn, current);
      if (power[i] > threshold) == isOn {
        current := current + 1;
      } else {
        LensSnoc(closed, Interval(isOn, current), true);
        LensSnoc(closed, Interval(isOn, current), false);
        if isOn {
          on := Push(on, current);
        } else {
          off := Push(off, current);
        }
        closed := closed + [Interval(isOn, current)];
        isOn, current := !isOn, 1;
      }
    }
    LensSnoc(closed, Interval(isOn, current), true);
    LensSnoc(closed, Interval(isOn, current), false);
    OpenLast(levels, closed, isOn, current);
    if isOn {
      on := Push(on, current);
    } else {
      off := Push(off, current);
    }
  }

  lemma NoRuns(levels: seq<bool>)
    ensures Runs(levels, 0) == [] && Lens([], true, 0) == [] && Lens([], false, 0) == []
    ensures levels != [] ==> OpenRun(levels, 0, [], levels[0], 0)
  {
  }

  lemma OpenLast(levels: seq<bool>, closed: seq<Interval>, isOn: bool, current: nat)
    requires levels != [] && OpenRun(levels, |levels|, closed, isOn, current)
    ensures Runs(levels, |levels|) == closed + [Interval(isOn, current)]
  {
  }

  // ---------------------------------------------------------------- smoothing

  function Sum(data: seq<real>, from: nat, to: nat): real
    requires from <= to <= |data|
  {
    if to == from then 0.0 else Sum(data, from, to - 1) + data[to - 1]
  }

  lemma {:induction false} SumDropsFirst(data: seq<real>, from: nat, to: nat)
    requires from < to <= |data|
    ensures Sum(data, from, to) == data[from] + Sum(data, from + 1, to)
  {
    if from + 1 < to {
      SumDropsFirst(data, from, to - 1);
    }
  }

  /** The mean of the last `window` samples up to `i`, or of all there are. */
  function MeanAt(data: seq<real>, window: nat, i: nat): real
    requires i < |data| && 0 < window
  {
    var from := if i + 1 <= window then 0 else i + 1 - window;
    Sum(data, from, i + 1) / (i + 1 - from) as real
  }

  /** `moving_average` */
  method MovingAverage(data: seq<real>, window: int, outMax: nat) returns (out: seq<real>)
    ensures |out| == if |data| < outMax then |data| else outMax
    ensures forall i :: 0 <= i < |out| ==> out[i] == if window <= 1 then data[i] else MeanAt(data, window, i)
  {
    out := [];
    if data == [] || outMax == 0 {
      return;
    }
    if window <= 1 {
      out := data[..if |data| < outMax then |data| else outMax];
      return;
    }
    var sum, winCount, i := 0.0, 0, 0;
    while i < |data| && |out| < outMax
      invariant |out| == i <= |data| && i <= outMax
      invariant winCount == (if i <= window then i else window) && sum == Sum(data, i - winCount, i)
      invariant forall k :: 0 <= k < i ==> out[k] == MeanAt(data, window, k)
    {
      sum := sum + data[i];
      winCount := winCount + 1;
      if winCount > window {
        SumDropsFirst(data, i - window, i + 1);
        sum := sum - data[i - window];
        winCount := window;
      }
      out := out + [sum / winCount as real];
      i := i + 1;
    }
  }
}
