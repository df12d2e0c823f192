/** The channel decoder as it runs: frames come in, the trellis advances, and runs that ended long
    enough ago are folded into text that is never taken back. */
module CwskDecoders {
  import opened Options
  import opened Integers
  import opened Viterbi
  import opened Segments
  import opened Folding

  const COMMIT_LAG := 48
  const FRAME_CAP := 16384
  const FIRST_FRAMES := 4096
  const P_FLOOR := 0.0001
  const LN_FLOOR := 0.000000000001

  // ---------------------------------------------------------------- the trellis loops

  method BestEndLoop(column: seq<Score>, ends: seq<real>, base: nat, cap: nat) returns (best: Best)
    requires base + cap <= |column| && cap < |ends|
    ensures best == BestEnd(column, ends, base, cap)
  {
    best := Best(NegInf, base);
    var dlen := 1;
    while dlen <= cap
      invariant 1 <= dlen <= cap + 1
      invariant best == BestEnd(column, ends, base, dlen - 1)
    {
      var sc := Add(column[base + dlen - 1], ends[dlen]);
      if Greater(sc, best.score) {
        best := Best(sc, base + dlen - 1);
      }
      dlen := dlen + 1;
    }
  }

  /** The states of one kind that are older than one frame. */
  method GrowRuns(f: Frame, column: seq<Score>, mark: bool, next: seq<Best>) returns (grown: seq<Best>)
    requires f.hazards.Ok() && |column| == |next| == NSTATE
    ensures |grown| == NSTATE
    ensures forall s :: 0 <= s < NSTATE ==>
              grown[s] == if IsMark(s) == mark && Dur(s) > 1 then Next(f, column, s) else next[s]
  {
    grown := next;
    var cap, conts, here := Cap(mark), Conts(f.hazards, mark), Emission(f, mark);
    var dlen := 2;
    while dlen <= cap
      invariant 2 <= dlen <= cap + 1 && |grown| == NSTATE
      invariant forall s :: 0 <= s < NSTATE ==>
                  grown[s] == if IsMark(s) == mark && 1 < Dur(s) < dlen then Next(f, column, s) else next[s]
    {
      var s := State(mark, dlen);
      var sc := Add(column[s - 1], conts[dlen - 1] + here);
      var best := Best(sc, s - 1);
      if dlen == cap {
        var stay := Add(column[s], conts[dlen] + here);
        if Greater(stay, sc) {
          best := Best(stay, s);
        }
      }
      assert best == Next(f, column, s);
      grown := grown[s := best];
      dlen := dlen + 1;
    }
  }

  method NextColumn(f: Frame, column: seq<Score>) returns (next: seq<Best>)
    requires f.hazards.Ok() && |column| == NSTATE
    ensures |next| == NSTATE
    ensures forall s :: 0 <= s < NSTATE ==> next[s] == Next(f, column, s)
  {
    var endMark := BestEndLoop(column, f.hazards.endMark, Base(true), MARK_MAX);
    var endSpace := BestEndLoop(column, f.hazards.endSpace, Base(false), SPACE_MAX);
    next := seq(NSTATE, _ => Best(NegInf, 0));
    next := next[State(true, 1) := Best(Add(endSpace.score, f.onMark), endSpace.state)];
    next := next[State(false, 1) := Best(Add(endMark.score, f.onSpace), endMark.state)];
    ghost var first := next;
    assert first[State(true, 1)] == Next(f, column, State(true, 1));
    assert first[State(false, 1)] == Next(f, column, State(false, 1));
    hide Next;
    next := GrowRuns(f, column, true, next);
    next := GrowRuns(f, column, false, next);
    forall s | 0 <= s < NSTATE ensures next[s] == Next(f, column, s) {
      assert Dur(s) == 1 ==> s == State(true, 1) || s == State(false, 1);
    }
  }

  method ArgmaxState(column: seq<Score>) returns (best: nat)
    requires |column| == NSTATE
    ensures best == BestState(column, NSTATE)
  {
    best := 0;
    var t := 1;
    while t < NSTATE
      invariant 1 <= t <= NSTATE
      invariant best == BestState(column, t)
    {
      if Greater(column[t], column[best]) {
        best := t;
      }
      t := t + 1;
    }
  }

  // ---------------------------------------------------------------- runs of a path

  function Take(elems: seq<Elem>): (kept: seq<Elem>)
    ensures kept <= elems && |kept| <= ELEM_MAX
    ensures |elems| <= ELEM_MAX ==> kept == elems
  {
    if |elems| < ELEM_MAX then elems else elems[..ELEM_MAX]
  }

  method StreakLoop(path: seq<int>, runStart: nat, end: nat) returns (extra: nat)
    requires runStart <= end < |path|
    ensures extra == StreakOf(path, runStart, end, path[end])
  {
    extra := 0;
    var k: int := end;
    while k >= runStart && path[k] == path[end]
      invariant runStart - 1 <= k <= end
      invariant extra + StreakOf(path, runStart, k, path[end]) == StreakOf(path, runStart, end, path[end])
      decreases k
    {
      extra := extra + 1;
      k := k - 1;
    }
  }

  lemma {:induction false} RunStopIs(path: seq<int>, i: nat, t: nat)
    requires i < t <= |path|
    requires forall k :: i < k < t ==> !Starts(path, k)
    requires t < |path| ==> Starts(path, t)
    ensures RunStop(path, i) == t
    decreases t - i
  {
    if i + 1 < t { RunStopIs(path, i + 1, t); }
  }

  /** The signed length of the run of frames `runStart` up to `t`. */
  method LengthOf(path: seq<int>, runStart: nat, t: nat, lastMark: bool) returns (len: int)
    requires runStart < t <= |path| && IsMark(path[t - 1]) == lastMark
    ensures len == RunLen(path, runStart, t)
  {
    len := Dur(path[t - 1]);
    if len == Cap(lastMark) {
      var extra := StreakLoop(path, runStart, t - 1);
      if extra > len {
        len := extra;
      }
    }
    if !lastMark {
      len := -len;
    }
  }

  /** The second half of `backtrace`: cut the path into runs. */
  method ExtractRuns(path: seq<int>) returns (elems: seq<Elem>)
    requires 0 < |path|
    ensures elems == Take(Runs(path, 0))
  {
    hide Runs, RunStop, RunLen, Take;
    elems := [];
    ghost var done: seq<Elem> := [];
    var runStart := 0;
    var lastMark := IsMark(path[0]);
    var t := 1;
    assert Take([]) == [] && [] + Runs(path, 0) == Runs(path, 0) by { NothingTaken(); }
    while t <= |path|
      invariant 1 <= t <= |path| + 1 && runStart < |path|
      invariant elems == Take(done)
      invariant if t <= |path| then runStart < t && done + Runs(path, runStart) == Runs(path, 0) else done == Runs(path, 0)
      invariant t <= |path| ==> forall k :: runStart < k < t ==> !Starts(path, k)
      invariant t <= |path| ==> forall k :: runStart <= k < t ==> IsMark(path[k]) == lastMark
    {
      var boundary := t == |path| || IsMark(path[t]) != lastMark || Dur(path[t]) == 1;
      if boundary {
        var len := LengthOf(path, runStart, t, lastMark);
        RunStopIs(path, runStart, t);
        NextElem(path, runStart, t, done, Elem(len, t - 1));
        if |elems| < ELEM_MAX {
          elems := elems + [Elem(len, t - 1)];
        }
        done := done + [Elem(len, t - 1)];
        if t < |path| {
          runStart := t;
          lastMark := IsMark(path[t]);
        }
      }
      t := t + 1;
    }
  }

  lemma NothingTaken()
    ensures Take([]) == []
  {
  }

  lemma NextElem(path: seq<int>, i: nat, t: nat, done: seq<Elem>, elem: Elem)
    requires i < t <= |path| && RunStop(path, i) == t && elem == Elem(RunLen(path, i, t), t - 1)
    ensures done + Runs(path, i) == (done + [elem]) + Runs(path, t)
    ensures t == |path| ==> done + Runs(path, i) == done + [elem]
    ensures Take(done + [elem]) == if |Take(done)| < ELEM_MAX then Take(done) + [elem] else Take(done)
  {
    hide RunLen, RunStop;
    assert Runs(path, i) == [elem] + Runs(path, t);
    TakeNext(done, elem);
    hide *;
    assert done + ([elem] + Runs(path, t)) == (done + [elem]) + Runs(path, t);
    if t == |path| { NoRuns(path, t); }
  }

  lemma TakeNext(done: seq<Elem>, elem: Elem)
    ensures Take(done + [elem]) == if |Take(done)| < ELEM_MAX then Take(done) + [elem] else Take(done)
  {
  }

  // ---------------------------------------------------------------- the median of the stored lengths

  /** One round of the insertion sort of `adapt_speed`. */
  method InsertAt(a: array<int>, i: nat)
    requires i < a.Length
    modifies a
    ensures a[..i + 1] == Insert(old(a[..i]), old(a[i])) && a[i + 1..] == old(a[i + 1..])
  {
    var v, j := a[i], i;
    ghost var sorted, was := a[..i], a[i + 1..];
    InsertAll(sorted, v);
    while j > 0 && a[j - 1] > v
      invariant 0 <= j <= i && a[..j] == sorted[..j] && a[i + 1..] == was
      invariant Insert(sorted[..j], v) + a[j + 1..i + 1] == Insert(sorted, v)
    {
      InsertBack(sorted, v, j, a[j + 1..i + 1]);
      assert sorted[j - 1] == a[j - 1];
      a[j] := a[j - 1];
      assert a[j..i + 1] == [sorted[j - 1]] + a[j + 1..i + 1];
      j := j - 1;
    }
    a[j] := v;
    InsertHere(sorted[..j], v);
    assert a[..i + 1] == a[..j] + [v] + a[j + 1..i + 1];
  }

  method InsertionSort(a: array<int>)
    modifies a
    ensures a[..] == Sort(old(a[..]))
  {
    ghost var was := a[..];
    var i := 1;
    SortOne(was);
    hide Sort, Insert;
    while i < a.Length
      invariant 1 <= i && (0 < a.Length ==> i <= a.Length)
      invariant 0 < a.Length ==> a[..i] == Sort(was[..i]) && a[i..] == was[i..]
      invariant a.Length == 0 ==> a[..] == was
    {
      assert a[i] == was[i] by { assert a[i..][0] == was[i..][0]; }
      assert a[i + 1..] == a[i..][1..];
      SortNext(was, i);
      InsertAt(a, i);
      i := i + 1;
    }
    assert a.Length > 0 ==> a[..] == a[..i] && was == was[..i];
  }

  lemma InsertHere(s: seq<int>, v: int)
    requires s == [] || s[|s| - 1] <= v
    ensures Insert(s, v) == s + [v]
  {
  }

  lemma SortOne(s: seq<int>)
    ensures Sort([]) == []
    ensures s != [] ==> Sort(s[..1]) == s[..1]
  {
    if s != [] {
      var one := s[..1];
      assert one[..0] == [];
      assert Sort(one) == Insert([], one[0]) == [one[0]];
    }
  }

  lemma InsertAll(sorted: seq<int>, v: int)
    ensures sorted[..|sorted|] == sorted && Insert(sorted, v) + [] == Insert(sorted, v)
  {
  }

  lemma InsertBack(sorted: seq<int>, v: int, j: nat, tail: seq<int>)
    requires 0 < j <= |sorted| && v < sorted[j - 1]
    ensures Insert(sorted[..j], v) + tail == Insert(sorted[..j - 1], v) + ([sorted[j - 1]] + tail)
  {
    assert sorted[..j][..j - 1] == sorted[..j - 1];
  }

  lemma SortNext(was: seq<int>, i: nat)
    requires i < |was|
    ensures Sort(was[..i + 1]) == Insert(Sort(was[..i]), was[i])
  {
    assert was[..i + 1][..i] == was[..i];
  }

  /** The smallest, the median and the largest of the stored lengths, from a sorted scratch copy. */
  method SortedEnds(stored: seq<int>) returns (low: int, middle: int, high: int)
    requires stored != []
    ensures var a := Sort(stored); low == a[0] && middle == a[|a| / 2] && high == a[|a| - 1]
  {
    var n := |stored|;
    var a := new int[n](i requires 0 <= i < n => stored[i]);
    assert a[..] == stored;
    InsertionSort(a);
    hide Sort;
    ghost var sorted := Sort(stored);
    assert forall i :: 0 <= i < n ==> a[i] == a[..][i] == sorted[i];
    low, middle, high := a[0], a[n / 2], a[n - 1];
  }

  // ---------------------------------------------------------------- the class

  /** The lengths of the first `n` runs. */
  function Lengths(elems: seq<Elem>, n: nat): (lengths: seq<int>)
    requires n <= |elems|
    ensures |lengths| == n && forall i :: 0 <= i < n ==> lengths[i] == elems[i].len
  {
    seq(n, i requires 0 <= i < n => elems[i].len)
  }

  /** The number of runs that ended at or before `limit`, but at least `keep`. */
  function KeepCount(elems: seq<Elem>, limit: int, i: nat, keep: nat): (k: nat)
    requires keep <= i <= |elems|
    ensures keep <= k <= |elems|
    ensures k > keep ==> elems[k - 1].end <= limit
    ensures forall m :: i <= m < |elems| && elems[m].end <= limit ==> m < k
    decreases |elems| - i
  {
    if i == |elems| then keep else KeepCount(elems, limit, i + 1, if elems[i].end <= limit then i + 1 else keep)
  }

  function SafeLn(model: Model, x: real): real {
    model.ln(if x > LN_FLOOR then x else LN_FLOOR)
  }

  function FrameFor(model: Model, hazards: Hazards, pMark: real): Frame {
    var p := if pMark < P_FLOOR then P_FLOOR else if pMark > 1.0 - P_FLOOR then 1.0 - P_FLOOR else pMark;
    Frame(SafeLn(model, p), SafeLn(model, 1.0 - p), hazards)
  }

  class CwskDecoder {
    const model: Model
    var score: seq<Score>
    var pred: seq<seq<int>>
    var nframes: nat
    var frameCap: nat
    var hazards: Hazards
    var text: string
    var pat: string
    var means: seq<real>
    var marks: seq<int>
    var adaptCount: int
    var elems: seq<Elem>
    var folded: seq<int>
    var textRead: nat
    var finished: bool
    ghost var frames: seq<Frame>
    ghost var delivered: string
    /** How many lengths had been folded when `finish` closed the open character, -1 before. */
    ghost var closedAt: int

    /** The scores and back pointers are those of the dynamic program over all frames so far,
        each with the hazards that were in force when it came. */
    ghost predicate Trellis()
      reads `score, `pred, `nframes, `frames
    {
      && Frames(frames) && |frames| == nframes == |pred|
      && |score| == NSTATE
      && (0 < nframes ==> score == Column(frames, nframes - 1))
      && (forall t :: 0 < t < nframes ==> PredRow(frames, pred, t))
    }

    ghost predicate Sized()
      reads `nframes, `frameCap
    {
      nframes <= frameCap <= FRAME_CAP && FIRST_FRAMES <= frameCap
    }

    ghost function FoldNow(): Fold
      reads `text, `pat, `means, `marks, `adaptCount
    {
      Fold(text, pat, means, marks, adaptCount)
    }

    /** Text, pattern and speed are one fold over the lengths committed so far, before and after
        `finish`, and what has been handed out is the front of the text. */
    ghost predicate Committed()
      reads `text, `pat, `means, `marks, `adaptCount, `hazards, `folded, `textRead, `delivered, `finished, `closedAt
    {
      && model.Ok() && |means| == 5 && hazards == model.hazards(means)
      && FoldNow() == FoldAll(model, folded, closedAt)
      && -1 <= closedAt <= |folded| && (0 <= closedAt ==> finished)
      && |folded| <= ELEM_MAX
      && textRead <= |text| && delivered == text[..textRead]
    }

    ghost predicate Valid()
      reads this
    {
      Trellis() && Sized() && Committed()
    }

    constructor (model: Model)
      requires model.Ok()
      ensures Valid() && this.model == model && frames == [] && folded == [] && delivered == "" && !finished && closedAt == -1
    {
      this.model := model;
      score := seq(NSTATE, _ => NegInf);
      pred, nframes, frameCap, frames := [], 0, FIRST_FRAMES, [];
      hazards, means := model.hazards(SEED_MEAN), SEED_MEAN;
      text, pat, marks, adaptCount := "", "", [], 0;
      elems, folded, textRead, finished, delivered, closedAt := [], [], 0, false, "", -1;
    }

    /** `ensure_frames`: room doubles up to the cap. */
    method EnsureFrames(need: nat) returns (ok: bool)
      requires Sized()
      modifies this`frameCap
      ensures Sized() && ok == (need <= FRAME_CAP) && (ok ==> need <= frameCap)
    {
      if need <= frameCap {
        return true;
      }
      var cap := frameCap;
      while cap < need
        invariant FIRST_FRAMES <= frameCap <= cap <= FRAME_CAP
        decreases need - cap
      {
        if cap > FRAME_CAP / 2 {
          cap := FRAME_CAP;
          break;
        }
        cap := cap * 2;
      }
      if need > cap {
        return false;
      }
      frameCap := cap;
      ok := true;
    }

    /** The frame `viterbi_frame` makes of a mark probability. */
    function FrameOf(pMark: real): Frame
      reads this`hazards
    {
      FrameFor(model, hazards, pMark)
    }

    /** The new scores and back pointers; those of the very first frame are never followed. */
    method NextScores(f: Frame) returns (ns: seq<Score>, row: seq<int>)
      requires Trellis() && f.hazards.Ok()
      ensures Frames(frames + [f]) && ns == Column(frames + [f], nframes)
      ensures |row| == NSTATE && (0 < nframes ==> forall s :: 0 <= s < NSTATE ==> row[s] == Next(f, score, s).state)
    {
      hide Next, PredRow;
      ns := seq(NSTATE, _ => NegInf);
      row := seq(NSTATE, _ => -1);
      if nframes == 0 {
        ns := ns[State(true, 1) := Fin(f.onMark)][State(false, 1) := Fin(f.onSpace)];
        assert ns == Column([f], 0);
        assert frames + [f] == [f];
      } else {
        ColumnPrefix(frames, f, nframes - 1);
        var next := NextColumn(f, score);
        ns := seq(NSTATE, s requires 0 <= s < NSTATE => next[s].score);
        row := seq(NSTATE, s requires 0 <= s < NSTATE => next[s].state);
        assert ns == Column(frames + [f], nframes);
      }
    }

    lemma HazardsOk()
      requires Committed()
      ensures hazards.Ok()
    {
      hide FoldAll;
    }

    /** One more column of the dynamic program. */
    method AddColumn(f: Frame)
      requires Trellis() && f.hazards.Ok()
      modifies this`score, this`pred, this`nframes, this`frames
      ensures Trellis() && frames == old(frames) + [f]
    {
      hide Column, Next, PredRow;
      var ns, row := NextScores(f);
      RowsGrow(frames, f, pred, row);
      score := ns;
      pred := pred + [row];
      frames := frames + [f];
      nframes := nframes + 1;
    }

    /** `viterbi_frame`: one more column, unless the buffer is full. */
    method ViterbiFrame(pMark: real)
      requires Valid()
      modifies this`score, this`pred, this`nframes, this`frameCap, this`frames
      ensures Valid()
      ensures frames == if old(nframes) < FRAME_CAP then old(frames) + [FrameOf(pMark)] else old(frames)
    {
      FramesCount();
      HazardsOk();
      hide Committed, Trellis;
      var ok := EnsureFrames(nframes + 1);
      if !ok {
        return;
      }
      AddColumn(FrameOf(pMark));
      FramesCount();
    }

    lemma FramesCount()
      requires Trellis()
      ensures |frames| == nframes
    {
    }

    /** The first half of `backtrace`: follow the back pointers from the best last state. */
    method TracePath() returns (path: seq<int>)
      requires Trellis() && 0 < nframes
      ensures path == BestPath(frames)
    {
      hide Column, Next, Pred;
      var best := ArgmaxState(score);
      path := [best];
      var t := nframes - 1;
      while t > 0
        invariant 0 <= t < nframes && path != [] && IsState(path[0])
        invariant Trace(frames, t, path[0]) + path[1..] == BestPath(frames)
      {
        assert PredRow(frames, pred, t);
        TraceStep(frames, t, path);
        path := [pred[t][path[0]]] + path;
        t := t - 1;
      }
      TraceEnd(frames, path);
    }

    /** `backtrace`, keeping the open run at the right edge as its callers ask. */
    method Backtrace() returns (n: nat)
      requires Valid()
      modifies this`elems
      ensures Valid() && n == |elems| && elems == BestRuns(frames)
    {
      hide Column, Next, PredRow, BestPath, Runs, Take, FoldAll, Committed, Sized;
      elems := [];
      if nframes <= 0 {
        return 0;
      }
      var path := TracePath();
      elems := ExtractRuns(path);
      n := |elems|;
    }

    /** `adapt_speed` */
    method AdaptSpeed(signedLen: int)
      requires |means| == 5 && hazards == model.hazards(means)
      modifies this`marks, this`adaptCount, this`means, this`hazards
      ensures FoldNow() == Adapt(model, old(FoldNow()), signedLen)
      ensures |means| == 5 && hazards == model.hazards(means)
    {
      hide Refit;
      if signedLen <= 0 {
        return;
      }
      if |marks| < MARK_LENGTHS {
        marks := marks + [signedLen];
      } else {
        marks := marks[1..] + [signedLen];
      }
      adaptCount := adaptCount + 1;
      if adaptCount < REFIT_EVERY || |marks| < REFIT_LEAST {
        return;
      }
      adaptCount := 0;
      RefitSpeed();
    }

    /** The rest of `adapt_speed`: half a step towards the median, if the marks spread widely. */
    method RefitSpeed()
      requires |means| == 5 && marks != [] && hazards == model.hazards(means)
      modifies this`means, this`hazards
      ensures FoldNow() == Refit(model, old(FoldNow()))
      ensures |means| == 5 && hazards == model.hazards(means)
    {
      hide Sort, Shift;
      var low, middle, high := SortedEnds(marks);
      var med := model.ln(middle as real);
      if high < low * 2 {
        return;
      }
      var delta := med - means[0];
      if delta > MAX_SHIFT || delta < -MAX_SHIFT {
        return;
      }
      delta := delta * 0.5;
      means := ShiftLoop(means, delta);
      hazards := model.hazards(means);
    }

    static method ShiftLoop(before: seq<real>, delta: real) returns (after: seq<real>)
      ensures after == Shift(before, delta)
    {
      after := before;
      var i := 0;
      while i < |before|
        invariant 0 <= i <= |before| == |after|
        invariant forall k :: 0 <= k < |before| ==> after[k] == if k < i then before[k] + delta else before[k]
      {
        after := after[i := after[i] + delta];
        i := i + 1;
      }
    }

    /** One round of `fold_elements`. */
    method FoldElement(length: int)
      requires |means| == 5 && hazards == model.hazards(means)
      modifies this`text, this`pat, this`marks, this`adaptCount, this`means, this`hazards
      ensures FoldNow() == FoldOne(model, old(FoldNow()), length)
      ensures |means| == 5 && hazards == model.hazards(means)
    {
      hide Adapt, Lookup;
      var kind := model.Classify(means, length);
      if kind == Dit || kind == Dah {
        if |pat| < PAT_MAX {
          pat := pat + (if kind == Dit then "." else "-");
        }
      } else if kind != Intra {
        if |pat| > 0 {
          var ch := Lookup(pat, 0);
          if ch.Some? {
            text := AppendText(text, ch.value);
          }
          pat := "";
        }
        if kind == WordGap {
          text := AppendText(text, " ");
        }
      }
      assert FoldNow() == FoldText(old(FoldNow()), kind);
      AdaptSpeed(length);
    }

    /** `fold_elements`: the runs behind the ones already folded, up to `nKeep`. */
    method FoldElements(nKeep: nat)
      requires Committed() && |folded| <= nKeep <= |elems| <= ELEM_MAX
      modifies this`text, this`pat, this`marks, this`adaptCount, this`means, this`hazards, this`folded
      ensures Committed() && old(text) <= text
      ensures folded == old(folded) + Lengths(elems, nKeep)[old(|folded|)..]
    {
      hide FoldOne, FoldAll;
      ghost var lengths := Lengths(elems, nKeep);
      var i := |folded|;
      while i < nKeep
        invariant old(|folded|) <= i <= nKeep && i == |folded|
        invariant folded == old(folded) + lengths[old(|folded|)..i]
        invariant Committed() && old(text) <= text
      {
        ghost var before := text;
        FoldNext(model, folded, elems[i].len, closedAt);
        TextKept(model, FoldNow(), elems[i].len);
        FoldElement(elems[i].len);
        assert lengths[old(|folded|)..i + 1] == lengths[old(|folded|)..i] + [lengths[i]];
        folded := folded + [elems[i].len];
        PrefixSlice(before, text, textRead);
        i := i + 1;
      }
    }

    /** Do the runs found now still begin with the lengths already folded? */
    method PrefixMoved(n: nat) returns (moved: bool)
      requires n == |elems|
      ensures moved <==> exists i :: 0 <= i < |folded| && i < n && elems[i].len != folded[i]
    {
      var i := 0;
      while i < |folded| && i < n
        invariant 0 <= i <= |folded| && i <= n
        invariant forall k :: 0 <= k < i ==> elems[k].len == folded[k]
      {
        if elems[i].len != folded[i] {
          return true;
        }
        i := i + 1;
      }
      moved := false;
    }

    /** `commit_stable`: fold the runs that ended at least `lag` frames ago. When the path no longer
        begins with the lengths folded before, nothing happens, and nothing is ever taken back. */
    method CommitStable(lag: nat)
      requires Valid()
      modifies this`elems, this`text, this`pat, this`marks, this`adaptCount, this`means, this`hazards, this`folded
      ensures Valid() && elems == BestRuns(frames) && old(text) <= text
      ensures folded == CommittedNow(elems, old(folded), nframes - 1 - lag)
    {
      hide Trellis, Sized, FoldAll, BestRuns, KeepCount, CommittedNow, Committed;
      var n := Backtrace();
      CommittedCases(elems, folded, nframes - 1 - lag);
      if n <= 0 {
        return;
      }
      var moved := PrefixMoved(n);
      if moved {
        return;
      }
      if |folded| > n {
        return;
      }
      FoldStable(nframes - 1 - lag);
    }

    /** The runs that ended by `limit`, behind those folded before. */
    method FoldStable(limit: int)
      requires Committed() && |folded| <= |elems| <= ELEM_MAX && folded == Lengths(elems, |folded|)
      modifies this`text, this`pat, this`marks, this`adaptCount, this`means, this`hazards, this`folded
      ensures Committed() && old(text) <= text
      ensures folded == Lengths(elems, KeepCount(elems, limit, old(|folded|), old(|folded|)))
    {
      hide Committed, KeepCount;
      var keep := KeepLoop(limit, |folded|);
      LengthsPrefix(elems, |folded|, keep);
      if keep > |folded| {
        FoldElements(keep);
      }
    }

    method KeepLoop(limit: int, nFolded: nat) returns (keep: nat)
      requires nFolded <= |elems|
      ensures keep == KeepCount(elems, limit, nFolded, nFolded)
    {
      keep := nFolded;
      var i := nFolded;
      while i < |elems|
        invariant nFolded <= keep <= i <= |elems|
        invariant KeepCount(elems, limit, i, keep) == KeepCount(elems, limit, nFolded, nFolded)
      {
        if elems[i].end <= limit {
          keep := i + 1;
        }
        i := i + 1;
      }
    }

    /** `copy_new`: hand out text that was not handed out before, as far as it fits. */
    method CopyNew(outCap: int) returns (out: string)
      requires Committed()
      modifies this`textRead, this`delivered
      ensures Committed() && delivered == old(delivered) + out
      ensures |out| == if outCap <= 0 then 0
                       else if |text| - old(textRead) >= outCap then outCap - 1 else |text| - old(textRead)
    {
      hide FoldAll;
      out := "";
      if outCap <= 0 {
        return;
      }
      var n := |text| - textRead;
      if n >= outCap {
        n := outCap - 1;
      }
      out := text[textRead..textRead + n];
      assert text[..textRead + n] == text[..textRead] + out;
      textRead := textRead + n;
      delivered := delivered + out;
    }

    /** What one envelope value does once it has become a mark probability. */
    method PushFrame(pMark: real)
      requires Valid()
      modifies this`score, this`pred, this`nframes, this`frameCap, this`frames, this`elems, this`text, this`pat,
               this`marks, this`adaptCount, this`means, this`hazards, this`folded
      ensures Valid() && old(text) <= text && old(folded) <= folded
      ensures frames == if old(nframes) < FRAME_CAP then old(frames) + [old(FrameOf(pMark))] else old(frames)
      ensures folded == FoldedAt(frames, old(folded))
    {
      hide Committed, Trellis, Sized, BestRuns, CommittedNow;
      ViterbiFrame(pMark);
      FramesCount();
      if nframes > COMMIT_LAG + 8 {
        ghost var was := folded;
        CommitStable(COMMIT_LAG);
        CommittedGrows(elems, was, nframes - 1 - COMMIT_LAG);
      }
    }

    /** `cwsk_decoder_finish`: `tail` is the frame of a last hop that is not full. The rest is folded
        and an open character closed, unless the path moved or the decoder was finished before. */
    method Finish(tail: Option<real>, outCap: int) returns (out: string)
      requires Valid()
      modifies this`score, this`pred, this`nframes, this`frameCap, this`frames, this`elems, this`text, this`pat,
               this`marks, this`adaptCount, this`means, this`hazards, this`folded, this`finished, this`closedAt,
               this`textRead, this`delivered
      ensures Valid() && finished && old(text) <= text && delivered == old(delivered) + out
      ensures frames == if tail.Some? && old(nframes) < FRAME_CAP then old(frames) + [old(FrameOf(tail.value))] else old(frames)
      ensures var lengths := if tail.Some? then FoldedAt(frames, old(folded)) else old(folded);
              if old(finished) then folded == lengths && closedAt == old(closedAt) else Finished(lengths)
    {
      hide Committed, Trellis, Sized, FoldedAt, Finished;
      if tail.Some? {
        PushFrame(tail.value);
      }
      if !finished {
        FinishText();
      }
      out := CopyNew(outCap);
    }

    /** What finishing makes of the lengths folded before. */
    ghost predicate Finished(before: seq<int>)
      reads `frames, `folded, `closedAt
      requires Frames(frames)
    {
      var runs := BestRuns(frames);
      if forall i :: 0 <= i < |before| && i < |runs| ==> runs[i].len == before[i]
      then folded == (if |before| <= |runs| then Lengths(runs, |runs|) else before) && closedAt == |folded|
      else folded == before && closedAt == -1
    }

    method FinishText()
      requires Valid() && !finished
      modifies this`elems, this`text, this`pat, this`marks, this`adaptCount, this`means, this`hazards, this`folded,
               this`finished, this`closedAt
      ensures Valid() && finished && old(text) <= text && Finished(old(folded))
    {
      hide Trellis, Sized, BestRuns, Committed;
      NotClosed();
      var n := Backtrace();
      var moved := PrefixMoved(n);
      if moved {
        MarkFinished();
        return;
      }
      FoldRest(n);
      CloseOpen();
    }

    lemma NotClosed()
      requires Committed() && !finished
      ensures closedAt == -1
    {
      hide FoldAll;
    }

    method MarkFinished()
      requires Committed()
      modifies this`finished
      ensures Committed() && finished
    {
      hide FoldAll;
      finished := true;
    }

    method FoldRest(n: nat)
      requires Committed() && n == |elems| <= ELEM_MAX
      requires forall i :: 0 <= i < |folded| && i < n ==> elems[i].len == folded[i]
      modifies this`text, this`pat, this`marks, this`adaptCount, this`means, this`hazards, this`folded
      ensures Committed() && old(text) <= text
      ensures folded == if |old(folded)| <= n then Lengths(elems, n) else old(folded)
    {
      hide Committed;
      if n > |folded| {
        assert folded == Lengths(elems, |folded|);
        LengthsPrefix(elems, |folded|, n);
        FoldElements(n);
      } else if n == |folded| {
        assert folded == Lengths(elems, n);
      }
    }

    /** The open character is closed. */
    method CloseOpen()
      requires Committed() && closedAt == -1
      modifies this`text, this`pat, this`finished, this`closedAt
      ensures Committed() && finished && closedAt == |folded| && old(text) <= text
    {
      hide FoldAll;
      ClosedNow(model, folded);
      TextGrows(model, folded, folded, -1);
      ghost var before := text;
      if |pat| > 0 {
        var ch := Lookup(pat, 0);
        if ch.Some? {
          text := AppendText(text, ch.value);
        }
        pat := "";
      }
      finished, closedAt := true, |folded|;
      assert FoldNow() == Closed(old(FoldNow()));
      PrefixSlice(before, text, textRead);
    }
  }

  /** The lengths folded after a frame: once there are enough frames, a look behind the lag. */
  ghost function FoldedAt(frames: seq<Frame>, folded: seq<int>): seq<int>
    requires Frames(frames)
  {
    if |frames| > COMMIT_LAG + 8 then CommittedNow(BestRuns(frames), folded, |frames| - 1 - COMMIT_LAG) else folded
  }

  /** The lengths that are committed after a look at the runs found now. */
  ghost function CommittedNow(elems: seq<Elem>, folded: seq<int>, limit: int): seq<int> {
    if |folded| <= |elems| && Lengths(elems, |folded|) == folded
    then Lengths(elems, KeepCount(elems, limit, |folded|, |folded|)) else folded
  }

  lemma CommittedCases(elems: seq<Elem>, folded: seq<int>, limit: int)
    ensures (elems == [] || |elems| < |folded|
             || exists i :: 0 <= i < |folded| && i < |elems| && elems[i].len != folded[i])
            ==> CommittedNow(elems, folded, limit) == folded
    ensures |folded| <= |elems| && (forall i :: 0 <= i < |folded| ==> elems[i].len == folded[i]) ==>
              && Lengths(elems, |folded|) == folded
              && CommittedNow(elems, folded, limit) == Lengths(elems, KeepCount(elems, limit, |folded|, |folded|))
  {
    if i :| 0 <= i < |folded| && i < |elems| && elems[i].len != folded[i] {
      assert |folded| <= |elems| ==> Lengths(elems, |folded|)[i] != folded[i];
    }
  }

  lemma LengthsPrefix(elems: seq<Elem>, n: nat, keep: nat)
    requires n <= keep <= |elems|
    ensures Lengths(elems, n) + Lengths(elems, keep)[n..] == Lengths(elems, keep)
    ensures n == keep ==> Lengths(elems, n) == Lengths(elems, keep)
  {
  }

  lemma CommittedGrows(elems: seq<Elem>, folded: seq<int>, limit: int)
    ensures folded <= CommittedNow(elems, folded, limit)
  {
    if |folded| <= |elems| && Lengths(elems, |folded|) == folded {
      LengthsPrefix(elems, |folded|, KeepCount(elems, limit, |folded|, |folded|));
    }
  }

  /** The runs of the best path are its segments. */
  lemma BestRunsPartition(frames: seq<Frame>)
    requires Frames(frames) && 0 < |frames| && |Runs(BestPath(frames), 0)| <= ELEM_MAX
    ensures Legal(BestPath(frames)) && Partition(BestPath(frames), 0, BestRuns(frames))
  {
    Reachable(frames, |frames| - 1);
    TraceAttains(frames, |frames| - 1, BestState(Column(frames, |frames| - 1), NSTATE));
    var path := BestPath(frames);
    assert Legal(path) && Dur(path[0]) == 1;
    hide Column, BestPath, Legal, Runs, Trace, Partition;
    RunsPartition(path, 0);
  }

  /** What a look at the runs of a path commits: lengths committed before are never changed; where
      the runs still begin with them, the committed runs then are those and all that ended by the
      limit. */
  lemma CommittedRuns(path: seq<int>, runs: seq<Elem>, folded: seq<int>, limit: int)
    requires Partition(path, 0, runs)
    ensures var kept := CommittedNow(runs, folded, limit);
            kept == folded
            || (&& folded < kept && |kept| <= |runs| && kept == Lengths(runs, |kept|)
                && (forall k :: |folded| <= k < |kept| ==> runs[k].end <= limit))
    ensures |folded| <= |runs| && (forall i :: 0 <= i < |folded| ==> runs[i].len == folded[i]) ==>
              forall k :: 0 <= k < |runs| && runs[k].end <= limit ==> k < |CommittedNow(runs, folded, limit)|
  {
    CommittedGrows(runs, folded, limit);
    CommittedCases(runs, folded, limit);
    if |folded| <= |runs| && Lengths(runs, |folded|) == folded {
      hide Partition;
      EndsIncrease(path, runs, KeepCount(runs, limit, |folded|, |folded|));
    }
  }

  lemma {:induction false} EndsIncrease(path: seq<int>, runs: seq<Elem>, k: nat)
    requires Partition(path, 0, runs) && k <= |runs|
    ensures forall m :: 0 <= m < k ==> runs[m].end <= runs[k - 1].end
  {
    if k > 1 {
      EndsIncrease(path, runs, k - 1);
      assert RunAt(path, 0, runs, k - 1);
    }
  }

  /** The runs of the best path over all frames, as far as they fit. */
  ghost function BestRuns(frames: seq<Frame>): (elems: seq<Elem>)
    requires Frames(frames)
    ensures |elems| <= ELEM_MAX
  {
    if frames == [] then [] else Take(Runs(BestPath(frames), 0))
  }

  lemma TextKept(model: Model, f: Fold, length: int)
    requires |f.means| == 5
    ensures f.text <= FoldOne(model, f, length).text
  {
    hide Adapt, Model.Classify;
  }

  lemma PrefixSlice(before: string, after: string, n: nat)
    requires before <= after && n <= |before|
    ensures after[..n] == before[..n]
  {
  }

  lemma TraceStep(frames: seq<Frame>, t: nat, path: seq<int>)
    requires Frames(frames) && 0 < t < |frames| && path != [] && IsState(path[0])
    ensures Trace(frames, t, path[0]) + path[1..]
         == Trace(frames, t - 1, Pred(frames, t, path[0])) + ([Pred(frames, t, path[0])] + path)[1..]
  {
    hide Pred;
    assert ([Pred(frames, t, path[0])] + path)[1..] == path;
    assert [path[0]] + path[1..] == path;
  }

  lemma TraceEnd(frames: seq<Frame>, path: seq<int>)
    requires Frames(frames) && 0 < |frames| && path != [] && IsState(path[0])
    ensures Trace(frames, 0, path[0]) + path[1..] == path
  {
  }

  ghost predicate PredRow(frames: seq<Frame>, pred: seq<seq<int>>, t: nat)
    requires Frames(frames)
  {
    0 < t < |frames| && t < |pred| && |pred[t]| == NSTATE
    && forall s :: 0 <= s < NSTATE ==> pred[t][s] == Pred(frames, t, s)
  }

  /** A new frame does not change the columns before it. */
  lemma {:induction false} ColumnPrefix(frames: seq<Frame>, f: Frame, t: nat)
    requires Frames(frames) && f.hazards.Ok() && t < |frames|
    ensures Frames(frames + [f]) && Column(frames + [f], t) == Column(frames, t)
  {
    hide Next;
    if t > 0 { ColumnPrefix(frames, f, t - 1); }
  }

  lemma RowsGrow(frames: seq<Frame>, f: Frame, pred: seq<seq<int>>, row: seq<int>)
    requires Frames(frames) && f.hazards.Ok() && |pred| == |frames| && |row| == NSTATE
    requires forall t :: 0 < t < |frames| ==> PredRow(frames, pred, t)
    requires 0 < |frames| ==>
               forall s :: 0 <= s < NSTATE ==> row[s] == Next(f, Column(frames, |frames| - 1), s).state
    ensures Frames(frames + [f])
    ensures forall t :: 0 < t <= |frames| ==> PredRow(frames + [f], pred + [row], t)
  {
    hide Next, Column;
    forall t | 0 < t <= |frames| ensures PredRow(frames + [f], pred + [row], t) {
      ColumnPrefix(frames, f, t - 1);
      if t < |frames| { assert PredRow(frames, pred, t); }
    }
  }

  // ---------------------------------------------------------------- what a probability does

  ghost predicate Rising(ln: real -> real) {
    forall x, y :: 0.0 < x <= y ==> ln(x) <= ln(y)
  }

  /** A greater mark probability speaks for a mark and against a space; between 0.0001 and 0.9999 the
      emissions are the logarithms of the two probabilities. */
  lemma FrameMonotone(model: Model, hazards: Hazards, p: real, q: real)
    requires Rising(model.ln) && p <= q
    ensures var f, g := FrameFor(model, hazards, p), FrameFor(model, hazards, q);
            f.onMark <= g.onMark && g.onSpace <= f.onSpace && f.hazards == g.hazards == hazards
    ensures 0.0001 <= p <= 0.9999 ==> FrameFor(model, hazards, p) == Frame(model.ln(p), model.ln(1.0 - p), hazards)
  {
  }

  /** One frame made of a greater mark probability never lowers the weight of a path that is marked
      there, and never raises that of one that is not. */
  lemma {:induction false} MarkSpeaksForMark(model: Model, hazards: Hazards, frames: seq<Frame>, path: seq<int>, n: nat, t: nat, p: real, q: real)
    requires Frames(frames) && hazards.Ok() && Rising(model.ln) && p <= q
    requires 0 < n <= |path| && n <= |frames| && t < |frames|
    requires forall i :: 0 <= i < |path| ==> IsState(path[i])
    ensures var low, high := frames[t := FrameFor(model, hazards, p)], frames[t := FrameFor(model, hazards, q)];
            && Frames(low) && Frames(high)
            && (t < |path| && IsMark(path[t]) ==> Weight(low, path, n) <= Weight(high, path, n))
            && (t < |path| && !IsMark(path[t]) ==> Weight(high, path, n) <= Weight(low, path, n))
            && (n <= t ==> Weight(low, path, n) == Weight(high, path, n))
  {
    hide FrameFor, Rising, Dur;
    FrameMonotone(model, hazards, p, q);
    if 1 < n {
      MarkSpeaksForMark(model, hazards, frames, path, n - 1, t, p, q);
    }
  }
}
