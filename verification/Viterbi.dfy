/** The explicit-duration trellis of the channel decoder: a state is a mark or a space together
    with how long it has lasted, up to a cap that loops on itself. `Column` is the dynamic
    program; `Weight` and `Legal` say what it is meant to maximise over. */
module Viterbi {

  const MARK_MAX := 48
  const SPACE_MAX := 96
  const NSTATE := MARK_MAX + SPACE_MAX

  /** A log score; `NegInf` is the sentinel of a state no path reaches. */
  datatype Score = NegInf | Fin(value: real)

  function Add(s: Score, x: real): Score {
    if s.NegInf? then NegInf else Fin(s.value + x)
  }

  predicate Greater(a: Score, b: Score) {
    a.Fin? && (b.NegInf? || b.value < a.value)
  }

  /** Log probabilities of ending and of continuing a run of each length, from index 1. */
  datatype Hazards = Hazards(endMark: seq<real>, contMark: seq<real>, endSpace: seq<real>, contSpace: seq<real>) {
    predicate Ok() {
      |endMark| == |contMark| == MARK_MAX + 1 && |endSpace| == |contSpace| == SPACE_MAX + 1
    }
  }

  /** One frame: the two emissions, and the hazards in force when it arrived. */
  datatype Frame = Frame(onMark: real, onSpace: real, hazards: Hazards)

  ghost predicate Frames(frames: seq<Frame>) {
    forall t :: 0 <= t < |frames| ==> frames[t].hazards.Ok()
  }

  // ---------------------------------------------------------------- states

  predicate IsState(s: int) { 0 <= s < NSTATE }
  predicate IsMark(s: int) { s < MARK_MAX }
  function Dur(s: int): int { if IsMark(s) then s + 1 else s - MARK_MAX + 1 }
  function Cap(mark: bool): int { if mark then MARK_MAX else SPACE_MAX }
  function Base(mark: bool): int { if mark then 0 else MARK_MAX }
  function State(mark: bool, dur: int): int { Base(mark) + dur - 1 }

  function Ends(h: Hazards, mark: bool): seq<real> { if mark then h.endMark else h.endSpace }
  function Conts(h: Hazards, mark: bool): seq<real> { if mark then h.contMark else h.contSpace }
  function Emission(f: Frame, mark: bool): real { if mark then f.onMark else f.onSpace }

  // ---------------------------------------------------------------- what is maximised

  /** May state `b` follow state `a`? A run starts with duration 1 behind the other kind, and
      grows by one per frame until the cap, where it stays. */
  predicate Edge(a: int, b: int)
    requires IsState(a) && IsState(b)
  {
    if Dur(b) == 1 then IsMark(a) != IsMark(b)
    else IsMark(a) == IsMark(b) && (Dur(a) + 1 == Dur(b) || (a == b && Dur(b) == Cap(IsMark(b))))
  }

  function EdgeWeight(f: Frame, a: int, b: int): real
    requires IsState(a) && IsState(b) && f.hazards.Ok()
  {
    (if Dur(b) == 1 then Ends(f.hazards, IsMark(a)) else Conts(f.hazards, IsMark(a)))[Dur(a)] + Emission(f, IsMark(b))
  }

  predicate Legal(path: seq<int>) {
    && (forall t :: 0 <= t < |path| ==> IsState(path[t]))
    && (0 < |path| ==> Dur(path[0]) == 1)
    && (forall t :: 0 < t < |path| ==> Edge(path[t - 1], path[t]))
  }

  /** The weight of the first `n` frames of a path. */
  ghost function Weight(frames: seq<Frame>, path: seq<int>, n: nat): real
    requires Frames(frames) && 0 < n <= |path| && n <= |frames|
    requires forall t :: 0 <= t < |path| ==> IsState(path[t])
  {
    if n == 1 then Emission(frames[0], IsMark(path[0]))
    else Weight(frames, path, n - 1) + EdgeWeight(frames[n - 1], path[n - 2], path[n - 1])
  }

  // ---------------------------------------------------------------- the dynamic program

  datatype Best = Best(score: Score, state: int)

  /** The best way to end a run of one kind, over durations up to `n`. */
  function BestEnd(column: seq<Score>, ends: seq<real>, base: int, n: nat): (best: Best)
    requires 0 <= base && base + n <= |column| && n < |ends|
    ensures best.state == base || base <= best.state < base + n
    ensures best.score.Fin? ==> 0 < n && best.state < base + n
                                && best.score == Add(column[best.state], ends[best.state - base + 1])
    ensures forall d :: 1 <= d <= n ==> !Greater(Add(column[base + d - 1], ends[d]), best.score)
  {
    if n == 0 then Best(NegInf, base)
    else
      var best := BestEnd(column, ends, base, n - 1);
      var score := Add(column[base + n - 1], ends[n]);
      if Greater(score, best.score) then Best(score, base + n - 1) else best
  }

  /** The score and the predecessor of one state after a frame. */
  function Next(f: Frame, column: seq<Score>, s: int): Best
    requires f.hazards.Ok() && |column| == NSTATE && IsState(s)
  {
    var mark, dur := IsMark(s), Dur(s);
    var here := Emission(f, mark);
    if dur == 1 then
      var best := BestEnd(column, Ends(f.hazards, !mark), Base(!mark), Cap(!mark));
      Best(Add(best.score, here), best.state)
    else
      var grown := Add(column[s - 1], Conts(f.hazards, mark)[dur - 1] + here);
      var stay := Add(column[s], Conts(f.hazards, mark)[dur] + here);
      if dur == Cap(mark) && Greater(stay, grown) then Best(stay, s) else Best(grown, s - 1)
  }

  /** The scores of all states after frame `t`. */
  ghost function Column(frames: seq<Frame>, t: nat): (column: seq<Score>)
    requires Frames(frames) && t < |frames|
    ensures |column| == NSTATE
  {
    if t == 0 then seq(NSTATE, s => if Dur(s) == 1 then Fin(Emission(frames[0], IsMark(s))) else NegInf)
    else
      var before := Column(frames, t - 1);
      seq(NSTATE, s requires 0 <= s < NSTATE => Next(frames[t], before, s).score)
  }

  ghost function Pred(frames: seq<Frame>, t: nat, s: int): (p: int)
    requires Frames(frames) && 0 < t < |frames| && IsState(s)
    ensures IsState(p)
  {
    Next(frames[t], Column(frames, t - 1), s).state
  }

  /** The path the back pointers give for state `s` at frame `t`. */
  ghost function Trace(frames: seq<Frame>, t: nat, s: int): (path: seq<int>)
    requires Frames(frames) && t < |frames| && IsState(s)
    ensures |path| == t + 1 && path[t] == s
    ensures forall i :: 0 <= i <= t ==> IsState(path[i])
  {
    if t == 0 then [s] else Trace(frames, t - 1, Pred(frames, t, s)) + [s]
  }

  // ---------------------------------------------------------------- what a run weighs

  /** What frames `1` to `d - 1` of a run that starts at frame `t` add: the hazard of going on and
      the emission of its kind. */
  ghost function GoingOn(frames: seq<Frame>, mark: bool, t: nat, d: nat): real
    requires Frames(frames) && 0 < d <= Cap(mark) && t + d <= |frames|
  {
    if d == 1 then 0.0
    else
      var f := frames[t + d - 1];
      GoingOn(frames, mark, t, d - 1)
      + (if mark then f.hazards.contMark[d - 1] + f.onMark else f.hazards.contSpace[d - 1] + f.onSpace)
  }

  /** Frames `t` to `t + d - 1` are one run from its start. */
  ghost predicate RunFrom(path: seq<int>, mark: bool, t: nat, d: nat) {
    0 < d <= Cap(mark) && t + d <= |path| && forall k :: t <= k < t + d ==> path[k] == State(mark, k - t + 1)
  }

  /** A run of `d` frames, up to the cap, weighs the hazards of going on at each length, one hazard of
      ending at length `d`, and an emission for every frame; behind the cap it goes on at that. */
  lemma {:induction false} RunWeighs(frames: seq<Frame>, path: seq<int>, mark: bool, t: nat, d: nat)
    requires Frames(frames) && Legal(path) && |path| == |frames| && RunFrom(path, mark, t, d)
    ensures Weight(frames, path, t + d) == Weight(frames, path, t + 1) + GoingOn(frames, mark, t, d)
    ensures t == 0 ==> Weight(frames, path, 1) == if mark then frames[0].onMark else frames[0].onSpace
    ensures t + d < |path| && path[t + d] == State(!mark, 1) ==>
              var f := frames[t + d];
              Weight(frames, path, t + d + 1) == Weight(frames, path, t + d)
                + (if mark then f.hazards.endMark[d] + f.onSpace else f.hazards.endSpace[d] + f.onMark)
    ensures t + d < |path| && d == Cap(mark) && path[t + d] == path[t + d - 1] ==>
              var f := frames[t + d];
              Weight(frames, path, t + d + 1) == Weight(frames, path, t + d)
                + (if mark then f.hazards.contMark[48] + f.onMark else f.hazards.contSpace[96] + f.onSpace)
  {
    if 1 < d {
      RunWeighs(frames, path, mark, t, d - 1);
    }
  }

  // ---------------------------------------------------------------- optimality

  /** No step into `b` beats its new score. */
  lemma StepBound(f: Frame, column: seq<Score>, a: int, b: int)
    requires f.hazards.Ok() && |column| == NSTATE && IsState(a) && IsState(b)
    requires Edge(a, b) && column[a].Fin?
    ensures Next(f, column, b).score.Fin?
    ensures column[a].value + EdgeWeight(f, a, b) <= Next(f, column, b).score.value
  {
    if Dur(b) == 1 {
      var mark := !IsMark(b);
      var best := BestEnd(column, Ends(f.hazards, mark), Base(mark), Cap(mark));
      assert !Greater(Add(column[Base(mark) + Dur(a) - 1], Ends(f.hazards, mark)[Dur(a)]), best.score);
    }
  }

  /** The predecessor attains it. */
  lemma StepAttained(f: Frame, column: seq<Score>, b: int)
    requires f.hazards.Ok() && |column| == NSTATE && IsState(b)
    requires Next(f, column, b).score.Fin?
    ensures var a := Next(f, column, b).state;
            && IsState(a) && Edge(a, b) && column[a].Fin?
            && Next(f, column, b).score.value == column[a].value + EdgeWeight(f, a, b)
  {
  }

  lemma {:induction false} WeightPrefix(frames: seq<Frame>, path: seq<int>, other: seq<int>, n: nat)
    requires Frames(frames) && 0 < n <= |path| && n <= |other| && n <= |frames|
    requires forall t :: 0 <= t < |path| ==> IsState(path[t])
    requires forall t :: 0 <= t < |other| ==> IsState(other[t])
    requires forall t :: 0 <= t < n ==> path[t] == other[t]
    ensures Weight(frames, path, n) == Weight(frames, other, n)
  {
    if n > 1 { WeightPrefix(frames, path, other, n - 1); }
  }

  /** Upper bound: every legal path weighs at most the score of the state it ends in. */
  lemma {:induction false} ScoreBounds(frames: seq<Frame>, path: seq<int>, n: nat)
    requires Frames(frames) && Legal(path) && 0 < n <= |path| && n <= |frames|
    ensures Column(frames, n - 1)[path[n - 1]].Fin?
    ensures Weight(frames, path, n) <= Column(frames, n - 1)[path[n - 1]].value
  {
    if n > 1 {
      ScoreBounds(frames, path, n - 1);
      StepBound(frames[n - 1], Column(frames, n - 2), path[n - 2], path[n - 1]);
    }
  }

  lemma ColumnStep(frames: seq<Frame>, t: nat, s: int)
    requires Frames(frames) && 0 < t < |frames| && IsState(s)
    ensures Column(frames, t)[s] == Next(frames[t], Column(frames, t - 1), s).score
  {
    hide Next;
  }

  /** One legal edge more. */
  lemma PathExtends(path: seq<int>, s: int)
    requires Legal(path) && path != [] && IsState(s) && Edge(path[|path| - 1], s)
    ensures Legal(path + [s])
  {
    hide Edge;
    var longer := path + [s];
    forall t | 0 < t < |longer| ensures Edge(longer[t - 1], longer[t]) {
      assert longer[t - 1] == path[t - 1];
    }
  }

  lemma WeightExtends(frames: seq<Frame>, path: seq<int>, s: int)
    requires Frames(frames) && Legal(path) && path != [] && |path| < |frames| && IsState(s)
    ensures forall t :: 0 <= t < |path + [s]| ==> IsState((path + [s])[t])
    ensures Weight(frames, path + [s], |path| + 1)
         == Weight(frames, path, |path|) + EdgeWeight(frames[|path|], path[|path| - 1], s)
  {
    hide EdgeWeight, Edge;
    WeightPrefix(frames, path, path + [s], |path|);
  }

  lemma TraceNext(frames: seq<Frame>, t: nat, s: int)
    requires Frames(frames) && 0 < t < |frames| && IsState(s)
    ensures Trace(frames, t, s) == Trace(frames, t - 1, Pred(frames, t, s)) + [s]
    ensures Pred(frames, t, s) == Next(frames[t], Column(frames, t - 1), s).state
  {
    hide Next, Column;
  }

  /** A single frame: only runs of one frame are reachable. */
  lemma TraceFirst(frames: seq<Frame>, s: int)
    requires Frames(frames) && 0 < |frames| && IsState(s) && Column(frames, 0)[s].Fin?
    ensures Legal(Trace(frames, 0, s)) && Weight(frames, Trace(frames, 0, s), 1) == Column(frames, 0)[s].value
  {
  }

  /** Attained: the back pointers of a reachable state give a legal path of exactly its score. */
  lemma {:induction false} TraceAttains(frames: seq<Frame>, t: nat, s: int)
    requires Frames(frames) && t < |frames| && IsState(s) && Column(frames, t)[s].Fin?
    ensures Legal(Trace(frames, t, s))
    ensures Weight(frames, Trace(frames, t, s), t + 1) == Column(frames, t)[s].value
  {
    hide Next, EdgeWeight, Edge, Column, Weight, Trace, Pred, Legal;
    if t == 0 {
      TraceFirst(frames, s);
    } else {
      TraceNext(frames, t, s);
      ColumnStep(frames, t, s);
      assert frames[t].hazards.Ok();
      StepAttained(frames[t], Column(frames, t - 1), s);
      var p := Pred(frames, t, s);
      TraceAttains(frames, t - 1, p);
      PathExtends(Trace(frames, t - 1, p), s);
      WeightExtends(frames, Trace(frames, t - 1, p), s);
    }
  }

  /** The first state of the highest score. */
  function BestState(column: seq<Score>, n: nat): (s: nat)
    requires 0 < n <= |column|
    ensures s < n
    ensures forall k :: 0 <= k < n ==> !Greater(column[k], column[s])
    ensures forall k :: 0 <= k < s ==> Greater(column[s], column[k])
  {
    if n == 1 then 0
    else
      var s := BestState(column, n - 1);
      if Greater(column[n - 1], column[s]) then n - 1 else s
  }

  ghost function BestPath(frames: seq<Frame>): (path: seq<int>)
    requires Frames(frames) && 0 < |frames|
    ensures |path| == |frames|
  {
    Trace(frames, |frames| - 1, BestState(Column(frames, |frames| - 1), NSTATE))
  }

  /** Some state is always reachable: every frame may start a new run. */
  lemma {:induction false} Reachable(frames: seq<Frame>, t: nat)
    requires Frames(frames) && t < |frames|
    ensures Column(frames, t)[State(true, 1)].Fin? && Column(frames, t)[State(false, 1)].Fin?
  {
    if t > 0 {
      Reachable(frames, t - 1);
      StepBound(frames[t], Column(frames, t - 1), State(false, 1), State(true, 1));
      StepBound(frames[t], Column(frames, t - 1), State(true, 1), State(false, 1));
    }
  }

  /** Viterbi optimality: the traced path is legal and no legal path weighs more, whatever the
      hazards were from frame to frame. */
  lemma ViterbiOptimal(frames: seq<Frame>, path: seq<int>)
    requires Frames(frames) && 0 < |frames| == |path| && Legal(path)
    ensures Legal(BestPath(frames))
    ensures Weight(frames, path, |frames|) <= Weight(frames, BestPath(frames), |frames|)
  {
    var t := |frames| - 1;
    var column := Column(frames, t);
    var best := BestState(column, NSTATE);
    Reachable(frames, t);
    assert !Greater(column[State(true, 1)], column[best]);
    TraceAttains(frames, t, best);
    ScoreBounds(frames, path, |frames|);
  }
}
