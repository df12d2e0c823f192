/** What one stitcher call means, on a timeline that is never cut: windows add weighted scores
    to the frames that are not frozen yet, and text is committed behind the frozen edge.
    `StreamEqualsBatch` is the main result. The class in Stitcher.dfy refines these functions. */
module Stitching {
  import opened Options
  import opened Integers
  import opened CtcGreedy

  const MIN_VIEW_WEIGHT := 0.001
  const LEFT_RAMP_SECONDS := 2.0
  const RIGHT_RAMP_SECONDS := 1.0
  const UNCOVERED_LOG_PROB := -30.0
  const FINAL_LIMIT := 2_000_000_000

  /** The accumulated scores of one frame. */
  datatype Acc = Acc(weight: real, sums: seq<real>)

  datatype Settings = Settings(al: Alphabet, framesPerSecond: real, freezeGuard: nat) {
    ghost predicate Usable() {
      al.Usable() && 0.0 < framesPerSecond
    }
  }

  /** Where the stream stands: frames below `frozen` never change again, frames below
      `committed` have been read, and `carry` and `hasText` is all that is kept of them. */
  datatype Edge = Edge(frozen: nat, committed: nat, carry: Carry, hasText: bool)

  datatype Stitch = Stitch(rows: seq<Acc>, edge: Edge)

  const EMPTY := Stitch([], Edge(0, 0, START, false))

  // ---------------------------------------------------------------- adding a window

  function Smoothstep(value: real): (t: real)
    ensures 0.0 <= t <= 1.0
  {
    var t := if value < 0.0 then 0.0 else if value > 1.0 then 1.0 else value;
    SmoothBounds(t);
    t * t * (3.0 - 2.0 * t)
  }

  lemma SmoothBounds(t: real)
    requires 0.0 <= t <= 1.0
    ensures 0.0 <= t * t * (3.0 - 2.0 * t) <= 1.0
  {
    var u, v := t * t, 1.0 - t;
    assert 0.0 <= u;
    assert 0.0 <= u * (3.0 - 2.0 * t);
    assert 0.0 <= v * v;
    assert 0.0 <= (v * v) * (1.0 + 2.0 * t);
    assert v * v == 1.0 - 2.0 * t + u;
    assert u * (3.0 - 2.0 * t) == 3.0 * u - 2.0 * (u * t);
    assert (v * v) * (1.0 + 2.0 * t) == 1.0 - 3.0 * u + 2.0 * (u * t);
  }

  /** How much frame `frame` of a window of `count` frames counts. The first window has no left
      edge and the final one no right edge. */
  function ViewWeight(framesPerSecond: real, start: nat, frame: nat, count: nat, isFinal: bool): (w: real)
    requires 0.0 < framesPerSecond && frame < count
    ensures MIN_VIEW_WEIGHT <= w
  {
    var left := if start == 0 then 1.0 else Smoothstep(frame as real / framesPerSecond / LEFT_RAMP_SECONDS);
    var right := if isFinal then 1.0
                 else Smoothstep((count - 1 - frame) as real / framesPerSecond / RIGHT_RAMP_SECONDS);
    if left * right < MIN_VIEW_WEIGHT then MIN_VIEW_WEIGHT else left * right
  }

  function Blank(classes: nat): Acc {
    Acc(0.0, seq(classes, _ => 0.0))
  }

  function AddRow(acc: Acc, weight: real, row: seq<real>): Acc
    requires |acc.sums| == |row|
  {
    Acc(acc.weight + weight, seq(|row|, c requires 0 <= c < |row| => acc.sums[c] + weight * row[c]))
  }

  ghost predicate Rows(rows: seq<Acc>, classes: int) {
    forall i :: 0 <= i < |rows| ==> |rows[i].sums| == classes
  }

  ghost predicate Matrix(logProbs: seq<seq<real>>, classes: int) {
    forall i :: 0 <= i < |logProbs| ==> |logProbs[i]| == classes
  }

  ghost function RowAt(rows: seq<Acc>, classes: nat, i: nat): Acc {
    if i < |rows| then rows[i] else Blank(classes)
  }

  /** The score row of frame `i` after a window. */
  ghost function NewRow(cfg: Settings, s: Stitch, start: nat, logProbs: seq<seq<real>>, isFinal: bool, i: nat): Acc
    requires cfg.Usable() && Rows(s.rows, cfg.al.classes) && Matrix(logProbs, cfg.al.classes)
  {
    var acc := RowAt(s.rows, cfg.al.classes, i);
    if s.edge.frozen <= i && start <= i < start + |logProbs|
    then AddRow(acc, ViewWeight(cfg.framesPerSecond, start, i - start, |logProbs|, isFinal), logProbs[i - start])
    else acc
  }

  ghost function AddWindow(cfg: Settings, s: Stitch, start: nat, logProbs: seq<seq<real>>, isFinal: bool): (t: Stitch)
    requires cfg.Usable() && Rows(s.rows, cfg.al.classes) && Matrix(logProbs, cfg.al.classes)
    ensures Rows(t.rows, cfg.al.classes) && |s.rows| <= |t.rows|
    ensures t.edge == s.edge.(frozen := t.edge.frozen)
    ensures s.edge.frozen <= |s.rows| ==> s.edge.frozen <= t.edge.frozen <= |t.rows|
    ensures forall i :: 0 <= i < s.edge.frozen && i < |s.rows| ==> t.rows[i] == s.rows[i]
  {
    var end := start + |logProbs|;
    if |logProbs| == 0 then
      if isFinal then s.(edge := s.edge.(frozen := |s.rows|)) else s
    else
      var rows := seq(Max(|s.rows|, end), i requires 0 <= i => NewRow(cfg, s, start, logProbs, isFinal, i));
      Stitch(rows, s.edge.(frozen := if isFinal then |rows| else Max(s.edge.frozen, end - cfg.freezeGuard)))
  }

  // ---------------------------------------------------------------- reading the scores

  /** The index of the first largest value among the first `n`. */
  function Strongest(row: seq<real>, n: nat): (best: nat)
    requires 0 < n <= |row|
    ensures best < n
    ensures forall k :: 0 <= k < n ==> row[k] <= row[best]
    ensures forall k :: 0 <= k < best ==> row[k] < row[best]
  {
    if n == 1 then 0
    else
      var best := Strongest(row, n - 1);
      if row[n - 1] > row[best] then n - 1 else best
  }

  function ScoreRow(al: Alphabet, acc: Acc): (row: seq<real>)
    requires |acc.sums| == al.classes
    ensures |row| == al.classes
  {
    if acc.weight > 0.0 then seq(al.classes, c requires 0 <= c < al.classes => acc.sums[c] / acc.weight)
    else seq(al.classes, c => if c == al.blank then 0.0 else UNCOVERED_LOG_PROB)
  }

  function LabelOf(al: Alphabet, acc: Acc): int
    requires |acc.sums| == al.classes && 0 < al.classes
  {
    Strongest(ScoreRow(al, acc), al.classes)
  }

  /** The strongest class of every frame. */
  ghost function LabelsOf(al: Alphabet, rows: seq<Acc>): (labels: seq<int>)
    requires Rows(rows, al.classes) && 0 < al.classes
    ensures |labels| == |rows| && al.Labels(labels)
    ensures forall i :: 0 <= i < |rows| ==> labels[i] == LabelOf(al, rows[i])
  {
    seq(|rows|, i requires 0 <= i < |rows| => LabelOf(al, rows[i]))
  }

  // ---------------------------------------------------------------- committing text

  ghost function Shift(spans: seq<Span>, offset: int): (shifted: seq<Span>)
    ensures |shifted| == |spans|
    ensures forall i :: 0 <= i < |spans| ==>
              shifted[i] == Span(spans[i].character, spans[i].startFrame + offset, spans[i].endFrame + offset)
  {
    seq(|spans|, i requires 0 <= i < |spans| =>
          Span(spans[i].character, spans[i].startFrame + offset, spans[i].endFrame + offset))
  }

  /** How many spans may be committed: up to the last character before the first span that
      could still grow or change. */
  ghost function CommitCount(spans: seq<Span>, limit: int, i: nat, count: nat): (k: nat)
    requires count <= i <= |spans|
    requires 0 < count ==> spans[count - 1].character != ' '
    requires forall m :: 0 <= m < i ==> spans[m].endFrame + 1 < limit
    requires forall m :: count <= m < i ==> spans[m].character == ' '
    ensures k <= |spans|
    ensures 0 < k ==> spans[k - 1].character != ' ' && spans[k - 1].endFrame + 1 < limit
    ensures (forall m :: 0 <= m < |spans| ==> spans[m].endFrame + 1 < limit) ==>
              forall m :: k <= m < |spans| ==> spans[m].character == ' '
    decreases |spans| - i
  {
    if i == |spans| || limit <= spans[i].endFrame + 1 then count
    else CommitCount(spans, limit, i + 1, if spans[i].character != ' ' then i + 1 else count)
  }

  /** The carried state after passing frames that hold no character. */
  ghost function Release(al: Alphabet, labels: seq<int>, carry: Carry, start: int, end: int): Carry
    requires 0 <= start && end <= |labels|
    decreases end - start
  {
    if end <= start then carry
    else
      var before := Release(al, labels, carry, start, end - 1);
      if labels[end - 1] == al.space then Carry(Space, 0) else Carry(before.kind, before.blanks + 1)
  }

  ghost predicate Takes(al: Alphabet, labels: seq<int>, e: Edge) {
    al.Usable() && al.Labels(labels) && e.committed <= e.frozen <= |labels|
  }

  /** The spans one call sees, in timeline frames. */
  ghost function Seen(al: Alphabet, labels: seq<int>, e: Edge): (spans: seq<Span>)
    requires Takes(al, labels, e)
    ensures forall m :: 0 <= m < |spans| ==> e.committed <= spans[m].startFrame <= spans[m].endFrame < |labels|
  {
    SpanFrames(al, e.carry, labels[e.committed..], 0);
    Shift(SpansFrom(al, e.carry, labels[e.committed..], 0), e.committed)
  }

  ghost function TakeCount(spans: seq<Span>, e: Edge, isFinal: bool): (k: nat)
    ensures k <= |spans|
    ensures 0 < k ==> spans[k - 1].character != ' '
    ensures 0 < k && !isFinal ==> spans[k - 1].endFrame + 1 < e.frozen
    ensures isFinal && (forall m :: 0 <= m < |spans| ==> spans[m].endFrame + 1 < FINAL_LIMIT) ==>
              forall m :: k <= m < |spans| ==> spans[m].character == ' '
  {
    CommitCount(spans, if isFinal then FINAL_LIMIT else e.frozen, 0, 0)
  }

  /** The first half of `take_text`: `k` spans are committed. */
  ghost function Commit(spans: seq<Span>, e: Edge, k: nat): Edge
    requires k <= |spans| && (0 < k ==> 0 <= spans[k - 1].endFrame)
  {
    if k == 0 then e
    else e.(hasText := true, committed := spans[k - 1].endFrame + 1, carry := Carry(Char, 0))
  }

  /** How far the second half may pass frames that hold no character. One frame in front of the
      next character, or of the frozen edge, is kept back. */
  ghost function ReleaseEnd(spans: seq<Span>, limit: nat, k: nat): (end: int)
    requires k <= |spans|
    ensures end < limit && (FirstChar(spans, k) < |spans| ==> end < spans[FirstChar(spans, k)].startFrame)
  {
    var next := FirstChar(spans, k);
    (if next < |spans| then Min(limit, spans[next].startFrame) else limit) - 1
  }

  ghost function Advance(al: Alphabet, labels: seq<int>, e: Edge, end: int): Edge
    requires end <= |labels|
  {
    if e.committed < end
    then e.(committed := end, carry := Release(al, labels, e.carry, e.committed, end))
    else e
  }

  /** `take_text` on the strongest labels of all frames. */
  ghost function TakeText(al: Alphabet, labels: seq<int>, e: Edge, isFinal: bool): Edge
    requires Takes(al, labels, e)
  {
    if |labels| <= e.committed then e
    else
      var spans := Seen(al, labels, e);
      var k := TakeCount(spans, e, isFinal);
      Advance(al, labels, Commit(spans, e, k), ReleaseEnd(spans, if isFinal then |labels| else e.frozen, k))
  }

  ghost function TakenSpans(spans: seq<Span>, e: Edge, isFinal: bool): Option<LaneText> {
    if TakeCount(spans, e, isFinal) == 0 then None
    else Some(Lane(spans[..TakeCount(spans, e, isFinal)], !e.hasText || e.carry.kind == Space))
  }

  /** The piece `take_text` hands out, if any. */
  ghost function TakenLane(al: Alphabet, labels: seq<int>, e: Edge, isFinal: bool): Option<LaneText>
    requires Takes(al, labels, e)
  {
    if |labels| <= e.committed then None else TakenSpans(Seen(al, labels, e), e, isFinal)
  }

  /** What the engine does with a piece. */
  function AppendTaken(transcript: string, taken: Option<LaneText>): string {
    if taken.None? || taken.value.text == "" then transcript else Append(transcript, taken.value)
  }

  lemma {:induction false} SpanFrames(al: Alphabet, carry: Carry, labels: seq<int>, i: nat)
    requires al.Usable() && al.Labels(labels) && i <= |labels|
    ensures forall m :: 0 <= m < |SpansFrom(al, carry, labels, i)| ==>
              i <= SpansFrom(al, carry, labels, i)[m].startFrame
              <= SpansFrom(al, carry, labels, i)[m].endFrame < |labels|
    decreases |labels| - i
  {
    if i < |labels| {
      SpanFrames(al, carry, labels, RunEnd(labels, i));
    }
  }
}
