/** The stitcher as the engine keeps it: one flat score buffer that starts at `rowBase` and is
    cut behind the committed edge. `State` is the uncut timeline it stands for. */
module Stitchers {
  import opened Options
  import opened Integers
  import opened CtcGreedy
  import opened Stitching

  // ---------------------------------------------------------------- rows of a flat buffer

  ghost function Slice(sums: seq<real>, classes: nat, k: nat): seq<real>
    requires (k + 1) * classes <= |sums| && 0 <= k * classes <= (k + 1) * classes
  {
    sums[k * classes..(k + 1) * classes]
  }

  lemma Offset(classes: nat, k: nat, count: nat)
    requires k < count
    ensures 0 <= k * classes <= (k + 1) * classes == k * classes + classes <= count * classes
  {
    var rest := count - (k + 1);
    assert rest * classes >= 0 && k * classes >= 0;
    assert count * classes == (k + 1 + rest) * classes == (k + 1) * classes + rest * classes;
  }

  /** The buffer holds exactly these rows. */
  ghost predicate Holds(sums: seq<real>, weights: seq<real>, classes: nat, rows: seq<Acc>) {
    && |rows| == |weights|
    && |sums| == |weights| * classes
    && (forall k :: 0 <= k < |rows| ==> HoldsRow(sums, weights, classes, rows, k))
  }

  ghost predicate HoldsRow(sums: seq<real>, weights: seq<real>, classes: nat, rows: seq<Acc>, k: nat)
    requires k < |rows| == |weights| && |sums| == |weights| * classes
  {
    Offset(classes, k, |weights|);
    rows[k] == Acc(weights[k], Slice(sums, classes, k))
  }

  function Zeros(n: nat): (s: seq<real>)
    ensures |s| == n && forall i :: 0 <= i < n ==> s[i] == 0.0
  {
    seq(n, _ => 0.0)
  }

  lemma Grow(sums: seq<real>, weights: seq<real>, classes: nat, rows: seq<Acc>, missing: nat)
    requires Holds(sums, weights, classes, rows)
    ensures missing * classes >= 0
    ensures Holds(sums + Zeros(missing * classes), weights + Zeros(missing), classes,
                  rows + seq(missing, _ => Blank(classes)))
  {
    assert missing * classes >= 0;
    var sums', weights', rows' := sums + Zeros(missing * classes), weights + Zeros(missing),
                                  rows + seq(missing, _ => Blank(classes));
    assert |sums'| == |weights'| * classes;
    forall k | 0 <= k < |rows'| ensures HoldsRow(sums', weights', classes, rows', k) {
      Offset(classes, k, |weights'|);
      if k < |rows| {
        GrowOld(sums, weights, classes, rows, sums', k);
      } else {
        GrowNew(classes, sums, |weights|, sums', k);
      }
    }
  }

  lemma GrowOld(sums: seq<real>, weights: seq<real>, classes: nat, rows: seq<Acc>, sums': seq<real>, k: nat)
    requires Holds(sums, weights, classes, rows) && k < |rows| && sums <= sums'
    ensures 0 <= k * classes <= (k + 1) * classes <= |sums'|
    ensures rows[k] == Acc(weights[k], Slice(sums', classes, k))
  {
    Offset(classes, k, |weights|);
    assert HoldsRow(sums, weights, classes, rows, k);
    assert Slice(sums', classes, k) == Slice(sums, classes, k);
  }

  lemma GrowNew(classes: nat, sums: seq<real>, have: nat, sums': seq<real>, k: nat)
    requires |sums| == have * classes && have <= k
    requires 0 <= k * classes <= (k + 1) * classes == k * classes + classes <= |sums'|
    requires forall j :: |sums| <= j < |sums'| ==> sums'[j] == 0.0
    ensures Slice(sums', classes, k) == Blank(classes).sums
  {
    assert (k - have) * classes >= 0;
    assert k * classes >= have * classes;
  }

  lemma Cut(sums: seq<real>, weights: seq<real>, classes: nat, rows: seq<Acc>, drop: nat)
    requires Holds(sums, weights, classes, rows) && drop <= |weights|
    ensures 0 <= drop * classes <= |sums|
    ensures Holds(sums[drop * classes..], weights[drop..], classes, rows[drop..])
  {
    assert drop * classes >= 0 && (|weights| - drop) * classes >= 0;
    var sums', weights', rows' := sums[drop * classes..], weights[drop..], rows[drop..];
    assert |sums'| == |weights'| * classes;
    forall k | 0 <= k < |rows'| ensures HoldsRow(sums', weights', classes, rows', k) {
      Offset(classes, k, |weights'|);
      Offset(classes, k + drop, |weights|);
      assert (k + drop) * classes == k * classes + drop * classes;
      assert HoldsRow(sums, weights, classes, rows, k + drop);
      assert Slice(sums', classes, k) == Slice(sums, classes, k + drop);
    }
  }

  lemma Replace(sums: seq<real>, weights: seq<real>, classes: nat, rows: seq<Acc>, row: nat,
                sums': seq<real>, weight: real, values: seq<real>)
    requires Holds(sums, weights, classes, rows) && row < |rows| && |values| == classes && |sums'| == |sums|
    requires forall j :: 0 <= j < |sums| ==>
               sums'[j] == if row * classes <= j < row * classes + classes then values[j - row * classes] else sums[j]
    ensures Holds(sums', weights[row := weight], classes, rows[row := Acc(weight, values)])
  {
    var weights', rows' := weights[row := weight], rows[row := Acc(weight, values)];
    forall k | 0 <= k < |rows| ensures HoldsRow(sums', weights', classes, rows', k) {
      Offset(classes, k, |weights|);
      Offset(classes, row, |weights|);
      assert HoldsRow(sums, weights, classes, rows, k);
      if k < row {
        Offset(classes, k, row);
        assert Slice(sums', classes, k) == Slice(sums, classes, k);
      } else if row < k {
        Offset(classes, row, k);
        assert Slice(sums', classes, k) == Slice(sums, classes, k);
      } else {
        assert Slice(sums', classes, k) == values;
      }
    }
  }

  /** Rows that were only made room for do not change what a window adds. */
  lemma NewRows(cfg: Settings, s: Stitch, grown: Stitch, start: nat, logProbs: seq<seq<real>>, isFinal: bool)
    requires cfg.Usable() && Rows(s.rows, cfg.al.classes) && Rows(grown.rows, cfg.al.classes)
    requires Matrix(logProbs, cfg.al.classes)
    requires |s.rows| <= |grown.rows| && grown.edge == s.edge
    requires forall i :: 0 <= i < |grown.rows| ==> grown.rows[i] == RowAt(s.rows, cfg.al.classes, i)
    ensures forall i :: 0 <= i < |grown.rows| ==>
              NewRow(cfg, grown, start, logProbs, isFinal, i) == NewRow(cfg, s, start, logProbs, isFinal, i)
  {
  }

  lemma AddRowHolds(sums: seq<real>, weights: seq<real>, classes: nat, rows: seq<Acc>, rowBase: nat, row: nat,
                    sums': seq<real>, weight: real, src: seq<real>)
    requires rowBase <= |rows| && Holds(sums, weights, classes, rows[rowBase..])
    requires row < |weights| && |src| == classes && |sums'| == |sums|
    requires |rows[rowBase + row].sums| == classes
    requires forall j :: 0 <= j < |sums| ==>
               sums'[j] == if row * classes <= j < row * classes + |src| then sums[j] + weight * src[j - row * classes]
                           else sums[j]
    ensures Holds(sums', weights[row := weights[row] + weight], classes,
                  rows[rowBase + row := AddRow(rows[rowBase + row], weight, src)][rowBase..])
  {
    var tail := rows[rowBase..];
    Offset(classes, row, |weights|);
    assert HoldsRow(sums, weights, classes, tail, row);
    var acc := AddRow(tail[row], weight, src);
    assert forall c :: 0 <= c < classes ==> tail[row].sums[c] == sums[row * classes + c];
    assert rows[rowBase + row := acc][rowBase..] == tail[row := acc];
    hide *;
    Replace(sums, weights, classes, tail, row, sums', weights[row] + weight, acc.sums);
  }

  // ---------------------------------------------------------------- the loops of take_text

  method CountCommitted(spans: seq<Span>, commitLimit: int) returns (count: nat)
    ensures count == CommitCount(spans, commitLimit, 0, 0)
  {
    count := 0;
    var index := 0;
    while index < |spans|
      invariant 0 <= count <= index <= |spans|
      invariant 0 < count ==> spans[count - 1].character != ' '
      invariant forall m :: 0 <= m < index ==> spans[m].endFrame + 1 < commitLimit
      invariant forall m :: count <= m < index ==> spans[m].character == ' '
      invariant CommitCount(spans, commitLimit, index, count) == CommitCount(spans, commitLimit, 0, 0)
    {
      if spans[index].endFrame + 1 >= commitLimit {
        break;
      }
      if spans[index].character != ' ' {
        count := index + 1;
      }
      index := index + 1;
    }
  }

  method NextCharacter(spans: seq<Span>, count: nat) returns (next: int)
    requires count <= |spans|
    ensures next == if FirstChar(spans, count) < |spans| then FirstChar(spans, count) else -1
  {
    var index := count;
    while index < |spans|
      invariant count <= index <= |spans|
      invariant FirstChar(spans, index) == FirstChar(spans, count)
    {
      if spans[index].character != ' ' {
        return index;
      }
      index := index + 1;
    }
    next := -1;
  }

  /** Passing the frames from `start` up to `end`, read off the chunk that begins at `origin`. */
  method PassFrames(al: Alphabet, ghost labels: seq<int>, argmax: seq<int>, origin: nat, start: nat, end: int,
                    carry: Carry) returns (passed: Carry)
    requires origin <= start && end <= |labels| && origin <= |labels| && argmax == labels[origin..]
    ensures passed == Release(al, labels, carry, start, end)
  {
    passed := carry;
    var frame := start;
    while frame < end
      invariant start <= frame && (start <= end ==> frame <= end)
      invariant passed == Release(al, labels, carry, start, if start <= end then frame else end)
    {
      var local := frame - origin;
      if local >= 0 && local < |argmax| && argmax[local] == al.space {
        passed := Carry(Space, 0);
      } else {
        passed := Carry(passed.kind, passed.blanks + 1);
      }
      frame := frame + 1;
    }
  }

  method ShiftSpans(spans: seq<Span>, startFrame: int) returns (shifted: seq<Span>)
    ensures shifted == Shift(spans, startFrame)
  {
    shifted := spans;
    var i := 0;
    while i < |spans|
      invariant 0 <= i <= |spans| == |shifted|
      invariant forall k :: 0 <= k < i ==> shifted[k] == Shift(spans, startFrame)[k]
      invariant forall k :: i <= k < |spans| ==> shifted[k] == spans[k]
    {
      shifted := shifted[i := Span(shifted[i].character, shifted[i].startFrame + startFrame,
                                   shifted[i].endFrame + startFrame)];
      i := i + 1;
    }
  }

  // ---------------------------------------------------------------- the class

  class Stitcher {
    const cfg: Settings
    const leftContextFrames: nat
    var rowBase: nat
    var sums: seq<real>
    var weights: seq<real>
    var coveredEnd: nat
    var frozenEnd: nat
    var committedEnd: nat
    var previousSymbol: PreviousSymbol
    var blankFrames: nat
    var hasCommittedText: bool
    ghost var rows: seq<Acc>

    /** The buffer stands for the rows from `rowBase` on. */
    ghost predicate Buffered()
      reads this
    {
      && cfg.Usable()
      && Rows(rows, cfg.al.classes)
      && rowBase <= |rows|
      && Holds(sums, weights, cfg.al.classes, rows[rowBase..])
      && rowBase <= committedEnd <= frozenEnd <= coveredEnd <= |rows|
    }

    ghost predicate Valid()
      reads this
    {
      Buffered() && |rows| == coveredEnd == rowBase + |weights|
    }

    ghost function E(): Edge
      reads this
    {
      Edge(frozenEnd, committedEnd, Carry(previousSymbol, blankFrames), hasCommittedText)
    }

    /** The uncut stitcher this object stands for. */
    ghost function State(): Stitch
      reads this
    {
      Stitch(rows, E())
    }

    constructor (cfg: Settings, leftContextFrames: nat)
      requires cfg.Usable()
      ensures Valid() && this.cfg == cfg && this.leftContextFrames == leftContextFrames
      ensures State() == EMPTY && rowBase == 0
    {
      this.cfg := cfg;
      this.leftContextFrames := leftContextFrames;
      rowBase, sums, weights, rows := 0, [], [], [];
      coveredEnd, frozenEnd, committedEnd := 0, 0, 0;
      previousSymbol, blankFrames, hasCommittedText := NoSymbol, 0, false;
    }

    method Clear()
      requires cfg.Usable()
      modifies this
      ensures Valid() && State() == EMPTY && rowBase == 0
    {
      rowBase, sums, weights, rows := 0, [], [], [];
      coveredEnd, frozenEnd, committedEnd := 0, 0, 0;
      previousSymbol, blankFrames, hasCommittedText := NoSymbol, 0, false;
    }

    method EnsureRows(endFrame: nat)
      requires Valid()
      modifies this`sums, this`weights, this`rows
      ensures Buffered() && |rows| == rowBase + |weights| == Max(old(|rows|), endFrame)
      ensures forall i :: 0 <= i < |rows| ==> rows[i] == RowAt(old(rows), cfg.al.classes, i)
    {
      var missing := endFrame - rowBase - |weights|;
      if missing <= 0 {
        return;
      }
      Grow(sums, weights, cfg.al.classes, rows[rowBase..], missing);
      ghost var added := seq(missing, _ => Blank(cfg.al.classes));
      assert (rows + added)[rowBase..] == rows[rowBase..] + added;
      sums := sums + Zeros(missing * cfg.al.classes);
      weights := weights + Zeros(missing);
      rows := rows + added;
    }

    /** Rows in front of `frame` go, as far as there are any. */
    method DropRowsBefore(frame: nat)
      requires Valid()
      modifies this`rowBase, this`sums, this`weights
      ensures rowBase == Max(old(rowBase), Min(frame, |rows|)) && |rows| == rowBase + |weights|
      ensures Holds(sums, weights, cfg.al.classes, rows[rowBase..])
      ensures frame <= committedEnd ==> Valid()
    {
      var drop := frame - rowBase;
      if drop <= 0 {
        return;
      }
      drop := Min(drop, |weights|);
      Cut(sums, weights, cfg.al.classes, rows[rowBase..], drop);
      assert rows[rowBase..][drop..] == rows[rowBase + drop..];
      sums := sums[drop * cfg.al.classes..];
      weights := weights[drop..];
      rowBase := rowBase + drop;
    }

    /** One frame of a window, added in place. */
    method AddRowInPlace(row: nat, weight: real, src: seq<real>)
      requires Buffered() && row < |weights| && |src| == cfg.al.classes && |rows| == rowBase + |weights|
      modifies this`sums, this`weights, this`rows
      ensures Buffered() && |weights| == old(|weights|) && |rows| == old(|rows|)
      ensures rows == old(rows)[rowBase + row := AddRow(old(rows[rowBase + row]), weight, src)]
    {
      ghost var before, was := sums, rows;
      assert HoldsRow(sums, weights, cfg.al.classes, rows[rowBase..], row);
      Offset(cfg.al.classes, row, |weights|);
      sums := Accumulate(sums, row * cfg.al.classes, weight, src);
      AddRowHolds(before, weights, cfg.al.classes, rows, rowBase, row, sums, weight, src);
      weights := weights[row := weights[row] + weight];
      rows := rows[rowBase + row := AddRow(rows[rowBase + row], weight, src)];
    }

    static method Accumulate(sums: seq<real>, base: nat, weight: real, src: seq<real>) returns (updated: seq<real>)
      requires base + |src| <= |sums|
      ensures |updated| == |sums|
      ensures forall j :: 0 <= j < |sums| ==>
                updated[j] == if base <= j < base + |src| then sums[j] + weight * src[j - base] else sums[j]
    {
      updated := sums;
      var col := 0;
      while col < |src|
        invariant 0 <= col <= |src| && |updated| == |sums|
        invariant forall j :: 0 <= j < |sums| ==>
                    updated[j] == if base <= j < base + col then sums[j] + weight * src[j - base] else sums[j]
      {
        updated := updated[base + col := updated[base + col] + weight * src[col]];
        col := col + 1;
      }
    }

    /** The weighted frames of one window that are not frozen. */
    method AddFrames(startFrame: nat, logProbs: seq<seq<real>>, isFinal: bool)
      requires Buffered() && Matrix(logProbs, cfg.al.classes)
      requires startFrame + |logProbs| <= |rows| == rowBase + |weights|
      modifies this`sums, this`weights, this`rows
      ensures Buffered() && |rows| == old(|rows|) == rowBase + |weights|
      ensures forall i :: 0 <= i < |rows| ==> rows[i] == NewRow(cfg, old(State()), startFrame, logProbs, isFinal, i)
    {
      var frameCount := |logProbs|;
      var first := Max(0, frozenEnd - startFrame);
      var frame := first;
      while frame < frameCount
        invariant first <= frame && (first < frameCount ==> frame <= frameCount)
        invariant Buffered() && |rows| == old(|rows|) == rowBase + |weights|
        invariant forall i :: 0 <= i < |rows| && (i < startFrame || startFrame + frame <= i) ==> rows[i] == old(rows)[i]
        invariant forall i :: startFrame <= i < startFrame + frame && i < |rows| ==>
                    rows[i] == NewRow(cfg, old(State()), startFrame, logProbs, isFinal, i)
      {
        var weight := ViewWeight(cfg.framesPerSecond, startFrame, frame, frameCount, isFinal);
        var row := startFrame + frame - rowBase;
        AddRowInPlace(row, weight, logProbs[frame]);
        frame := frame + 1;
      }
    }

    /** `add_window` on the dilated and normalised log-probabilities of one window. */
    method AddWindow(startFrame: nat, logProbs: seq<seq<real>>, isFinal: bool)
      requires Valid() && Matrix(logProbs, cfg.al.classes)
      modifies this`sums, this`weights, this`rows, this`coveredEnd, this`frozenEnd
      ensures Valid() && State() == Stitching.AddWindow(cfg, old(State()), startFrame, logProbs, isFinal)
    {
      var frameCount := |logProbs|;
      if frameCount == 0 {
        if isFinal {
          frozenEnd := coveredEnd;
        }
        return;
      }
      var endFrame := startFrame + frameCount;
      EnsureRows(endFrame);
      ghost var grown := State();
      AddFrames(startFrame, logProbs, isFinal);
      NewRows(cfg, old(State()), grown, startFrame, logProbs, isFinal);
      coveredEnd := Max(coveredEnd, endFrame);
      if isFinal {
        frozenEnd := coveredEnd;
      } else {
        frozenEnd := Max(frozenEnd, endFrame - cfg.freezeGuard);
      }
      assert rows == Stitching.AddWindow(cfg, old(State()), startFrame, logProbs, isFinal).rows;
    }

    /** `read_scores` and `argmax_rows` together: the strongest class of each frame. */
    method ReadLabels(startFrame: nat, endFrame: nat) returns (labels: seq<int>)
      requires Valid() && rowBase <= startFrame <= endFrame <= coveredEnd
      ensures |labels| == endFrame - startFrame
      ensures forall k :: 0 <= k < |labels| ==> labels[k] == LabelsOf(cfg.al, rows)[startFrame + k]
    {
      labels := [];
      var frame := startFrame;
      while frame < endFrame
        invariant startFrame <= frame <= endFrame && |labels| == frame - startFrame
        invariant forall k :: 0 <= k < |labels| ==> labels[k] == LabelOf(cfg.al, rows[startFrame + k])
      {
        var scores := ReadScore(frame);
        var index := ArgmaxRow(scores);
        labels := labels + [index];
        frame := frame + 1;
      }
    }

    method ReadScore(frame: nat) returns (scores: seq<real>)
      requires Valid() && frame < coveredEnd && rowBase <= frame
      ensures scores == ScoreRow(cfg.al, rows[frame])
    {
      var al := cfg.al;
      scores := seq(al.classes, c => UNCOVERED_LOG_PROB)[al.blank := 0.0];
      var row := frame - rowBase;
      if row < 0 || row >= |weights| {
        return;
      }
      assert HoldsRow(sums, weights, al.classes, rows[rowBase..], row);
      Offset(al.classes, row, |weights|);
      var weight := weights[row];
      if !(weight > 0.0) {
        return;
      }
      var base := row * al.classes;
      var col := 0;
      while col < al.classes
        invariant 0 <= col <= al.classes == |scores|
        invariant forall c :: 0 <= c < col ==> scores[c] == sums[base + c] / weight
      {
        scores := scores[col := sums[base + col] / weight];
        col := col + 1;
      }
    }

    method ArgmaxRow(row: seq<real>) returns (index: nat)
      requires |row| == cfg.al.classes > 0
      ensures index == Strongest(row, |row|)
    {
      index := 0;
      var peak := row[0];
      var col := 1;
      while col < cfg.al.classes
        invariant 1 <= col <= |row|
        invariant index == Strongest(row, col) && peak == row[index]
      {
        if row[col] > peak {
          peak := row[col];
          index := col;
        }
        col := col + 1;
      }
    }

    /** The labels and spans one call of `take_text` looks at. */
    method SeeSpans() returns (argmax: seq<int>, spans: seq<Span>)
      requires Valid()
      ensures argmax == LabelsOf(cfg.al, rows)[committedEnd..]
      ensures spans == Seen(cfg.al, LabelsOf(cfg.al, rows), E())
      ensures forall m :: 0 <= m < |spans| ==> committedEnd <= spans[m].startFrame <= spans[m].endFrame < coveredEnd
    {
      argmax := ReadLabels(committedEnd, coveredEnd);
      assert argmax == LabelsOf(cfg.al, rows)[committedEnd..];
      hide LabelsOf, Buffered, SpansFrom, Shift;
      var local := DecodeCtcGreedy(cfg.al, argmax, previousSymbol, blankFrames);
      spans := ShiftSpans(local, committedEnd);
    }

    /** The first half of `take_text`: commit the spans that cannot change any more. */
    method CommitSpans(spans: seq<Span>, isFinal: bool) returns (taken: Option<LaneText>, committedCount: nat)
      requires Valid() && (isFinal ==> frozenEnd == coveredEnd)
      requires forall m :: 0 <= m < |spans| ==> committedEnd <= spans[m].startFrame <= spans[m].endFrame < coveredEnd
      modifies this`committedEnd, this`previousSymbol, this`blankFrames, this`hasCommittedText
      ensures Valid() && old(committedEnd) <= committedEnd && committedCount <= |spans|
      ensures committedCount == TakeCount(spans, old(E()), isFinal)
      ensures taken == TakenSpans(spans, old(E()), isFinal)
      ensures E() == Commit(spans, old(E()), committedCount)
    {
      CommitBound(spans, E(), isFinal, coveredEnd);
      hide Holds, Rows;
      taken := None;
      var startsWord := !hasCommittedText || previousSymbol == Space;
      committedCount := CountCommitted(spans, if isFinal then FINAL_LIMIT else frozenEnd);
      if committedCount > 0 {
        var lane := ToLaneText(spans, committedCount, startsWord);
        taken := Some(lane);
        hasCommittedText := true;
        committedEnd := spans[committedCount - 1].endFrame + 1;
        previousSymbol := Char;
        blankFrames := 0;
      }
    }

    /** The second half: pass the frames that hold no character. */
    method ReleaseFrames(ghost labels: seq<int>, argmax: seq<int>, origin: nat, spans: seq<Span>, committedCount: nat,
                         limit: nat)
      requires Valid() && origin <= committedEnd && limit <= frozenEnd && coveredEnd == |labels|
      requires argmax == labels[origin..] && committedCount <= |spans|
      modifies this`committedEnd, this`previousSymbol, this`blankFrames
      ensures E() == Advance(cfg.al, labels, old(E()), ReleaseEnd(spans, limit, committedCount))
      ensures Valid()
    {
      hide Holds, Rows, Release, FirstChar;
      var nextCharacter := NextCharacter(spans, committedCount);
      var releaseEnd := limit - 1;
      if nextCharacter >= 0 {
        releaseEnd := Min(limit, spans[nextCharacter].startFrame) - 1;
      }
      var passed := PassFrames(cfg.al, labels, argmax, origin, committedEnd, releaseEnd,
                               Carry(previousSymbol, blankFrames));
      if releaseEnd > committedEnd {
        previousSymbol := passed.kind;
        blankFrames := passed.blanks;
        committedEnd := releaseEnd;
      }
    }

    lemma LabelParts()
      requires Valid()
      ensures 0 < cfg.al.classes && Rows(rows, cfg.al.classes) && cfg.al.Usable()
      ensures Takes(cfg.al, LabelsOf(cfg.al, rows), E()) && |LabelsOf(cfg.al, rows)| == coveredEnd
    {
    }

    /** `take_text`. A final call follows a final window, which has frozen everything. */
    method TakeText(isFinal: bool) returns (taken: Option<LaneText>)
      requires Valid() && (isFinal ==> frozenEnd == coveredEnd)
      modifies this`rowBase, this`sums, this`weights, this`committedEnd, this`previousSymbol, this`blankFrames,
               this`hasCommittedText
      ensures Valid()
      ensures E() == Stitching.TakeText(cfg.al, LabelsOf(cfg.al, rows), old(E()), isFinal)
      ensures taken == TakenLane(cfg.al, LabelsOf(cfg.al, rows), old(E()), isFinal)
      ensures rowBase == if coveredEnd <= old(committedEnd) then old(rowBase) else committedEnd
    {
      hide LabelsOf, Buffered, Seen, Advance, Commit, ReleaseEnd, TakeCount, TakenSpans, Takes, Rows;
      taken := None;
      LabelParts();
      ghost var labels := LabelsOf(cfg.al, rows);
      if coveredEnd - committedEnd <= 0 {
        return;
      }
      taken := TakeSeen(isFinal, labels);
    }

    /** The rest of `take_text`, where there are frames to look at. */
    method TakeSeen(isFinal: bool, ghost labels: seq<int>) returns (taken: Option<LaneText>)
      requires Valid() && (isFinal ==> frozenEnd == coveredEnd) && committedEnd < coveredEnd
      requires 0 < cfg.al.classes && Rows(rows, cfg.al.classes) && labels == LabelsOf(cfg.al, rows)
      requires Takes(cfg.al, labels, E())
      modifies this`rowBase, this`sums, this`weights, this`committedEnd, this`previousSymbol, this`blankFrames,
               this`hasCommittedText
      ensures Valid() && rowBase == committedEnd
      ensures taken == TakenSpans(Seen(cfg.al, labels, old(E())), old(E()), isFinal)
      ensures var spans := Seen(cfg.al, labels, old(E()));
              var k := TakeCount(spans, old(E()), isFinal);
              E() == Advance(cfg.al, labels, Commit(spans, old(E()), k), ReleaseEnd(spans, if isFinal then |labels| else frozenEnd, k))
    {
      hide LabelsOf, Seen, Advance, Commit, ReleaseEnd, TakeCount, TakenSpans, Takes, Rows, Holds;
      var startFrame := committedEnd;
      var argmax, spans := SeeSpans();
      assert |labels| == coveredEnd;
      var committedCount: nat;
      taken, committedCount := CommitSpans(spans, isFinal);
      ReleaseFrames(labels, argmax, startFrame, spans, committedCount, if isFinal then coveredEnd else frozenEnd);
      DropRowsBefore(committedEnd);
    }
  }

  lemma CommitBound(spans: seq<Span>, e: Edge, isFinal: bool, covered: nat)
    requires forall m :: 0 <= m < |spans| ==> e.committed <= spans[m].startFrame <= spans[m].endFrame < covered
    requires e.committed <= e.frozen <= covered && (isFinal ==> e.frozen == covered)
    ensures e.committed <= Commit(spans, e, TakeCount(spans, e, isFinal)).committed <= e.frozen
  {
  }
}
