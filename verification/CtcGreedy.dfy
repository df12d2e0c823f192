/** Greedy CTC reading of a frame-by-frame label sequence, as the DeepCW engine does it.

    `SpansFrom` is what one call of the greedy decoder finds; `After` and `TextTo` are an
    independent left-to-right reading that never looks ahead. `CommitReads` connects the two. */
module CtcGreedy {

  datatype PreviousSymbol = NoSymbol | Char | Space

  /** The state carried from one decode call to the next. */
  datatype Carry = Carry(kind: PreviousSymbol, blanks: nat)

  datatype Span = Span(character: char, startFrame: int, endFrame: int)

  datatype LaneText = LaneText(text: string, prependSpace: bool)

  const START := Carry(NoSymbol, 0)

  /** The class table of the model. `space` is -1 when no class is a space. */
  datatype Alphabet = Alphabet(chars: string, blank: int, space: int, classes: int, wordBoundary: int) {

    /** Every class but blank has a character, which need not exist for a blank in last place. */
    ghost predicate Usable() {
      && 0 <= blank < classes <= |chars| + (if blank == classes - 1 then 1 else 0)
      && -1 <= space < |chars| && space != blank
      && (0 <= space ==> chars[space] == ' ')
      && (forall i :: 0 <= i < classes && i != blank ==> (chars[i] == ' ' <==> i == space))
      && 1 <= wordBoundary
    }

    predicate IsChar(x: int) {
      x != blank && x != space
    }

    /** Does a blank run ending here, in front of a character, separate two words? */
    predicate WordGap(carry: Carry) {
      0 <= space && carry.kind == Char && wordBoundary <= carry.blanks
    }

    /** Reading one more label. */
    function Next(carry: Carry, x: int): Carry {
      if x == blank then Carry(carry.kind, carry.blanks + 1)
      else Carry(if x == space then Space else Char, 0)
    }

    ghost predicate Labels(labels: seq<int>) {
      forall i :: 0 <= i < |labels| ==> 0 <= labels[i] < classes
    }
  }

  /** The class table in models/model.onnx.json and models/model_narrow.onnx.json. */
  const SHIPPED := Alphabet(",./0123456789?ABCDEFGHIJKLMNOPQRSTUVWXYZ ", 41, 40, 42, 67)

  lemma ShippedIsUsable()
    ensures SHIPPED.Usable()
  {
  }

  // ---------------------------------------------------------------- the reading without lookahead

  /** The carried state after the first `n` labels. */
  ghost function After(al: Alphabet, carry: Carry, labels: seq<int>, n: nat): Carry
    requires n <= |labels|
  {
    if n == 0 then carry else al.Next(After(al, carry, labels, n - 1), labels[n - 1])
  }

  /** The text of the first `n` labels: a character each time a run of one character class
      starts, after a space if a space or a long blank run stands between it and the last one. */
  ghost function TextTo(al: Alphabet, labels: seq<int>, n: nat): string
    requires n <= |labels| && al.Usable() && al.Labels(labels)
  {
    if n == 0 then ""
    else
      var text := TextTo(al, labels, n - 1);
      if al.IsChar(labels[n - 1]) && (n == 1 || labels[n - 2] != labels[n - 1])
      then Emit(text, Separated(al, After(al, START, labels, n - 1)), al.chars[labels[n - 1]])
      else text
  }

  /** One more character, after a space if it starts a new word. */
  ghost function Emit(text: string, newWord: bool, c: char): string {
    text + (if newWord && text != "" then " " else "") + [c]
  }

  ghost predicate Separated(al: Alphabet, carry: Carry) {
    carry.kind == Space || al.WordGap(carry)
  }

  lemma {:induction false} AfterPrefix(al: Alphabet, carry: Carry, labels: seq<int>, other: seq<int>, n: nat)
    requires n <= |labels| && n <= |other|
    requires forall i :: 0 <= i < n ==> labels[i] == other[i]
    ensures After(al, carry, labels, n) == After(al, carry, other, n)
  {
    if n > 0 { AfterPrefix(al, carry, labels, other, n - 1); }
  }

  /** The text of a prefix does not depend on what follows it. */
  lemma {:induction false} TextPrefix(al: Alphabet, labels: seq<int>, other: seq<int>, n: nat)
    requires al.Usable() && al.Labels(labels) && al.Labels(other)
    requires n <= |labels| && n <= |other|
    requires forall i :: 0 <= i < n ==> labels[i] == other[i]
    ensures TextTo(al, labels, n) == TextTo(al, other, n)
  {
    hide Emit;
    if n > 0 {
      TextPrefix(al, labels, other, n - 1);
      AfterPrefix(al, START, labels, other, n - 1);
    }
  }

  // ---------------------------------------------------------------- runs of equal labels

  function RunEnd(labels: seq<int>, i: nat): (end: nat)
    requires i < |labels|
    ensures i < end <= |labels|
    ensures forall k :: i <= k < end ==> labels[k] == labels[i]
    ensures end < |labels| ==> labels[end] != labels[i]
    decreases |labels| - i
  {
    if i + 1 == |labels| || labels[i + 1] != labels[i] then i + 1 else RunEnd(labels, i + 1)
  }

  /** No run of a character class straddles position `i`. */
  ghost predicate Clean(al: Alphabet, labels: seq<int>, i: nat)
    requires i <= |labels|
  {
    0 < i < |labels| && al.IsChar(labels[i]) ==> labels[i - 1] != labels[i]
  }

  lemma {:induction false} RunOfBlanks(al: Alphabet, carry: Carry, labels: seq<int>, i: nat, end: nat)
    requires i <= end <= |labels|
    requires forall k :: i <= k < end ==> labels[k] == al.blank
    ensures After(al, carry, labels, end)
         == Carry(After(al, carry, labels, i).kind, After(al, carry, labels, i).blanks + (end - i))
  {
    if i < end { RunOfBlanks(al, carry, labels, i, end - 1); }
  }

  lemma {:induction false} RunOfSymbol(al: Alphabet, carry: Carry, labels: seq<int>, i: nat, end: nat)
    requires i < end <= |labels| && labels[i] != al.blank
    requires forall k :: i <= k < end ==> labels[k] == labels[i]
    ensures After(al, carry, labels, end) == Carry(if labels[i] == al.space then Space else Char, 0)
  {
  }

  lemma {:induction false} QuietText(al: Alphabet, labels: seq<int>, i: nat, end: nat)
    requires al.Usable() && al.Labels(labels)
    requires i <= end <= |labels|
    requires forall k :: i <= k < end ==> !al.IsChar(labels[k])
    ensures TextTo(al, labels, end) == TextTo(al, labels, i)
  {
    hide Emit;
    if i < end { QuietText(al, labels, i, end - 1); }
  }

  lemma {:induction false} CharText(al: Alphabet, labels: seq<int>, i: nat, end: nat)
    requires al.Usable() && al.Labels(labels)
    requires i < end <= |labels| && al.IsChar(labels[i]) && Clean(al, labels, i)
    requires forall k :: i <= k < end ==> labels[k] == labels[i]
    ensures TextTo(al, labels, end)
         == Emit(TextTo(al, labels, i), Separated(al, After(al, START, labels, i)), al.chars[labels[i]])
  {
    hide Emit;
    if i + 1 < end { CharText(al, labels, i, end - 1); }
  }

  // ---------------------------------------------------------------- the spans of one call

  /** Is the blank run at `i` turned into a word space? */
  ghost predicate GapAt(al: Alphabet, carry: Carry, labels: seq<int>, i: nat)
    requires i < |labels|
  {
    var end := RunEnd(labels, i);
    end < |labels| && labels[end] != al.space && al.WordGap(After(al, carry, labels, end))
  }

  /** The spans found from frame `i` on: one per run of a label that is not blank, and a space
      span for each blank run that is long enough and stands between two characters. */
  ghost function SpansFrom(al: Alphabet, carry: Carry, labels: seq<int>, i: nat): seq<Span>
    requires al.Usable() && al.Labels(labels) && i <= |labels|
    decreases |labels| - i
  {
    if i == |labels| then [] else GroupSpans(al, carry, labels, i) + SpansFrom(al, carry, labels, RunEnd(labels, i))
  }

  /** What the run of equal labels at `i` contributes. */
  ghost function GroupSpans(al: Alphabet, carry: Carry, labels: seq<int>, i: nat): (s: seq<Span>)
    requires al.Usable() && al.Labels(labels) && i < |labels|
    ensures |s| <= 1
  {
    if labels[i] == al.blank && !GapAt(al, carry, labels, i) then []
    else [Span(al.chars[if labels[i] == al.blank then al.space else labels[i]], i, RunEnd(labels, i) - 1)]
  }

  /** The text of a run of spans; `pending` remembers a space seen after the last character. */
  ghost function LaneFrom(lane: LaneText, pending: bool, spans: seq<Span>): LaneText
    decreases |spans|
  {
    if spans == [] then lane
    else LaneFrom(LaneStep(lane, pending, spans[0]), LanePending(lane, pending, spans[0]), spans[1..])
  }

  ghost function LaneStep(lane: LaneText, pending: bool, span: Span): LaneText {
    if span.character != ' ' then LaneText(lane.text + (if pending then " " else "") + [span.character], lane.prependSpace)
    else if lane.text == "" then LaneText("", true)
    else lane
  }

  ghost predicate LanePending(lane: LaneText, pending: bool, span: Span) {
    span.character == ' ' && (lane.text != "" || pending)
  }

  ghost function Lane(spans: seq<Span>, prependSpace: bool): LaneText {
    LaneFrom(LaneText("", prependSpace), false, spans)
  }

  /** A piece appended behind a transcript. */
  function Append(transcript: string, lane: LaneText): string {
    transcript + (if lane.prependSpace && transcript != "" then " " else "") + lane.text
  }

  /** One greedy decode of a whole label sequence. */
  ghost function BatchText(al: Alphabet, labels: seq<int>): string
    requires al.Usable() && al.Labels(labels)
  {
    Lane(SpansFrom(al, START, labels, 0), true).text
  }

  // ---------------------------------------------------------------- spans and text agree

  lemma LaneCons(lane: LaneText, pending: bool, span: Span, rest: seq<Span>)
    ensures LaneFrom(lane, pending, [span] + rest)
         == LaneFrom(LaneStep(lane, pending, span), LanePending(lane, pending, span), rest)
  {
    assert ([span] + rest)[1..] == rest;
  }

  /** What a half-read lane and the reading at frame `i` have to agree on. */
  ghost predicate InStep(al: Alphabet, labels: seq<int>, i: nat, base: string, lane: LaneText, pending: bool)
    requires al.Usable() && al.Labels(labels) && i <= |labels|
  {
    && Clean(al, labels, i)
    && (lane.text == "" ==> !pending)
    && TextTo(al, labels, i) == (if lane.text == "" then base else Append(base, lane))
    && (TextTo(al, labels, i) != "" ==>
          ((if lane.text == "" then lane.prependSpace else pending)
           <==> if i < |labels| && al.IsChar(labels[i]) then Separated(al, After(al, START, labels, i))
                else After(al, START, labels, i).kind == Space))
  }

  lemma BlankInStep(al: Alphabet, labels: seq<int>, i: nat, base: string, lane: LaneText, pending: bool)
    requires al.Usable() && al.Labels(labels) && i < |labels|
    requires InStep(al, labels, i, base, lane, pending) && labels[i] == al.blank
    ensures !GapAt(al, START, labels, i) ==> InStep(al, labels, RunEnd(labels, i), base, lane, pending)
    ensures GapAt(al, START, labels, i) ==>
              var span := GroupSpans(al, START, labels, i)[0];
              span.character == ' '
              && InStep(al, labels, RunEnd(labels, i), base, LaneStep(lane, pending, span), LanePending(lane, pending, span))
  {
    hide Append, TextTo;
    var end := RunEnd(labels, i);
    RunOfBlanks(al, START, labels, i, end);
    QuietText(al, labels, i, end);
  }

  lemma SpaceInStep(al: Alphabet, labels: seq<int>, i: nat, base: string, lane: LaneText, pending: bool)
    requires al.Usable() && al.Labels(labels) && i < |labels|
    requires InStep(al, labels, i, base, lane, pending) && labels[i] == al.space
    ensures var span := GroupSpans(al, START, labels, i)[0];
            span.character == ' '
            && InStep(al, labels, RunEnd(labels, i), base, LaneStep(lane, pending, span), LanePending(lane, pending, span))
  {
    hide Append, TextTo;
    var end := RunEnd(labels, i);
    RunOfSymbol(al, START, labels, i, end);
    QuietText(al, labels, i, end);
  }

  lemma CharInStep(al: Alphabet, labels: seq<int>, i: nat, base: string, lane: LaneText, pending: bool)
    requires al.Usable() && al.Labels(labels) && i < |labels|
    requires InStep(al, labels, i, base, lane, pending) && al.IsChar(labels[i])
    ensures var span := GroupSpans(al, START, labels, i)[0];
            span.character != ' '
            && InStep(al, labels, RunEnd(labels, i), base, LaneStep(lane, pending, span), false)
  {
    hide TextTo, Emit, Append;
    var end, text := RunEnd(labels, i), TextTo(al, labels, i);
    var newWord := Separated(al, After(al, START, labels, i));
    RunOfSymbol(al, START, labels, i, end);
    CharText(al, labels, i, end);
    AppendChar(base, lane, pending, text, newWord, GroupSpans(al, START, labels, i)[0]);
  }

  lemma AppendChar(base: string, lane: LaneText, pending: bool, text: string, newWord: bool, span: Span)
    requires span.character != ' '
    requires lane.text == "" ==> !pending
    requires text == if lane.text == "" then base else Append(base, lane)
    requires text != "" ==> (newWord <==> if lane.text == "" then lane.prependSpace else pending)
    ensures Append(base, LaneStep(lane, pending, span)) == Emit(text, newWord, span.character)
  {
    var c := [span.character];
    if lane.text == "" {
      assert "" + "" + c == c;
    } else {
      assert text != "";
      var gap := if pending then " " else "";
      var lead := if lane.prependSpace && base != "" then " " else "";
      assert (base + lead + lane.text) + gap + c == base + lead + (lane.text + gap + c);
    }
  }

  /** The first `k` spans, the last of them a character, read as text, are what the reading
      without lookahead has read by the end of that span; and the remaining spans are what a
      fresh decode from there would find. */
  lemma {:induction false} CommitReads(al: Alphabet, labels: seq<int>, i: nat, base: string, lane: LaneText,
                                       pending: bool, k: nat)
    requires al.Usable() && al.Labels(labels) && i <= |labels|
    requires InStep(al, labels, i, base, lane, pending)
    requires 0 < k <= |SpansFrom(al, START, labels, i)|
    requires SpansFrom(al, START, labels, i)[k - 1].character != ' '
    ensures var spans := SpansFrom(al, START, labels, i);
            var end := spans[k - 1].endFrame + 1;
            && i < end <= |labels|
            && TextTo(al, labels, end) == Append(base, LaneFrom(lane, pending, spans[..k]))
            && LaneFrom(lane, pending, spans[..k]).text != ""
            && al.IsChar(labels[end - 1]) && Clean(al, labels, end)
            && spans[k..] == SpansFrom(al, START, labels, end)
    decreases |labels| - i
  {
    hide *;
    GroupFirst(al, labels, i);
    var end := RunEnd(labels, i);
    var spans, group, rest := SpansFrom(al, START, labels, i), GroupSpans(al, START, labels, i),
                              SpansFrom(al, START, labels, end);
    GroupInStep(al, labels, i, base, lane, pending);
    if group == [] {
      assert spans == rest;
      CommitReads(al, labels, end, base, lane, pending, k);
    } else {
      var lane', pending' := LaneStep(lane, pending, group[0]), LanePending(lane, pending, group[0]);
      Split(group[0], spans, rest, k);
      LaneCons(lane, pending, group[0], rest[..k - 1]);
      if k > 1 {
        CommitReads(al, labels, end, base, lane', pending', k - 1);
      } else {
        CommitOne(al, labels, i, base, lane', pending', group[0]);
      }
    }
  }

  lemma GroupFirst(al: Alphabet, labels: seq<int>, i: nat)
    requires al.Usable() && al.Labels(labels) && i <= |labels|
    ensures SpansFrom(al, START, labels, i)
         == if i == |labels| then []
            else GroupSpans(al, START, labels, i) + SpansFrom(al, START, labels, RunEnd(labels, i))
  {
  }

  lemma Split(span: Span, spans: seq<Span>, rest: seq<Span>, k: nat)
    requires spans == [span] + rest && 0 < k <= |spans|
    ensures spans[..k] == [span] + rest[..k - 1]
    ensures spans[k..] == rest[k - 1..]
    ensures k > 1 ==> spans[k - 1] == rest[k - 2]
  {
  }

  lemma CommitOne(al: Alphabet, labels: seq<int>, i: nat, base: string, lane: LaneText, pending: bool, span: Span)
    requires al.Usable() && al.Labels(labels) && i < |labels|
    requires GroupSpans(al, START, labels, i) == [span] && span.character != ' '
    requires InStep(al, labels, RunEnd(labels, i), base, lane, pending) && lane.text != ""
    ensures var end := span.endFrame + 1;
            && end == RunEnd(labels, i)
            && TextTo(al, labels, end) == Append(base, LaneFrom(lane, pending, []))
            && LaneFrom(lane, pending, []).text != ""
            && al.IsChar(labels[end - 1]) && Clean(al, labels, end)
  {
    hide TextTo, Append;
  }

  lemma GroupInStep(al: Alphabet, labels: seq<int>, i: nat, base: string, lane: LaneText, pending: bool)
    requires al.Usable() && al.Labels(labels) && i < |labels|
    requires InStep(al, labels, i, base, lane, pending)
    ensures var group, end := GroupSpans(al, START, labels, i), RunEnd(labels, i);
            if group == [] then InStep(al, labels, end, base, lane, pending)
            else InStep(al, labels, end, base, LaneStep(lane, pending, group[0]), LanePending(lane, pending, group[0]))
                 && (group[0].character != ' ' ==> LaneStep(lane, pending, group[0]).text != "")
  {
    hide InStep;
    if al.IsChar(labels[i]) {
      CharInStep(al, labels, i, base, lane, pending);
    } else if labels[i] == al.space {
      SpaceInStep(al, labels, i, base, lane, pending);
    } else {
      BlankInStep(al, labels, i, base, lane, pending);
    }
  }

  /** The index of the first character span from `k` on, or `|spans|`. */
  ghost function FirstChar(spans: seq<Span>, k: nat): (j: nat)
    requires k <= |spans|
    ensures k <= j <= |spans|
    ensures forall m :: k <= m < j ==> spans[m].character == ' '
    ensures j < |spans| ==> spans[j].character != ' '
    decreases |spans| - k
  {
    if k < |spans| && spans[k].character == ' ' then FirstChar(spans, k + 1) else k
  }

  /** In front of the first character span there are only blanks and spaces. */
  lemma {:induction false} QuietBefore(al: Alphabet, carry: Carry, labels: seq<int>, i: nat, j: nat)
    requires al.Usable() && al.Labels(labels) && i <= |labels|
    requires j <= |SpansFrom(al, carry, labels, i)|
    requires forall m :: 0 <= m < j ==> SpansFrom(al, carry, labels, i)[m].character == ' '
    requires j < |SpansFrom(al, carry, labels, i)| ==> SpansFrom(al, carry, labels, i)[j].character != ' '
    ensures var spans := SpansFrom(al, carry, labels, i);
            var stop := if j < |spans| then spans[j].startFrame else |labels|;
            && i <= stop <= |labels|
            && (j < |spans| ==> stop < |labels| && al.IsChar(labels[stop]))
            && (forall k :: i <= k < stop ==> !al.IsChar(labels[k]))
    decreases |labels| - i
  {
    if i == |labels| { return; }
    var end := RunEnd(labels, i);
    var spans, group, rest := SpansFrom(al, carry, labels, i), GroupSpans(al, carry, labels, i),
                              SpansFrom(al, carry, labels, end);
    assert forall m :: 0 <= m < |rest| ==> rest[m] == spans[m + |group|];
    if !al.IsChar(labels[i]) {
      assert group != [] ==> group[0].character == ' ' && spans[0] == group[0];
      QuietBefore(al, carry, labels, end, j - |group|);
    } else {
      assert spans[0] == group[0];
    }
  }

  /** One greedy decode of the whole sequence gives the text of the reading without lookahead. */
  lemma BatchReads(al: Alphabet, labels: seq<int>)
    requires al.Usable() && al.Labels(labels)
    ensures BatchText(al, labels) == TextTo(al, labels, |labels|)
  {
    hide TextTo, GroupSpans;
    var spans := SpansFrom(al, START, labels, 0);
    var k := CharPrefix(spans);
    var lane := LaneText("", true);
    assert InStep(al, labels, 0, "", lane, false) by { EmptyText(al, labels); }
    var end := 0;
    if k > 0 {
      CommitReads(al, labels, 0, "", lane, false, k);
      end := spans[k - 1].endFrame + 1;
    }
    assert spans[k..] == SpansFrom(al, START, labels, end);
    QuietBefore(al, START, labels, end, |spans[k..]|);
    QuietText(al, labels, end, |labels|);
    LaneTail(lane, false, spans, k);
    assert spans[..0] == [];
  }

  lemma EmptyText(al: Alphabet, labels: seq<int>)
    requires al.Usable() && al.Labels(labels)
    ensures TextTo(al, labels, 0) == ""
  {
  }

  /** How many spans there are up to and including the last character. */
  ghost function CharPrefix(spans: seq<Span>): (k: nat)
    ensures k <= |spans|
    ensures k > 0 ==> spans[k - 1].character != ' '
    ensures forall m :: k <= m < |spans| ==> spans[m].character == ' '
  {
    if spans == [] then 0
    else if spans[|spans| - 1].character != ' ' then |spans|
    else CharPrefix(spans[..|spans| - 1])
  }

  lemma {:induction false} LaneTail(lane: LaneText, pending: bool, spans: seq<Span>, k: nat)
    requires k <= |spans|
    requires forall m :: k <= m < |spans| ==> spans[m].character == ' '
    ensures LaneFrom(lane, pending, spans).text == LaneFrom(lane, pending, spans[..k]).text
    decreases |spans|
  {
    if spans != [] {
      LaneTail(LaneStep(lane, pending, spans[0]), LanePending(lane, pending, spans[0]), spans[1..], if k == 0 then 0 else k - 1);
      if k > 0 {
        assert spans[..k] == [spans[0]] + spans[1..][..k - 1];
        LaneCons(lane, pending, spans[0], spans[1..][..k - 1]);
      } else {
        assert spans[..0] == [] == spans[1..][..0];
      }
    }
  }

  // ---------------------------------------------------------------- the code

  /** The label of frame `i` once long blank runs between two characters have become spaces. */
  ghost function FilledAt(al: Alphabet, carry: Carry, labels: seq<int>, i: nat): int
    requires i < |labels|
  {
    if labels[i] == al.blank && GapAt(al, carry, labels, i) then al.space else labels[i]
  }

  /** The kind the first pass reads off its `previous` variable. */
  ghost function Kind(al: Alphabet, previous: int): PreviousSymbol {
    if previous == -1 then NoSymbol else if previous == al.space then Space else Char
  }

  lemma {:induction false} RunEndUnique(labels: seq<int>, i: nat, k: nat, end: nat)
    requires i <= k < end <= |labels|
    requires forall m :: i <= m < end ==> labels[m] == labels[i]
    requires end < |labels| ==> labels[end] != labels[i]
    ensures RunEnd(labels, k) == end
    decreases end - k
  {
    if k + 1 < end { RunEndUnique(labels, i, k + 1, end); }
  }

  /** The first pass of `decode_ctc_greedy`. */
  method FillWordGaps(al: Alphabet, labels: seq<int>, previousSymbol: PreviousSymbol, blankFrames: nat)
    returns (indices: seq<int>)
    requires al.Usable() && al.Labels(labels)
    ensures |indices| == |labels|
    ensures forall k :: 0 <= k < |labels| ==> indices[k] == FilledAt(al, Carry(previousSymbol, blankFrames), labels, k)
  {
    indices := labels;
    if al.space < 0 {
      return;
    }
    var frames := |labels|;
    ghost var carry := Carry(previousSymbol, blankFrames);
    var previous := -1;
    if previousSymbol == Char {
      previous := -2;
    } else if previousSymbol == Space {
      previous := al.space;
    }
    var frame := 0;
    while frame < frames
      invariant 0 <= frame <= frames == |indices|
      invariant forall k :: 0 <= k < frame ==> indices[k] == FilledAt(al, carry, labels, k)
      invariant forall k :: frame <= k < frames ==> indices[k] == labels[k]
      invariant Kind(al, previous) == After(al, carry, labels, frame).kind
      invariant frame < frames && labels[frame] == al.blank ==>
                  After(al, carry, labels, frame).blanks == if frame == 0 then blankFrames else 0
    {
      hide GapAt;
      if indices[frame] != al.blank {
        previous := indices[frame];
        frame := frame + 1;
        continue;
      }
      var runStart := frame;
      while frame < frames && indices[frame] == al.blank
        invariant runStart <= frame <= frames
        invariant forall k :: runStart <= k < frame ==> indices[k] == al.blank
      {
        frame := frame + 1;
      }
      var following := if frame < frames then indices[frame] else -1;
      var runLength := frame - runStart + (if runStart == 0 then blankFrames else 0);
      BlankRun(al, carry, labels, runStart, frame);
      if runLength >= al.wordBoundary && previous != -1 && previous != al.space && following >= 0
         && following != al.space {
        var at := runStart;
        while at < frame
          invariant runStart <= at <= frame && |indices| == frames
          invariant forall k :: 0 <= k < runStart ==> indices[k] == FilledAt(al, carry, labels, k)
          invariant forall k :: runStart <= k < at ==> indices[k] == al.space
          invariant forall k :: at <= k < frames ==> indices[k] == labels[k]
        {
          indices := indices[at := al.space];
          at := at + 1;
        }
      }
    }
  }

  lemma BlankRun(al: Alphabet, carry: Carry, labels: seq<int>, start: nat, end: nat)
    requires start < end <= |labels|
    requires forall k :: start <= k < end ==> labels[k] == al.blank
    requires end < |labels| ==> labels[end] != al.blank
    ensures After(al, carry, labels, end)
         == Carry(After(al, carry, labels, start).kind, After(al, carry, labels, start).blanks + (end - start))
    ensures forall k :: start <= k < end ==>
              (GapAt(al, carry, labels, k)
               <==> end < |labels| && labels[end] != al.space && al.WordGap(After(al, carry, labels, end)))
  {
    RunOfBlanks(al, carry, labels, start, end);
    forall k | start <= k < end ensures RunEnd(labels, k) == end {
      RunEndUnique(labels, start, k, end);
    }
  }

  /** The loop of the second pass, from frame `i` on. */
  ghost function Collapse(al: Alphabet, indices: seq<int>, i: nat, previous: int, active: bool, spans: seq<Span>): seq<Span>
    requires i <= |indices| && (active ==> spans != [])
    decreases |indices| - i
  {
    if i == |indices| then spans
    else if indices[i] == al.blank then Collapse(al, indices, i + 1, -1, false, spans)
    else if indices[i] == previous then
      Collapse(al, indices, i + 1, previous, active, if active then Extend(spans, i) else spans)
    else if indices[i] < 0 || |al.chars| <= indices[i] then Collapse(al, indices, i + 1, indices[i], false, spans)
    else Collapse(al, indices, i + 1, indices[i], true, spans + [Span(al.chars[indices[i]], i, i)])
  }

  ghost function Extend(spans: seq<Span>, end: int): seq<Span>
    requires spans != []
  {
    spans[|spans| - 1 := spans[|spans| - 1].(endFrame := end)]
  }

  /** The second pass of `decode_ctc_greedy`. */
  method CollapseSpans(al: Alphabet, indices: seq<int>) returns (spans: seq<Span>)
    ensures spans == Collapse(al, indices, 0, -1, false, [])
  {
    spans := [];
    var previousIndex := -1;
    var active := -1;
    var frame := 0;
    while frame < |indices|
      invariant 0 <= frame <= |indices|
      invariant active == -1 || (active == |spans| - 1 && spans != [])
      invariant Collapse(al, indices, frame, previousIndex, active >= 0, spans)
             == Collapse(al, indices, 0, -1, false, [])
    {
      var index := indices[frame];
      if index == al.blank {
        previousIndex := -1;
        active := -1;
      } else if index == previousIndex {
        if active >= 0 {
          spans := spans[active := spans[active].(endFrame := frame)];
        }
      } else {
        previousIndex := index;
        if index < 0 || index >= |al.chars| {
          active := -1;
        } else {
          spans := spans + [Span(al.chars[index], frame, frame)];
          active := |spans| - 1;
        }
      }
      frame := frame + 1;
    }
  }

  lemma {:induction false} CollapseBlanks(al: Alphabet, indices: seq<int>, i: nat, end: nat, previous: int, active: bool,
                                          spans: seq<Span>)
    requires i < end <= |indices| && (active ==> spans != [])
    requires forall k :: i <= k < end ==> indices[k] == al.blank
    ensures Collapse(al, indices, i, previous, active, spans) == Collapse(al, indices, end, -1, false, spans)
    decreases end - i
  {
    if i + 1 < end { CollapseBlanks(al, indices, i + 1, end, -1, false, spans); }
  }

  lemma {:induction false} CollapseSame(al: Alphabet, indices: seq<int>, start: nat, i: nat, end: nat, spans: seq<Span>)
    requires start < i <= end <= |indices| && 0 <= indices[start] < |al.chars| && indices[start] != al.blank
    requires forall k :: start <= k < end ==> indices[k] == indices[start]
    ensures Collapse(al, indices, i, indices[start], true, spans + [Span(al.chars[indices[start]], start, i - 1)])
         == Collapse(al, indices, end, indices[start], true, spans + [Span(al.chars[indices[start]], start, end - 1)])
    decreases end - i
  {
    if i < end {
      var c := al.chars[indices[start]];
      assert Extend(spans + [Span(c, start, i - 1)], i) == spans + [Span(c, start, i)];
      CollapseSame(al, indices, start, i + 1, end, spans);
    }
  }

  /** One group of the filled labels goes through the second pass as one span. */
  lemma CollapseGroup(al: Alphabet, carry: Carry, labels: seq<int>, indices: seq<int>, i: nat, previous: int,
                      active: bool, spans: seq<Span>)
    requires al.Usable() && al.Labels(labels) && |indices| == |labels| && i < |labels| && (active ==> spans != [])
    requires forall k :: 0 <= k < |labels| ==> indices[k] == FilledAt(al, carry, labels, k)
    requires indices[i] != al.blank ==> indices[i] != previous
    ensures Collapse(al, indices, i, previous, active, spans)
         == Collapse(al, indices, RunEnd(labels, i), if GroupSpans(al, carry, labels, i) == [] then -1 else indices[i],
                     GroupSpans(al, carry, labels, i) != [], spans + GroupSpans(al, carry, labels, i))
  {
    var group, end := GroupSpans(al, carry, labels, i), RunEnd(labels, i);
    forall k | i <= k < end ensures indices[k] == indices[i] {
      RunEndUnique(labels, i, k, end);
    }
    hide GapAt;
    if group == [] {
      CollapseBlanks(al, indices, i, end, previous, active, spans);
      assert spans + group == spans;
    } else {
      CollapseSame(al, indices, i, i + 1, end, spans);
    }
  }

  /** The kind a group leaves behind agrees with what the second pass last saw. */
  lemma NextGroup(al: Alphabet, carry: Carry, labels: seq<int>, i: nat)
    requires al.Usable() && al.Labels(labels) && i < |labels|
    requires RunEnd(labels, i) < |labels|
    ensures var end := RunEnd(labels, i);
            FilledAt(al, carry, labels, end) != al.blank && GroupSpans(al, carry, labels, i) != []
            ==> FilledAt(al, carry, labels, end) != FilledAt(al, carry, labels, i)
  {
    var end := RunEnd(labels, i);
    if labels[i] == al.space && labels[end] == al.blank {
      RunOfSymbol(al, carry, labels, i, end);
      RunOfBlanks(al, carry, labels, end, RunEnd(labels, end));
    }
  }

  /** The two passes together find the spans. */
  lemma {:induction false} TwoPasses(al: Alphabet, carry: Carry, labels: seq<int>, indices: seq<int>, i: nat,
                                     previous: int, active: bool, spans: seq<Span>)
    requires al.Usable() && al.Labels(labels) && |indices| == |labels| && i <= |labels| && (active ==> spans != [])
    requires forall k :: 0 <= k < |labels| ==> indices[k] == FilledAt(al, carry, labels, k)
    requires i < |labels| && indices[i] != al.blank ==> indices[i] != previous
    ensures Collapse(al, indices, i, previous, active, spans) == spans + SpansFrom(al, carry, labels, i)
    decreases |labels| - i
  {
    if i == |labels| { return; }
    hide FilledAt, GroupSpans;
    var group, end := GroupSpans(al, carry, labels, i), RunEnd(labels, i);
    var previous' := if group == [] then -1 else indices[i];
    CollapseGroup(al, carry, labels, indices, i, previous, active, spans);
    assert indices[i] == FilledAt(al, carry, labels, i);
    if end < |labels| {
      NextGroup(al, carry, labels, i);
      FilledRange(al, carry, labels, end);
    }
    calc {
      Collapse(al, indices, i, previous, active, spans);
      Collapse(al, indices, end, previous', group != [], spans + group);
      { TwoPasses(al, carry, labels, indices, end, previous', group != [], spans + group); }
      (spans + group) + SpansFrom(al, carry, labels, end);
      spans + (group + SpansFrom(al, carry, labels, end));
      spans + SpansFrom(al, carry, labels, i);
    }
  }

  lemma FilledRange(al: Alphabet, carry: Carry, labels: seq<int>, i: nat)
    requires al.Usable() && al.Labels(labels) && i < |labels|
    ensures 0 <= FilledAt(al, carry, labels, i)
  {
  }

  /** `decode_ctc_greedy` on rows that were already reduced to their strongest label. */
  method DecodeCtcGreedy(al: Alphabet, labels: seq<int>, previousSymbol: PreviousSymbol, blankFrames: nat)
    returns (spans: seq<Span>)
    requires al.Usable() && al.Labels(labels)
    ensures spans == SpansFrom(al, Carry(previousSymbol, blankFrames), labels, 0)
  {
    var indices := FillWordGaps(al, labels, previousSymbol, blankFrames);
    spans := CollapseSpans(al, indices);
    if |labels| > 0 {
      FilledRange(al, Carry(previousSymbol, blankFrames), labels, 0);
    }
    TwoPasses(al, Carry(previousSymbol, blankFrames), labels, indices, 0, -1, false, []);
  }

  /** `to_lane_text` over the first `end` spans. */
  method ToLaneText(spans: seq<Span>, end: nat, prependSpace: bool) returns (lane: LaneText)
    requires end <= |spans|
    ensures lane == Lane(spans[..end], prependSpace)
  {
    lane := LaneText("", prependSpace);
    var pendingSpace := false;
    var i := 0;
    while i < end
      invariant 0 <= i <= end
      invariant pendingSpace ==> lane.text != ""
      invariant LaneFrom(lane, pendingSpace, spans[i..end]) == Lane(spans[..end], prependSpace)
    {
      var span := spans[i];
      LaneCons(lane, pendingSpace, span, spans[i + 1..end]);
      assert spans[i..end] == [span] + spans[i + 1..end];
      assert lane.text + "" == lane.text;
      if span.character == ' ' {
        if lane.text == "" {
          lane := lane.(prependSpace := true);
        } else {
          pendingSpace := true;
        }
      } else {
        if pendingSpace {
          lane := lane.(text := lane.text + " ");
          pendingSpace := false;
        }
        lane := lane.(text := lane.text + [span.character]);
      }
      i := i + 1;
    }
    assert spans[end..end] == [];
  }
}
