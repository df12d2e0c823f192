/** `cwCopyMarks`: CQ in green, call signs heard at least twice in red, over ASCII text. */
module CopyMarks {
  import opened CallSigns

  datatype Color = Plain | Green | Red

  datatype Mark = Mark(begin: nat, end: nat, color: Color)

  datatype Span = Span(begin: nat, end: nat, key: string)

  function Upper(c: char): char {
    if 'a' <= c <= 'z' then c - 'a' + 'A' else c
  }

  function UpperOf(text: string): (upper: string)
    ensures |upper| == |text| && forall i :: 0 <= i < |text| ==> upper[i] == Upper(text[i])
  {
    seq(|text|, i requires 0 <= i < |text| => Upper(text[i]))
  }

  predicate IsLetter(c: char) {
    'A' <= c <= 'Z' || 'a' <= c <= 'z'
  }

  predicate IsTokenChar(c: char) {
    IsLetter(c) || '0' <= c <= '9'
  }

  // ---------------------------------------------------------------- what is promised

  predicate CqAt(text: string, i: int) {
    0 <= i && i + 1 < |text| && Upper(text[i]) == 'C' && Upper(text[i + 1]) == 'Q'
  }

  predicate InCq(text: string, k: int) {
    CqAt(text, k) || CqAt(text, k - 1)
  }

  /** A call sign stands at `upper[b..e]`. */
  predicate CallAt(upper: string, b: int, e: int) {
    0 <= b <= e <= |upper| && CallSign(upper[b..e])
  }

  predicate SameAt(upper: string, b: int, e: int, c: int)
    requires 0 <= b <= e <= |upper|
  {
    0 <= c && c + (e - b) <= |upper| && upper[c..c + (e - b)] == upper[b..e]
  }

  /** The same characters stand somewhere else too. */
  ghost predicate Elsewhere(upper: string, b: int, e: int)
    requires 0 <= b <= e <= |upper|
  {
    exists c :: c != b && SameAt(upper, b, e, c)
  }

  /** Position `k` is covered by an occurrence of a call sign that occurs at least twice. */
  ghost predicate InRepeatedCall(upper: string, k: int) {
    exists b, e :: CallAt(upper, b, e) && b <= k < e && Elsewhere(upper, b, e)
  }

  ghost function ColorAt(text: string, k: int): Color {
    if InRepeatedCall(UpperOf(text), k) then Red else if InCq(text, k) then Green else Plain
  }

  ghost function Coloring(text: string): (colors: seq<Color>)
    ensures |colors| == |text| && forall k :: 0 <= k < |text| ==> colors[k] == ColorAt(text, k)
  {
    seq(|text|, k requires 0 <= k < |text| => ColorAt(text, k))
  }

  /** The marks are the maximal runs of one color that is not plain, in order. */
  ghost predicate AreRuns(marks: seq<Mark>, colors: seq<Color>) {
    && (forall i :: 0 <= i < |marks| ==> IsRun(marks[i], colors))
    && (forall i, j :: 0 <= i < j < |marks| ==> marks[i].end <= marks[j].begin)
    && (forall k :: 0 <= k < |colors| && colors[k] != Plain ==> Covered(marks, k))
  }

  ghost predicate IsRun(m: Mark, colors: seq<Color>) {
    && m.begin < m.end <= |colors| && m.color != Plain
    && (forall k :: m.begin <= k < m.end ==> colors[k] == m.color)
    && (0 < m.begin ==> colors[m.begin - 1] != m.color) && (m.end < |colors| ==> colors[m.end] != m.color)
  }

  ghost predicate Covered(marks: seq<Mark>, k: int) {
    exists i :: 0 <= i < |marks| && marks[i].begin <= k < marks[i].end
  }

  // ---------------------------------------------------------------- finding the calls

  lemma CallIsToken(upper: string, b: int, e: int)
    requires CallAt(upper, b, e)
    ensures 3 <= e - b <= 8 && forall i :: b <= i < e ==> IsTokenChar(upper[i])
  {
    var key := upper[b..e];
    TokenKey(key);
    forall i | b <= i < e ensures IsTokenChar(upper[i]) {
      assert upper[i] == key[i - b];
    }
  }

  lemma TokenKey(key: string)
    requires CallSign(key)
    ensures 3 <= |key| <= 8 && forall i :: 0 <= i < |key| ==> IsTokenChar(key[i])
  {
  }

  predicate InOrder(a: Span, b: Span) {
    a.begin < b.begin || (a.begin == b.begin && a.end < b.end)
  }

  /** The calls found are all those standing before position (`begin`, `end`), in order. */
  ghost predicate FoundTo(calls: seq<Span>, upper: string, begin: int, end: int) {
    && (forall i :: 0 <= i < |calls| ==> SpanOk(calls[i], upper) && Reached(calls[i].begin, calls[i].end, begin, end))
    && (forall i, j :: 0 <= i < j < |calls| ==> InOrder(calls[i], calls[j]))
    && (forall b: nat, e: nat :: CallAt(upper, b, e) && Reached(b, e, begin, end) ==> Span(b, e, upper[b..e]) in calls)
  }

  ghost predicate SpanOk(s: Span, upper: string) {
    CallAt(upper, s.begin, s.end) && s.key == upper[s.begin..s.end]
  }

  predicate Reached(b: int, e: int, begin: int, end: int) {
    b < begin || (b == begin && e < end)
  }

  function Count(calls: seq<Span>, n: nat, key: string): nat
    requires n <= |calls|
  {
    if n == 0 then 0 else Count(calls, n - 1, key) + (if calls[n - 1].key == key then 1 else 0)
  }

  /** `counts` holds how often each key was found. */
  ghost predicate Tallied(counts: map<string, nat>, calls: seq<Span>) {
    forall key :: (if key in counts then counts[key] else 0) == Count(calls, |calls|, key)
  }

  lemma FoundStep(calls: seq<Span>, upper: string, begin: nat, end: nat)
    requires FoundTo(calls, upper, begin, end) && begin <= end <= |upper|
    ensures CallAt(upper, begin, end) ==> FoundTo(calls + [Span(begin, end, upper[begin..end])], upper, begin, end + 1)
    ensures !CallAt(upper, begin, end) ==> FoundTo(calls, upper, begin, end + 1)
  {
    hide CallAt;
    forall b: nat, e: nat | CallAt(upper, b, e) && Reached(b, e, begin, end + 1) && !Reached(b, e, begin, end)
      ensures b == begin && e == end {
    }
  }

  /** Where no further call can begin or end, the position may move on. */
  lemma FoundJump(calls: seq<Span>, upper: string, begin: int, end: int, begin2: int, end2: int)
    requires FoundTo(calls, upper, begin, end) && Reached(begin, end, begin2, end2 + 1)
    requires forall b: nat, e: nat :: CallAt(upper, b, e) && Reached(b, e, begin2, end2) ==> Reached(b, e, begin, end)
    ensures FoundTo(calls, upper, begin2, end2)
  {
  }

  lemma CountNext(calls: seq<Span>, span: Span, n: nat, key: string)
    requires n <= |calls|
    ensures Count(calls + [span], n, key) == Count(calls, n, key)
  {
    if 0 < n {
      CountNext(calls, span, n - 1, key);
    }
  }

  lemma TallyNext(counts: map<string, nat>, calls: seq<Span>, span: Span)
    requires Tallied(counts, calls)
    ensures Tallied(counts[span.key := (if span.key in counts then counts[span.key] else 0) + 1], calls + [span])
  {
    var more := counts[span.key := (if span.key in counts then counts[span.key] else 0) + 1];
    forall key ensures (if key in more then more[key] else 0) == Count(calls + [span], |calls| + 1, key) {
      CountNext(calls, span, |calls|, key);
      assert (if key in counts then counts[key] else 0) == Count(calls, |calls|, key);
    }
  }

  /** Past `end` there is no token character: no call reaches across it. */
  predicate Fenced(upper: string, end: int) {
    0 <= end <= |upper| && (end < |upper| ==> !IsTokenChar(upper[end]))
  }

  lemma NoneLonger(upper: string, p: nat, len: int, runEnd: int, e: nat)
    requires Fenced(upper, runEnd) && p < runEnd && CallAt(upper, p, e) && p + len <= e
    ensures len <= 8 && len <= runEnd - p
  {
    CallIsToken(upper, p, e);
  }

  /** All calls that begin at position `p` of a run. */
  method CallsFrom(upper: string, p: nat, runEnd: nat, calls: seq<Span>, counts: map<string, nat>)
    returns (found: seq<Span>, tallies: map<string, nat>)
    requires p < runEnd && Fenced(upper, runEnd) && FoundTo(calls, upper, p, 0) && Tallied(counts, calls)
    ensures FoundTo(found, upper, p + 1, 0) && Tallied(tallies, found)
  {
    hide FoundTo, Tallied, CallSign, Fenced;
    FencedRange(upper, runEnd);
    found, tallies := calls, counts;
    var maxLen := if runEnd - p < 8 then runEnd - p else 8;
    var len := 3;
    forall b: nat, e: nat | CallAt(upper, b, e) && Reached(b, e, p, p + 3) ensures Reached(b, e, p, 0) {
      CallIsToken(upper, b, e);
    }
    FoundJump(found, upper, p, 0, p, p + 3);
    while len <= maxLen
      invariant 3 <= len && FoundTo(found, upper, p, p + len) && Tallied(tallies, found)
    {
      var key := upper[p..p + len];
      FoundStep(found, upper, p, p + len);
      var is_ := IsCallSign(key);
      if is_ {
        TallyNext(tallies, found, Span(p, p + len, key));
        found := found + [Span(p, p + len, key)];
        tallies := tallies[key := (if key in tallies then tallies[key] else 0) + 1];
      }
      len := len + 1;
    }
    forall b: nat, e: nat | CallAt(upper, b, e) && Reached(b, e, p + 1, 0) ensures Reached(b, e, p, p + len) {
      if b == p && p + len <= e {
        NoneLonger(upper, p, len, runEnd, e);
      }
    }
    FoundJump(found, upper, p, p + len, p + 1, 0);
  }

  lemma FencedRange(upper: string, end: int)
    requires Fenced(upper, end)
    ensures 0 <= end <= |upper|
  {
  }

  /** The first pass: every call sign of the text, and how often each occurs. */
  method FindCalls(upper: string) returns (calls: seq<Span>, counts: map<string, nat>)
    ensures FoundTo(calls, upper, |upper|, 0) && Tallied(counts, calls)
  {
    hide FoundTo, Tallied, CallAt;
    calls, counts := [], map[];
    NothingFound(upper);
    var i := 0;
    while i < |upper|
      invariant 0 <= i <= |upper| && FoundTo(calls, upper, i, 0) && Tallied(counts, calls)
    {
      if !IsTokenChar(upper[i]) {
        forall b: nat, e: nat | CallAt(upper, b, e) && Reached(b, e, i + 1, 0) ensures Reached(b, e, i, 0) {
          CallIsToken(upper, b, e);
        }
        FoundJump(calls, upper, i, 0, i + 1, 0);
        i := i + 1;
        continue;
      }
      var runBegin := i;
      i := i + 1;
      while i < |upper| && IsTokenChar(upper[i])
        invariant runBegin < i <= |upper|
      {
        i := i + 1;
      }
      for start := runBegin to i
        invariant FoundTo(calls, upper, start, 0) && Tallied(counts, calls)
      {
        calls, counts := CallsFrom(upper, start, i, calls, counts);
      }
    }
  }

  lemma NothingFound(upper: string)
    ensures FoundTo([], upper, 0, 0) && Tallied(map[], [])
  {
  }

  // ---------------------------------------------------------------- twice is repeated

  lemma {:induction false} CountedTwice(calls: seq<Span>, n: nat, key: string)
    requires n <= |calls|
    ensures Count(calls, n, key) >= 1 <==> exists i :: 0 <= i < n && calls[i].key == key
    ensures Count(calls, n, key) >= 2 <==> exists i, j :: 0 <= i < j < n && calls[i].key == key && calls[j].key == key
  {
    if 0 < n {
      CountedTwice(calls, n - 1, key);
      if calls[n - 1].key == key && Count(calls, n - 1, key) >= 1 {
        var i :| 0 <= i < n - 1 && calls[i].key == key;
        assert 0 <= i < n - 1 < n && calls[i].key == key && calls[n - 1].key == key;
      }
    }
  }

  lemma TwoFound(calls: seq<Span>, upper: string, i: nat, j: nat)
    requires FoundTo(calls, upper, |upper|, 0) && i < j < |calls| && calls[i].key == calls[j].key
    ensures SpanOk(calls[i], upper) && SpanOk(calls[j], upper) && calls[i].begin != calls[j].begin
  {
    hide CallSign;
    assert InOrder(calls[i], calls[j]) && SpanOk(calls[i], upper) && SpanOk(calls[j], upper);
  }

  lemma SameKeySameAt(upper: string, a: Span, b: Span)
    requires SpanOk(a, upper) && SpanOk(b, upper) && a.key == b.key
    ensures SameAt(upper, a.begin, a.end, b.begin)
  {
    hide CallSign;
  }

  lemma FoundComplete(calls: seq<Span>, upper: string, b: nat, e: nat)
    requires FoundTo(calls, upper, |upper|, 0) && CallAt(upper, b, e)
    ensures Span(b, e, upper[b..e]) in calls
  {
    CallIsToken(upper, b, e);
    assert Reached(b, e, |upper|, 0);
  }

  lemma SameIsCall(upper: string, b: nat, e: nat, c: int)
    requires CallAt(upper, b, e) && SameAt(upper, b, e, c)
    ensures CallAt(upper, c, c + (e - b))
  {
    hide CallSign;
  }

  lemma CountedElsewhere(calls: seq<Span>, upper: string, span: Span)
    requires FoundTo(calls, upper, |upper|, 0) && SpanOk(span, upper) && Count(calls, |calls|, span.key) >= 2
    ensures Elsewhere(upper, span.begin, span.end)
  {
    hide FoundTo, CallAt, Count, SpanOk, SameAt;
    SpanParts(span, upper);
    CountedTwice(calls, |calls|, span.key);
    var a, b :| 0 <= a < b < |calls| && calls[a].key == span.key && calls[b].key == span.key;
    TwoFound(calls, upper, a, b);
    SameKeySameAt(upper, span, calls[a]);
    SameKeySameAt(upper, span, calls[b]);
  }

  lemma SpanParts(span: Span, upper: string)
    requires SpanOk(span, upper)
    ensures 0 <= span.begin <= span.end <= |upper| && CallAt(upper, span.begin, span.end) && span.key == upper[span.begin..span.end]
  {
  }

  lemma ElsewhereCounted(calls: seq<Span>, upper: string, span: Span)
    requires FoundTo(calls, upper, |upper|, 0) && SpanOk(span, upper) && Elsewhere(upper, span.begin, span.end)
    ensures Count(calls, |calls|, span.key) >= 2
  {
    hide FoundTo, CallAt, Count, CallSign, SpanOk;
    SpanParts(span, upper);
    var c :| c != span.begin && SameAt(upper, span.begin, span.end, c);
    var e := c + (span.end - span.begin);
    SameIsCall(upper, span.begin, span.end, c);
    FoundComplete(calls, upper, span.begin, span.end);
    FoundComplete(calls, upper, c, e);
    CountedTwice(calls, |calls|, span.key);
    var i :| 0 <= i < |calls| && calls[i] == span;
    var j :| 0 <= j < |calls| && calls[j] == Span(c, e, upper[c..e]);
    assert i != j && calls[i].key == calls[j].key == span.key;
  }

  // ---------------------------------------------------------------- painting

  predicate Paints(span: Span, counts: map<string, nat>, k: int) {
    span.begin <= k < span.end && span.key in counts && counts[span.key] >= 2
  }

  /** What painting the first `n` calls has made red. */
  ghost predicate PaintedRed(calls: seq<Span>, counts: map<string, nat>, n: nat, k: int)
    requires n <= |calls|
  {
    exists i :: 0 <= i < n && Paints(calls[i], counts, k)
  }

  lemma PaintedNext(calls: seq<Span>, counts: map<string, nat>, n: nat, k: int)
    requires n < |calls|
    ensures PaintedRed(calls, counts, n + 1, k) <==> (PaintedRed(calls, counts, n, k) || Paints(calls[n], counts, k))
  {
  }

  /** In the end the red positions are those of repeated calls. */
  lemma PaintedIsRepeated(calls: seq<Span>, counts: map<string, nat>, upper: string, k: int)
    requires FoundTo(calls, upper, |upper|, 0) && Tallied(counts, calls)
    ensures PaintedRed(calls, counts, |calls|, k) <==> InRepeatedCall(upper, k)
  {
    hide FoundTo, CallSign, Count, Elsewhere, Tallied;
    if PaintedRed(calls, counts, |calls|, k) {
      var i :| 0 <= i < |calls| && Paints(calls[i], counts, k);
      FoundSpan(calls, upper, i);
      TallyOf(counts, calls, calls[i].key);
      CountedElsewhere(calls, upper, calls[i]);
      SpanParts(calls[i], upper);
    }
    if InRepeatedCall(upper, k) {
      var b, e :| CallAt(upper, b, e) && b <= k < e && Elsewhere(upper, b, e);
      FoundComplete(calls, upper, b, e);
      var i :| 0 <= i < |calls| && calls[i] == Span(b, e, upper[b..e]);
      FoundSpan(calls, upper, i);
      ElsewhereCounted(calls, upper, calls[i]);
      TallyOf(counts, calls, calls[i].key);
    }
  }

  lemma FoundSpan(calls: seq<Span>, upper: string, i: nat)
    requires FoundTo(calls, upper, |upper|, 0) && i < |calls|
    ensures SpanOk(calls[i], upper)
  {
  }

  lemma TallyOf(counts: map<string, nat>, calls: seq<Span>, key: string)
    requires Tallied(counts, calls)
    ensures (if key in counts then counts[key] else 0) == Count(calls, |calls|, key)
  {
  }

  lemma LetterCq(text: string, i: nat)
    requires i + 1 < |text|
    ensures CqAt(text, i) <==> UpperOf(text)[i] == 'C' && UpperOf(text)[i + 1] == 'Q' && IsLetter(text[i]) && IsLetter(text[i + 1])
  {
  }

  /** What is green once the pairs that begin before `i` have been looked at. */
  predicate GreenTo(text: string, i: int, k: int) {
    (k < i && CqAt(text, k)) || (k <= i && CqAt(text, k - 1))
  }

  lemma GreenNext(text: string, i: int, k: int)
    ensures GreenTo(text, i + 1, k) <==> (GreenTo(text, i, k) || (CqAt(text, i) && (k == i || k == i + 1)))
  {
    hide CqAt;
  }

  lemma GreenEnds(text: string, i: int, k: int)
    ensures i <= 0 ==> !GreenTo(text, i, k)
    ensures |text| <= i + 1 && k < |text| ==> (GreenTo(text, i, k) <==> InCq(text, k))
  {
  }

  /** CQ is painted first. */
  method PaintCq(text: string, upper: string, color: array<Color>)
    requires upper == UpperOf(text) && color.Length == |text| && forall k :: 0 <= k < |text| ==> color[k] == Plain
    modifies color
    ensures forall k :: 0 <= k < |text| ==> color[k] == if InCq(text, k) then Green else Plain
  {
    hide GreenTo, InCq, CqAt, UpperOf;
    var i := 0;
    forall k {
      GreenEnds(text, 0, k);
    }
    while i + 1 < |text|
      invariant 0 <= i <= |text|
      invariant forall k :: 0 <= k < |text| ==> color[k] == if GreenTo(text, i, k) then Green else Plain
    {
      LetterCq(text, i);
      forall k ensures GreenTo(text, i + 1, k) <==> (GreenTo(text, i, k) || (CqAt(text, i) && (k == i || k == i + 1))) {
        GreenNext(text, i, k);
      }
      ghost var was := color[..];
      if upper[i] == 'C' && upper[i + 1] == 'Q' && IsLetter(text[i]) && IsLetter(text[i + 1]) {
        color[i] := Green;
        color[i + 1] := Green;
      }
      forall k | 0 <= k < |text| ensures color[k] == if GreenTo(text, i + 1, k) then Green else Plain {
        assert was[k] == if GreenTo(text, i, k) then Green else Plain;
        assert color[k] == if CqAt(text, i) && (k == i || k == i + 1) then Green else was[k];
      }
      i := i + 1;
    }
    forall k {
      GreenEnds(text, i, k);
    }
  }

  /** Repeated calls are painted over it. */
  method PaintCalls(calls: seq<Span>, counts: map<string, nat>, color: array<Color>)
    requires forall i :: 0 <= i < |calls| ==> calls[i].begin <= calls[i].end <= color.Length
    modifies color
    ensures forall k :: 0 <= k < color.Length ==>
      color[k] == if PaintedRed(calls, counts, |calls|, k) then Red else old(color[k])
  {
    hide PaintedRed;
    forall k {
      NothingPainted(calls, counts, k);
    }
    for n := 0 to |calls|
      invariant forall k :: 0 <= k < color.Length ==> color[k] == if PaintedRed(calls, counts, n, k) then Red else old(color[k])
    {
      var span := calls[n];
      forall k {
        PaintedNext(calls, counts, n, k);
      }
      if span.key in counts && counts[span.key] >= 2 {
        ghost var was := color[..];
        for k := span.begin to span.end
          invariant forall j :: 0 <= j < color.Length ==> color[j] == if span.begin <= j < k then Red else was[j]
        {
          color[k] := Red;
        }
      }
    }
  }

  lemma NothingPainted(calls: seq<Span>, counts: map<string, nat>, k: int)
    ensures !PaintedRed(calls, counts, 0, k)
  {
  }

  // ---------------------------------------------------------------- the marks

  /** The runs of the colors below `k`, none of them cut off there. */
  ghost predicate RunsTo(marks: seq<Mark>, colors: seq<Color>, k: int) {
    && (forall i :: 0 <= i < |marks| ==> IsRun(marks[i], colors) && marks[i].end <= k)
    && (forall i, j :: 0 <= i < j < |marks| ==> marks[i].end <= marks[j].begin)
    && (forall p :: 0 <= p < k && p < |colors| && colors[p] != Plain ==> Covered(marks, p))
  }

  lemma RunAdded(marks: seq<Mark>, colors: seq<Color>, m: Mark)
    requires RunsTo(marks, colors, m.begin) && IsRun(m, colors)
    ensures RunsTo(marks + [m], colors, m.end)
  {
    var more := marks + [m];
    forall p | 0 <= p < m.end && p < |colors| && colors[p] != Plain ensures Covered(more, p) {
      if p < m.begin {
        var i :| 0 <= i < |marks| && marks[i].begin <= p < marks[i].end;
        assert more[i] == marks[i];
      } else {
        assert more[|marks|] == m;
      }
    }
  }

  lemma PlainSkipped(marks: seq<Mark>, colors: seq<Color>, k: int)
    requires RunsTo(marks, colors, k) && 0 <= k < |colors| && colors[k] == Plain
    ensures RunsTo(marks, colors, k + 1)
  {
  }

  lemma NoRuns(colors: seq<Color>)
    ensures RunsTo([], colors, 0)
  {
  }

  lemma RunsToAll(marks: seq<Mark>, colors: seq<Color>)
    ensures RunsTo(marks, colors, |colors|) ==> AreRuns(marks, colors)
  {
  }

  /** The last pass: maximal runs of one color. */
  method Marks(colors: seq<Color>) returns (marks: seq<Mark>)
    ensures AreRuns(marks, colors)
  {
    hide RunsTo, AreRuns;
    marks := [];
    var k := 0;
    NoRuns(colors);
    while k < |colors|
      invariant 0 <= k <= |colors| && RunsTo(marks, colors, k)
      invariant 0 < k < |colors| && colors[k] != Plain ==> colors[k - 1] != colors[k]
    {
      if colors[k] == Plain {
        PlainSkipped(marks, colors, k);
        k := k + 1;
        continue;
      }
      var end := k + 1;
      while end < |colors| && colors[end] == colors[k]
        invariant k < end <= |colors| && forall p :: k <= p < end ==> colors[p] == colors[k]
      {
        end := end + 1;
      }
      var m := Mark(k, end, colors[k]);
      assert IsRun(m, colors);
      RunAdded(marks, colors, m);
      marks := marks + [m];
      k := end;
    }
    RunsToAll(marks, colors);
  }

  /** There is only one list of maximal runs. */
  lemma {:induction false} RunsAreUnique(a: seq<Mark>, b: seq<Mark>, colors: seq<Color>, n: nat)
    requires AreRuns(a, colors) && AreRuns(b, colors) && n <= |a|
    ensures n <= |b| && a[..n] == b[..n]
  {
    if 0 < n {
      RunsAreUnique(a, b, colors, n - 1);
      NextRunSame(a, b, colors, n - 1);
      assert a[..n] == a[..n - 1] + [a[n - 1]];
    }
  }

  lemma FindRun(b: seq<Mark>, colors: seq<Color>, m: Mark) returns (i: nat)
    requires AreRuns(b, colors) && IsRun(m, colors)
    ensures i < |b| && b[i] == m
  {
    assert colors[m.begin] == m.color;
    assert Covered(b, m.begin);
    i :| 0 <= i < |b| && b[i].begin <= m.begin < b[i].end;
    RunsMeet(m, b[i], colors);
  }

  lemma RunAt(a: seq<Mark>, colors: seq<Color>, i: nat)
    requires AreRuns(a, colors) && i < |a|
    ensures IsRun(a[i], colors) && a[i].begin < a[i].end
    ensures forall j :: i < j < |a| ==> a[i].end <= a[j].begin
  {
  }

  lemma NextRunSame(a: seq<Mark>, b: seq<Mark>, colors: seq<Color>, n: nat)
    requires AreRuns(a, colors) && AreRuns(b, colors) && n < |a| && n <= |b| && a[..n] == b[..n]
    ensures n < |b| && a[n] == b[n]
  {
    hide AreRuns, IsRun;
    RunAt(a, colors, n);
    var i := FindRun(b, colors, a[n]);
    SameBefore(a, b, n);
    if i < n {
      RunAt(a, colors, i);
    } else if n < i {
      RunAt(b, colors, n);
      var k := FindRun(a, colors, b[n]);
      if n < k {
        RunAt(b, colors, n);
      } else if k < n {
        RunAt(b, colors, k);
      }
    }
  }

  lemma SameBefore(a: seq<Mark>, b: seq<Mark>, n: nat)
    requires n <= |a| && n <= |b| && a[..n] == b[..n]
    ensures forall i :: 0 <= i < n ==> a[i] == b[i]
  {
    forall i | 0 <= i < n ensures a[i] == b[i] {
      assert a[..n][i] == b[..n][i];
    }
  }

  /** Two maximal runs that share a position are the same. */
  lemma RunsMeet(m: Mark, r: Mark, colors: seq<Color>)
    requires IsRun(m, colors) && IsRun(r, colors) && r.begin <= m.begin < r.end
    ensures m == r
  {
    assert colors[m.begin] == m.color && colors[m.begin] == r.color;
  }

  /** `cwCopyMarks` */
  method CwCopyMarks(text: string) returns (marks: seq<Mark>)
    ensures AreRuns(marks, Coloring(text))
  {
    hide FoundTo, Tallied, PaintedRed, InRepeatedCall, InCq, AreRuns, Coloring;
    var upper := UpperOf(text);
    var color := new Color[|text|](i => Plain);
    PaintCq(text, upper, color);
    var calls, counts := FindCalls(upper);
    forall i | 0 <= i < |calls| ensures calls[i].begin <= calls[i].end <= |text| {
      FoundSpan(calls, upper, i);
      SpanParts(calls[i], upper);
    }
    PaintCalls(calls, counts, color);
    forall k | 0 <= k < |text| ensures color[k] == ColorAt(text, k) {
      PaintedIsRepeated(calls, counts, upper, k);
    }
    assert color[..] == Coloring(text);
    marks := Marks(color[..]);
  }
}
