/** The text of the threshold decoder: protocol spaces, suppression of T and E streams, and trimming
    keep it free of leading and double spaces and within its bound. */
module ScrollText {
  import CopyMarks

  const MAX_SCROLL := 2000
  const MAX_RECENT := 24
  const SPAM_MAX := 10

  datatype Scroll = Scroll(text: string, recent: string, spam: int)

  const CLEAR := Scroll("", "", 0)

  predicate EndsWith(text: string, end: string) {
    |end| <= |text| && text[|text| - |end|..] == end
  }

  /** `maybeInsertProtocolSpace` */
  function WithProtocolSpace(text: string, next: char): (t: string)
    ensures t == text || t == text + " "
    ensures t != text ==> next != ' ' && text != "" && text[|text| - 1] != ' '
  {
    if next == ' ' || text == "" || EndsWith(text, " ") then text
    else if CopyMarks.Upper(next) == 'D' && (EndsWith(text, "CQ") || text == "Q" || EndsWith(text, " Q")) then text + " "
    else if EndsWith(text, "DE") || EndsWith(text, " DE") then text + " "
    else text
  }

  function TeCount(recent: string, n: nat): (te: nat)
    requires n <= |recent|
    ensures te <= n
  {
    if n == 0 then 0 else TeCount(recent, n - 1) + (if recent[n - 1] == 'T' || recent[n - 1] == 'E' then 1 else 0)
  }

  /** A T or E after so many of them is held back. */
  predicate Suppressed(recent: string, ch: char) {
    |recent| >= 10 && TeCount(recent, |recent|) * 100 / |recent| >= 80 && (ch == 'T' || ch == 'E')
  }

  function Remembered(recent: string, ch: char): (r: string)
    ensures r != ""
  {
    var r := recent + [CopyMarks.Upper(ch)];
    if |r| > MAX_RECENT then r[|r| - MAX_RECENT..] else r
  }

  /** The last 24 characters are remembered, in upper case and in order. */
  lemma RememberedSays(recent: string, ch: char)
    ensures var r := Remembered(recent, ch);
            && |r| == (if |recent| < 24 then |recent| + 1 else 24) && r[|r| - 1] == CopyMarks.Upper(ch)
            && forall k :: 0 <= k < |r| - 1 ==> r[k] == recent[|recent| - |r| + 1 + k]
  {
  }

  function Hint(spam: int, recent: string): int
    requires recent != ""
  {
    if |recent| >= 8 && TeCount(recent, |recent|) * 100 / |recent| >= 75 then Raised(spam)
    else if spam - 1 < 0 then 0 else spam - 1
  }

  function Raised(spam: int): int {
    if spam + 1 > SPAM_MAX then SPAM_MAX else spam + 1
  }

  /** `indexOf(' ', from)` */
  function SpaceFrom(text: string, from: nat): (i: int)
    ensures i == -1 || (from <= i < |text| && text[i] == ' ')
    ensures forall k :: from <= k < (if i == -1 then |text| else i) ==> text[k] != ' '
    decreases |text| - from
  {
    if from >= |text| then -1 else if text[from] == ' ' then from else SpaceFrom(text, from + 1)
  }

  /** How much `trimScrollBuffer` cuts off: behind a space, if there is one near the mark. */
  function CutOf(text: string): (cut: nat)
    requires MAX_SCROLL < |text|
  {
    var drop := |text| - MAX_SCROLL + 200;
    var sp := SpaceFrom(text, drop - 40);
    if sp >= 0 && sp < drop + 80 then sp + 1 else drop
  }

  function Trimmed(text: string): string {
    if |text| <= MAX_SCROLL || CutOf(text) > |text| then text else text[CutOf(text)..]
  }

  /** `appendChar` */
  function Appended(s: Scroll, ch: char): Scroll {
    if ch == ' ' then
      if s.text == "" || EndsWith(s.text, " ") then s else s.(text := Trimmed(s.text + [ch]))
    else
      var text := WithProtocolSpace(s.text, ch);
      if Suppressed(s.recent, ch) then s.(text := text, spam := Raised(s.spam))
      else
        var recent := Remembered(s.recent, ch);
        Scroll(Trimmed(text + [ch]), recent, Hint(s.spam, recent))
  }

  // ---------------------------------------------------------------- what holds of the text

  /** No space in front, and no two together. */
  predicate Spaced(text: string) {
    forall i :: 0 <= i < |text| && text[i] == ' ' ==> 0 < i && text[i - 1] != ' '
  }

  /** One character over the limit only for a protocol space whose letter was held back. */
  predicate Bounded(text: string) {
    |text| <= MAX_SCROLL || (|text| == MAX_SCROLL + 1 && text[MAX_SCROLL] == ' ')
  }

  lemma SpacedSnoc(text: string, ch: char)
    requires Spaced(text) && (ch == ' ' ==> text != "" && text[|text| - 1] != ' ')
    ensures Spaced(text + [ch])
  {
  }

  lemma EndsInSpace(text: string)
    ensures EndsWith(text, " ") <==> text != "" && text[|text| - 1] == ' '
  {
    if text != "" {
      assert text[|text| - 1..] == [text[|text| - 1]];
    }
  }

  lemma ProtocolKeeps(text: string, next: char)
    requires Spaced(text)
    ensures Spaced(WithProtocolSpace(text, next))
  {
    hide EndsWith;
    if text != "" && text[|text| - 1] != ' ' {
      SpacedSnoc(text, ' ');
    }
  }

  /** Cutting never leaves a space in front. */
  lemma TrimKeeps(text: string)
    requires Spaced(text) && |text| <= MAX_SCROLL + 2
    ensures Spaced(Trimmed(text)) && |Trimmed(text)| <= MAX_SCROLL
    ensures |text| <= MAX_SCROLL ==> Trimmed(text) == text
    ensures MAX_SCROLL < |text| ==> MAX_SCROLL - 280 <= |Trimmed(text)|
  {
    if MAX_SCROLL < |text| {
      var cut := CutOf(text);
      assert cut <= |text|;
      CutBetween(text);
      CutSpaced(text, cut);
    }
  }

  lemma BehindSpace(text: string, k: nat)
    requires Spaced(text) && k + 1 < |text| && text[k] == ' '
    ensures text[k + 1] != ' '
  {
  }

  lemma CutBetween(text: string)
    requires Spaced(text) && MAX_SCROLL < |text| <= MAX_SCROLL + 2
    ensures 161 < CutOf(text) < 283 && text[CutOf(text)] != ' '
  {
    var drop := |text| - MAX_SCROLL + 200;
    var sp := SpaceFrom(text, drop - 40);
    if sp >= 0 && sp < drop + 80 {
      BehindSpace(text, sp);
    } else {
      assert text[drop] != ' ';
    }
  }

  lemma CutSpaced(text: string, cut: nat)
    requires Spaced(text) && cut < |text| && text[cut] != ' '
    ensures Spaced(text[cut..])
  {
    var rest := text[cut..];
    forall i | 0 <= i < |rest| && rest[i] == ' ' ensures 0 < i && rest[i - 1] != ' ' {
      assert text[cut + i] == ' ' && text[cut + i - 1] != ' ';
    }
  }

  lemma BoundedSize(text: string)
    ensures Bounded(text) ==> |text| <= MAX_SCROLL + 1
    ensures Bounded(text) && |text| == MAX_SCROLL + 1 ==> text[|text| - 1] == ' '
    ensures |text| <= MAX_SCROLL ==> Bounded(text) && Bounded(text + " ")
  {
  }

  /** Every append keeps the text spaced and bounded. */
  lemma AppendKeeps(s: Scroll, ch: char)
    requires Spaced(s.text) && Bounded(s.text)
    ensures Spaced(Appended(s, ch).text) && Bounded(Appended(s, ch).text)
  {
    hide Spaced, Bounded, WithProtocolSpace, Trimmed, Suppressed, EndsWith, TeCount, Remembered, Hint;
    EndsInSpace(s.text);
    BoundedSize(s.text);
    if ch == ' ' {
      if s.text != "" && s.text[|s.text| - 1] != ' ' {
        SpacedSnoc(s.text, ch);
        TrimKeeps(s.text + [ch]);
        BoundedSize(Trimmed(s.text + [ch]));
      }
    } else {
      var text := WithProtocolSpace(s.text, ch);
      ProtocolKeeps(s.text, ch);
      SpacedSnoc(text, ch);
      TrimKeeps(text + [ch]);
      BoundedSize(Trimmed(text + [ch]));
    }
  }

  function AppendedAll(s: Scroll, chars: string, n: nat): Scroll
    requires n <= |chars|
  {
    if n == 0 then s else Appended(AppendedAll(s, chars, n - 1), chars[n - 1])
  }

  /** From a clear state, whatever characters come, the text never starts with a space, never has
      two together, and never exceeds its bound by more than one. */
  lemma {:induction false} AlwaysSpaced(chars: string, n: nat)
    requires n <= |chars|
    ensures Spaced(AppendedAll(CLEAR, chars, n).text) && Bounded(AppendedAll(CLEAR, chars, n).text)
  {
    hide Spaced, Bounded, Appended;
    if n == 0 {
      ClearIsFine();
    } else {
      AlwaysSpaced(chars, n - 1);
      AppendKeeps(AppendedAll(CLEAR, chars, n - 1), chars[n - 1]);
    }
  }

  lemma ClearIsFine()
    ensures Spaced("") && Bounded("")
  {
  }

  // ---------------------------------------------------------------- the letters stay

  /** The text without its spaces. */
  function Letters(text: string, n: nat): string
    requires n <= |text|
  {
    if n == 0 then "" else Letters(text, n - 1) + (if text[n - 1] == ' ' then "" else [text[n - 1]])
  }

  lemma {:induction false} LettersPrefix(text: string, more: string, n: nat)
    requires n <= |text|
    ensures Letters(text + more, n) == Letters(text, n)
  {
    if 0 < n {
      LettersPrefix(text, more, n - 1);
    }
  }

  lemma LettersSnoc(text: string, ch: char)
    ensures Letters(text + [ch], |text| + 1) == if ch == ' ' then Letters(text, |text|) else Letters(text, |text|) + [ch]
  {
    LettersPrefix(text, [ch], |text|);
    assert Letters(text, |text|) + "" == Letters(text, |text|);
  }

  /** Until the text is trimmed, exactly the letters that are not held back are added, in order. */
  lemma AppendAddsLetter(s: Scroll, ch: char)
    requires |s.text| + 2 <= MAX_SCROLL
    ensures var t := Appended(s, ch).text;
            Letters(t, |t|) == Letters(s.text, |s.text|) + (if ch == ' ' || Suppressed(s.recent, ch) then "" else [ch])
  {
    hide WithProtocolSpace, Suppressed, EndsWith, TeCount, Remembered, Hint, Letters;
    var text := WithProtocolSpace(s.text, ch);
    LettersSnoc(s.text, ' ');
    LettersSnoc(s.text, ch);
    LettersSnoc(text, ch);
    assert Letters(s.text, |s.text|) + "" == Letters(s.text, |s.text|);
  }

  // ---------------------------------------------------------------- where words are set off

  lemma EndsIn(text: string, a: char, b: char)
    ensures EndsWith(text, [a, b]) <==> 2 <= |text| && text[|text| - 2] == a && text[|text| - 1] == b
  {
    if 2 <= |text| {
      assert text[|text| - 2..] == [text[|text| - 2], text[|text| - 1]];
    }
  }

  lemma EndsInMore(text: string)
    ensures EndsWith(text, " DE") ==> 2 <= |text| && text[|text| - 2] == 'D' && text[|text| - 1] == 'E'
  {
    if 3 <= |text| {
      var end := text[|text| - 3..];
      assert end[1] == text[|text| - 2] && end[2] == text[|text| - 1];
    }
  }

  /** A space is added exactly in front of a D behind CQ or behind a Q that stands alone, and in front
      of anything but a space behind DE. */
  lemma ProtocolSpaceSays(text: string, next: char)
    ensures var n := |text|;
            var behindQ := 0 < n && text[n - 1] == 'Q' && (n == 1 || text[n - 2] == 'C' || text[n - 2] == ' ');
            var behindDe := 2 <= n && text[n - 2] == 'D' && text[n - 1] == 'E';
            WithProtocolSpace(text, next)
              == if ((next == 'D' || next == 'd') && behindQ) || (next != ' ' && behindDe) then text + " " else text
  {
    hide EndsWith;
    EndsInSpace(text);
    EndsIn(text, 'C', 'Q');
    EndsIn(text, ' ', 'Q');
    EndsIn(text, 'D', 'E');
    EndsInMore(text);
    OnlyD(next);
    assert |text| == 1 && text[0] == 'Q' ==> text == "Q";
  }

  lemma OnlyD(next: char)
    ensures CopyMarks.Upper(next) == 'D' <==> next == 'D' || next == 'd'
  {
  }

  /** So a slow call with even gaps is copied as words. */
  lemma EvenCallIsSetOff()
    ensures AppendedAll(CLEAR, "CQDEW5", 6).text == "CQ DE W5"
  {
    hide *;
    var chars := "CQDEW5";
    NothingAppended(chars);
    NextLetter(chars, 0, "", "C");
    NextLetter(chars, 1, "C", "CQ");
    NextLetter(chars, 2, "CQ", "CQ D");
    NextLetter(chars, 3, "CQ D", "CQ DE");
    NextLetter(chars, 4, "CQ DE", "CQ DE W");
    NextLetter(chars, 5, "CQ DE W", "CQ DE W5");
  }

  lemma NothingAppended(chars: string)
    ensures AppendedAll(CLEAR, chars, 0).text == "" && AppendedAll(CLEAR, chars, 0).recent == ""
  {
  }

  lemma NextLetter(chars: string, n: nat, before: string, after: string)
    requires n < |chars| && n < 10 && |before| < 100 && chars[n] != ' '
    requires AppendedAll(CLEAR, chars, n).text == before && |AppendedAll(CLEAR, chars, n).recent| == n
    requires var k, ch := |before|, chars[n];
             var setOff := || (ch == 'D' && 2 <= k && before[k - 2] == 'C' && before[k - 1] == 'Q')
                           || (2 <= k && before[k - 2] == 'D' && before[k - 1] == 'E');
             && (k == 1 ==> before[0] != 'Q') && (2 <= k && before[k - 2] == ' ' ==> before[k - 1] != 'Q')
             && (ch == 'd' ==> k == 0 || before[k - 1] != 'Q')
             && after == before + (if setOff then [' ', ch] else [ch])
    ensures AppendedAll(CLEAR, chars, n + 1).text == after && |AppendedAll(CLEAR, chars, n + 1).recent| == n + 1
  {
    hide WithProtocolSpace, TeCount;
    ProtocolSpaceSays(before, chars[n]);
    assert before + " " + [chars[n]] == before + [' ', chars[n]];
  }

  // ---------------------------------------------------------------- what is held back

  lemma {:induction false} TeCountSays(recent: string, n: nat)
    requires n <= |recent|
    ensures TeCount(recent, n) == multiset(recent[..n])['T'] + multiset(recent[..n])['E']
  {
    if 0 < n {
      TeCountSays(recent, n - 1);
      assert recent[..n] == recent[..n - 1] + [recent[n - 1]];
    }
  }

  lemma Percent(te: nat, n: nat, percent: nat)
    requires 0 < n
    ensures te * 100 / n >= percent <==> 100 * te >= percent * n
  {
    var q := te * 100 / n;
    assert q * n <= te * 100 < q * n + n;
    if q >= percent {
      Product(percent, q, n);
    } else {
      Product(q + 1, percent, n);
    }
  }

  lemma Product(a: int, b: int, n: nat)
    requires a <= b
    ensures a * n <= b * n
  {
  }

  /** A T or E is held back exactly if at least ten characters are remembered and four fifths of them
      are T or E. */
  lemma SuppressedSays(recent: string, ch: char)
    ensures Suppressed(recent, ch) <==>
            && (ch == 'T' || ch == 'E') && 10 <= |recent|
            && 80 * |recent| <= 100 * (multiset(recent)['T'] + multiset(recent)['E'])
  {
    hide TeCount;
    TeCountSays(recent, |recent|);
    assert recent[..|recent|] == recent;
    if recent != [] {
      Percent(TeCount(recent, |recent|), |recent|, 80);
    }
  }

  /** Trimming keeps the end of the text. */
  lemma TrimKeepsEnd(text: string)
    ensures |Trimmed(text)| <= |text| && text[|text| - |Trimmed(text)|..] == Trimmed(text)
  {
    hide CutOf;
  }

  /** The hint of noise stays between 0 and 10: up by one where at least eight characters are remembered
      and three quarters of them are T or E, down by one elsewhere. */
  lemma HintSays(spam: int, recent: string)
    requires 0 <= spam <= 10 && recent != ""
    ensures var many := 8 <= |recent| && 75 * |recent| <= 100 * (multiset(recent)['T'] + multiset(recent)['E']);
            Hint(spam, recent) == if many then (if spam < 10 then spam + 1 else 10) else (if 0 < spam then spam - 1 else 0)
  {
    hide TeCount;
    TeCountSays(recent, |recent|);
    assert recent[..|recent|] == recent;
    Percent(TeCount(recent, |recent|), |recent|, 75);
  }
}
