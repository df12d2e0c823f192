/** The keying of a text in units of one dit, spaced as section 2 of Part I of Recommendation
    ITU-R M.1677-1 does it: a dah is three units, the gap inside a character one, between
    characters three and between words seven. */
module Keying {
  import opened Morse

  datatype Tone = Tone(on: bool, units: nat)

  predicate SpacedAt(text: string, i: nat)
    requires i < |text|
  {
    Known(text[i]) || (text[i] == ' ' && 0 < i && text[i - 1] != ' ')
  }

  /** Letters and figures with single spaces, none in front. */
  predicate WellSpaced(text: string) {
    forall i :: 0 <= i < |text| ==> SpacedAt(text, i)
  }

  function Length(element: char): nat {
    if element == '-' then 3 else 1
  }

  /** The first `n` elements of a character whose last gap is `gap`. */
  function Character(pat: string, gap: nat, n: nat): (tones: seq<Tone>)
    requires n <= |pat|
    ensures |tones| == 2 * n
  {
    if n == 0 then [] else
      Character(pat, gap, n - 1) + [Tone(true, Length(pat[n - 1])), Tone(false, if n == |pat| then gap else 1)]
  }

  function GapAfter(text: string, j: nat): nat
    requires j < |text|
  {
    if j + 1 < |text| && text[j + 1] == ' ' then 7 else 3
  }

  function CharTones(text: string, j: nat): (tones: seq<Tone>)
    requires j < |text| && SpacedAt(text, j)
  {
    if text[j] == ' ' then [] else Character(PatternOf(text[j]), GapAfter(text, j), |PatternOf(text[j])|)
  }

  /** The first `j` characters of a text, each with the gap behind it. */
  function Keyed(text: string, j: nat): (tones: seq<Tone>)
    requires WellSpaced(text) && j <= |text|
  {
    if j == 0 then [] else Keyed(text, j - 1) + CharTones(text, j - 1)
  }

  lemma {:induction false} CharacterAt(pat: string, gap: nat, n: nat, k: nat)
    requires k < n <= |pat|
    ensures Character(pat, gap, n)[2 * k] == Tone(true, Length(pat[k]))
    ensures Character(pat, gap, n)[2 * k + 1] == Tone(false, if k + 1 == |pat| then gap else 1)
  {
    if k < n - 1 {
      CharacterAt(pat, gap, n - 1, k);
    }
  }

  // ---------------------------------------------------------------- text in step with tones

  /** What has been written when the runs of `text[..j]` are read: a space comes with the gap in
      front of it. */
  function Written(text: string, j: nat): string
    requires j <= |text|
  {
    if 0 < j < |text| && text[j] == ' ' then text[..j + 1] else text[..j]
  }

  lemma WrittenNext(text: string, j: nat)
    requires WellSpaced(text) && j < |text|
    ensures text[j] == ' ' ==> Written(text, j + 1) == Written(text, j)
    ensures text[j] != ' ' ==>
      Written(text, j + 1) == Written(text, j) + [text[j]] + (if GapAfter(text, j) >= 7 then " " else "")
  {
    assert SpacedAt(text, j);
    assert j + 1 < |text| ==> SpacedAt(text, j + 1);
  }

  lemma Spaced(text: string, i: nat)
    requires WellSpaced(text) && i < |text|
    ensures SpacedAt(text, i)
  {
  }

  lemma GapLong(text: string, i: nat)
    requires i < |text|
    ensures GapAfter(text, i) == 3 || GapAfter(text, i) == 7
  {
  }

  lemma NothingWritten(text: string)
    ensures Written(text, 0) == ""
  {
  }

  // ---------------------------------------------------------------- the tones of a text

  predicate Keyable(tone: Tone) {
    if tone.on then tone.units == 1 || tone.units == 3
    else tone.units == 1 || tone.units == 3 || tone.units == 7
  }

  lemma {:induction false} CharacterKeyable(pat: string, gap: nat, n: nat)
    requires n <= |pat| && (gap == 3 || gap == 7)
    ensures forall i :: 0 <= i < 2 * n ==> Keyable(Character(pat, gap, n)[i])
  {
    if 0 < n {
      CharacterKeyable(pat, gap, n - 1);
    }
  }

  lemma {:induction false} KeyedKeyable(text: string, j: nat)
    requires WellSpaced(text) && j <= |text|
    ensures forall i :: 0 <= i < |Keyed(text, j)| ==> Keyable(Keyed(text, j)[i])
  {
    hide Keyable, PatternOf, Character;
    if 0 < j {
      KeyedKeyable(text, j - 1);
      assert SpacedAt(text, j - 1);
      if text[j - 1] != ' ' {
        var pat := PatternOf(text[j - 1]);
        CharacterKeyable(pat, GapAfter(text, j - 1), |pat|);
      }
    }
  }


  // ---------------------------------------------------------------- one element missing

  predicate Lacks(pat: string, element: char) {
    forall k :: 0 <= k < |pat| ==> pat[k] != element
  }

  /** What can be written for a pattern in which `element` does not occur. */
  predicate Spared(c: char, element: char) {
    c == ' ' || c == '?' || (Known(c) && Lacks(PatternOf(c), element))
  }

  ghost predicate AllSpared(text: string, element: char) {
    forall i :: 0 <= i < |text| ==> Spared(text[i], element)
  }

  /** The character of a pattern, or a question mark. */
  function Copied(pat: string): char {
    if CharOf(pat) == NONE then '?' else CharOf(pat)
  }

  lemma CopiedKnown(c: char)
    requires Known(c)
    ensures Copied(PatternOf(c)) == c
  {
    hide CharOf, PatternOf;
    MorseRoundTrip(c);
  }

  lemma CopiedSpared(pat: string, element: char)
    requires Lacks(pat, element)
    ensures Spared(Copied(pat), element)
  {
    hide CharOf, PatternOf, Lacks;
    if CharOf(pat) != NONE {
      MorseSound(pat);
    }
  }

  lemma {:induction false} CharacterLacks(pat: string, gap: nat, n: nat, element: char)
    requires n <= |pat| && IsPattern(pat) && Lacks(pat, element) && (element == '.' || element == '-')
    ensures forall i :: 0 <= i < 2 * n ==> Character(pat, gap, n)[i] != Tone(true, Length(element))
  {
    if 0 < n {
      CharacterLacks(pat, gap, n - 1, element);
    }
  }

  lemma KnownNotMark(c: char)
    ensures Known(c) ==> c != '?' && c != ' '
  {
  }

  /** Where no character needs an element, none is keyed. */
  lemma {:induction false} KeyedLacks(text: string, j: nat, element: char)
    requires WellSpaced(text) && j <= |text| && AllSpared(text, element) && (element == '.' || element == '-')
    ensures forall i :: 0 <= i < |Keyed(text, j)| ==> Keyed(text, j)[i] != Tone(true, Length(element))
  {
    hide PatternOf, Known, Lacks, Character, GapAfter, IsPattern, Length;
    if 0 < j {
      KeyedLacks(text, j - 1, element);
      assert SpacedAt(text, j - 1) && Spared(text[j - 1], element);
      if text[j - 1] != ' ' {
        var pat := PatternOf(text[j - 1]);
        KnownNotMark(text[j - 1]);
        PatternShape(text[j - 1]);
        CharacterLacks(pat, GapAfter(text, j - 1), |pat|, element);
      }
    }
  }

  // ---------------------------------------------------------------- one letter alone

  /** A text of one letter is keyed as that character with a letter space behind it. */
  lemma LetterKeyed(text: string)
    requires |text| == 1 && Known(text[0])
    ensures WellSpaced(text) && Keyed(text, 1) == Character(PatternOf(text[0]), 3, |PatternOf(text[0])|)
  {
    hide PatternOf, Character;
    assert SpacedAt(text, 0);
    assert Keyed(text, 0) + CharTones(text, 0) == CharTones(text, 0);
  }

  function CountIn(pat: string, element: char, n: nat): (count: nat)
    requires n <= |pat|
  {
    if n == 0 then 0 else CountIn(pat, element, n - 1) + (if pat[n - 1] == element then 1 else 0)
  }

  lemma PatternOfE()
    ensures Known('E') && PatternOf('E') == "." && CountIn(".", '.', 1) == 1
  {
  }

  lemma PatternOfJ()
    ensures Known('J') && PatternOf('J') == ".---"
    ensures CountIn(".---", '.', 4) == 1 && CountIn(".---", '-', 4) == 3
  {
    var pat := ".---";
    assert CountIn(pat, '.', 0) == 0 && CountIn(pat, '.', 1) == 1 && CountIn(pat, '.', 2) == 1 && CountIn(pat, '.', 3) == 1;
    assert CountIn(pat, '-', 0) == 0 && CountIn(pat, '-', 1) == 0 && CountIn(pat, '-', 2) == 1 && CountIn(pat, '-', 3) == 2;
  }

  lemma PatternOfO()
    ensures Known('O') && PatternOf('O') == "---"
    ensures CountIn("---", '.', 3) == 0 && CountIn("---", '-', 3) == 3
  {
    var pat := "---";
    assert CountIn(pat, '.', 0) == 0 && CountIn(pat, '.', 1) == 0 && CountIn(pat, '.', 2) == 0;
    assert CountIn(pat, '-', 0) == 0 && CountIn(pat, '-', 1) == 1 && CountIn(pat, '-', 2) == 2;
  }
}
