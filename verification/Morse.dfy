/** International Morse code for letters and figures. */
module Morse {
  const NONE: char := '\0'

  predicate Known(c: char) {
    'A' <= c <= 'Z' || '0' <= c <= '9'
  }

  /** The codes of A to Z, then of 0 to 9. */
  const CODES: seq<string> := [
    ".-", "-...", "-.-.", "-..", ".", "..-.",
    "--.", "....", "..", ".---", "-.-", ".-..",
    "--", "-.", "---", ".--.", "--.-", ".-.",
    "...", "-", "..-", "...-", ".--", "-..-",
    "-.--", "--..", "-----", ".----", "..---", "...--",
    "....-", ".....", "-....", "--...", "---..", "----."]

  function CharAt(i: nat): (c: char)
    requires i < 36
    ensures Known(c)
  {
    if i < 26 then 'A' + i as char else '0' + (i - 26) as char
  }

  function PlaceOf(c: char): (i: nat)
    requires Known(c)
    ensures i < 36 && CharAt(i) == c
  {
    if 'A' <= c then (c - 'A') as nat else (c - '0') as nat + 26
  }

  function PatternOf(c: char): string
    requires Known(c)
  {
    CODES[PlaceOf(c)]
  }

  function Search(pat: string, i: nat): char
    requires i <= 36
    decreases 36 - i
  {
    if i == 36 then NONE else if CODES[i] == pat then CharAt(i) else Search(pat, i + 1)
  }

  /** `morseChar`, `morse_to_char`: the character of a pattern, or none. */
  function CharOf(pat: string): char {
    Search(pat, 0)
  }

  // ---------------------------------------------------------------- no code twice

  predicate IsPattern(pat: string) {
    forall k :: 0 <= k < |pat| ==> pat[k] == '.' || pat[k] == '-'
  }

  /** A pattern read as a binary number behind a leading one. */
  function Key(pat: string, n: nat): nat
    requires n <= |pat|
  {
    if n == 0 then 1 else 2 * Key(pat, n - 1) + (if pat[n - 1] == '-' then 1 else 0)
  }

  function Place(key: nat): nat {
    match key
    case 5 => 0
    case 24 => 1
    case 26 => 2
    case 12 => 3
    case 2 => 4
    case 18 => 5
    case 14 => 6
    case 16 => 7
    case 4 => 8
    case 23 => 9
    case 13 => 10
    case 20 => 11
    case 7 => 12
    case 6 => 13
    case 15 => 14
    case 22 => 15
    case 29 => 16
    case 10 => 17
    case 8 => 18
    case 3 => 19
    case 9 => 20
    case 17 => 21
    case 11 => 22
    case 25 => 23
    case 27 => 24
    case 28 => 25
    case 63 => 26
    case 47 => 27
    case 39 => 28
    case 35 => 29
    case 33 => 30
    case 32 => 31
    case 48 => 32
    case 56 => 33
    case 60 => 34
    case 62 => 35
    case _ => 36
  }

  lemma CodeCount()
    ensures |CODES| == 36
  {
  }

  lemma Codes0To3(i: nat)
    requires 0 <= i < 4
    ensures IsPattern(CODES[i]) && 1 <= |CODES[i]| <= 5 && Place(Key(CODES[i], |CODES[i]|)) == i
  {
  }

  lemma Codes4To7(i: nat)
    requires 4 <= i < 8
    ensures IsPattern(CODES[i]) && 1 <= |CODES[i]| <= 5 && Place(Key(CODES[i], |CODES[i]|)) == i
  {
  }

  lemma Codes8To11(i: nat)
    requires 8 <= i < 12
    ensures IsPattern(CODES[i]) && 1 <= |CODES[i]| <= 5 && Place(Key(CODES[i], |CODES[i]|)) == i
  {
  }

  lemma Codes12To15(i: nat)
    requires 12 <= i < 16
    ensures IsPattern(CODES[i]) && 1 <= |CODES[i]| <= 5 && Place(Key(CODES[i], |CODES[i]|)) == i
  {
  }

  lemma Codes16To19(i: nat)
    requires 16 <= i < 20
    ensures IsPattern(CODES[i]) && 1 <= |CODES[i]| <= 5 && Place(Key(CODES[i], |CODES[i]|)) == i
  {
  }

  lemma Codes20To23(i: nat)
    requires 20 <= i < 24
    ensures IsPattern(CODES[i]) && 1 <= |CODES[i]| <= 5 && Place(Key(CODES[i], |CODES[i]|)) == i
  {
  }

  lemma Codes24To27(i: nat)
    requires 24 <= i < 28
    ensures IsPattern(CODES[i]) && 1 <= |CODES[i]| <= 5 && Place(Key(CODES[i], |CODES[i]|)) == i
  {
  }

  lemma Codes28To31(i: nat)
    requires 28 <= i < 32
    ensures IsPattern(CODES[i]) && 1 <= |CODES[i]| <= 5 && Place(Key(CODES[i], |CODES[i]|)) == i
  {
  }

  lemma Codes32To35(i: nat)
    requires 32 <= i < 36
    ensures IsPattern(CODES[i]) && 1 <= |CODES[i]| <= 5 && Place(Key(CODES[i], |CODES[i]|)) == i
  {
  }

  lemma CodePlace(i: nat)
    requires i < 36
    ensures IsPattern(CODES[i]) && 1 <= |CODES[i]| <= 5 && Place(Key(CODES[i], |CODES[i]|)) == i
  {
    hide *;
    if i < 4 {
      Codes0To3(i);
    } else if i < 8 {
      Codes4To7(i);
    } else if i < 12 {
      Codes8To11(i);
    } else if i < 16 {
      Codes12To15(i);
    } else if i < 20 {
      Codes16To19(i);
    } else if i < 24 {
      Codes20To23(i);
    } else if i < 28 {
      Codes24To27(i);
    } else if i < 32 {
      Codes28To31(i);
    } else {
      Codes32To35(i);
    }
  }

  lemma SearchFinds(i: nat, j: nat)
    requires j <= i < 36
    ensures Search(CODES[i], j) == CharAt(i)
    decreases i - j
  {
    hide CODES, Place, Key, CharAt, IsPattern;
    CodePlace(i);
    CodePlace(j);
    if j < i {
      SearchFinds(i, j + 1);
    }
  }

  lemma SearchSound(pat: string, j: nat)
    requires j <= 36 && Search(pat, j) != NONE
    ensures Known(Search(pat, j)) && PatternOf(Search(pat, j)) == pat
    decreases 36 - j
  {
    hide CODES;
    CodeCount();
    if CODES[j] != pat {
      SearchSound(pat, j + 1);
    }
  }

  /** The table read both ways: a character has one pattern, and a pattern at most one character. */
  lemma MorseRoundTrip(c: char)
    requires Known(c)
    ensures CharOf(PatternOf(c)) == c
  {
    hide CODES, Search;
    SearchFinds(PlaceOf(c), 0);
  }

  lemma MorseSound(pat: string)
    requires CharOf(pat) != NONE
    ensures Known(CharOf(pat)) && PatternOf(CharOf(pat)) == pat
  {
    SearchSound(pat, 0);
  }

  lemma PatternShape(c: char)
    requires Known(c)
    ensures IsPattern(PatternOf(c)) && 1 <= |PatternOf(c)| <= 5
  {
    hide CODES, IsPattern;
    CodePlace(PlaceOf(c));
  }
}
