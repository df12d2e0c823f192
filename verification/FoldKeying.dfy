/** Keyed text comes back from the fold over run lengths: wherever every length is likeliest to be
    the mark or the gap that was keyed, the text is written as far as its buffer reaches. */
module FoldKeying {
  import opened Options
  import opened Viterbi
  import opened Folding
  import opened Keying
  import M = Morse

  // ---------------------------------------------------------------- the two tables

  /** Where a letter or figure stands among the patterns: figures from 1 to 0, then letters. */
  function Entry(c: char): (i: nat)
    requires M.Known(c)
    ensures i < 36
  {
    if c == '0' then 9 else if c <= '9' then (c - '1') as nat else (c - 'A') as nat + 10
  }

  /** The place of entry `i` in the international table. */
  function PlaceOfEntry(i: nat): (p: nat)
    requires i < 36
    ensures p < 36
  {
    if i < 9 then 27 + i else if i == 9 then 26 else i - 10
  }

  predicate SameEntry(i: nat)
    requires i < 36
  {
    i < |MORSE| && |M.CODES| == 36 && MORSE[i].1 == M.CODES[PlaceOfEntry(i)] && MORSE[i].0 == [M.CharAt(PlaceOfEntry(i))]
  }

  lemma Entries0To11(i: nat)
    requires i < 12
    ensures SameEntry(i)
  {
  }

  lemma Entries12To15(i: nat)
    requires 12 <= i < 16
    ensures SameEntry(i)
  {
  }

  lemma Entries16To19(i: nat)
    requires 16 <= i < 20
    ensures SameEntry(i)
  {
  }

  lemma Entries20To23(i: nat)
    requires 20 <= i < 24
    ensures SameEntry(i)
  {
  }

  lemma Entries24To27(i: nat)
    requires 24 <= i < 28
    ensures SameEntry(i)
  {
  }

  lemma Entries28To31(i: nat)
    requires 28 <= i < 32
    ensures SameEntry(i)
  {
  }

  lemma Entries32To35(i: nat)
    requires 32 <= i < 36
    ensures SameEntry(i)
  {
  }

  lemma Entries(i: nat)
    requires i < 36
    ensures SameEntry(i)
  {
    hide *;
    if i < 12 {
      Entries0To11(i);
    } else if i < 16 {
      Entries12To15(i);
    } else if i < 20 {
      Entries16To19(i);
    } else if i < 24 {
      Entries20To23(i);
    } else if i < 28 {
      Entries24To27(i);
    } else if i < 32 {
      Entries28To31(i);
    } else {
      Entries32To35(i);
    }
  }

  lemma EntryOf(c: char)
    requires M.Known(c)
    ensures PlaceOfEntry(Entry(c)) == M.PlaceOf(c)
  {
  }

  lemma {:induction false} LookupFinds(i: nat, j: nat)
    requires j <= i < 36 && |MORSE| == 64 && SameEntry(i)
    ensures Lookup(MORSE[i].1, j) == Some(MORSE[i].0)
    decreases i - j
  {
    hide MORSE, M.CODES, M.Place, M.Key, M.CharAt, M.IsPattern;
    Entries(j);
    M.CodePlace(PlaceOfEntry(i));
    M.CodePlace(PlaceOfEntry(j));
    if j < i {
      LookupFinds(i, j + 1);
    }
  }

  /** The first entry that matches the code of a letter or figure is its own. */
  lemma LookupKnown(c: char)
    requires M.Known(c)
    ensures Lookup(M.PatternOf(c), 0) == Some([c])
  {
    hide Lookup, M.CODES, MORSE, M.CharAt;
    var i := Entry(c);
    EntryOf(c);
    Entries(i);
    TableSize();
    LookupFinds(i, 0);
  }

  lemma TableSize()
    ensures |MORSE| == 64
  {
  }

  // ---------------------------------------------------------------- what a length is likeliest to be

  /** A length is heard as the mark or gap that was keyed when no other kind is likelier; a word gap
      is never taken for less likely than one in ten thousand. */
  predicate Heard(model: Model, means: seq<real>, length: int, tone: Tone) {
    if tone.on then
      && 0 < length
      && (tone.units == 1 ==> model.density(means, Dah, length) < model.density(means, Dit, length))
      && (tone.units != 1 ==> model.density(means, Dit, length) <= model.density(means, Dah, length))
    else
      var a := if length < 0 then -length else 1;
      var intra, charGap := model.density(means, Intra, a), model.density(means, CharGap, a);
      var word := model.density(means, WordGap, a);
      && length <= 0
      && (tone.units == 1 ==> charGap < intra && word < intra && 0.0001 < intra)
      && (tone.units == 3 ==> intra <= charGap && word < charGap && 0.0001 < charGap)
      && (tone.units == 7 ==> (intra <= word || intra <= 0.0001) && (charGap <= word || charGap <= 0.0001))
  }

  /** The state behind the first `n` lengths. */
  function Behind(model: Model, lengths: seq<int>, n: nat): (f: Fold)
    requires n <= |lengths|
    ensures |f.means| == 5
  {
    FoldAll(model, lengths[..n], -1)
  }

  lemma BehindNext(model: Model, lengths: seq<int>, n: nat)
    requires n < |lengths|
    ensures Behind(model, lengths, n + 1) == FoldOne(model, Behind(model, lengths, n), lengths[n])
  {
    hide FoldOne;
    assert lengths[..n + 1][..n] == lengths[..n];
  }

  /** Every length from `at` on is heard as keyed, at the speed the decoder has adapted to by then. */
  ghost predicate HeardFrom(model: Model, lengths: seq<int>, at: nat, tones: seq<Tone>) {
    && at + |tones| <= |lengths|
    && forall i :: 0 <= i < |tones| ==> Heard(model, Behind(model, lengths, at + i).means, lengths[at + i], tones[i])
  }

  // ---------------------------------------------------------------- one length

  /** As much of a text as the buffer holds. */
  function Cut(text: string): (t: string)
    ensures t <= text && (|text| < 8192 ==> t == text)
  {
    if |text| < 8192 then text else text[..8191]
  }

  lemma AppendCut(text: string, s: string)
    ensures AppendText(Cut(text), s) == Cut(text + s)
  {
  }

  lemma MarkHeard(model: Model, f: Fold, length: int, tone: Tone)
    requires |f.means| == 5 && Heard(model, f.means, length, tone) && tone.on && |f.pat| < 16
    ensures var g := FoldOne(model, f, length);
            g.text == f.text && g.pat == f.pat + (if tone.units == 1 then "." else "-")
  {
    hide Adapt, CloseChar;
  }

  lemma GapHeard(model: Model, f: Fold, length: int, tone: Tone)
    requires |f.means| == 5 && Heard(model, f.means, length, tone) && !tone.on
    ensures var g := FoldOne(model, f, length);
            && (tone.units == 1 ==> g.text == f.text && g.pat == f.pat)
            && (tone.units == 3 ==> g.text == CloseChar(f.text, f.pat) && g.pat == "")
            && (tone.units == 7 ==> g.text == AppendText(CloseChar(f.text, f.pat), " ") && g.pat == "")
  {
    hide Adapt, CloseChar;
  }

  /** A closed pattern of a letter or figure is that character. */
  lemma KnownCloses(text: string, c: char)
    requires M.Known(c)
    ensures CloseChar(Cut(text), M.PatternOf(c)) == Cut(text + [c])
  {
    hide Lookup, AppendText, M.PatternOf, Cut, M.IsPattern;
    M.PatternShape(c);
    LookupKnown(c);
    AppendCut(text, [c]);
  }

  // ---------------------------------------------------------------- one character

  lemma {:induction false} PatternCollects(model: Model, lengths: seq<int>, at: nat, pat: string, gap: nat, k: nat)
    requires k < |pat| <= 16 && M.IsPattern(pat) && HeardFrom(model, lengths, at, Character(pat, gap, |pat|))
    requires Behind(model, lengths, at).pat == ""
    ensures Behind(model, lengths, at + 2 * k + 1).pat == pat[..k + 1]
    ensures Behind(model, lengths, at + 2 * k + 1).text == Behind(model, lengths, at).text
  {
    hide FoldOne, Heard, Character, Behind;
    var tones := Character(pat, gap, |pat|);
    CharacterAt(pat, gap, |pat|, k);
    assert Heard(model, Behind(model, lengths, at + (2 * k)).means, lengths[at + (2 * k)], tones[2 * k]);
    BehindNext(model, lengths, at + 2 * k);
    if 0 < k {
      CharacterAt(pat, gap, |pat|, k - 1);
      PatternCollects(model, lengths, at, pat, gap, k - 1);
      assert Heard(model, Behind(model, lengths, at + (2 * k - 1)).means, lengths[at + (2 * k - 1)], tones[2 * (k - 1) + 1]);
      BehindNext(model, lengths, at + 2 * k - 1);
      GapHeard(model, Behind(model, lengths, at + 2 * k - 1), lengths[at + 2 * k - 1], tones[2 * k - 1]);
    }
    MarkHeard(model, Behind(model, lengths, at + 2 * k), lengths[at + 2 * k], tones[2 * k]);
  }

  /** One keyed character, without and with the gap behind it. */
  lemma CharacterHeard(model: Model, lengths: seq<int>, at: nat, c: char, gap: nat, before: string)
    requires M.Known(c) && (gap == 3 || gap == 7)
    requires HeardFrom(model, lengths, at, Character(M.PatternOf(c), gap, |M.PatternOf(c)|))
    requires Behind(model, lengths, at).pat == "" && Behind(model, lengths, at).text == Cut(before)
    ensures var end := at + 2 * |M.PatternOf(c)|;
            && Closed(Behind(model, lengths, end - 1)).text == Cut(before + [c])
            && Behind(model, lengths, end).pat == ""
            && Behind(model, lengths, end).text == Cut(before + [c] + (if gap == 7 then " " else ""))
  {
    hide FoldOne, Heard, Character, Behind, Cut, CloseChar, AppendText, M.PatternOf, M.IsPattern;
    var pat := M.PatternOf(c);
    M.PatternShape(c);
    var k: nat := |pat| - 1;
    var tones := Character(pat, gap, |pat|);
    CharacterAt(pat, gap, |pat|, k);
    PatternCollects(model, lengths, at, pat, gap, k);
    assert pat[..k + 1] == pat;
    assert Heard(model, Behind(model, lengths, at + (2 * k + 1)).means, lengths[at + (2 * k + 1)], tones[2 * k + 1]);
    BehindNext(model, lengths, at + 2 * k + 1);
    GapHeard(model, Behind(model, lengths, at + 2 * k + 1), lengths[at + 2 * k + 1], tones[2 * k + 1]);
    KnownCloses(before, c);
    AppendCut(before + [c], " ");
    assert before + [c] + "" == before + [c];
  }

  // ---------------------------------------------------------------- a whole text

  lemma HeardSplit(model: Model, lengths: seq<int>, text: string, j: nat)
    requires WellSpaced(text) && j < |text| && SpacedAt(text, j)
    requires HeardFrom(model, lengths, 0, Keyed(text, j + 1))
    ensures HeardFrom(model, lengths, 0, Keyed(text, j))
    ensures HeardFrom(model, lengths, |Keyed(text, j)|, CharTones(text, j))
    ensures |Keyed(text, j + 1)| == |Keyed(text, j)| + |CharTones(text, j)|
  {
    hide Heard, CharTones, SpacedAt, Behind;
    var tones := Keyed(text, j + 1);
    var n := |Keyed(text, j)|;
    forall i | 0 <= i < n
      ensures Heard(model, Behind(model, lengths, 0 + i).means, lengths[0 + i], Keyed(text, j)[i]) {
      assert Heard(model, Behind(model, lengths, 0 + i).means, lengths[0 + i], tones[i]);
    }
    forall i | 0 <= i < |CharTones(text, j)|
      ensures Heard(model, Behind(model, lengths, n + i).means, lengths[n + i], CharTones(text, j)[i]) {
      assert Heard(model, Behind(model, lengths, 0 + (n + i)).means, lengths[0 + (n + i)], tones[n + i]);
    }
  }

  lemma {:induction false} KeyedHeard(model: Model, lengths: seq<int>, text: string, j: nat)
    requires WellSpaced(text) && j <= |text| && HeardFrom(model, lengths, 0, Keyed(text, j))
    ensures Behind(model, lengths, |Keyed(text, j)|).pat == ""
    ensures Behind(model, lengths, |Keyed(text, j)|).text == Cut(Written(text, j))
    ensures 0 < j && text[j - 1] != ' ' ==>
      0 < |Keyed(text, j)| && Closed(Behind(model, lengths, |Keyed(text, j)| - 1)).text == Cut(text[..j])
  {
    hide HeardFrom, Character, M.PatternOf, Written, GapAfter, FoldOne, M.Known, WellSpaced, Cut, Closed, Behind;
    if j == 0 {
      NothingWritten(text);
      FoldNothing(model, lengths);
    } else {
      var i: nat := j - 1;
      Spaced(text, i);
      HeardSplit(model, lengths, text, i);
      KeyedHeard(model, lengths, text, i);
      WrittenNext(text, i);
      if text[i] != ' ' {
        M.PatternShape(text[i]);
        GapLong(text, i);
        WrittenPlain(text, i);
        CharacterHeard(model, lengths, |Keyed(text, i)|, text[i], GapAfter(text, i), Written(text, i));
      }
    }
  }

  lemma FoldNothing(model: Model, lengths: seq<int>)
    ensures Behind(model, lengths, 0).pat == "" && Behind(model, lengths, 0).text == Cut("")
  {
  }

  lemma WrittenPlain(text: string, i: nat)
    requires i < |text| && text[i] != ' '
    ensures Written(text, i) + [text[i]] == text[..i + 1]
  {
  }

  /** Lengths that are heard as the keying of a text, at whatever speed the decoder has adapted to,
      fold to that text; closing the fold makes up for a last gap that has not come. */
  lemma KeyedTextComesBack(model: Model, lengths: seq<int>, text: string)
    requires WellSpaced(text) && HeardFrom(model, lengths, 0, Keyed(text, |text|)) && |lengths| == |Keyed(text, |text|)|
    ensures FoldAll(model, lengths, -1).text == Cut(text)
    ensures text != "" && text[|text| - 1] != ' ' ==>
      FoldAll(model, lengths[..|lengths| - 1], |lengths| - 1).text == Cut(text)
  {
    hide HeardFrom, Keyed, FoldOne, Closed, Cut;
    KeyedHeard(model, lengths, text, |text|);
    assert lengths[..|lengths|] == lengths && text[..|text|] == text;
    if text != "" && text[|text| - 1] != ' ' {
      ClosedNow(model, lengths[..|lengths| - 1]);
    }
  }
}
