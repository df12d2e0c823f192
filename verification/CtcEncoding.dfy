/** What the greedy reading is for: whatever text a label sequence spells, with runs of any length and
    any filler between them, is read. */
module CtcEncoding {
  import opened CtcGreedy

  /** A character for so many frames, and the blanks and spaces behind it. */
  datatype Letter = Letter(code: int, frames: nat, gap: seq<int>)

  ghost predicate Filler(al: Alphabet, gap: seq<int>) {
    forall k :: 0 <= k < |gap| ==> gap[k] == al.blank || (0 <= al.space < al.classes && gap[k] == al.space)
  }

  /** A word ends with a space in the filler, or with blanks enough where there is a class for it. */
  ghost predicate EndsWord(al: Alphabet, gap: seq<int>) {
    0 <= al.space && (al.space in gap || al.wordBoundary <= |gap|)
  }

  ghost predicate LetterOk(al: Alphabet, letters: seq<Letter>, i: nat)
    requires i < |letters|
  {
    var l := letters[i];
    && 0 <= l.code < al.classes && al.IsChar(l.code) && 0 < l.frames && Filler(al, l.gap)
    && (i + 1 < |letters| && l.gap == [] ==> l.code != letters[i + 1].code)
  }

  /** Letters that can be told apart: between two of the same class there is some filler. */
  ghost predicate Spelling(al: Alphabet, lead: seq<int>, letters: seq<Letter>) {
    al.Usable() && Filler(al, lead) && forall i :: 0 <= i < |letters| ==> LetterOk(al, letters, i)
  }

  function Held(code: int, frames: nat): (run: seq<int>)
    ensures |run| == frames && forall k :: 0 <= k < frames ==> run[k] == code
  {
    seq(frames, _ => code)
  }

  /** The labels of the first `n` letters. */
  function Encoded(lead: seq<int>, letters: seq<Letter>, n: nat): seq<int>
    requires n <= |letters|
  {
    if n == 0 then lead
    else Encoded(lead, letters, n - 1) + Held(letters[n - 1].code, letters[n - 1].frames) + letters[n - 1].gap
  }

  /** What they spell: a space behind a letter that ends a word, unless it is the last. */
  ghost function Spelled(al: Alphabet, letters: seq<Letter>, n: nat): string
    requires n <= |letters| && al.Usable() && forall i :: 0 <= i < |letters| ==> LetterOk(al, letters, i)
  {
    if n == 0 then ""
    else
      assert LetterOk(al, letters, n - 1);
      Spelled(al, letters, n - 1) + (if n > 1 && EndsWord(al, letters[n - 2].gap) then " " else "")
      + [al.chars[letters[n - 1].code]]
  }

  // ---------------------------------------------------------------- one piece more

  lemma SamePrefix(al: Alphabet, labels: seq<int>, more: seq<int>, n: nat)
    requires al.Usable() && al.Labels(labels + more) && n <= |labels|
    ensures al.Labels(labels)
    ensures TextTo(al, labels + more, n) == TextTo(al, labels, n)
    ensures After(al, START, labels + more, n) == After(al, START, labels, n)
  {
    hide TextTo, After;
    forall i | 0 <= i < |labels| ensures 0 <= labels[i] < al.classes {
      assert (labels + more)[i] == labels[i];
    }
    TextPrefix(al, labels + more, labels, n);
    AfterPrefix(al, START, labels + more, labels, n);
  }

  lemma {:induction false} FillerState(al: Alphabet, carry: Carry, labels: seq<int>, i: nat, end: nat)
    requires al.Usable() && i <= end <= |labels| && Filler(al, labels[i..end])
    requires After(al, carry, labels, i) == Carry(Char, 0)
    ensures After(al, carry, labels, end) == Carry(Char, end - i) || After(al, carry, labels, end).kind == Space
    ensures After(al, carry, labels, end).kind == Space <==> al.space in labels[i..end]
  {
    if i < end {
      var shorter := labels[i..end - 1];
      assert labels[i..end] == shorter + [labels[end - 1]];
      assert labels[i..end][end - 1 - i] == labels[end - 1];
      forall k | 0 <= k < |shorter| ensures shorter[k] == al.blank || (0 <= al.space < al.classes && shorter[k] == al.space) {
        assert labels[i..end][k] == shorter[k];
      }
      FillerState(al, carry, labels, i, end - 1);
    }
  }

  /** Behind a letter and its filler, a word has ended as the filler says. */
  lemma LetterState(al: Alphabet, labels: seq<int>, l: Letter)
    requires al.Usable() && al.Labels(labels + Held(l.code, l.frames) + l.gap)
    requires al.IsChar(l.code) && 0 < l.frames && Filler(al, l.gap)
    ensures var all := labels + Held(l.code, l.frames) + l.gap;
            Separated(al, After(al, START, all, |all|)) <==> EndsWord(al, l.gap)
  {
    hide After;
    var all := labels + Held(l.code, l.frames) + l.gap;
    var i, end := |labels|, |labels| + l.frames;
    forall k | i <= k < end ensures all[k] == all[i] == l.code {
      assert all[k] == Held(l.code, l.frames)[k - i];
    }
    RunOfSymbol(al, START, all, i, end);
    assert all[end..|all|] == l.gap;
    FillerState(al, START, all, end, |all|);
  }

  lemma LetterText(al: Alphabet, labels: seq<int>, l: Letter)
    requires al.Usable() && al.Labels(labels + Held(l.code, l.frames) + l.gap)
    requires al.IsChar(l.code) && 0 < l.frames && Filler(al, l.gap)
    requires labels != [] ==> labels[|labels| - 1] != l.code
    ensures var all := labels + Held(l.code, l.frames) + l.gap;
            && al.Labels(labels) && 0 <= l.code < al.classes
            && TextTo(al, all, |all|)
               == Emit(TextTo(al, labels, |labels|), Separated(al, After(al, START, labels, |labels|)), al.chars[l.code])
  {
    hide After, TextTo, Emit, Separated;
    var run := Held(l.code, l.frames);
    var all := labels + run + l.gap;
    assert all == labels + (run + l.gap);
    SamePrefix(al, labels, run + l.gap, |labels|);
    var i, end := |labels|, |labels| + l.frames;
    forall k | i <= k < end ensures all[k] == all[i] == l.code {
      assert all[k] == run[k - i];
    }
    assert labels != [] ==> all[i - 1] == labels[i - 1];
    CharText(al, all, i, end);
    forall k | end <= k < |all| ensures !al.IsChar(all[k]) {
      assert all[k] == l.gap[k - end];
    }
    QuietText(al, all, end, |all|);
  }

  // ---------------------------------------------------------------- whole texts

  lemma FillerLabels(al: Alphabet, gap: seq<int>)
    requires al.Usable() && Filler(al, gap)
    ensures al.Labels(gap)
  {
  }

  lemma HeldLabels(al: Alphabet, code: int, frames: nat)
    requires 0 <= code < al.classes
    ensures al.Labels(Held(code, frames))
  {
  }

  lemma JoinedLabels(al: Alphabet, labels: seq<int>, more: seq<int>)
    requires al.Labels(labels) && al.Labels(more)
    ensures al.Labels(labels + more)
  {
  }

  lemma {:induction false} EncodedLabels(al: Alphabet, lead: seq<int>, letters: seq<Letter>, n: nat)
    requires Spelling(al, lead, letters) && n <= |letters|
    ensures al.Labels(Encoded(lead, letters, n))
  {
    hide Alphabet.Labels, Alphabet.Usable, Filler;
    if n == 0 {
      FillerLabels(al, lead);
    } else {
      var l := letters[n - 1];
      assert LetterOk(al, letters, n - 1);
      EncodedLabels(al, lead, letters, n - 1);
      HeldLabels(al, l.code, l.frames);
      FillerLabels(al, l.gap);
      JoinedLabels(al, Encoded(lead, letters, n - 1), Held(l.code, l.frames));
      JoinedLabels(al, Encoded(lead, letters, n - 1) + Held(l.code, l.frames), l.gap);
    }
  }

  /** Where a letter may follow, the labels so far end in another class. */
  lemma EndsApart(al: Alphabet, lead: seq<int>, letters: seq<Letter>, n: nat)
    requires Spelling(al, lead, letters) && n < |letters| && Encoded(lead, letters, n) != []
    ensures var before := Encoded(lead, letters, n); before[|before| - 1] != letters[n].code
  {
    hide Alphabet.Usable;
    assert LetterOk(al, letters, n);
    if 0 < n {
      var l := letters[n - 1];
      assert LetterOk(al, letters, n - 1);
      assert l.gap == [] ==> Encoded(lead, letters, n)[|Encoded(lead, letters, n)| - 1] == Held(l.code, l.frames)[l.frames - 1];
    }
  }

  /** The reading, letter by letter. */
  lemma {:induction false} EncodedReads(al: Alphabet, lead: seq<int>, letters: seq<Letter>, n: nat)
    requires Spelling(al, lead, letters) && n <= |letters|
    ensures al.Labels(Encoded(lead, letters, n))
    ensures var labels := Encoded(lead, letters, n);
            && TextTo(al, labels, |labels|) == Spelled(al, letters, n)
            && (0 < n ==> (Separated(al, After(al, START, labels, |labels|)) <==> EndsWord(al, letters[n - 1].gap)))
  {
    hide TextTo, After, Separated, EndsWord, Alphabet.Labels, Alphabet.Usable, Filler;
    EncodedLabels(al, lead, letters, n);
    if n == 0 {
      LeadReads(al, lead);
    } else {
      var l, before := letters[n - 1], Encoded(lead, letters, n - 1);
      assert LetterOk(al, letters, n - 1);
      EncodedReads(al, lead, letters, n - 1);
      if before != [] {
        EndsApart(al, lead, letters, n - 1);
      }
      LetterText(al, before, l);
      LetterState(al, before, l);
      NeverEmpty(al, letters, n - 1);
    }
  }

  lemma LeadReads(al: Alphabet, lead: seq<int>)
    requires al.Usable() && Filler(al, lead)
    ensures al.Labels(lead) && TextTo(al, lead, |lead|) == ""
  {
    hide Alphabet.Usable;
    FillerLabels(al, lead);
    EmptyText(al, lead);
    QuietText(al, lead, 0, |lead|);
  }

  lemma NeverEmpty(al: Alphabet, letters: seq<Letter>, n: nat)
    requires n <= |letters| && al.Usable() && forall i :: 0 <= i < |letters| ==> LetterOk(al, letters, i)
    ensures Spelled(al, letters, n) == "" <==> n == 0
  {
    hide LetterOk;
  }

  /** Whatever a label sequence spells comes out of the greedy decoder. */
  lemma SpelledTextComesBack(al: Alphabet, lead: seq<int>, letters: seq<Letter>)
    requires Spelling(al, lead, letters)
    ensures al.Labels(Encoded(lead, letters, |letters|))
    ensures BatchText(al, Encoded(lead, letters, |letters|)) == Spelled(al, letters, |letters|)
  {
    hide BatchText, TextTo, Encoded, Spelled, LetterOk, Filler, Alphabet.Labels, Alphabet.Usable;
    EncodedReads(al, lead, letters, |letters|);
    BatchReads(al, Encoded(lead, letters, |letters|));
  }
}
