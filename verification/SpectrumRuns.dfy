/** From spectrum runs to text: marks collect into a pattern, a long enough space turns it into a
    character. Cutting the runs at such a space keeps the text, and any runs that respect the
    timing of a keyed text are read back as that text. */
module SpectrumRuns {
  import opened Morse
  import opened Keying

  const LEAST_MARK := 0.015

  datatype Run = Run(on: bool, sec: real)

  datatype Timing = Timing(dit: real, dahCut: real, letterCut: real, wordCut: real, ok: bool)

  datatype Reading = Reading(marks: seq<real>, text: string)

  const NOTHING := Reading([], "")

  function PatternFor(marks: seq<real>, timing: Timing): (pat: string)
    ensures |pat| == |marks|
  {
    seq(|marks|, k requires 0 <= k < |marks| => if marks[k] >= timing.dahCut then '-' else '.')
  }

  function ReadRun(r: Reading, run: Run, timing: Timing): Reading {
    if run.on then
      if run.sec >= LEAST_MARK then r.(marks := r.marks + [run.sec]) else r
    else if r.marks == [] || run.sec < timing.letterCut then r
    else
      Reading([], r.text + [Copied(PatternFor(r.marks, timing))] + (if run.sec >= timing.wordCut then " " else ""))
  }

  function ReadTo(runs: seq<Run>, n: nat, timing: Timing): Reading
    requires n <= |runs|
  {
    if n == 0 then NOTHING else ReadRun(ReadTo(runs, n - 1, timing), runs[n - 1], timing)
  }

  function DecodeRuns(runs: seq<Run>, timing: Timing): string {
    ReadTo(runs, |runs|, timing).text
  }

  /** `decodeRuns` */
  method Decode(runs: seq<Run>, timing: Timing) returns (text: string)
    ensures text == DecodeRuns(runs, timing)
  {
    hide Copied;
    text := "";
    var marks: seq<real> := [];
    for i := 0 to |runs|
      invariant Reading(marks, text) == ReadTo(runs, i, timing)
    {
      var run := runs[i];
      if run.on {
        if run.sec >= LEAST_MARK {
          marks := marks + [run.sec];
        }
        continue;
      }
      if marks == [] || run.sec < timing.letterCut {
        continue;
      }
      var pattern := "";
      for k := 0 to |marks|
        invariant pattern == PatternFor(marks, timing)[..k]
      {
        pattern := pattern + (if marks[k] >= timing.dahCut then "-" else ".");
      }
      assert pattern == PatternFor(marks, timing);
      text := text + [Copied(pattern)];
      marks := [];
      if run.sec >= timing.wordCut {
        text := text + " ";
      }
    }
  }

  // ---------------------------------------------------------------- cutting

  lemma {:induction false} ReadPrefix(runs: seq<Run>, more: seq<Run>, n: nat, timing: Timing)
    requires n <= |runs|
    ensures ReadTo(runs + more, n, timing) == ReadTo(runs, n, timing)
  {
    if 0 < n {
      ReadPrefix(runs, more, n - 1, timing);
    }
  }

  lemma ReadRunBehind(r: Reading, run: Run, timing: Timing, before: string)
    ensures ReadRun(Reading(r.marks, before + r.text), run, timing)
         == Reading(ReadRun(r, run, timing).marks, before + ReadRun(r, run, timing).text)
  {
    hide Copied, PatternFor;
    var ch := [Copied(PatternFor(r.marks, timing))];
    assert before + r.text + ch == before + (r.text + ch);
    assert before + r.text + ch + " " == before + (r.text + ch + " ");
    assert before + r.text + ch + "" == before + (r.text + ch + "");
  }

  lemma {:induction false} ReadBehind(runs: seq<Run>, more: seq<Run>, n: nat, timing: Timing)
    requires n <= |more| && ReadTo(runs, |runs|, timing).marks == []
    ensures ReadTo(runs + more, |runs| + n, timing)
         == Reading(ReadTo(more, n, timing).marks, DecodeRuns(runs, timing) + ReadTo(more, n, timing).text)
  {
    hide ReadRun;
    if n == 0 {
      ReadPrefix(runs, more, |runs|, timing);
      assert DecodeRuns(runs, timing) + "" == DecodeRuns(runs, timing);
    } else {
      ReadBehind(runs, more, n - 1, timing);
      ReadRunBehind(ReadTo(more, n - 1, timing), more[n - 1], timing, DecodeRuns(runs, timing));
    }
  }

  /** No mark is pending behind a space of at least `letterCut`. */
  lemma NothingPending(runs: seq<Run>, i: nat, timing: Timing)
    requires i < |runs| && !runs[i].on && runs[i].sec >= timing.letterCut
    ensures ReadTo(runs, i + 1, timing).marks == []
  {
    hide Copied, PatternFor;
  }

  /** Sealing the runs up to a letter space loses nothing: the two halves, decoded apart, give
      what the whole gives. */
  lemma SealKeepsText(runs: seq<Run>, i: nat, timing: Timing)
    requires i < |runs| && !runs[i].on && runs[i].sec >= timing.letterCut
    ensures DecodeRuns(runs[..i + 1], timing) + DecodeRuns(runs[i + 1..], timing) == DecodeRuns(runs, timing)
  {
    hide ReadRun;
    var old_, rest := runs[..i + 1], runs[i + 1..];
    assert runs == old_ + rest;
    NothingPending(runs, i, timing);
    ReadPrefix(old_, rest, i + 1, timing);
    ReadBehind(old_, rest, |rest|, timing);
  }

  // ---------------------------------------------------------------- keyed text comes back

  /** A run as long as a tone should be, whatever its exact length. */
  predicate Fits(run: Run, tone: Tone, timing: Timing) {
    && run.on == tone.on
    && (run.on ==> run.sec >= LEAST_MARK && (run.sec >= timing.dahCut <==> tone.units == 3))
    && (!run.on ==> (run.sec >= timing.letterCut <==> tone.units >= 3) && (run.sec >= timing.wordCut <==> tone.units >= 7))
  }

  /** From run `at` on, the runs fit the tones. */
  predicate FitAt(runs: seq<Run>, at: nat, tones: seq<Tone>, timing: Timing) {
    at + |tones| <= |runs| && forall i :: 0 <= i < |tones| ==> Fits(runs[at + i], tones[i], timing)
  }

  /** The lengths of the first `k` marks of a character. */
  function MarksOf(runs: seq<Run>, at: nat, k: nat): seq<real>
    requires at + 2 * k <= |runs|
  {
    seq(k, i requires 0 <= i < k => runs[at + 2 * i].sec)
  }

  lemma MarksNext(runs: seq<Run>, at: nat, k: nat)
    requires at + 2 * k + 2 <= |runs|
    ensures MarksOf(runs, at, k + 1) == MarksOf(runs, at, k) + [runs[at + 2 * k].sec]
  {
  }

  lemma NoMarks(runs: seq<Run>, at: nat)
    requires at <= |runs|
    ensures MarksOf(runs, at, 0) == []
  {
  }

  lemma {:induction false} MarksCollect(runs: seq<Run>, at: nat, pat: string, gap: nat, k: nat, timing: Timing)
    requires k < |pat| && FitAt(runs, at, Character(pat, gap, |pat|), timing)
    requires ReadTo(runs, at, timing).marks == []
    ensures ReadTo(runs, at + 2 * k, timing) == Reading(MarksOf(runs, at, k), ReadTo(runs, at, timing).text)
    ensures ReadTo(runs, at + 2 * k + 1, timing) == Reading(MarksOf(runs, at, k + 1), ReadTo(runs, at, timing).text)
  {
    hide Copied, PatternFor, MarksOf, Character;
    CharacterAt(pat, gap, |pat|, k);
    assert Fits(runs[at + 2 * k], Character(pat, gap, |pat|)[2 * k], timing);
    MarksNext(runs, at, k);
    if 0 < k {
      CharacterAt(pat, gap, |pat|, k - 1);
      assert Fits(runs[at + (2 * k - 1)], Character(pat, gap, |pat|)[2 * (k - 1) + 1], timing);
      MarksCollect(runs, at, pat, gap, k - 1, timing);
    } else {
      NoMarks(runs, at);
    }
  }

  lemma PatternRead(runs: seq<Run>, at: nat, pat: string, gap: nat, timing: Timing)
    requires IsPattern(pat) && FitAt(runs, at, Character(pat, gap, |pat|), timing)
    ensures PatternFor(MarksOf(runs, at, |pat|), timing) == pat
  {
    hide Character;
    forall k | 0 <= k < |pat| ensures PatternFor(MarksOf(runs, at, |pat|), timing)[k] == pat[k] {
      CharacterAt(pat, gap, |pat|, k);
      assert Fits(runs[at + 2 * k], Character(pat, gap, |pat|)[2 * k], timing);
    }
  }

  /** One keyed character, known or not, and its gap. */
  lemma CharacterRead(runs: seq<Run>, at: nat, pat: string, gap: nat, timing: Timing)
    requires pat != "" && IsPattern(pat) && 3 <= gap && FitAt(runs, at, Character(pat, gap, |pat|), timing)
    requires ReadTo(runs, at, timing).marks == []
    ensures ReadTo(runs, at + 2 * |pat|, timing)
         == Reading([], ReadTo(runs, at, timing).text + [Copied(pat)] + (if gap >= 7 then " " else ""))
  {
    hide Copied, PatternFor, MarksOf, Character, IsPattern;
    var k: nat := |pat| - 1;
    MarksCollect(runs, at, pat, gap, k, timing);
    CharacterAt(pat, gap, |pat|, k);
    assert Fits(runs[at + (2 * k + 1)], Character(pat, gap, |pat|)[2 * k + 1], timing);
    PatternRead(runs, at, pat, gap, timing);
  }

  lemma KeyedSplit(runs: seq<Run>, text: string, j: nat, timing: Timing)
    requires WellSpaced(text) && j < |text| && SpacedAt(text, j) && FitAt(runs, 0, Keyed(text, j + 1), timing)
    ensures FitAt(runs, 0, Keyed(text, j), timing)
    ensures FitAt(runs, |Keyed(text, j)|, CharTones(text, j), timing)
    ensures |Keyed(text, j + 1)| == |Keyed(text, j)| + |CharTones(text, j)|
  {
    hide Fits, CharTones, SpacedAt;
    var tones := Keyed(text, j + 1);
    var n := |Keyed(text, j)|;
    forall i | 0 <= i < n ensures Fits(runs[0 + i], Keyed(text, j)[i], timing) {
      assert Fits(runs[0 + i], tones[i], timing);
    }
    forall i | 0 <= i < |CharTones(text, j)| ensures Fits(runs[n + i], CharTones(text, j)[i], timing) {
      assert Fits(runs[0 + (n + i)], tones[n + i], timing);
    }
  }

  lemma {:induction false} KeyedRead(runs: seq<Run>, text: string, j: nat, timing: Timing)
    requires WellSpaced(text) && j <= |text| && FitAt(runs, 0, Keyed(text, j), timing)
    ensures ReadTo(runs, |Keyed(text, j)|, timing) == Reading([], Written(text, j))
  {
    hide FitAt, Character, Copied, PatternFor, PatternOf, Written, GapAfter, ReadRun, Known, WellSpaced;
    if j == 0 {
      NothingWritten(text);
    } else {
      var i: nat := j - 1;
      Spaced(text, i);
      KeyedSplit(runs, text, i, timing);
      KeyedRead(runs, text, i, timing);
      WrittenNext(text, i);
      if text[i] != ' ' {
        PatternShape(text[i]);
        CopiedKnown(text[i]);
        GapLong(text, i);
        CharacterRead(runs, |Keyed(text, i)|, PatternOf(text[i]), GapAfter(text, i), timing);
      }
    }
  }

  /** Runs that fit the keying of a text, however uneven, are decoded to that text. */
  lemma KeyedTextComesBack(runs: seq<Run>, text: string, timing: Timing)
    requires WellSpaced(text) && FitAt(runs, 0, Keyed(text, |text|), timing) && |runs| == |Keyed(text, |text|)|
    ensures DecodeRuns(runs, timing) == text
  {
    hide ReadTo, FitAt, Keyed;
    KeyedRead(runs, text, |text|, timing);
  }
}
