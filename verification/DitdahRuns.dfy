/** Reading runs against a dot length: any runs that fit the boundaries of a keyed text are copied as
    that text, runs too short to count are passed over, and no copy has stray spaces. */
module DitdahRuns {
  import opened Morse
  import opened Keying
  import opened Sorting
  import opened Intervals
  import opened Ditdah

  // ---------------------------------------------------------------- the boundaries

  /** A run as long as a tone should be, whatever its exact length: a dah is two dots or more, a space
      ends a letter above two dots and a word above five. */
  predicate Fits(run: Interval, tone: Tone, dot: real)
    requires 1.0 <= dot
  {
    && run.on == tone.on && Debounce(dot) < run.len
    && (run.on ==> (2.0 * dot <= run.len as real <==> tone.units == 3))
    && (!run.on ==> (2.0 * dot < run.len as real <==> 3 <= tone.units) && (5.0 * dot < run.len as real <==> 7 <= tone.units))
  }

  /** From run `at` on, the first `n` tones are fitted. */
  ghost predicate FitAt(runs: seq<Interval>, at: nat, tones: seq<Tone>, n: nat, dot: real)
    requires 1.0 <= dot
  {
    n <= |tones| && at + n <= |runs| && forall i :: 0 <= i < n ==> Fits(runs[at + i], tones[i], dot)
  }

  lemma Dots(len: nat, dot: real)
    requires 1.0 <= dot
    ensures len as real / dot < 2.0 <==> len as real < 2.0 * dot
    ensures len as real / dot <= 2.0 <==> len as real <= 2.0 * dot
    ensures len as real / dot > 5.0 <==> len as real > 5.0 * dot
  {
    Boundary(len as real, dot, 2.0, 2.0 * dot);
    Boundary(len as real, dot, 5.0, 5.0 * dot);
  }

  lemma Boundary(x: real, dot: real, k: real, limit: real)
    requires 0.0 < dot && k * dot == limit
    ensures (x / dot < k <==> x < limit) && (x / dot <= k <==> x <= limit)
  {
    var q := x / dot;
    assert q * dot == x;
    assert (k - q) * dot == limit - x;
    if q < k {
      assert 0.0 < (k - q) * dot;
    } else if k < q {
      assert 0.0 < (q - k) * dot;
    }
  }

  lemma Times(a: real, b: real, w: real)
    requires 0.0 < w
    ensures a < b ==> a * w < b * w
    ensures a <= b ==> a * w <= b * w
  {
    assert b * w - a * w == (b - a) * w;
  }

  /** Runs of up to three tenths of a dot, to the nearest sample, and single samples do not count. */
  lemma DebounceSays(dot: real)
    requires 1.0 <= dot
    ensures dot < 5.0 ==> Debounce(dot) == 1
    ensures 5.0 <= dot ==> -0.5 < Debounce(dot) as real - 0.3 * dot <= 0.5
  {
  }

  // ---------------------------------------------------------------- one run

  lemma MarkClosed(c: Copy, run: Interval, tone: Tone, dot: real, outMax: int)
    requires 1.0 <= dot && Fits(run, tone, dot) && tone.on && |c.letter| < 15
    ensures CloseRun(c, run, dot, outMax) == c.(letter := c.letter + [if tone.units == 3 then '-' else '.'])
  {
    hide Debounce;
    Dots(run.len, dot);
  }

  lemma SpaceClosed(c: Copy, run: Interval, tone: Tone, dot: real, outMax: int)
    requires 1.0 <= dot && Fits(run, tone, dot) && !tone.on
    ensures var e := CloseRun(c, run, dot, outMax);
            && (tone.units < 3 ==> e == c)
            && (3 <= tone.units && c.letter != "" && |c.out| + 2 < outMax + (if tone.units < 7 then 1 else 0) ==>
                  e == Copy("", c.out + [Copied(c.letter)] + (if 7 <= tone.units then " " else "")))
  {
    hide Debounce, Copied;
    Dots(run.len, dot);
    if 3 <= tone.units && c.letter != "" {
      CopiedNotSpace(c.letter);
    }
  }

  lemma CopiedNotSpace(letter: string)
    ensures Copied(letter) != ' '
  {
    hide CharOf;
    if CharOf(letter) != NONE {
      MorseSound(letter);
    }
  }

  // ---------------------------------------------------------------- one character

  lemma {:induction false} LetterCollects(runs: seq<Interval>, at: nat, pat: string, gap: nat, k: nat, dot: real, outMax: int)
    requires 1.0 <= dot && k < |pat| <= 5 && IsPattern(pat) && FitAt(runs, at, Character(pat, gap, |pat|), 2 * |pat| - 1, dot)
    requires CopyRuns(runs, at, dot, outMax).letter == ""
    ensures CopyRuns(runs, at + 2 * k + 1, dot, outMax) == Copy(pat[..k + 1], CopyRuns(runs, at, dot, outMax).out)
  {
    hide CloseRun, Character, Fits;
    var tones := Character(pat, gap, |pat|);
    CharacterAt(pat, gap, |pat|, k);
    assert Fits(runs[at + (2 * k)], tones[2 * k], dot);
    assert pat[..k + 1] == pat[..k] + [pat[k]];
    if 0 < k {
      CharacterAt(pat, gap, |pat|, k - 1);
      assert Fits(runs[at + (2 * k - 1)], tones[2 * (k - 1) + 1], dot);
      LetterCollects(runs, at, pat, gap, k - 1, dot, outMax);
      SpaceClosed(CopyRuns(runs, at + 2 * k - 1, dot, outMax), runs[at + 2 * k - 1], tones[2 * k - 1], dot, outMax);
    }
    MarkClosed(CopyRuns(runs, at + 2 * k, dot, outMax), runs[at + 2 * k], tones[2 * k], dot, outMax);
  }

  lemma CharacterCopied(runs: seq<Interval>, at: nat, pat: string, gap: nat, dot: real, outMax: int)
    requires 1.0 <= dot && 1 <= |pat| <= 5 && IsPattern(pat) && (gap == 3 || gap == 7)
    requires FitAt(runs, at, Character(pat, gap, |pat|), 2 * |pat|, dot)
    requires CopyRuns(runs, at, dot, outMax).letter == ""
    requires |CopyRuns(runs, at, dot, outMax).out| + 2 < outMax + (if gap == 3 then 1 else 0)
    ensures CopyRuns(runs, at + 2 * |pat|, dot, outMax)
         == Copy("", CopyRuns(runs, at, dot, outMax).out + [Copied(pat)] + (if gap >= 7 then " " else ""))
  {
    hide CloseRun, Character, Copied, Fits;
    var k: nat := |pat| - 1;
    LetterCollects(runs, at, pat, gap, k, dot, outMax);
    assert pat[..k + 1] == pat;
    CharacterAt(pat, gap, |pat|, k);
    var tone := Character(pat, gap, |pat|)[2 * k + 1];
    assert Fits(runs[at + (2 * k + 1)], tone, dot);
    SpaceClosed(CopyRuns(runs, at + 2 * k + 1, dot, outMax), runs[at + 2 * k + 1], tone, dot, outMax);
  }

  // ---------------------------------------------------------------- a whole text

  lemma FitSplit(runs: seq<Interval>, at: nat, text: string, j: nat, dot: real)
    requires 1.0 <= dot && WellSpaced(text) && j < |text| && SpacedAt(text, j)
    requires FitAt(runs, at, Keyed(text, j + 1), |Keyed(text, j + 1)|, dot)
    ensures |Keyed(text, j + 1)| == |Keyed(text, j)| + |CharTones(text, j)|
    ensures FitAt(runs, at, Keyed(text, j), |Keyed(text, j)|, dot)
    ensures FitAt(runs, at + |Keyed(text, j)|, CharTones(text, j), |CharTones(text, j)|, dot)
  {
    hide CharTones, Fits;
    var a, b := Keyed(text, j), CharTones(text, j);
    var tones := Keyed(text, j + 1);
    forall i | 0 <= i < |a| ensures Fits(runs[at + i], a[i], dot) {
      assert Fits(runs[at + i], tones[i], dot);
    }
    forall i | 0 <= i < |b| ensures Fits(runs[at + |a| + i], b[i], dot) {
      assert Fits(runs[at + (|a| + i)], tones[|a| + i], dot);
    }
  }

  lemma WrittenLength(text: string, j: nat)
    requires WellSpaced(text) && j < |text|
    ensures text[j] != ' ' ==> |Written(text, j)| == j
    ensures GapAfter(text, j) == 7 ==> j + 1 < |text|
  {
  }

  /** Runs that fit the keying of a text, however uneven, are copied as that text. */
  lemma {:induction false} UnevenTextCopied(runs: seq<Interval>, at: nat, text: string, j: nat, dot: real, outMax: int)
    requires 1.0 <= dot && WellSpaced(text) && j <= |text| < outMax
    requires FitAt(runs, at, Keyed(text, j), |Keyed(text, j)|, dot)
    requires CopyRuns(runs, at, dot, outMax) == Copy("", "")
    ensures CopyRuns(runs, at + |Keyed(text, j)|, dot, outMax) == Copy("", Written(text, j))
  {
    hide CopyRuns, FitAt, Character, Copied, PatternOf, Written, GapAfter, Known, WellSpaced, IsPattern;
    if j == 0 {
      NothingWritten(text);
    } else {
      var i: nat := j - 1;
      Spaced(text, i);
      FitSplit(runs, at, text, i, dot);
      UnevenTextCopied(runs, at, text, i, dot, outMax);
      WrittenNext(text, i);
      if text[i] != ' ' {
        WrittenLength(text, i);
        PatternShape(text[i]);
        CopiedKnown(text[i]);
        GapLong(text, i);
        CharacterCopied(runs, at + |Keyed(text, i)|, PatternOf(text[i]), GapAfter(text, i), dot, outMax);
      }
    }
  }

  // ---------------------------------------------------------------- any runs

  /** A run that is too short to count might as well not be there. */
  lemma {:induction false} GlitchIgnored(runs: seq<Interval>, i: nat, n: nat, dot: real, outMax: int)
    requires 1.0 <= dot && i < n <= |runs| && runs[i].len <= Debounce(dot)
    ensures CopyRuns(runs, n, dot, outMax) == CopyRuns(runs[..i] + runs[i + 1..], n - 1, dot, outMax)
  {
    hide CloseRun, Debounce;
    var fewer := runs[..i] + runs[i + 1..];
    if n == i + 1 {
      SameBefore(runs, fewer, i, dot, outMax);
      TooShort(CopyRuns(runs, i, dot, outMax), runs[i], dot, outMax);
    } else {
      GlitchIgnored(runs, i, n - 1, dot, outMax);
      assert fewer[n - 2] == runs[n - 1];
    }
  }

  lemma TooShort(c: Copy, run: Interval, dot: real, outMax: int)
    requires 1.0 <= dot && run.len <= Debounce(dot)
    ensures CloseRun(c, run, dot, outMax) == c
  {
  }

  lemma {:induction false} SameBefore(runs: seq<Interval>, others: seq<Interval>, n: nat, dot: real, outMax: int)
    requires 1.0 <= dot && n <= |runs| && n <= |others| && forall k :: 0 <= k < n ==> runs[k] == others[k]
    ensures CopyRuns(runs, n, dot, outMax) == CopyRuns(others, n, dot, outMax)
  {
    hide CloseRun;
    if 0 < n {
      SameBefore(runs, others, n - 1, dot, outMax);
    }
  }

  /** No space in front, and no two together. */
  predicate Tidy(out: string) {
    forall i :: 0 <= i < |out| && out[i] == ' ' ==> 0 < i && out[i - 1] != ' '
  }

  lemma PutTidy(out: string, c: char, outMax: int)
    requires Tidy(out) && (c == ' ' ==> out != "" && out[|out| - 1] != ' ')
    ensures Tidy(Put(out, c, outMax))
  {
  }

  /** Whatever runs come, the copy is tidy. */
  lemma {:induction false} CopyTidy(runs: seq<Interval>, n: nat, dot: real, outMax: int)
    requires 1.0 <= dot && n <= |runs|
    ensures Tidy(CopyRuns(runs, n, dot, outMax).out)
  {
    hide Tidy, Put, Debounce, Copied, Element;
    if n == 0 {
      NothingTidy();
    } else {
      CopyTidy(runs, n - 1, dot, outMax);
      var c := CopyRuns(runs, n - 1, dot, outMax);
      CopiedNotSpace(c.letter);
      PutTidy(c.out, Copied(c.letter), outMax);
      var out := if c.letter != "" then Put(c.out, Copied(c.letter), outMax) else c.out;
      if out != "" && out[|out| - 1] != ' ' {
        PutTidy(out, ' ', outMax);
      }
    }
  }

  lemma NothingTidy()
    ensures Tidy("")
  {
  }

  // ---------------------------------------------------------------- the dot length

  /** Some mark is more than twice as long as another one. */
  ghost predicate TwoLengths(on: seq<nat>) {
    exists i, j :: 0 <= i < |on| && 0 <= j < |on| && 2 * on[j] < on[i]
  }

  /** The mark at rank `r` of all marks in order. */
  function Ranked(on: seq<nat>, r: nat): real
    requires r < |on|
  {
    Sorted(Reals(on), |on|)[r]
  }

  lemma EndsOfSorted(on: seq<nat>, i: nat)
    requires i < |on|
    ensures Ranked(on, 0) <= on[i] as real <= Ranked(on, |on| - 1)
    ensures exists j :: 0 <= j < |on| && on[j] as real == Ranked(on, 0)
    ensures exists j :: 0 <= j < |on| && on[j] as real == Ranked(on, |on| - 1)
  {
    hide Sorted;
    var vals, n := Reals(on), |on|;
    var s := Sorted(vals, n);
    SortedOrders(vals, n);
    SortedRearranges(vals, n);
    assert vals[..n] == vals;
    assert vals[i] in multiset(vals);
    assert vals[i] in s;
    assert s[0] in multiset(s) && s[n - 1] in multiset(s);
    assert s[0] in vals && s[n - 1] in vals;
  }

  /** The dot length: where some mark is more than twice as long as another one, the mark at the lower
      quarter; else the middle one, or a third of it above 18 samples; but never less than a sample. */
  lemma DotSays(on: seq<nat>)
    requires on != [] && forall i :: 0 <= i < |on| ==> 0 < on[i]
    ensures var n := |on|;
            var dot := if TwoLengths(on) then Ranked(on, n / 2 / 2)
                       else if 18.0 < Ranked(on, n / 2) then Ranked(on, n / 2) / 3.0 else Ranked(on, n / 2);
            DotLength(on) == if dot < 1.0 then 1.0 else dot
  {
    hide Sorted, Reals;
    var n := |on|;
    EndsOfSorted(on, 0);
    var low, high := Ranked(on, 0), Ranked(on, n - 1);
    var a: nat :| 0 <= a < n && on[a] as real == low;
    var b: nat :| 0 <= b < n && on[b] as real == high;
    forall i | 0 <= i < n ensures low <= on[i] as real <= high {
      EndsOfSorted(on, i);
    }
    assert TwoLengths(on) <==> 2.0 * low < high;
    Above(high, low);
  }

  lemma Above(high: real, low: real)
    requires 0.0 < low
    ensures high / low > 2.0 <==> 2.0 * low < high
  {
    var q := high / low;
    assert q * low == high;
    Times(2.0, q, low);
    Times(q, 2.0, low);
  }
}
