/** A text keyed at `d` samples to the dit, and when `decode_with_params` gives it back. */
module DitdahKeying {
  import opened Morse
  import opened Keying
  import opened Sorting
  import opened Intervals
  import opened Ditdah
  import opened DitdahRuns

  // ---------------------------------------------------------------- the signal

  function Constant(on: bool, n: nat): (levels: seq<bool>)
    ensures |levels| == n
    ensures forall i :: 0 <= i < n ==> levels[i] == on
  {
    seq(n, i => on)
  }

  /** The first `n` tones, `d` samples to the unit. */
  function Sent(tones: seq<Tone>, d: nat, n: nat): seq<bool>
    requires n <= |tones|
  {
    if n == 0 then [] else Sent(tones, d, n - 1) + Constant(tones[n - 1].on, tones[n - 1].units * d)
  }

  /** A text on the air: silence, its tones without the last space, silence. */
  function Signal(text: string, d: nat, lead: nat, tail: nat): seq<bool>
    requires WellSpaced(text)
  {
    var tones := Keyed(text, |text|);
    Constant(false, lead) + Sent(tones, d, if tones == [] then 0 else |tones| - 1) + Constant(false, tail)
  }

  function LeadRuns(lead: nat): seq<Interval> {
    if lead == 0 then [] else [Interval(false, lead)]
  }

  function ToneRuns(tones: seq<Tone>, d: nat, n: nat): (runs: seq<Interval>)
    requires n <= |tones|
    ensures |runs| == n
    ensures forall i :: 0 <= i < n ==> runs[i] == Interval(tones[i].on, tones[i].units * d)
  {
    seq(n, i requires 0 <= i < n => Interval(tones[i].on, tones[i].units * d))
  }

  /** Marks and spaces take turns, marks first. */
  ghost predicate InTurn(tones: seq<Tone>) {
    forall i :: 0 <= i < |tones| ==> (tones[i].on <==> i % 2 == 0) && 1 <= tones[i].units
  }

  // ---------------------------------------------------------------- its runs

  function Extended(runs: seq<Interval>, on: bool): seq<Interval> {
    if runs != [] && runs[|runs| - 1].on == on then runs[..|runs| - 1] + [Interval(on, runs[|runs| - 1].len + 1)]
    else runs + [Interval(on, 1)]
  }

  lemma RunsStep(levels: seq<bool>, n: nat)
    requires 0 < n <= |levels|
    ensures Runs(levels, n) == Extended(Runs(levels, n - 1), levels[n - 1])
  {
  }

  lemma {:induction false} RunsPrefix(levels: seq<bool>, more: seq<bool>, n: nat)
    requires n <= |levels|
    ensures Runs(levels + more, n) == Runs(levels, n)
  {
    if 0 < n {
      hide Runs, Extended;
      RunsStep(levels, n);
      RunsStep(levels + more, n);
      RunsPrefix(levels, more, n - 1);
    }
  }

  /** The runs of a whole signal. */
  function RunsOf(levels: seq<bool>): seq<Interval> {
    Runs(levels, |levels|)
  }

  lemma RunsSnoc(levels: seq<bool>, on: bool)
    ensures RunsOf(levels + [on]) == Extended(RunsOf(levels), on)
  {
    hide Runs, Extended;
    RunsPrefix(levels, [on], |levels|);
    RunsStep(levels + [on], |levels| + 1);
  }

  lemma LastRun(levels: seq<bool>)
    ensures levels == [] <==> RunsOf(levels) == []
    ensures levels != [] ==> RunsOf(levels)[|RunsOf(levels)| - 1].on == levels[|levels| - 1]
  {
  }

  lemma ExtendNew(runs: seq<Interval>, on: bool)
    requires runs != [] ==> runs[|runs| - 1].on != on
    ensures Extended(runs, on) == runs + [Interval(on, 1)]
  {
  }

  lemma ExtendSame(runs: seq<Interval>, on: bool, n: nat)
    ensures Extended(runs + [Interval(on, n)], on) == runs + [Interval(on, n + 1)]
  {
  }

  lemma ConstantSnoc(levels: seq<bool>, on: bool, n: nat)
    requires 0 < n
    ensures levels + Constant(on, n) == levels + Constant(on, n - 1) + [on]
  {
  }

  lemma {:induction false} RunsAppend(levels: seq<bool>, on: bool, n: nat)
    requires 0 < n && (levels != [] ==> levels[|levels| - 1] != on)
    ensures RunsOf(levels + Constant(on, n)) == RunsOf(levels) + [Interval(on, n)]
  {
    hide RunsOf, Extended, Constant;
    ConstantSnoc(levels, on, n);
    RunsSnoc(levels + Constant(on, n - 1), on);
    if n == 1 {
      assert levels + Constant(on, 0) == levels;
      LastRun(levels);
      ExtendNew(RunsOf(levels), on);
    } else {
      RunsAppend(levels, on, n - 1);
      ExtendSame(RunsOf(levels), on, n - 1);
    }
  }

  /** Whether the last level of a signal differs from `on`. */
  predicate EndsOther(levels: seq<bool>, on: bool) {
    levels != [] ==> levels[|levels| - 1] != on
  }

  lemma EndsWith(before: seq<bool>, on: bool, n: nat)
    requires 0 < n
    ensures EndsOther(before + Constant(on, n), !on)
  {
  }

  lemma TurnAt(tones: seq<Tone>, d: nat, n: nat)
    requires 0 < n <= |tones| && InTurn(tones) && 0 < d
    ensures 1 <= tones[n - 1].units * d
    ensures n == 1 ==> tones[0].on
    ensures 1 < n ==> tones[n - 1].on != tones[n - 2].on
  {
    assert tones[n - 1].units * d >= d;
  }

  lemma {:induction false} SentRuns(tones: seq<Tone>, d: nat, lead: nat, n: nat)
    requires n <= |tones| && InTurn(tones) && 0 < d
    ensures RunsOf(Constant(false, lead) + Sent(tones, d, n)) == LeadRuns(lead) + ToneRuns(tones, d, n)
    ensures EndsOther(Constant(false, lead) + Sent(tones, d, n), if n == 0 then true else !tones[n - 1].on)
  {
    hide RunsOf, Constant, EndsOther, ToneRuns, LeadRuns, InTurn;
    if n == 0 {
      LeadIsRun(lead);
      assert Constant(false, lead) + [] == Constant(false, lead);
      NoToneRuns(tones, d, lead);
    } else {
      SentRuns(tones, d, lead, n - 1);
      TurnAt(tones, d, n);
      var before, on, len := Constant(false, lead) + Sent(tones, d, n - 1), tones[n - 1].on, tones[n - 1].units * d;
      assert Constant(false, lead) + Sent(tones, d, n) == before + Constant(on, len);
      EndsParts(before, on);
      RunsAppend(before, on, len);
      EndsWith(before, on, len);
      ToneRunsNext(tones, d, lead, n);
    }
  }

  lemma EndsParts(levels: seq<bool>, on: bool)
    requires EndsOther(levels, on)
    ensures levels != [] ==> levels[|levels| - 1] != on
  {
  }

  lemma NoToneRuns(tones: seq<Tone>, d: nat, lead: nat)
    ensures LeadRuns(lead) == LeadRuns(lead) + ToneRuns(tones, d, 0)
    ensures EndsOther(Constant(false, lead), true)
  {
  }

  lemma ToneRunsNext(tones: seq<Tone>, d: nat, lead: nat, n: nat)
    requires 0 < n <= |tones|
    ensures LeadRuns(lead) + ToneRuns(tones, d, n - 1) + [Interval(tones[n - 1].on, tones[n - 1].units * d)]
         == LeadRuns(lead) + ToneRuns(tones, d, n)
  {
  }

  lemma LeadIsRun(lead: nat)
    ensures RunsOf(Constant(false, lead)) == LeadRuns(lead)
  {
    hide Runs;
    if 0 < lead {
      NoRuns([]);
      RunsAppend([], false, lead);
      assert [] + Constant(false, lead) == Constant(false, lead);
      assert RunsOf([]) + [Interval(false, lead)] == LeadRuns(lead);
    } else {
      assert Constant(false, lead) == [];
      NoRuns([]);
    }
  }

  lemma {:induction false} CharacterInTurn(pat: string, gap: nat, n: nat)
    requires n <= |pat| && 1 <= gap
    ensures InTurn(Character(pat, gap, n))
  {
    if 0 < n {
      CharacterInTurn(pat, gap, n - 1);
    }
  }

  lemma JoinInTurn(a: seq<Tone>, b: seq<Tone>)
    requires InTurn(a) && InTurn(b) && |a| % 2 == 0 && |b| % 2 == 0
    ensures InTurn(a + b) && |a + b| % 2 == 0
  {
  }

  lemma {:induction false} KeyedInTurn(text: string, j: nat)
    requires WellSpaced(text) && j <= |text|
    ensures InTurn(Keyed(text, j)) && |Keyed(text, j)| % 2 == 0
  {
    hide PatternOf, Character, InTurn, GapAfter;
    if 0 < j {
      KeyedInTurn(text, j - 1);
      assert SpacedAt(text, j - 1);
      if text[j - 1] != ' ' {
        var pat := PatternOf(text[j - 1]);
        GapLong(text, j - 1);
        CharacterInTurn(pat, GapAfter(text, j - 1), |pat|);
        JoinInTurn(Keyed(text, j - 1), CharTones(text, j - 1));
      } else {
        assert Keyed(text, j) == Keyed(text, j - 1);
      }
    } else {
      NothingInTurn();
    }
  }

  lemma NothingInTurn()
    ensures InTurn([])
  {
  }

  lemma ClosedRuns(levels: seq<bool>)
    ensures levels != [] ==> Closed(levels) == RunsOf(levels)[..|RunsOf(levels)| - 1] && RunsOf(levels) != []
  {
  }

  lemma TailRuns(before: seq<bool>, tail: nat)
    requires before != [] && before[|before| - 1]
    ensures RunsOf(before + Constant(false, tail)) == RunsOf(before) + LeadRuns(tail)
    ensures 0 < tail ==> Closed(before + Constant(false, tail)) == RunsOf(before)
  {
    hide RunsOf, Closed, Constant;
    ClosedRuns(before + Constant(false, tail));
    if 0 < tail {
      RunsAppend(before, false, tail);
    } else {
      assert before + Constant(false, 0) == before;
    }
  }

  /** The runs of the signal, alone and with the silent sample the decoder puts behind it. */
  lemma SignalRuns(text: string, d: nat, lead: nat, tail: nat)
    requires WellSpaced(text) && Keyed(text, |text|) != [] && 0 < d
    ensures var tones := Keyed(text, |text|);
            var levels := Signal(text, d, lead, tail);
            && RunsOf(levels) == LeadRuns(lead) + ToneRuns(tones, d, |tones| - 1) + LeadRuns(tail)
            && Closed(levels + [false]) == LeadRuns(lead) + ToneRuns(tones, d, |tones| - 1)
  {
    hide Keyed, RunsOf, Sent, Constant, Closed, LeadRuns, ToneRuns;
    var tones := Keyed(text, |text|);
    KeyedInTurn(text, |text|);
    var n := |tones| - 1;
    SentRuns(tones, d, lead, n);
    assert tones[n - 1].on;
    var before := Constant(false, lead) + Sent(tones, d, n);
    assert before != [] && before[|before| - 1] by { SentEnds(tones, d, lead, n); }
    TailRuns(before, tail);
    TailRuns(before, tail + 1);
    ConstantSnoc(before, false, tail + 1);
  }

  lemma SentEnds(tones: seq<Tone>, d: nat, lead: nat, n: nat)
    requires 0 < n <= |tones| && InTurn(tones) && 0 < d && tones[n - 1].on
    ensures var before := Constant(false, lead) + Sent(tones, d, n); before != [] && before[|before| - 1]
  {
    TurnAt(tones, d, n);
  }

  // ---------------------------------------------------------------- the dot length

  /** The units of the marks among the first `n` tones, as many as the table of intervals holds. */
  function FirstMarks(tones: seq<Tone>, n: nat): (units: seq<nat>)
    requires n <= |tones|
  {
    if n == 0 then []
    else
      var units := FirstMarks(tones, n - 1);
      if tones[n - 1].on && |units| < MAX_INTERVALS then units + [tones[n - 1].units] else units
  }

  function MarksOf(text: string): seq<nat>
    requires WellSpaced(text)
  {
    FirstMarks(Keyed(text, |text|), |Keyed(text, |text|)|)
  }

  function DitsAmong(units: seq<nat>, n: nat): (dits: nat)
    requires n <= |units|
    ensures dits <= n
  {
    if n == 0 then 0 else DitsAmong(units, n - 1) + (if units[n - 1] == 1 then 1 else 0)
  }

  /** The estimate is right: with both kinds of marks a dit must stand at the lower quartile; with
      one kind only, its length alone decides whether it is taken for dits or dahs. */
  predicate DotRight(dits: nat, marks: nat, d: nat) {
    if 0 < dits < marks then marks / 2 / 2 < dits
    else if dits == marks then d <= 18
    else 18 < 3 * d
  }

  lemma DotOfTwo(on: seq<nat>, d: nat)
    requires on != [] && 1 <= d && TwoKinds(Reals(on), d as real)
    ensures var nd, u := NumOf(Reals(on), |on|, d as real), d as real;
            && (DotRight(nd, |on|, d) ==> DotLength(on) == u)
            && (!DotRight(nd, |on|, d) ==> (nd < |on| && DotLength(on) == 3.0 * u) || (0 < nd && 18 < d && DotLength(on) == u / 3.0))
  {
    hide Sorted, NumOf, Reals, DotFrom, Level;
    var u, n := d as real, |on|;
    SortedTwo(Reals(on), u, n);
    var nd := NumOf(Reals(on), n, u);
    var sorted := Level(u, nd, 3.0 * u, n - nd);
    assert sorted[0] == (if 0 < nd then u else 3.0 * u) && sorted[n - 1] == (if n - 1 < nd then u else 3.0 * u);
    DotFromTwo(u, sorted[n / 2 / 2], sorted[n / 2]);
  }

  lemma DotFromTwo(u: real, quarter: real, half: real)
    requires 1.0 <= u && 1.0 <= quarter
    ensures DotFrom(u, 3.0 * u, quarter, half) == quarter
    ensures DotFrom(u, u, quarter, u) == if u > BREAKPOINT then u / 3.0 else u
    ensures DotFrom(3.0 * u, 3.0 * u, quarter, 3.0 * u) == if 3.0 * u > BREAKPOINT then u else 3.0 * u
  {
    assert 3.0 * u / u == 3.0;
    assert u / u == 1.0;
    assert 3.0 * u / (3.0 * u) == 1.0;
    assert 3.0 * u / 3.0 == u;
  }

  lemma {:induction false} LensOfTones(tones: seq<Tone>, d: nat, n: nat)
    requires n <= |tones|
    ensures var lens, units := Lens(ToneRuns(tones, d, n), true, n), FirstMarks(tones, n);
            |lens| == |units| && forall i :: 0 <= i < |lens| ==> lens[i] == units[i] * d
  {
    if 0 < n {
      hide ToneRuns;
      LensOfTones(tones, d, n - 1);
      var run := Interval(tones[n - 1].on, tones[n - 1].units * d);
      NextToneRun(tones, d, n);
      LensSnoc(ToneRuns(tones, d, n - 1), run, true);
    }
  }

  lemma NextToneRun(tones: seq<Tone>, d: nat, n: nat)
    requires 0 < n <= |tones|
    ensures ToneRuns(tones, d, n) == ToneRuns(tones, d, n - 1) + [Interval(tones[n - 1].on, tones[n - 1].units * d)]
  {
  }

  lemma {:induction false} LensBehindLead(runs: seq<Interval>, lead: nat, n: nat)
    requires n <= |runs|
    ensures Lens(LeadRuns(lead) + runs, true, |LeadRuns(lead)| + n) == Lens(runs, true, n)
  {
    if 0 < n {
      LensBehindLead(runs, lead, n - 1);
    } else {
      assert lead != 0 ==> (LeadRuns(lead) + runs)[0] == Interval(false, lead);
    }
  }

  lemma LensOfSignal(runs: seq<Interval>, lead: nat, tail: nat)
    ensures var all := LeadRuns(lead) + runs + LeadRuns(tail);
            Lens(all, true, |all|) == Lens(runs, true, |runs|)
  {
    LensBehindLead(runs, lead, |runs|);
    if tail != 0 {
      LensSnoc(LeadRuns(lead) + runs, Interval(false, tail), true);
    } else {
      assert LeadRuns(lead) + runs + [] == LeadRuns(lead) + runs;
    }
  }

  lemma {:induction false} DitsCounted(lens: seq<nat>, units: seq<nat>, d: nat, n: nat)
    requires 1 <= d && |lens| == |units| && n <= |lens|
    requires forall i :: 0 <= i < |lens| ==> lens[i] == units[i] * d && (units[i] == 1 || units[i] == 3)
    ensures NumOf(Reals(lens), n, d as real) == DitsAmong(units, n)
  {
    hide Reals;
    if 0 < n {
      DitsCounted(lens, units, d, n - 1);
      RealsAt(lens, n - 1);
    }
  }

  lemma RealsAt(lens: seq<nat>, i: nat)
    requires i < |lens|
    ensures Reals(lens)[i] == lens[i] as real
  {
  }

  ghost predicate Sends(tones: seq<Tone>, n: nat, units: nat)
    requires n <= |tones|
  {
    exists k :: 0 <= k < n && tones[k] == Tone(true, units)
  }

  lemma {:induction false} FirstMarksTwo(tones: seq<Tone>, n: nat)
    requires n <= |tones| && forall i :: 0 <= i < n ==> Keyable(tones[i])
    ensures forall i :: 0 <= i < |FirstMarks(tones, n)| ==> FirstMarks(tones, n)[i] == 1 || FirstMarks(tones, n)[i] == 3
    ensures forall i :: 0 <= i < |FirstMarks(tones, n)| ==> Sends(tones, n, FirstMarks(tones, n)[i])
  {
    if 0 < n {
      FirstMarksTwo(tones, n - 1);
      assert Keyable(tones[n - 1]);
      forall i | 0 <= i < |FirstMarks(tones, n)| ensures Sends(tones, n, FirstMarks(tones, n)[i]) {
        if i < |FirstMarks(tones, n - 1)| {
          assert Sends(tones, n - 1, FirstMarks(tones, n - 1)[i]);
        }
      }
    }
  }

  // ---------------------------------------------------------------- copying with the right dot

  lemma Norms(d: nat)
    requires 2 <= d
    ensures d as real / d as real == 1.0 && (3 * d) as real / d as real == 3.0 && (7 * d) as real / d as real == 7.0
    ensures Debounce(d as real) < d
  {
    var u := d as real;
    assert 3.0 * u / u == 3.0;
    assert 7.0 * u / u == 7.0;
    assert (3 * d) as real == 3.0 * u && (7 * d) as real == 7.0 * u;
  }

  /** Tones of exact length fit. */
  lemma ExactFits(tone: Tone, d: nat)
    requires 2 <= d && Keyable(tone)
    ensures Fits(Interval(tone.on, tone.units * d), tone, d as real)
  {
    hide Debounce;
    Norms(d);
  }

  lemma LeadCopied(lead: nat, runs: seq<Interval>, d: nat, outMax: int)
    requires 2 <= d
    ensures CopyRuns(LeadRuns(lead) + runs, |LeadRuns(lead)|, d as real, outMax) == Copy("", "")
  {
    hide Debounce;
    if lead != 0 {
      assert (LeadRuns(lead) + runs)[0] == Interval(false, lead);
      assert CopyRuns(LeadRuns(lead) + runs, 0, d as real, outMax) == Copy("", "");
    }
  }

  /** The closed runs of a signal: the lead, and every tone but the last. */
  predicate ClosedTones(closed: seq<Interval>, at: nat, tones: seq<Tone>, d: nat) {
    tones != [] && at + |tones| - 1 == |closed|
    && forall i :: 0 <= i < |tones| - 1 ==> closed[at + i] == Interval(tones[i].on, tones[i].units * d)
  }

  lemma ClosedTonesOf(lead: nat, tones: seq<Tone>, d: nat)
    requires tones != []
    ensures ClosedTones(LeadRuns(lead) + ToneRuns(tones, d, |tones| - 1), |LeadRuns(lead)|, tones, d)
  {
  }

  /** Up to the last character, everything has gone out. */
  lemma BeforeLast(closed: seq<Interval>, at: nat, text: string, d: nat, outMax: int)
    requires WellSpaced(text) && text != "" && text[|text| - 1] != ' ' && |text| < outMax && 2 <= d
    requires ClosedTones(closed, at, Keyed(text, |text|), d) && CopyRuns(closed, at, d as real, outMax) == Copy("", "")
    requires SpacedAt(text, |text| - 1)
    ensures var k := at + |Keyed(text, |text| - 1)|;
            k <= |closed| && CopyRuns(closed, k, d as real, outMax) == Copy("", Written(text, |text| - 1))
  {
    hide CopyRuns, Character, PatternOf, Written, GapAfter, Known, WellSpaced, Keyed;
    LastCharacter(text, Keyed(text, |text|));
    PatternShape(text[|text| - 1]);
    KeyedKeyable(text, |text|);
    SentBefore(closed, at, Keyed(text, |text|), Keyed(text, |text| - 1), d);
    UnevenTextCopied(closed, at, text, |text| - 1, d as real, outMax);
  }

  /** The last character is still in hand when the signal ends. */
  lemma LastInHand(closed: seq<Interval>, at: nat, text: string, d: nat, outMax: int, out: string)
    requires WellSpaced(text) && text != "" && text[|text| - 1] != ' ' && 2 <= d && SpacedAt(text, |text| - 1)
    requires ClosedTones(closed, at, Keyed(text, |text|), d)
    requires var k := at + |Keyed(text, |text| - 1)|;
             k <= |closed| && CopyRuns(closed, k, d as real, outMax) == Copy("", out)
    ensures Known(text[|text| - 1])
    ensures CopyRuns(closed, |closed|, d as real, outMax) == Copy(PatternOf(text[|text| - 1]), out)
  {
    hide CopyRuns, Character, PatternOf, GapAfter, Known, WellSpaced, Keyed, IsPattern;
    var last := |text| - 1;
    var tones := Keyed(text, |text|);
    LastCharacter(text, tones);
    var pat, gap := PatternOf(text[last]), GapAfter(text, last);
    PatternShape(text[last]);
    KeyedKeyable(text, |text|);
    SentBehind(closed, at, tones, |Keyed(text, last)|, Character(pat, gap, |pat|), d);
    LetterCollects(closed, at + |Keyed(text, last)|, pat, gap, |pat| - 1, d as real, outMax);
    assert pat[..|pat|] == pat;
  }

  /** What is copied from a signal whose dot length was found right. */
  lemma RightDotCopies(text: string, d: nat, lead: nat, outMax: int)
    requires WellSpaced(text) && text != "" && text[|text| - 1] != ' ' && |text| < outMax && 2 <= d
    requires Keyed(text, |text|) != []
    ensures var tones := Keyed(text, |text|);
            var closed := LeadRuns(lead) + ToneRuns(tones, d, |tones| - 1);
            var c := CopyRuns(closed, |closed|, d as real, outMax);
            && c.letter != "" && Put(c.out, Copied(c.letter), outMax) == text
            && Known(text[|text| - 1]) && c.letter == PatternOf(text[|text| - 1])
  {
    hide CopyRuns, Copied, PatternOf, Written, Known, WellSpaced, LeadRuns, ToneRuns, Keyed, ClosedTones, IsPattern, SpacedAt;
    var tones := Keyed(text, |text|);
    var closed, at := LeadRuns(lead) + ToneRuns(tones, d, |tones| - 1), |LeadRuns(lead)|;
    LeadCopied(lead, ToneRuns(tones, d, |tones| - 1), d, outMax);
    ClosedTonesOf(lead, tones, d);
    Spaced(text, |text| - 1);
    BeforeLast(closed, at, text, d, outMax);
    LastInHand(closed, at, text, d, outMax, Written(text, |text| - 1));
    PatternShape(text[|text| - 1]);
    CopiedKnown(text[|text| - 1]);
    LastWritten(text);
  }

  lemma LastCharacter(text: string, tones: seq<Tone>)
    requires WellSpaced(text) && text != "" && text[|text| - 1] != ' ' && SpacedAt(text, |text| - 1) && tones == Keyed(text, |text|)
    ensures Known(text[|text| - 1])
    ensures var pat, gap := PatternOf(text[|text| - 1]), GapAfter(text, |text| - 1);
            tones == Keyed(text, |text| - 1) + Character(pat, gap, |pat|) && |Character(pat, gap, |pat|)| == 2 * |pat|
  {
    hide PatternOf, Character, GapAfter;
  }

  lemma SentBefore(closed: seq<Interval>, at: nat, tones: seq<Tone>, first: seq<Tone>, d: nat)
    requires 2 <= d && ClosedTones(closed, at, tones, d) && first <= tones && |first| < |tones|
    requires forall i :: 0 <= i < |tones| ==> Keyable(tones[i])
    ensures FitAt(closed, at, first, |first|, d as real)
  {
    hide Keyable, Fits;
    forall i | 0 <= i < |first| ensures Fits(closed[at + i], first[i], d as real) {
      assert first[i] == tones[i] && Keyable(tones[i]);
      ExactFits(first[i], d);
    }
  }

  lemma SentBehind(closed: seq<Interval>, at: nat, tones: seq<Tone>, n: nat, rest: seq<Tone>, d: nat)
    requires 2 <= d && ClosedTones(closed, at, tones, d) && rest != [] && n + |rest| == |tones| && tones[n..] == rest
    requires forall i :: 0 <= i < |tones| ==> Keyable(tones[i])
    ensures FitAt(closed, at + n, rest, |rest| - 1, d as real)
  {
    hide Keyable, Fits;
    forall i | 0 <= i < |rest| - 1 ensures Fits(closed[at + n + i], rest[i], d as real) {
      assert rest[i] == tones[n + i] && Keyable(tones[n + i]);
      assert closed[at + (n + i)] == Interval(tones[n + i].on, tones[n + i].units * d);
      ExactFits(rest[i], d);
    }
  }

  lemma LastWritten(text: string)
    requires text != "" && text[|text| - 1] != ' '
    ensures Written(text, |text| - 1) + [text[|text| - 1]] == text
  {
  }

  // ---------------------------------------------------------------- copying with a wrong dot

  /** No mark that is long enough to count reads as `element`. */
  ghost predicate NeverReads(runs: seq<Interval>, n: nat, dot: real, element: char)
    requires n <= |runs| && 1.0 <= dot
  {
    forall i :: 0 <= i < n && runs[i].on ==> Element(runs[i].len, dot) != element
  }

  lemma LacksMore(letter: string, more: char, element: char)
    requires Lacks(letter, element)
    ensures more != element ==> Lacks(letter + [more], element)
  {
  }

  lemma SparedMore(out: string, more: char, element: char)
    requires AllSpared(out, element) && Spared(more, element)
    ensures AllSpared(out + [more], element)
  {
  }

  lemma PutSpares(out: string, c: char, outMax: int, element: char)
    requires AllSpared(out, element) && Spared(c, element)
    ensures AllSpared(Put(out, c, outMax), element)
  {
    hide AllSpared;
    SparedMore(out, c, element);
  }

  lemma RunSpares(c: Copy, run: Interval, dot: real, outMax: int, element: char)
    requires 1.0 <= dot && Lacks(c.letter, element) && AllSpared(c.out, element)
    requires run.on ==> Element(run.len, dot) != element
    ensures var e := CloseRun(c, run, dot, outMax); Lacks(e.letter, element) && AllSpared(e.out, element)
  {
    hide Debounce, Lacks, AllSpared, Spared, Copied, Element, Put;
    LacksMore(c.letter, Element(run.len, dot), element);
    LacksNothing(element);
    CopiedSpared(c.letter, element);
    PutSpares(c.out, Copied(c.letter), outMax, element);
    PutSpares(c.out, ' ', outMax, element);
    PutSpares(Put(c.out, Copied(c.letter), outMax), ' ', outMax, element);
  }

  lemma LacksNothing(element: char)
    ensures Lacks("", element) && AllSpared("", element) && Spared(' ', element)
  {
  }

  lemma {:induction false} CopySpares(runs: seq<Interval>, n: nat, dot: real, outMax: int, element: char)
    requires n <= |runs| && 1.0 <= dot && NeverReads(runs, n, dot, element)
    ensures var c := CopyRuns(runs, n, dot, outMax); Lacks(c.letter, element) && AllSpared(c.out, element)
  {
    hide CloseRun, Lacks, AllSpared, Element;
    if n == 0 {
      LacksNothing(element);
    } else {
      CopySpares(runs, n - 1, dot, outMax, element);
      RunSpares(CopyRuns(runs, n - 1, dot, outMax), runs[n - 1], dot, outMax, element);
    }
  }

  /** With a dot of three units every mark is a dit, with one of a third every mark a dah. */
  lemma WrongElements(d: nat, units: nat)
    requires 1 <= d && (units == 1 || units == 3)
    ensures Element(units * d, 3.0 * d as real) == '.'
    ensures 3 <= d ==> Element(units * d, d as real / 3.0) == '-'
  {
    var u := d as real;
    assert (units * d) as real == units as real * u;
    assert u / (3.0 * u) <= 1.0 && 3.0 * u / (3.0 * u) == 1.0;
    if 3 <= d {
      var dot := u / 3.0;
      assert u == 3.0 * dot;
      assert 3.0 * dot / dot == 3.0;
      assert 9.0 * dot / dot == 9.0;
    }
  }

  lemma SignalNeverReads(lead: nat, tones: seq<Tone>, d: nat, dot: real, element: char)
    requires tones != [] && 1 <= d && 1.0 <= dot && forall i :: 0 <= i < |tones| ==> Keyable(tones[i])
    requires (dot == 3.0 * d as real && element == '-') || (dot == d as real / 3.0 && 3 <= d && element == '.')
    ensures var closed := LeadRuns(lead) + ToneRuns(tones, d, |tones| - 1); NeverReads(closed, |closed|, dot, element)
  {
    hide Element, ToneRuns;
    var runs := ToneRuns(tones, d, |tones| - 1);
    var closed := LeadRuns(lead) + runs;
    forall i | 0 <= i < |closed| && closed[i].on ensures Element(closed[i].len, dot) != element {
      var k := i - |LeadRuns(lead)|;
      assert closed[i] == runs[k];
      assert Keyable(tones[k]);
      WrongElements(d, tones[k].units);
    }
  }

  /** With a wrong dot the text cannot come back. */
  lemma WrongDotLoses(text: string, d: nat, lead: nat, dot: real, outMax: int, element: char, shown: string)
    requires WellSpaced(text) && Keyed(text, |text|) != [] && 1 <= d && 1.0 <= dot
    requires (dot == 3.0 * d as real && element == '-') || (dot == d as real / 3.0 && 3 <= d && element == '.')
    requires Sends(Keyed(text, |text|), |Keyed(text, |text|)|, Length(element))
    requires var closed := LeadRuns(lead) + ToneRuns(Keyed(text, |text|), d, |Keyed(text, |text|)| - 1);
             var c := CopyRuns(closed, |closed|, dot, outMax);
             shown == if c.letter != "" then Put(c.out, Copied(c.letter), outMax) else c.out
    ensures shown != text
  {
    hide Keyed, CopyRuns, Lacks, AllSpared, Spared, Copied, Put, ToneRuns, LeadRuns, NeverReads, Element, Keyable, WellSpaced;
    var tones := Keyed(text, |text|);
    var closed := LeadRuns(lead) + ToneRuns(tones, d, |tones| - 1);
    KeyedKeyable(text, |text|);
    SignalNeverReads(lead, tones, d, dot, element);
    CopySpares(closed, |closed|, dot, outMax, element);
    var c := CopyRuns(closed, |closed|, dot, outMax);
    CopiedSpared(c.letter, element);
    PutSpares(c.out, Copied(c.letter), outMax, element);
    if shown == text {
      KeyedLacks(text, |text|, element);
    }
  }

  // ---------------------------------------------------------------- the whole

  lemma {:induction false} MixedMarks(units: seq<nat>, n: nat) returns (dit: nat, dah: nat)
    requires n <= |units| && forall i :: 0 <= i < |units| ==> units[i] == 1 || units[i] == 3
    ensures 0 < DitsAmong(units, n) ==> dit < n && units[dit] == 1
    ensures DitsAmong(units, n) < n ==> dah < n && units[dah] == 3
  {
    dit, dah := 0, 0;
    if 0 < n {
      dit, dah := MixedMarks(units, n - 1);
      if units[n - 1] == 1 {
        dit := n - 1;
      } else {
        dah := n - 1;
      }
    }
  }

  lemma {:induction false} FirstMarksOfAll(tones: seq<Tone>, n: nat)
    requires InTurn(tones) && 1 < n <= |tones|
    ensures FirstMarks(tones, n) != []
  {
    if 2 < n {
      FirstMarksOfAll(tones, n - 1);
    } else {
      assert tones[0].on;
      assert FirstMarks(tones, 1) == [tones[0].units] by { assert FirstMarks(tones, 0) == []; }
    }
  }

  lemma LastIsSpace(tones: seq<Tone>)
    requires InTurn(tones) && tones != [] && |tones| % 2 == 0
    ensures FirstMarks(tones, |tones|) == FirstMarks(tones, |tones| - 1)
  {
    assert !tones[|tones| - 1].on;
  }

  lemma KeyedSomething(text: string)
    requires WellSpaced(text) && text != ""
    ensures Keyed(text, |text|) != []
  {
    hide *;
    Spaced(text, 0);
    FirstKeyed(text);
    KeyedGrows(text, |text|);
  }

  lemma FirstKeyed(text: string)
    requires WellSpaced(text) && text != "" && SpacedAt(text, 0)
    ensures Keyed(text, 1) != []
  {
    hide PatternOf, Character, GapAfter, IsPattern;
    PatternShape(text[0]);
    assert Keyed(text, 1) == Keyed(text, 0) + CharTones(text, 0);
  }

  lemma {:induction false} KeyedGrows(text: string, j: nat)
    requires WellSpaced(text) && 1 <= j <= |text|
    ensures |Keyed(text, 1)| <= |Keyed(text, j)|
  {
    hide CharTones;
    if 1 < j {
      KeyedGrows(text, j - 1);
    }
  }

  /** The mark lengths the estimate sees. */
  lemma MarksSeen(text: string, power: seq<real>, threshold: real, d: nat, lead: nat, tail: nat)
    requires WellSpaced(text) && text != "" && Keyed(text, |text|) != [] && 1 <= d
    requires Levels(power, threshold) == Signal(text, d, lead, tail)
    ensures var on, units := MarkLens(power, threshold), MarksOf(text);
            && on != [] && |on| == |units|
            && (forall i :: 0 <= i < |on| ==> on[i] == units[i] * d && (units[i] == 1 || units[i] == 3))
  {
    hide Keyed, Runs, Lens, ToneRuns, LeadRuns, FirstMarks, Keyable, InTurn, Signal;
    var tones := Keyed(text, |text|);
    SignalRuns(text, d, lead, tail);
    LensOfSignal(ToneRuns(tones, d, |tones| - 1), lead, tail);
    LensOfTones(tones, d, |tones| - 1);
    KeyedInTurn(text, |text|);
    LastIsSpace(tones);
    KeyedKeyable(text, |text|);
    FirstMarksTwo(tones, |tones|);
    FirstMarksOfAll(tones, |tones|);
  }

  lemma TwoKindsSeen(on: seq<nat>, units: seq<nat>, d: nat)
    requires |on| == |units| && forall i :: 0 <= i < |on| ==> on[i] == units[i] * d && (units[i] == 1 || units[i] == 3)
    ensures TwoKinds(Reals(on), d as real)
  {
    forall i | 0 <= i < |on| ensures Reals(on)[i] == d as real || Reals(on)[i] == 3.0 * d as real {
      assert on[i] == units[i] * d;
    }
  }

  lemma ClosedSignal(text: string, power: seq<real>, threshold: real, d: nat, lead: nat, tail: nat)
    requires WellSpaced(text) && Keyed(text, |text|) != [] && 1 <= d && 0.0 <= threshold
    requires Levels(power, threshold) == Signal(text, d, lead, tail)
    ensures Closed(Levels(power + [0.0], threshold)) == LeadRuns(lead) + ToneRuns(Keyed(text, |text|), d, |Keyed(text, |text|)| - 1)
  {
    hide Keyed, Signal, Closed, ToneRuns, LeadRuns;
    assert Levels(power + [0.0], threshold) == Levels(power, threshold) + [false];
    SignalRuns(text, d, lead, tail);
  }

  /** A keyed text comes back if and only if the dot length is found right. */
  lemma KeyedTextComesBack(text: string, power: seq<real>, threshold: real, d: nat, lead: nat, tail: nat, outMax: int,
    pendingMax: int)
    requires WellSpaced(text) && text != "" && text[|text| - 1] != ' ' && |text| < outMax && 2 <= d && 0.0 <= threshold
    requires Levels(power, threshold) == Signal(text, d, lead, tail)
    ensures Decode(power, threshold, outMax) == text
            <==> DotRight(DitsAmong(MarksOf(text), |MarksOf(text)|), |MarksOf(text)|, d)
    ensures DotRight(DitsAmong(MarksOf(text), |MarksOf(text)|), |MarksOf(text)|, d) && 5 < pendingMax ==>
              Known(text[|text| - 1]) && Pending(power, threshold, outMax, pendingMax) == PatternOf(text[|text| - 1])
  {
    hide *;
    KeyedSomething(text);
    MarksSeen(text, power, threshold, d, lead, tail);
    ClosedSignal(text, power, threshold, d, lead, tail);
    var on, units := MarkLens(power, threshold), MarksOf(text);
    TwoKindsSeen(on, units, d);
    DotOfTwo(on, d);
    DitsCounted(on, units, d, |on|);
    DecodeFrom(power, threshold, outMax);
    PendingFrom(power, threshold, outMax, pendingMax);
    if DotRight(DitsAmong(units, |units|), |units|, d) {
      RightDotCopies(text, d, lead, outMax);
      PatternShape(text[|text| - 1]);
    } else {
      MarksSent(text);
      if DitsAmong(units, |units|) < |units| && DotLength(on) == 3.0 * d as real {
        WrongDotLoses(text, d, lead, DotLength(on), outMax, '-', Decode(power, threshold, outMax));
      } else {
        WrongDotLoses(text, d, lead, DotLength(on), outMax, '.', Decode(power, threshold, outMax));
      }
    }
  }

  lemma DecodeFrom(power: seq<real>, threshold: real, outMax: int)
    requires 0 < outMax && MarkLens(power, threshold) != []
    ensures var closed := Closed(Levels(power + [0.0], threshold));
            var c := CopyRuns(closed, |closed|, DotLength(MarkLens(power, threshold)), outMax);
            Decode(power, threshold, outMax) == if c.letter != "" then Put(c.out, Copied(c.letter), outMax) else c.out
  {
    hide CopyRuns, Closed, DotLength, MarkLens, Copied, Put;
  }

  lemma PendingFrom(power: seq<real>, threshold: real, outMax: int, pendingMax: int)
    requires 0 < outMax && MarkLens(power, threshold) != []
    ensures var closed := Closed(Levels(power + [0.0], threshold));
            var c := CopyRuns(closed, |closed|, DotLength(MarkLens(power, threshold)), outMax);
            |c.letter| < pendingMax ==> Pending(power, threshold, outMax, pendingMax) == c.letter
  {
    hide CopyRuns, Closed, DotLength, MarkLens;
  }

  lemma MarksSent(text: string)
    requires WellSpaced(text)
    ensures var tones, units := Keyed(text, |text|), MarksOf(text);
            && (0 < DitsAmong(units, |units|) ==> Sends(tones, |tones|, Length('.')))
            && (DitsAmong(units, |units|) < |units| ==> Sends(tones, |tones|, Length('-')))
  {
    hide Keyed, FirstMarks, Keyable, Sends, DitsAmong;
    var tones, units := Keyed(text, |text|), MarksOf(text);
    KeyedKeyable(text, |text|);
    FirstMarksTwo(tones, |tones|);
    var dit, dah := MixedMarks(units, |units|);
    if 0 < DitsAmong(units, |units|) {
      assert Sends(tones, |tones|, units[dit]);
    }
    if DitsAmong(units, |units|) < |units| {
      assert Sends(tones, |tones|, units[dah]);
    }
  }

  // ---------------------------------------------------------------- texts that do not come back

  /** A signal of full power where the key is down. */
  function Power(levels: seq<bool>): (power: seq<real>)
    ensures Levels(power, 0.5) == levels
  {
    var power := seq(|levels|, i requires 0 <= i < |levels| => if levels[i] then 1.0 else 0.0);
    assert Levels(power, 0.5) == levels;
    power
  }

  lemma {:induction false} CharacterMarks(pat: string, gap: nat, n: nat)
    requires n <= |pat| && n <= 5 && IsPattern(pat)
    ensures var units := FirstMarks(Character(pat, gap, n), 2 * n);
            |units| == n && DitsAmong(units, n) == CountIn(pat, '.', n)
  {
    if 0 < n {
      CharacterMarks(pat, gap, n - 1);
      var before, tones := Character(pat, gap, n - 1), Character(pat, gap, n);
      FirstMarksPrefix(before, tones, 2 * (n - 1));
      var k: nat := 2 * n - 1;
      var units := FirstMarks(before, 2 * (n - 1));
      assert FirstMarks(tones, k) == units + [Length(pat[n - 1])];
      assert FirstMarks(tones, 2 * n) == FirstMarks(tones, k);
      DitsPrefix(units, [Length(pat[n - 1])], n - 1);
    }
  }

  lemma {:induction false} FirstMarksPrefix(before: seq<Tone>, tones: seq<Tone>, n: nat)
    requires before <= tones && n <= |before|
    ensures FirstMarks(tones, n) == FirstMarks(before, n)
  {
    if 0 < n {
      FirstMarksPrefix(before, tones, n - 1);
    }
  }

  lemma {:induction false} DitsPrefix(units: seq<nat>, more: seq<nat>, n: nat)
    requires n <= |units|
    ensures DitsAmong(units + more, n) == DitsAmong(units, n)
  {
    if 0 < n {
      DitsPrefix(units, more, n - 1);
    }
  }

  lemma LetterMarks(text: string)
    requires |text| == 1 && Known(text[0])
    ensures WellSpaced(text)
    ensures var pat, units := PatternOf(text[0]), MarksOf(text);
            |units| == |pat| && DitsAmong(units, |units|) == CountIn(pat, '.', |pat|)
  {
    hide PatternOf, Known, Keyed, Character, IsPattern, WellSpaced, FirstMarks;
    LetterKeyed(text);
    PatternShape(text[0]);
    CharacterMarks(PatternOf(text[0]), 3, |PatternOf(text[0])|);
  }

  /** A single dit of 19 samples is not read as E. */
  lemma LongDitIsLost()
    ensures WellSpaced("E") && Decode(Power(Signal("E", 19, 0, 0)), 0.5, 256) != "E"
  {
    hide Decode, Signal, PatternOf, MarksOf, Power, DitsAmong, WellSpaced;
    PatternOfE();
    LetterMarks("E");
    KeyedTextComesBack("E", Power(Signal("E", 19, 0, 0)), 0.5, 19, 0, 0, 256, 32);
  }

  /** One dit among three dahs: J alone is never read as J, whatever the speed. */
  lemma FewDitsAreLost(d: nat)
    requires 2 <= d
    ensures WellSpaced("J") && Decode(Power(Signal("J", d, 0, 0)), 0.5, 256) != "J"
  {
    hide Decode, Signal, PatternOf, MarksOf, Power, DitsAmong, WellSpaced;
    PatternOfJ();
    LetterMarks("J");
    KeyedTextComesBack("J", Power(Signal("J", d, 0, 0)), 0.5, d, 0, 0, 256, 32);
  }

  /** Dahs alone of at most 18 samples are taken for dits. */
  lemma ShortDahsAreLost()
    ensures WellSpaced("O") && Decode(Power(Signal("O", 6, 0, 0)), 0.5, 256) != "O"
  {
    hide Decode, Signal, PatternOf, MarksOf, Power, DitsAmong, WellSpaced;
    PatternOfO();
    LetterMarks("O");
    KeyedTextComesBack("O", Power(Signal("O", 6, 0, 0)), 0.5, 6, 0, 0, 256, 32);
  }
}
