/** The streaming spectrum decoder. Columns are consumed only when they are old enough; the lag
    moves with the measured speed and the history is trimmed behind the cursor, yet the runs are
    always the encoding of the columns consumed so far. */
module SpectrumDecoders {
  import opened RealNumbers
  import opened SpectrumRuns
  import opened SpectrumTiming
  import opened SpectrumMeasure
  import opened SpectrumScan

  const ATTACK := 16.0
  const RELEASE := 12.5
  const HISTORY := 60.0
  const START_UNIT := 0.24
  const START_COLUMN := 1024.0 / 48000.0
  const SEAL_ABOVE := 4000
  const SEAL_FROM := 800
  const TEXT_CAP := 8000
  const TEXT_KEPT := 6000

  /** `spectrumTraceOn` for a finite power. */
  function TraceOn(power: real, noise: real, latched: bool): bool {
    power >= Max(-110.0, noise) + (if latched then RELEASE else ATTACK)
  }

  /** `columnPeriodSec` */
  function PeriodOf(binWidth: real): (sec: real)
    requires 1.0 < binWidth
    ensures 0.0 < sec && (20.0 < binWidth ==> sec * binWidth == 1.0)
  {
    if binWidth > 20.0 then 1.0 / binWidth else 0.0107
  }

  /** `lagSec` */
  function LagOf(calibrated: bool, unit: real): (lag: real)
    ensures 0.72 <= lag
    ensures !calibrated ==> lag == 4.32
    ensures calibrated && 0.04 <= unit ==> lag == 18.0 * unit
  {
    18.0 * (if calibrated then Max(0.040, unit) else START_UNIT)
  }

  /** The last long enough space among `done[SEAL_FROM..n]`, or -1. */
  function LastCut(done: seq<Run>, letterCut: real, n: nat): (cut: int)
    requires n <= |done|
    ensures -1 <= cut < n && (0 <= cut ==> 800 <= cut && !done[cut].on && done[cut].sec >= letterCut)
    ensures forall i :: 800 <= i < n && !done[i].on && done[i].sec >= letterCut ==> i <= cut
  {
    if n <= SEAL_FROM then -1
    else if !done[n - 1].on && done[n - 1].sec >= letterCut then n - 1
    else LastCut(done, letterCut, n - 1)
  }

  /** Where `sealOldest` cuts, or -1. */
  function SealAt(done: seq<Run>, columnSec: real): (cut: int)
    ensures -1 <= cut < |done|
    ensures 0 <= cut ==> !done[cut].on && done[cut].sec >= Measure(done, columnSec).letterCut
    ensures 4000 < |done| && Measure(done, columnSec).ok ==>
              forall i :: 800 <= i < |done| / 2 && !done[i].on && done[i].sec >= Measure(done, columnSec).letterCut ==> i <= cut
  {
    if |done| <= SEAL_ABOVE || !Measure(done, columnSec).ok then -1
    else LastCut(done, Measure(done, columnSec).letterCut, |done| / 2)
  }

  /** The runs that stay, and the text of those that are sealed. */
  function LeftNow(done: seq<Run>, columnSec: real): seq<Run> {
    done[SealAt(done, columnSec) + 1..]
  }

  function SealedNow(done: seq<Run>, columnSec: real): string {
    if SealAt(done, columnSec) < 0 then ""
    else DecodeRuns(done[..SealAt(done, columnSec) + 1], Measure(done, columnSec))
  }

  /** How much `setText` cuts off the front of a text that is too long. */
  function Dropped(text: string): (n: nat)
    ensures n <= |text|
  {
    if |text| > TEXT_CAP then |text| - TEXT_KEPT else 0
  }

  /** The text after `setText(shown)`, and the sealed part of it. */
  function TextAfter(before: string, shown: string): string {
    if shown == before then before else shown[Dropped(shown)..]
  }

  function SealedAfter(before: string, sealedBefore: string, shown: string): string {
    if shown == before then sealedBefore
    else if Dropped(shown) <= |sealedBefore| then sealedBefore[Dropped(shown)..]
    else ""
  }

  /** What is shown is kept whole up to 8000 characters, and of more the last 6000; the sealed part stays
      the front of it, and what stands behind the sealed part stays as far as it fits. */
  lemma SetTextSays(before: string, sealedBefore: string, tail: string)
    requires sealedBefore + tail != before
    ensures var shown := sealedBefore + tail;
            var text, sealed := TextAfter(before, shown), SealedAfter(before, sealedBefore, shown);
            && (|shown| <= 8000 ==> text == shown && sealed == sealedBefore)
            && (8000 < |shown| ==> text == shown[|shown| - 6000..])
            && sealed <= text && (|tail| <= 6000 ==> text == sealed + tail)
            && (8000 < |shown| && 6000 < |tail| ==> sealed == "" && text == tail[|tail| - 6000..])
  {
    var shown := sealedBefore + tail;
    assert shown[0..] == shown && sealedBefore[0..] == sealedBefore;
    if Dropped(shown) <= |sealedBefore| {
      assert shown[Dropped(shown)..] == sealedBefore[Dropped(shown)..] + tail;
    } else {
      assert shown[Dropped(shown)..] == tail[Dropped(shown) - |sealedBefore|..];
    }
  }

  /** Sealing changes nothing that was said. */
  lemma SealKeepsMeaning(done: seq<Run>, columnSec: real)
    ensures var timing := Measure(done, columnSec);
            SealedNow(done, columnSec) + DecodeRuns(LeftNow(done, columnSec), timing) == DecodeRuns(done, timing)
  {
    hide Measure, DecodeRuns, SealAt;
    var cut := SealAt(done, columnSec);
    if 0 <= cut {
      SealKeepsText(done, cut, Measure(done, columnSec));
    } else {
      assert done[0..] == done;
    }
  }

  // ---------------------------------------------------------------- what holds between calls

  /** Column times ascend, and the clock shows the last. */
  ghost predicate Timeline(seen: seq<Column>, nowSec: real, columns: nat) {
    && columns == |seen|
    && (forall i, j :: 0 <= i < j < |seen| ==> seen[i].tSec < seen[j].tSec)
    && (seen != [] ==> nowSec == seen[|seen| - 1].tSec)
  }

  /** The history is the end of all columns; only consumed ones have been trimmed. */
  ghost predicate Window(seen: seq<Column>, hist: seq<Column>, next: nat, trimmed: nat, epoch: nat) {
    trimmed <= |seen| && hist == seen[trimmed..] && next <= |hist| && epoch <= trimmed + next
  }

  /** The fields summarise the columns from `epoch` to the `to`th as the scan does. */
  ghost predicate Scanned(seen: seq<Column>, epoch: nat, to: nat, now: Scan) {
    epoch <= to <= |seen| && Same(ScanTo(seen, epoch, to), now)
  }

  /** Equal but for a start that means nothing yet. */
  ghost predicate Same(s: Scan, now: Scan) {
    s == now.(start := if s.haveState then now.start else s.start)
  }

  lemma NothingScanned(seen: seq<Column>, epoch: nat, start: real)
    requires epoch <= |seen|
    ensures Scanned(seen, epoch, epoch, Scan(false, false, start, false, []))
  {
  }

  lemma WaitingBehind(gone: seq<Run>, done: seq<Run>)
    ensures |gone| <= |gone + done| && (gone + done)[|gone|..] == done
  {
  }

  lemma NothingSeen()
    ensures Timeline([], 0.0, 0) && Window([], [], 0, 0, 0)
  {
  }

  lemma WindowParts(seen: seq<Column>, hist: seq<Column>, next: nat, trimmed: nat, epoch: nat)
    requires Window(seen, hist, next, trimmed, epoch)
    ensures trimmed + |hist| == |seen| && next <= |hist| && epoch <= trimmed + next <= |seen|
    ensures forall i :: 0 <= i < |hist| ==> hist[i] == seen[trimmed + i]
    ensures Window(seen, hist, next, trimmed, trimmed + next)
    ensures next < |hist| ==> Window(seen, hist, next + 1, trimmed, epoch)
    ensures 0 < next ==> Window(seen, hist[1..], next - 1, trimmed + 1, epoch)
  {
  }

  lemma ColumnEnters(seen: seq<Column>, hist: seq<Column>, next: nat, trimmed: nat, epoch: nat, col: Column,
                     nowSec: real, columns: nat, now: Scan)
    requires Timeline(seen, nowSec, columns) && (seen != [] ==> nowSec < col.tSec)
    requires Window(seen, hist, next, trimmed, epoch) && Scanned(seen, epoch, trimmed + next, now)
    ensures Timeline(seen + [col], col.tSec, columns + 1)
    ensures Window(seen + [col], hist + [col], next, trimmed, epoch)
    ensures Scanned(seen + [col], epoch, trimmed + next, now)
  {
    hide ScanTo, Same;
    ScanPrefix(seen, [col], epoch, trimmed + next);
  }

  lemma SampleEnters(seen: seq<Column>, epoch: nat, to: nat, was: Scan, now: Scan)
    requires Scanned(seen, epoch, to, was) && to < |seen|
    requires forall s :: Same(s, was) ==> Same(ScanColumn(s, seen[to]), now)
    ensures Scanned(seen, epoch, to + 1, now)
  {
    hide Same, ScanColumn;
    assert Same(ScanTo(seen, epoch, to), was);
  }

  ghost predicate Before(seen: seq<Column>, from: nat, to: nat, cursor: real) {
    from <= to <= |seen| && forall i :: from <= i < to ==> seen[i].tSec <= cursor
  }

  ghost predicate Beyond(seen: seq<Column>, at: nat, cursor: real) {
    forall i :: at <= i < |seen| ==> cursor < seen[i].tSec
  }

  lemma BeforeNext(seen: seq<Column>, from: nat, to: nat, cursor: real)
    requires from <= to <= |seen|
    ensures from == to ==> Before(seen, from, to, cursor)
    ensures Before(seen, from, to, cursor) && to < |seen| && seen[to].tSec <= cursor ==> Before(seen, from, to + 1, cursor)
  {
  }

  /** Times ascend, so what lies behind a column beyond the cursor is beyond it too. */
  lemma BeyondCursor(seen: seq<Column>, nowSec: real, columns: nat, at: nat, cursor: real)
    requires Timeline(seen, nowSec, columns) && at <= |seen| && (at < |seen| ==> cursor < seen[at].tSec)
    ensures Beyond(seen, at, cursor)
  {
  }

  // ---------------------------------------------------------------- the key

  /** What was measured for a column. */
  datatype Level = Level(power: real, noise: real)

  /** Whether the key is down in column `i`: it goes down at 16 dB above the floor and stays down to
      12.5 dB above it, unless it was lifted in between. The floor is the noise, at least -110 dB. */
  ghost predicate KeyAt(seen: seq<Column>, heard: seq<Level>, lifted: set<nat>, i: nat)
    requires i < |seen| == |heard|
  {
    var floor := if heard[i].noise < -110.0 then -110.0 else heard[i].noise;
    if 0 < i && seen[i - 1].on && i !in lifted
    then seen[i].on <==> floor + 12.5 <= heard[i].power
    else seen[i].on <==> floor + 16.0 <= heard[i].power
  }

  /** Every column follows from what was measured, and the latch shows the last one, unless the key
      has been lifted since. */
  ghost predicate Hysteresis(seen: seq<Column>, heard: seq<Level>, lifted: set<nat>, latchedOn: bool) {
    && |heard| == |seen| && (forall i :: i in lifted ==> i <= |seen|)
    && (forall i :: 0 <= i < |seen| ==> KeyAt(seen, heard, lifted, i))
    && (latchedOn <==> seen != [] && seen[|seen| - 1].on && |seen| !in lifted)
  }

  lemma NothingHeard()
    ensures Hysteresis([], [], {}, false)
  {
  }

  lemma LevelEnters(seen: seq<Column>, heard: seq<Level>, lifted: set<nat>, latchedOn: bool, col: Column, level: Level)
    requires Hysteresis(seen, heard, lifted, latchedOn) && col.on == TraceOn(level.power, level.noise, latchedOn)
    ensures Hysteresis(seen + [col], heard + [level], lifted, col.on)
  {
    forall i | 0 <= i < |seen + [col]| ensures KeyAt(seen + [col], heard + [level], lifted, i) {
      assert i < |seen| ==> KeyAt(seen, heard, lifted, i);
    }
  }

  lemma KeyLifted(seen: seq<Column>, heard: seq<Level>, lifted: set<nat>, latchedOn: bool)
    requires Hysteresis(seen, heard, lifted, latchedOn)
    ensures Hysteresis(seen, heard, lifted + {|seen|}, false)
  {
    forall i | 0 <= i < |seen| ensures KeyAt(seen, heard, lifted + {|seen|}, i) {
      assert KeyAt(seen, heard, lifted, i);
    }
  }

  /** What of a decoder the next column depends on: the columns so far and what was measured for them,
      the clock, the key, the speed, and the text; `gone` counts the sealed runs. */
  datatype Copy = Copy(seen: seq<Column>, heard: seq<Level>, lifted: set<nat>, consumed: nat, epoch: nat, columns: nat,
                       nowSec: real, latchedOn: bool, calibrated: bool, unit: real, text: string, sealedText: string,
                       gone: nat)

  /** A decoder that begins with a text. */
  function FreshCopy(text: string): Copy {
    Copy([], [], {}, 0, 0, 0, 0.0, false, false, START_UNIT, text, text, 0)
  }

  /** The time of the next column. */
  function TimeAfter(c: Copy, binWidth: real): real
    requires 1.0 < binWidth
  {
    if c.columns > 0 then c.nowSec + PeriodOf(binWidth) else c.nowSec
  }

  /** How far the scan may go with it. */
  function CursorAfter(c: Copy, binWidth: real): real
    requires 1.0 < binWidth
  {
    TimeAfter(c, binWidth) - LagOf(c.calibrated, c.unit)
  }

  class SpectrumDecoder {
    var text: string
    var sealedText: string
    var hist: seq<Column>
    var next: nat
    var done: seq<Run>
    var nowSec: real
    var haveState: bool
    var isOn: bool
    var sawMark: bool
    var stateStart: real
    var unit: real
    var calibrated: bool
    var columns: nat
    var columnSec: real
    var latchedOn: bool
    /** All columns since the timing was reset, how many of them are trimmed, where the present
        scan began, and the runs whose text is sealed. */
    ghost var seen: seq<Column>
    /** What was measured for them, and in front of which of them the key was lifted. */
    ghost var heard: seq<Level>
    ghost var lifted: set<nat>
    ghost var trimmed: nat
    ghost var epoch: nat
    ghost var gone: seq<Run>

    ghost predicate Valid()
      reads `seen, `nowSec, `columns, `hist, `next, `trimmed, `epoch, `gone, `done, `haveState, `isOn, `sawMark, `stateStart
      reads `heard, `lifted, `latchedOn
    {
      && Hysteresis(seen, heard, lifted, latchedOn)
      && Timeline(seen, nowSec, columns) && Window(seen, hist, next, trimmed, epoch)
      && Scanned(seen, epoch, trimmed + next, ScanNow())
    }

    lemma ValidParts()
      requires Valid()
      ensures Hysteresis(seen, heard, lifted, latchedOn) && Timeline(seen, nowSec, columns)
      ensures Window(seen, hist, next, trimmed, epoch) && Scanned(seen, epoch, trimmed + next, ScanNow())
    {
      hide Timeline, Window, Scanned, Hysteresis, ScanNow;
    }

    lemma ValidNow()
      requires Hysteresis(seen, heard, lifted, latchedOn) && Timeline(seen, nowSec, columns)
      requires Window(seen, hist, next, trimmed, epoch) && Scanned(seen, epoch, trimmed + next, ScanNow())
      ensures Valid()
    {
      hide Timeline, Window, Scanned, Hysteresis, ScanNow;
    }

    lemma ScanEmpty()
      requires !haveState && !isOn && !sawMark && gone == [] && done == []
      ensures ScanNow() == Scan(false, false, stateStart, false, [])
    {
      assert gone + done == [];
    }

    /** The scan state held in the fields. */
    ghost function ScanNow(): Scan
      reads `gone, `done, `haveState, `isOn, `sawMark, `stateStart
    {
      Scan(haveState, isOn, stateStart, sawMark, gone + done)
    }

    ghost function State(): Copy
      reads this
    {
      Copy(seen, heard, lifted, Consumed(), epoch, columns, nowSec, latchedOn, calibrated, unit, text, sealedText, |gone|)
    }

    /** How many columns have been consumed. */
    ghost function Consumed(): nat
      reads `trimmed, `next
    {
      trimmed + next
    }

    constructor ()
      ensures Valid() && State() == FreshCopy("")
    {
      hide Timeline, Window, Scanned, Hysteresis;
      text, sealedText, hist, next, done := "", "", [], 0, [];
      nowSec, haveState, isOn, sawMark, stateStart := 0.0, false, false, false, 0.0;
      unit, calibrated, columns, columnSec, latchedOn := START_UNIT, false, 0, START_COLUMN, false;
      seen, trimmed, epoch, gone, heard, lifted := [], 0, 0, [], [], {};
      NothingHeard();
      NothingSeen();
      NothingScanned([], 0, 0.0);
      new;
      assert gone + done == [];
    }

    /** The next column finds the key up. */
    method LiftKey()
      requires Valid()
      modifies `latchedOn, `lifted
      ensures Valid() && !latchedOn && lifted == old(lifted) + {|seen|}
    {
      hide *;
      ValidParts();
      KeyLifted(seen, heard, lifted, latchedOn);
      latchedOn, lifted := false, lifted + {|seen|};
      ValidNow();
    }

    /** The runs go, and a new scan begins where the old one stood. */
    method ForgetRuns()
      requires Valid()
      modifies `done, `sawMark, `haveState, `isOn, `epoch, `gone
      ensures Valid() && done == [] && gone == [] && epoch == Consumed() && !haveState
    {
      hide *;
      ValidParts();
      WindowParts(seen, hist, next, trimmed, epoch);
      NothingScanned(seen, trimmed + next, stateStart);
      ConsumedIs();
      done, sawMark, haveState, isOn := [], false, false, false;
      epoch, gone := trimmed + next, [];
      ScanEmpty();
      ValidNow();
    }

    /** `clearDecode`: the text and the runs go, and the key is lifted. */
    method ClearDecode()
      requires Valid()
      modifies `text, `sealedText, `done, `sawMark, `haveState, `isOn, `latchedOn, `epoch, `gone, `lifted
      ensures Valid() && text == "" && sealedText == "" && done == [] && epoch == Consumed() && !latchedOn
    {
      hide *;
      text, sealedText := "", "";
      ForgetRuns();
      LiftKey();
    }

    lemma ConsumedIs()
      ensures Consumed() == trimmed + next
    {
    }

    lemma FreshIsValid()
      requires hist == [] && next == 0 && done == [] && nowSec == 0.0 && columns == 0
      requires !haveState && !isOn && !sawMark && stateStart == 0.0
      requires seen == [] && trimmed == 0 && epoch == 0 && gone == [] && heard == [] && lifted == {} && !latchedOn
      ensures Valid()
    {
      hide Timeline, Window, Scanned, Hysteresis;
      NothingHeard();
      NothingSeen();
      NothingScanned([], 0, 0.0);
      assert gone + done == [];
    }

    /** The half of `resetTiming` that the scan depends on. */
    method RestartScan()
      modifies `hist, `next, `done, `nowSec, `haveState, `isOn, `sawMark, `stateStart, `columns, `seen, `trimmed, `epoch, `gone
      modifies `heard, `lifted, `latchedOn
      ensures Valid() && seen == [] && done == [] && gone == [] && trimmed + next == 0 && epoch == 0
      ensures columns == 0 && nowSec == 0.0 && heard == [] && lifted == {} && !latchedOn
    {
      hide *;
      RestartColumns();
      done, haveState, isOn, sawMark, stateStart, epoch, gone := [], false, false, false, 0.0, 0, [];
      FreshIsValid();
    }

    method RestartColumns()
      modifies `hist, `next, `nowSec, `columns, `seen, `trimmed, `heard, `lifted, `latchedOn
      ensures hist == [] && next == 0 && nowSec == 0.0 && columns == 0 && !latchedOn
      ensures seen == [] && trimmed == 0 && heard == [] && lifted == {}
    {
      hist, next, nowSec, columns, latchedOn := [], 0, 0.0, 0, false;
      seen, trimmed, heard, lifted := [], 0, [], {};
    }

    /** `resetTiming` */
    method ResetTiming()
      modifies this
      ensures Valid() && done == [] && State() == FreshCopy("").(text := old(text)) && columnSec == START_COLUMN
    {
      hide Valid;
      RestartScan();
      sealedText, unit, calibrated, columnSec := "", START_UNIT, false, START_COLUMN;
    }

    /** `adoptText` */
    method AdoptText(adopted: string)
      modifies this
      ensures Valid() && done == [] && State() == FreshCopy(adopted)
    {
      hide Timeline, Window, Scanned, Hysteresis;
      ResetTiming();
      sealedText, text := adopted, adopted;
    }

    /** One column enters the history. */
    method Append(now: real, power: real, noise: real)
      requires Valid() && (seen != [] ==> nowSec < now)
      modifies `hist, `nowSec, `columns, `seen, `heard, `latchedOn
      ensures Valid() && columns == old(columns) + 1 && nowSec == now
      ensures seen == old(seen) + [Column(now, latchedOn)] && heard == old(heard) + [Level(power, noise)]
    {
      hide *;
      ValidParts();
      var col := Column(now, TraceOn(power, noise, latchedOn));
      ColumnEnters(seen, hist, next, trimmed, epoch, col, nowSec, columns, ScanNow());
      LevelEnters(seen, heard, lifted, latchedOn, col, Level(power, noise));
      latchedOn := col.on;
      hist, nowSec, columns, seen := hist + [col], col.tSec, columns + 1, seen + [col];
      heard := heard + [Level(power, noise)];
      ValidNow();
    }

    /** Old columns that have been consumed are dropped. */
    method TrimHistory()
      requires Valid()
      modifies `hist, `next, `trimmed
      ensures Valid() && Consumed() == old(Consumed())
      ensures forall i :: old(trimmed) <= i < trimmed ==> i < |seen| && seen[i].tSec < nowSec - HISTORY
    {
      hide Timeline, Window, Scanned, Hysteresis;
      var keepBefore := nowSec - HISTORY;
      WindowParts(seen, hist, next, trimmed, epoch);
      while |hist| > 2 && next > 0 && hist[0].tSec < keepBefore
        invariant Window(seen, hist, next, trimmed, epoch)
        invariant trimmed + next == old(trimmed + next) && old(trimmed) <= trimmed <= trimmed + next <= |seen|
        invariant forall i :: old(trimmed) <= i < trimmed ==> seen[i].tSec < keepBefore
        decreases next
      {
        WindowParts(seen, hist, next, trimmed, epoch);
        hist, next, trimmed := hist[1..], next - 1, trimmed + 1;
      }
    }

    /** `pushRun` */
    method PushRun(on: bool, sec: real)
      modifies `done
      ensures done == old(done) + [Run(on, sec)]
    {
      done := done + [Run(on, sec)];
    }

    /** One column is consumed. */
    method ScanSample(sample: Column)
      modifies `done, `haveState, `isOn, `sawMark, `stateStart
      ensures forall s :: Same(s, old(ScanNow())) ==> Same(ScanColumn(s, sample), ScanNow())
    {
      if !haveState {
        haveState, isOn, stateStart, sawMark := true, sample.on, sample.tSec, sample.on;
      } else if sample.on != isOn {
        var dur := sample.tSec - stateStart;
        assert gone + (done + [Run(isOn, dur)]) == gone + done + [Run(isOn, dur)];
        if isOn {
          if dur >= LEAST_MARK {
            PushRun(true, dur);
            sawMark := true;
          }
        } else if sawMark && dur >= LEAST_MARK {
          PushRun(false, dur);
        }
        isOn, stateStart := sample.on, sample.tSec;
      }
    }

    method ConsumeNext()
      requires Valid() && next < |hist|
      modifies `next, `done, `haveState, `isOn, `sawMark, `stateStart
      ensures Valid() && next == old(next) + 1
    {
      hide Timeline, Window, Scanned, Hysteresis, Same, ScanColumn, ScanNow;
      WindowParts(seen, hist, next, trimmed, epoch);
      ghost var was := ScanNow();
      ScanSample(hist[next]);
      SampleEnters(seen, epoch, trimmed + next, was, ScanNow());
      next := next + 1;
    }

    /** Every column up to the cursor is consumed, once and in order. */
    method Consume(cursor: real)
      requires Valid()
      modifies `next, `done, `haveState, `isOn, `sawMark, `stateStart
      ensures Valid() && UpTo(old(Consumed()), cursor)
    {
      hide *;
      ghost var from := Consumed();
      ConsumedParts(from, cursor);
      while next < |hist| && hist[next].tSec <= cursor
        invariant Valid() && next <= |hist| && Before(seen, from, trimmed + next, cursor)
      {
        ConsumedParts(from, cursor);
        ConsumeNext();
        ConsumedParts(from, cursor);
      }
      ConsumedParts(from, cursor);
    }

    lemma ConsumedParts(from: nat, cursor: real)
      requires Valid()
      ensures Consumed() == trimmed + next <= |seen| && trimmed + |hist| == |seen|
      ensures from == Consumed() ==> Before(seen, from, trimmed + next, cursor)
      ensures Before(seen, from, trimmed + next, cursor) && next < |hist| && hist[next].tSec <= cursor ==>
                Before(seen, from, trimmed + (next + 1), cursor)
      ensures Before(seen, from, trimmed + next, cursor) && (next < |hist| ==> cursor < hist[next].tSec) ==> UpTo(from, cursor)
    {
      hide Timeline, Window, Scanned, Hysteresis, ScanNow, Beyond;
      WindowParts(seen, hist, next, trimmed, epoch);
      if from <= trimmed + next {
        BeforeNext(seen, from, trimmed + next, cursor);
      }
      if next < |hist| ==> cursor < hist[next].tSec {
        BeyondCursor(seen, nowSec, columns, trimmed + next, cursor);
      }
    }

    /** What was consumed since the first `from` columns is exactly what lies up to the cursor. */
    ghost predicate UpTo(from: nat, cursor: real)
      reads `seen, `trimmed, `next
    {
      Before(seen, from, Consumed(), cursor) && Beyond(seen, Consumed(), cursor)
    }

    /** `sealOldest` */
    method SealOldest()
      modifies `done, `sealedText, `gone
      ensures gone + done == old(gone + done)
      ensures done == LeftNow(old(done), columnSec)
      ensures sealedText == old(sealedText) + SealedNow(old(done), columnSec)
    {
      hide Measure, DecodeRuns;
      assert sealedText + "" == sealedText && done[0..] == done;
      if |done| <= SEAL_ABOVE {
        return;
      }
      var timing := MeasureRuns(done, columnSec);
      if !timing.ok {
        return;
      }
      var cut := FindCut(timing);
      assert cut == SealAt(done, columnSec);
      if cut < 0 {
        return;
      }
      hide SealAt;
      var old_ := done[..cut + 1];
      assert gone + old_ + done[cut + 1..] == gone + done;
      gone := gone + old_;
      done := done[cut + 1..];
      var sealing := Decode(old_, timing);
      sealedText := sealedText + sealing;
    }

    method FindCut(timing: Timing) returns (cut: int)
      requires SEAL_ABOVE < |done|
      ensures cut == LastCut(done, timing.letterCut, |done| / 2)
    {
      cut := -1;
      var limit := |done| / 2;
      for i := SEAL_FROM to limit
        invariant cut == LastCut(done, timing.letterCut, i)
      {
        if !done[i].on && done[i].sec >= timing.letterCut {
          cut := i;
        }
      }
    }

    /** The runs to show: those found, and the space still open at the cursor. */
    function View(cursor: real): seq<Run>
      reads `done, `haveState, `isOn, `sawMark, `stateStart
    {
      if haveState && !isOn && sawMark && cursor - stateStart >= LEAST_MARK
      then done + [Run(false, cursor - stateStart)] else done
    }

    /** `setText` */
    method SetText(shown: string)
      modifies `text, `sealedText
      ensures text == TextAfter(old(text), shown) && sealedText == SealedAfter(old(text), old(sealedText), shown)
    {
      if shown == text {
        return;
      }
      text := shown;
      if |text| > TEXT_CAP {
        var drop := |text| - TEXT_KEPT;
        text := text[drop..];
        if |sealedText| >= drop {
          sealedText := sealedText[drop..];
        } else {
          sealedText := "";
        }
      }
    }

    lemma ClockAdvances(binWidth: real)
      requires Valid() && 1.0 < binWidth
      ensures seen != [] ==> nowSec < TimeAfter(State(), binWidth)
    {
      hide Window, Scanned, Hysteresis, PeriodOf;
    }

    /** From the text, the sealed text and the runs that waited: without a timing only sealing goes
        on; with one the sealed text and what the runs in view say are shown. */
    ghost predicate Told(before: string, sealedBefore: string, waiting: seq<Run>, cursor: real)
      reads `text, `sealedText, `columnSec, `done, `haveState, `isOn, `sawMark, `stateStart
    {
      var sealed := sealedBefore + SealedNow(waiting, columnSec);
      var timing := Measure(done, columnSec);
      var shown := sealed + DecodeRuns(View(cursor), timing);
      && done == LeftNow(waiting, columnSec)
      && text == (if timing.ok then TextAfter(before, shown) else before)
      && sealedText == (if timing.ok then SealedAfter(before, sealed, shown) else sealed)
    }

    /** How a measurement moves the speed. */
    ghost predicate Paced(calibratedBefore: bool, unitBefore: real)
      reads `done, `columnSec, `unit, `calibrated
    {
      var timing := Measure(done, columnSec);
      if timing.ok
      then calibrated && unit == if calibratedBefore then 0.85 * unitBefore + 0.15 * timing.dit else timing.dit
      else unit == unitBefore && calibrated == calibratedBefore
    }

    /** `publish` */
    method Publish(cursor: real)
      requires Valid()
      modifies `text, `sealedText, `done, `gone, `unit, `calibrated
      ensures Valid() && gone + done == old(gone + done)
      ensures Told(old(text), old(sealedText), old(done), cursor)
      ensures Paced(old(calibrated), old(unit))
    {
      hide Measure, DecodeRuns, LeftNow, SealedNow, TextAfter, SealedAfter, Timeline, Window, Scanned, Hysteresis, View;
      SealOldest();
      var timing := MeasureRuns(done, columnSec);
      if !timing.ok {
        return;
      }
      Pace(timing);
      PublishText(cursor, timing);
    }

    /** The measured dit moves the speed. */
    method Pace(timing: Timing)
      modifies `unit, `calibrated
      ensures calibrated && unit == if old(calibrated) then 0.85 * old(unit) + 0.15 * timing.dit else timing.dit
    {
      if !calibrated {
        unit, calibrated := timing.dit, true;
      } else {
        unit := 0.85 * unit + 0.15 * timing.dit;
      }
    }

    method PublishText(cursor: real, timing: Timing)
      modifies `text, `sealedText
      ensures var shown := old(sealedText) + DecodeRuns(View(cursor), timing);
              text == TextAfter(old(text), shown) && sealedText == SealedAfter(old(text), old(sealedText), shown)
    {
      hide DecodeRuns, TextAfter, SealedAfter;
      var view := done;
      if haveState && !isOn && sawMark {
        var gap := cursor - stateStart;
        if gap >= LEAST_MARK {
          view := view + [Run(false, gap)];
        }
      }
      var tail := Decode(view, timing);
      SetText(sealedText + tail);
    }

    /** The runs behind the first `n` sealed ones. */
    ghost function RunsBehind(n: nat): seq<Run>
      reads `gone, `done
      requires n <= |gone + done|
    {
      (gone + done)[n..]
    }

    /** The part of `feedColumn` in front of `publish`. */
    method TakeColumn(power: real, noise: real, binWidth: real) returns (cursor: real)
      requires Valid() && 1.0 < binWidth
      modifies `hist, `next, `done, `nowSec, `haveState, `isOn, `sawMark, `stateStart, `columns, `columnSec, `latchedOn,
               `seen, `heard, `trimmed
      ensures Valid() && cursor == old(CursorAfter(State(), binWidth))
      ensures seen == old(seen) + [Column(old(TimeAfter(State(), binWidth)), latchedOn)]
      ensures heard == old(heard) + [Level(power, noise)]
      ensures UpTo(old(Consumed()), cursor)
      ensures columnSec == PeriodOf(binWidth)
      ensures nowSec == old(TimeAfter(State(), binWidth)) && columns == old(columns) + 1
    {
      hide *;
      TimeParts(binWidth);
      ClockAdvances(binWidth);
      var now := if columns > 0 then nowSec + PeriodOf(binWidth) else nowSec;
      columnSec := PeriodOf(binWidth);
      cursor := now - LagOf(calibrated, unit);
      Append(now, power, noise);
      TrimHistory();
      Consume(cursor);
    }

    lemma TimeParts(binWidth: real)
      requires 1.0 < binWidth
      ensures TimeAfter(State(), binWidth) == if columns > 0 then nowSec + PeriodOf(binWidth) else nowSec
      ensures CursorAfter(State(), binWidth) == TimeAfter(State(), binWidth) - LagOf(calibrated, unit)
      ensures State().consumed == Consumed() && State().gone == |gone| && State().text == text
      ensures State().sealedText == sealedText && State().calibrated == calibrated && State().unit == unit
      ensures State().heard == heard && State().lifted == lifted
      ensures State().seen == seen && State().latchedOn == latchedOn && State().columns == columns && State().epoch == epoch
    {
      hide PeriodOf, LagOf;
    }

    /** What one column has made of a decoder that was `c`: columns that are too narrow or without a
        power change nothing; otherwise the column joins the others, on or off as `Valid` says of
        what was measured for it, exactly those up to the cursor are consumed, and text and speed
        follow from the runs that wait and those just found. */
    ghost predicate Fed(c: Copy, power: real, finite: bool, noise: real, binWidth: real)
      reads this
    {
      if binWidth <= 1.0 || !finite then State() == c
      else
        && epoch == c.epoch && columns == c.columns + 1 && nowSec == TimeAfter(c, binWidth)
        && seen == c.seen + [Column(TimeAfter(c, binWidth), latchedOn)]
        && heard == c.heard + [Level(power, noise)] && lifted == c.lifted
        && UpTo(c.consumed, CursorAfter(c, binWidth))
        && c.gone <= |gone + done|
        && Told(c.text, c.sealedText, RunsBehind(c.gone), CursorAfter(c, binWidth))
        && Paced(c.calibrated, c.unit)
        && columnSec == PeriodOf(binWidth)
    }

    /** `feedColumn`; `finite` tells whether the source's power is. */
    method FeedColumn(power: real, finite: bool, noise: real, binWidth: real)
      requires Valid()
      modifies this
      ensures Valid() && Fed(old(State()), power, finite, noise, binWidth)
    {
      hide *;
      if binWidth <= 1.0 || !finite {
        NotFed(power, finite, noise, binWidth);
        return;
      }
      ghost var c := State();
      TimeParts(binWidth);
      var cursor := TakeColumn(power, noise, binWidth);
      WaitingBehind(gone, done);
      Publish(cursor);
      BehindIs(c.gone);
      FedIs(c, power, noise, binWidth);
    }

    lemma NotFed(power: real, finite: bool, noise: real, binWidth: real)
      requires binWidth <= 1.0 || !finite
      ensures Fed(State(), power, finite, noise, binWidth)
    {
      hide State, UpTo, Told, Paced;
    }

    lemma FedIs(c: Copy, power: real, noise: real, binWidth: real)
      requires 1.0 < binWidth
      requires epoch == c.epoch && columns == c.columns + 1 && nowSec == TimeAfter(c, binWidth)
      requires seen == c.seen + [Column(TimeAfter(c, binWidth), latchedOn)]
      requires heard == c.heard + [Level(power, noise)] && lifted == c.lifted
      requires UpTo(c.consumed, CursorAfter(c, binWidth))
      requires c.gone <= |gone + done| && Told(c.text, c.sealedText, RunsBehind(c.gone), CursorAfter(c, binWidth))
      requires Paced(c.calibrated, c.unit)
      requires columnSec == PeriodOf(binWidth)
      ensures Fed(c, power, true, noise, binWidth)
    {
      hide UpTo, Told, Paced, RunsBehind, PeriodOf, TimeAfter, CursorAfter, State;
    }

    lemma BehindIs(n: nat)
      ensures n <= |gone + done| ==> RunsBehind(n) == (gone + done)[n..]
    {
    }
  }
}
