/** Measuring and decoding together: a text keyed in exact units of `u` seconds is timed from its
    own runs and comes back, and exactly when. */
module SpectrumKeying {
  import opened RealNumbers
  import opened Morse
  import opened Keying
  import opened SpectrumRuns
  import opened SpectrumTiming
  import opened Sorting

  /** The runs of an evenly keyed text. */
  function Timed(tones: seq<Tone>, u: real): (runs: seq<Run>)
    ensures |runs| == |tones|
  {
    seq(|tones|, i requires 0 <= i < |tones| => Run(tones[i].on, tones[i].units as real * u))
  }

  /** How many of the first `n` tones are marks of `units`. */
  function MarkCount(tones: seq<Tone>, n: nat, units: nat): (count: nat)
    requires n <= |tones|
  {
    if n == 0 then 0 else
      MarkCount(tones, n - 1, units) + (if tones[n - 1] == Tone(true, units) then 1 else 0)
  }

  function Dits(text: string): nat
    requires WellSpaced(text)
  {
    MarkCount(Keyed(text, |text|), |Keyed(text, |text|)|, 1)
  }

  function Dahs(text: string): nat
    requires WellSpaced(text)
  {
    MarkCount(Keyed(text, |text|), |Keyed(text, |text|)|, 3)
  }

  /** A dit of `u` seconds that the columns can resolve and the decoder admits. */
  predicate Speed(u: real, quantum: real) {
    0.0 < quantum && 3.0 * quantum <= 2.0 * u && 0.020 <= u && 3.0 * u < LONGEST
  }

  // ---------------------------------------------------------------- lengths

  ghost predicate Among(vals: seq<real>, u: real, three: bool) {
    forall i :: 0 <= i < |vals| ==> vals[i] == u || vals[i] == 3.0 * u || (three && vals[i] == 7.0 * u)
  }

  lemma MarkKept(tone: Tone, u: real)
    requires Keyable(tone) && 0.020 <= u && 3.0 * u < LONGEST
    ensures Measurable(Run(tone.on, tone.units as real * u), true) <==> tone.on
    ensures tone.on ==> (tone.units == 1 && tone.units as real * u == u)
                        || (tone.units == 3 && tone.units as real * u == 3.0 * u)
  {
  }

  /** A list of marks of one and three units, so many of each. */
  ghost predicate MarksSay(m: seq<real>, u: real, ones: nat, threes: nat) {
    Among(m, u, false) && |m| == ones + threes && NumOf(m, |m|, u) == ones
  }

  lemma MarksSayNext(m: seq<real>, sec: real, u: real, ones: nat, threes: nat)
    requires MarksSay(m, u, ones, threes) && 0.0 < u
    ensures sec == u ==> MarksSay(m + [sec], u, ones + 1, threes)
    ensures sec == 3.0 * u ==> MarksSay(m + [sec], u, ones, threes + 1)
  {
    NumOfPrefix(m, [sec], |m|, u);
  }

  lemma MarkCountNext(tones: seq<Tone>, n: nat, units: nat)
    requires 0 < n <= |tones|
    ensures MarkCount(tones, n, units)
         == MarkCount(tones, n - 1, units) + (if tones[n - 1].on && tones[n - 1].units == units then 1 else 0)
  {
  }

  lemma LengthsNext(runs: seq<Run>, on: bool, n: nat)
    requires 0 < n <= |runs|
    ensures Lengths(runs, on, n)
         == if Measurable(runs[n - 1], on) then Lengths(runs, on, n - 1) + [runs[n - 1].sec] else Lengths(runs, on, n - 1)
  {
  }

  lemma NoneTimed(tones: seq<Tone>, u: real)
    ensures MarksSay(Lengths(Timed(tones, u), true, 0), u, MarkCount(tones, 0, 1), MarkCount(tones, 0, 3))
  {
  }

  lemma SomeMark(tone: Tone)
    requires Keyable(tone)
    ensures tone.on ==> tone.units == 1 || tone.units == 3
  {
  }

  lemma {:induction false} TimedMarks(tones: seq<Tone>, u: real, n: nat)
    requires n <= |tones| && 0.020 <= u && 3.0 * u < LONGEST
    requires forall i :: 0 <= i < n ==> Keyable(tones[i])
    ensures MarksSay(Lengths(Timed(tones, u), true, n), u, MarkCount(tones, n, 1), MarkCount(tones, n, 3))
  {
    hide *;
    if 0 < n {
      TimedMarks(tones, u, n - 1);
      LengthsNext(Timed(tones, u), true, n);
      TimedAt(tones, u, n - 1);
      assert Keyable(tones[n - 1]);
      MarkKept(tones[n - 1], u);
      SomeMark(tones[n - 1]);
      MarkCountNext(tones, n, 1);
      MarkCountNext(tones, n, 3);
      MarksSayNext(Lengths(Timed(tones, u), true, n - 1), Timed(tones, u)[n - 1].sec, u,
                   MarkCount(tones, n - 1, 1), MarkCount(tones, n - 1, 3));
    } else {
      NoneTimed(tones, u);
    }
  }

  lemma TimedAt(tones: seq<Tone>, u: real, i: nat)
    requires i < |tones|
    ensures Timed(tones, u)[i] == Run(tones[i].on, tones[i].units as real * u)
  {
  }

  lemma {:induction false} TimedGaps(tones: seq<Tone>, u: real, n: nat)
    requires n <= |tones|
    requires forall i :: 0 <= i < n ==> Keyable(tones[i])
    ensures Among(Lengths(Timed(tones, u), false, n), u, true)
  {
    if 0 < n {
      hide Timed;
      TimedGaps(tones, u, n - 1);
      TimedAt(tones, u, n - 1);
      assert Keyable(tones[n - 1]);
    }
  }

  // ---------------------------------------------------------------- bins

  lemma RoundNear(x: real)
    requires 0.0 <= x
    ensures x - 0.5 < Round(x) as real <= x + 0.5
  {
  }

  lemma Times(k: real, u: real, quantum: real)
    requires quantum > 0.0
    ensures k * u / quantum == k * (u / quantum)
  {
  }

  lemma BinNear(k: real, u: real, quantum: real)
    requires quantum > 0.0 && 1.5 <= u / quantum && 1.0 <= k
    ensures k * (u / quantum) - 0.5 < BinOf(k * u, quantum) as real <= k * (u / quantum) + 0.5
  {
    Times(k, u, quantum);
    var x := u / quantum;
    assert k * x >= 1.5;
    RoundNear(k * x);
  }

  /** Bins of the three lengths, in units `x` of the column period. */
  lemma UnitBins(u: real, quantum: real)
    requires Speed(u, quantum)
    ensures 1.5 <= u / quantum
    ensures var x, a, b, c := u / quantum, BinOf(u, quantum), BinOf(3.0 * u, quantum), BinOf(7.0 * u, quantum);
            && x - 0.5 < a as real <= x + 0.5
            && 3.0 * x - 0.5 < b as real <= 3.0 * x + 0.5
            && 7.0 * x - 0.5 < c as real <= 7.0 * x + 0.5
  {
    hide BinOf;
    Quotient(u, quantum);
    assert 1.0 * u == u && 1.0 * (u / quantum) == u / quantum;
    BinNear(1.0, u, quantum);
    BinNear(3.0, u, quantum);
    BinNear(7.0, u, quantum);
  }

  lemma Quotient(u: real, quantum: real)
    requires Speed(u, quantum)
    ensures 1.5 <= u / quantum
  {
    assert u / quantum * quantum == u;
  }

  /** Dit and dah bins are apart and in the admitted ratio; spaces too. */
  lemma BinsApart(u: real, quantum: real)
    requires Speed(u, quantum)
    ensures var a, b, c := BinOf(u, quantum), BinOf(3.0 * u, quantum), BinOf(7.0 * u, quantum);
            1 <= a && a + 1 < b && b + 1 < c && 2 * b < a + c && DahRatio(a, b)
  {
    hide BinOf;
    UnitBins(u, quantum);
  }

  // ---------------------------------------------------------------- counting

  lemma {:induction false} CountOne(vals: seq<real>, u: real, quantum: real, n: nat, b: nat)
    requires n <= |vals| && Speed(u, quantum) && Among(vals, u, false)
    ensures Count(vals, quantum, n, b)
         == if b == BinOf(u, quantum) then NumOf(vals, n, u)
            else if b == BinOf(3.0 * u, quantum) then n - NumOf(vals, n, u) else 0
  {
    hide BinOf;
    BinsApart(u, quantum);
    if 0 < n {
      CountOne(vals, u, quantum, n - 1, b);
    }
  }

  /** The histogram of evenly keyed marks has two occupied bins at most, with an empty bin between. */
  lemma MarkBins(marks: seq<real>, u: real, quantum: real, b: nat)
    requires Speed(u, quantum) && Among(marks, u, false)
    ensures BinAt(HistogramOf(marks, quantum), b).count
         == if b == BinOf(u, quantum) then NumOf(marks, |marks|, u)
            else if b == BinOf(3.0 * u, quantum) then |marks| - NumOf(marks, |marks|, u) else 0
  {
    hide BinOf, Histogram, BinAt, Count;
    HistogramSays(marks, quantum, |marks|, b);
    CountOne(marks, u, quantum, |marks|, b);
  }

  /** A dit (dah) peak stands where there are enough dits (dahs). */
  lemma MarkPeaks(marks: seq<real>, u: real, quantum: real, least: nat, k: nat)
    requires Speed(u, quantum) && Among(marks, u, false) && 0 < least
    ensures IsPeak(HistogramOf(marks, quantum), least, k) <==>
            (k == BinOf(u, quantum) && least <= NumOf(marks, |marks|, u))
            || (k == BinOf(3.0 * u, quantum) && least <= |marks| - NumOf(marks, |marks|, u))
  {
    hide BinOf, HistogramOf, DahRatio, Among, Speed;
    BinsApart(u, quantum);
    MarkBins(marks, u, quantum, k);
    MarkBins(marks, u, quantum, k + 1);
    if 0 < k {
      MarkBins(marks, u, quantum, k - 1);
    }
  }

  lemma InHistogram(hist: seq<LengthBin>, least: nat, k: nat)
    requires 0 < least && IsPeak(hist, least, k)
    ensures k < |hist|
  {
  }

  predicate BothPeaks(marks: seq<real>, u: real) {
    var nd, least := NumOf(marks, |marks|, u), Threshold(|marks|);
    least <= nd && least <= |marks| - nd
  }

  lemma PairFound(marks: seq<real>, u: real, quantum: real)
    requires Speed(u, quantum) && Among(marks, u, false) && BothPeaks(marks, u) && quantum > 0.0
    ensures var p := PairOf(marks, quantum); p.Pair? && p.dit == BinOf(u, quantum) && p.dah == BinOf(3.0 * u, quantum)
  {
    hide BinOf, HistogramOf, Speed, IsPeak, Peaks, BestPair, Threshold, Among, DahRatio;
    var hist, least := HistogramOf(marks, quantum), Threshold(|marks|);
    var a, b := BinOf(u, quantum), BinOf(3.0 * u, quantum);
    BinsApart(u, quantum);
    MarkPeaks(marks, u, quantum, least, a);
    MarkPeaks(marks, u, quantum, least, b);
    InHistogram(hist, least, a);
    InHistogram(hist, least, b);
    PeaksAreMaxima(hist, |marks|, a);
    PeaksAreMaxima(hist, |marks|, b);
    var peaks := Peaks(hist, |marks|);
    forall k | k in peaks ensures k == a || k == b {
      MarkPeaks(marks, u, quantum, least, k);
    }
    BestPairSays(peaks, |peaks|);
    OnlyPair(peaks, BestPair(peaks, |peaks|), a, b);
  }

  lemma OnlyPair(peaks: seq<nat>, best: Pair, a: nat, b: nat)
    requires PairSays(best, peaks, |peaks|, 0) && a in peaks && b in peaks && DahRatio(a, b)
    requires forall k :: k in peaks ==> k == a || k == b
    ensures best.Pair? && best.dit == a && best.dah == b
  {
    hide Skew;
    var i :| 0 <= i < |peaks| && peaks[i] == a;
    var j :| 0 <= j < |peaks| && peaks[j] == b;
    assert Tried(i, j, |peaks|, 0);
  }

  lemma {:induction false} NoPeaks(hist: seq<LengthBin>, least: nat, n: nat)
    requires n <= |hist| && forall k :: 0 <= k < n ==> !IsPeak(hist, least, k)
    ensures PeaksTo(hist, least, n) == []
  {
    hide IsPeak;
    if 0 < n {
      NoPeaks(hist, least, n - 1);
    }
  }

  lemma SinglePeak(hist: seq<LengthBin>, total: nat)
    requires forall k :: 0 <= k < |hist| ==> !IsPeak(hist, Threshold(total), k)
    ensures |Peaks(hist, total)| <= 1
  {
    hide IsPeak, Threshold, Fullest;
    NoPeaks(hist, Threshold(total), |hist|);
  }

  lemma PairMissing(marks: seq<real>, u: real, quantum: real)
    requires Speed(u, quantum) && Among(marks, u, false) && !BothPeaks(marks, u) && marks != [] && quantum > 0.0
    ensures PairOf(marks, quantum).NoPair?
  {
    hide BinOf, HistogramOf, Speed, IsPeak, Peaks, BestPair, Threshold, Among;
    var hist, least := HistogramOf(marks, quantum), Threshold(|marks|);
    var peaks := Peaks(hist, |marks|);
    BestPairSays(peaks, |peaks|);
    if k: nat :| k < |hist| && IsPeak(hist, least, k) {
      PeaksAreMaxima(hist, |marks|, k);
      MarkPeaks(marks, u, quantum, least, k);
      forall i | i in peaks ensures i == k {
        MarkPeaks(marks, u, quantum, least, i);
      }
    } else {
      SinglePeak(hist, |marks|);
    }
  }

  // ---------------------------------------------------------------- medians

  /** The median tells which of the two kinds is in the majority. */
  lemma MedianTwo(vals: seq<real>, u: real)
    requires vals != [] && Among(vals, u, false) && 0.0 < u
    ensures var nd := NumOf(vals, |vals|, u);
            MedianOf(vals) == if 2 * nd > |vals| then u else if 2 * nd < |vals| then 3.0 * u else 2.0 * u
  {
    hide Sorted, NumOf;
    SortedTwo(vals, u, |vals|);
  }

  // ---------------------------------------------------------------- the measured cuts

  /** Every length of the list is `c`. */
  predicate Constant(vals: seq<real>, c: real) {
    vals != [] && forall i :: 0 <= i < |vals| ==> vals[i] == c
  }

  lemma {:induction false} NumOfConstant(vals: seq<real>, c: real, n: nat)
    requires n <= |vals| && Constant(vals, c)
    ensures NumOf(vals, n, c) == n
  {
    if 0 < n {
      NumOfConstant(vals, c, n - 1);
    }
  }

  lemma ConstantCluster(vals: seq<real>, c: real)
    requires Constant(vals, c) && 0.0 < c
    ensures MedianOf(vals) == c && Greatest(vals, |vals|) == c && Least(vals, |vals|) == c
  {
    hide MedianOf;
    NumOfConstant(vals, c, |vals|);
    MedianTwo(vals, c);
    GreatestSays(vals, |vals|);
    LeastSays(vals, |vals|);
  }

  lemma {:induction false} HasOne(vals: seq<real>, v: real, n: nat)
    requires n <= |vals| && 0 < NumOf(vals, n, v)
    ensures v in vals
  {
    if vals[n - 1] != v {
      HasOne(vals, v, n - 1);
    }
  }

  lemma {:induction false} HasOther(vals: seq<real>, u: real, n: nat)
    requires n <= |vals| && NumOf(vals, n, u) < n && Among(vals, u, false)
    ensures 3.0 * u in vals
  {
    if vals[n - 1] == u {
      HasOther(vals, u, n - 1);
    }
  }

  lemma Sides(u: real, quantum: real)
    requires Speed(u, quantum) && quantum > 0.0
    ensures var v2 := BinOf(u, quantum) + BinOf(3.0 * u, quantum);
            && OnSide(u, quantum, v2, true) && !OnSide(u, quantum, v2, false)
            && OnSide(3.0 * u, quantum, v2, false) && !OnSide(3.0 * u, quantum, v2, true)
  {
    hide BinOf, DahRatio;
    BinsApart(u, quantum);
  }

  lemma AllConstant(vals: seq<real>, c: real)
    requires c in vals && forall v :: v in vals ==> v == c
    ensures Constant(vals, c)
  {
    forall i | 0 <= i < |vals| ensures vals[i] == c {
      assert vals[i] in vals;
    }
  }

  lemma Clusters(marks: seq<real>, u: real, quantum: real)
    requires Speed(u, quantum) && quantum > 0.0 && Among(marks, u, false)
    requires 0 < NumOf(marks, |marks|, u) < |marks|
    ensures var v2 := BinOf(u, quantum) + BinOf(3.0 * u, quantum);
            && Constant(Side(marks, quantum, v2, true, |marks|), u)
            && Constant(Side(marks, quantum, v2, false, |marks|), 3.0 * u)
  {
    hide BinOf, OnSide, Speed, NumOf, Side;
    Sides(u, quantum);
    HasOne(marks, u, |marks|);
    HasOther(marks, u, |marks|);
    var v2 := BinOf(u, quantum) + BinOf(3.0 * u, quantum);
    assert marks[..|marks|] == marks;
    SideSays(marks, quantum, v2, true, |marks|);
    SideSays(marks, quantum, v2, false, |marks|);
    AllConstant(Side(marks, quantum, v2, true, |marks|), u);
    AllConstant(Side(marks, quantum, v2, false, |marks|), 3.0 * u);
  }

  /** The dit and the cut found in evenly keyed marks. */
  lemma MeasuredMarks(marks: seq<real>, u: real, quantum: real)
    requires Speed(u, quantum) && quantum > 0.0 && 0.0 < u && Among(marks, u, false) && marks != []
    ensures var nd := NumOf(marks, |marks|, u);
            var (dit, dahCut) := MarkCuts(marks, quantum, PairOf(marks, quantum));
            && (BothPeaks(marks, u) || 2 * nd > |marks| ==> dit == u && dahCut == 2.0 * u)
            && (!BothPeaks(marks, u) && 2 * nd <= |marks| ==> 4.0 * u <= dahCut)
  {
    hide Speed, Among, NumOf, BinOf, Side, MedianOf, PairOf, Threshold, Constant, Greatest, Least;
    if BothPeaks(marks, u) {
      PairFound(marks, u, quantum);
      Clusters(marks, u, quantum);
      var v2 := BinOf(u, quantum) + BinOf(3.0 * u, quantum);
      Unempty(Side(marks, quantum, v2, true, |marks|), u);
      Unempty(Side(marks, quantum, v2, false, |marks|), 3.0 * u);
      ConstantCluster(Side(marks, quantum, v2, true, |marks|), u);
      ConstantCluster(Side(marks, quantum, v2, false, |marks|), 3.0 * u);
    } else {
      PairMissing(marks, u, quantum);
      MedianTwo(marks, u);
    }
  }

  lemma Unempty(vals: seq<real>, c: real)
    requires Constant(vals, c)
    ensures vals != []
  {
  }

  // ---------------------------------------------------------------- the space cuts

  ghost predicate SlotIs(slot: LengthBin, v: real) {
    slot.lo == v && slot.hi == v
  }

  ghost predicate GapSlot(slot: LengthBin, b: int, u: real, quantum: real)
    requires quantum > 0.0
  {
    0 < slot.count ==>
      || (b == BinOf(u, quantum) && SlotIs(slot, u))
      || (b == BinOf(3.0 * u, quantum) && SlotIs(slot, 3.0 * u))
      || (b == BinOf(7.0 * u, quantum) && SlotIs(slot, 7.0 * u))
  }

  /** The histogram of evenly keyed spaces: each occupied bin holds one length only. */
  lemma GapSlots(gaps: seq<real>, u: real, quantum: real, b: nat)
    requires Speed(u, quantum) && quantum > 0.0 && Among(gaps, u, true)
    ensures GapSlot(BinAt(HistogramOf(gaps, quantum), b), b, u, quantum)
  {
    hide BinOf, Histogram, DahRatio, Speed;
    BinsApart(u, quantum);
    HistogramSays(gaps, quantum, |gaps|, b);
  }

  /** Where the units of the three spaces lie among the admitted ranges. */
  lemma SpaceUnits(u: real, quantum: real)
    requires Speed(u, quantum) && quantum > 0.0 && u > 0.0
    ensures 0.22 <= Units(BinOf(u, quantum), quantum, u) <= 1.4
    ensures 1.8 < Units(BinOf(3.0 * u, quantum), quantum, u) < 3.8
    ensures 4.6 < Units(BinOf(7.0 * u, quantum), quantum, u) <= 14.0
  {
    hide *;
    SpaceUnit(1.0, u, u, quantum);
    SpaceUnit(3.0, 3.0 * u, u, quantum);
    SpaceUnit(7.0, 7.0 * u, u, quantum);
  }

  lemma SpaceUnit(k: real, space: real, u: real, quantum: real)
    requires Speed(u, quantum) && quantum > 0.0 && u > 0.0 && 1.0 <= k && space == k * u
    ensures k - 0.34 < Units(BinOf(space, quantum), quantum, u) < k + 0.34
  {
    hide BinOf;
    Quotient(u, quantum);
    BinNear(k, u, quantum);
    UnitsOf(BinOf(k * u, quantum), u, quantum, k);
  }

  lemma UnitsOf(bin: nat, u: real, quantum: real, k: real)
    requires quantum > 0.0 && u > 0.0 && 1.5 <= u / quantum
    requires k * (u / quantum) - 0.5 < bin as real <= k * (u / quantum) + 0.5
    ensures k - 0.34 < Units(bin, quantum, u) < k + 0.34
  {
    var x := u / quantum;
    var y := bin as real * quantum / u;
    assert y * x == bin as real by { Cancel(bin as real, quantum, u); }
    assert (y - k) * x <= 0.5;
    assert (k - y) * x <= 0.5;
    Small(y - k, x);
    Small(k - y, x);
  }

  lemma Cancel(b: real, quantum: real, u: real)
    requires quantum > 0.0 && u > 0.0
    ensures b * quantum / u * (u / quantum) == b
  {
    var y := b * quantum / u;
    assert y * u == b * quantum;
    var x := u / quantum;
    assert x * quantum == u;
    assert y * x * quantum == b * quantum;
  }

  lemma Small(d: real, x: real)
    requires 1.5 <= x && d * x <= 0.5
    ensures d < 0.34
  {
    if 0.0 < d {
      assert d * 1.5 <= d * x;
    }
  }

  predicate SpaceBins(g: GapBins, u: real, quantum: real)
    requires quantum > 0.0
  {
    && (g.element == -1 || g.element == BinOf(u, quantum))
    && (g.letter == -1 || g.letter == BinOf(3.0 * u, quantum))
    && (g.word == -1 || g.word == BinOf(7.0 * u, quantum))
  }

  lemma PlaceSpace(g: GapBins, bin: nat, u: real, quantum: real)
    requires Speed(u, quantum) && quantum > 0.0 && u > 0.0 && SpaceBins(g, u, quantum)
    requires bin == BinOf(u, quantum) || bin == BinOf(3.0 * u, quantum) || bin == BinOf(7.0 * u, quantum)
    ensures SpaceBins(PlaceGap(g, bin, quantum, u), u, quantum)
    ensures var h := PlaceGap(g, bin, quantum, u);
            && (h.element == g.element || h.element == bin)
            && (h.letter == g.letter || h.letter == bin)
            && (h.word == g.word || h.word == bin)
  {
    hide BinOf, Speed, DahRatio, Units;
    SpaceUnits(u, quantum);
    BinsApart(u, quantum);
  }

  ghost predicate Occupied(hist: seq<LengthBin>, b: int) {
    0 <= b ==> b < |hist| && 0 < hist[b].count
  }

  lemma {:induction false} PlaceSpaces(hist: seq<LengthBin>, peaks: seq<nat>, u: real, quantum: real, n: nat)
    requires n <= |peaks| && Speed(u, quantum) && quantum > 0.0 && u > 0.0
    requires forall b: nat :: GapSlot(BinAt(hist, b), b, u, quantum)
    requires forall k :: k in peaks ==> k < |hist| && 0 < hist[k].count
    ensures var g := PlaceGaps(peaks, quantum, u, n);
            SpaceBins(g, u, quantum) && Occupied(hist, g.element) && Occupied(hist, g.letter) && Occupied(hist, g.word)
  {
    hide BinOf, Speed, PlaceGap, SpaceBins;
    if 0 < n {
      PlaceSpaces(hist, peaks, u, quantum, n - 1);
      var bin := peaks[n - 1];
      assert bin in peaks;
      assert GapSlot(BinAt(hist, bin), bin, u, quantum);
      PlaceSpace(PlaceGaps(peaks, quantum, u, n - 1), bin, u, quantum);
    } else {
      NoSpaces(u, quantum);
    }
  }

  lemma NoSpaces(u: real, quantum: real)
    requires quantum > 0.0
    ensures SpaceBins(GapBins(-1, -1, -1), u, quantum)
  {
  }

  lemma {:induction false} LongestIs(hist: seq<LengthBin>, mid2: int, n: nat, atMost: real)
    requires n <= |hist| && -1.0 <= atMost
    requires forall b :: 0 <= b < n && 0 < hist[b].count && 2 * b <= mid2 ==> hist[b].hi <= atMost
    ensures LongestBelow(hist, mid2, n) <= atMost
    ensures forall b :: 0 <= b < n && 0 < hist[b].count && 2 * b <= mid2 ==> hist[b].hi <= LongestBelow(hist, mid2, n)
  {
    if 0 < n {
      LongestIs(hist, mid2, n - 1, atMost);
    }
  }

  lemma {:induction false} ShortestIs(hist: seq<LengthBin>, mid2: int, n: nat, atLeast: real)
    requires n <= |hist| && atLeast <= FAR
    requires forall b :: 0 <= b < n && 0 < hist[b].count && mid2 < 2 * b ==> atLeast <= hist[b].lo
    ensures atLeast <= ShortestAbove(hist, mid2, n)
    ensures forall b :: 0 <= b < n && 0 < hist[b].count && mid2 < 2 * b ==> ShortestAbove(hist, mid2, n) <= hist[b].lo
  {
    if 0 < n {
      ShortestIs(hist, mid2, n - 1, atLeast);
    }
  }

  /** The cut between two occupied bins whose lengths bound those of their sides. */
  lemma EdgeCutIs(hist: seq<LengthBin>, lo: nat, hi: nat, fallback: real, quantum: real, below: real, above: real)
    requires lo < hi < |hist| && 0 < hist[lo].count && 0 < hist[hi].count
    requires 0.0 < hist[lo].hi && hist[hi].lo == above && above < 100000000.0 && 0.0 < below
    requires forall b :: 0 <= b < |hist| && 0 < hist[b].count && 2 * b <= lo + hi ==> hist[b].hi <= below
    requires forall b :: 0 <= b < |hist| && 0 < hist[b].count && lo + hi < 2 * b ==> above <= hist[b].lo
    ensures 0.5 * (hist[lo].hi + above) <= EdgeCut(hist, lo, hi, fallback, quantum) <= 0.5 * (below + above)
  {
    hide LongestBelow, ShortestAbove;
    LongestIs(hist, lo + hi, |hist|, below);
    ShortestIs(hist, lo + hi, |hist|, above);
  }

  lemma LetterEdge(hist: seq<LengthBin>, u: real, quantum: real, fallback: real)
    requires Speed(u, quantum) && quantum > 0.0 && u > 0.0
    requires forall b: nat :: GapSlot(BinAt(hist, b), b, u, quantum)
    requires Occupied(hist, BinOf(u, quantum)) && Occupied(hist, BinOf(3.0 * u, quantum))
    ensures EdgeCut(hist, BinOf(u, quantum), BinOf(3.0 * u, quantum), fallback, quantum) == 2.0 * u
  {
    hide BinOf, EdgeCut;
    BinsApart(u, quantum);
    assert forall b: nat | b < |hist| :: GapSlot(BinAt(hist, b), b, u, quantum) && BinAt(hist, b) == hist[b];
    EdgeCutIs(hist, BinOf(u, quantum), BinOf(3.0 * u, quantum), fallback, quantum, u, 3.0 * u);
  }

  lemma WordEdge(hist: seq<LengthBin>, u: real, quantum: real, fallback: real)
    requires Speed(u, quantum) && quantum > 0.0 && u > 0.0
    requires forall b: nat :: GapSlot(BinAt(hist, b), b, u, quantum)
    requires Occupied(hist, BinOf(7.0 * u, quantum))
    ensures Occupied(hist, BinOf(3.0 * u, quantum)) ==>
              EdgeCut(hist, BinOf(3.0 * u, quantum), BinOf(7.0 * u, quantum), fallback, quantum) == 5.0 * u
    ensures Occupied(hist, BinOf(u, quantum)) ==>
              4.0 * u <= EdgeCut(hist, BinOf(u, quantum), BinOf(7.0 * u, quantum), fallback, quantum) <= 5.0 * u
  {
    hide BinOf, EdgeCut;
    BinsApart(u, quantum);
    assert forall b: nat | b < |hist| :: GapSlot(BinAt(hist, b), b, u, quantum) && BinAt(hist, b) == hist[b];
    if Occupied(hist, BinOf(3.0 * u, quantum)) {
      EdgeCutIs(hist, BinOf(3.0 * u, quantum), BinOf(7.0 * u, quantum), fallback, quantum, 3.0 * u, 7.0 * u);
    }
    if Occupied(hist, BinOf(u, quantum)) {
      EdgeCutIs(hist, BinOf(u, quantum), BinOf(7.0 * u, quantum), fallback, quantum, 3.0 * u, 7.0 * u);
    }
  }

  /** The space cuts found in evenly keyed spaces fall between the spaces they separate, whichever
      of the three kinds were common enough to be peaks. */
  lemma MeasuredSpaces(gaps: seq<real>, u: real, quantum: real)
    requires Speed(u, quantum) && quantum > 0.0 && u > 0.0 && Among(gaps, u, true)
    ensures var (letterCut, wordCut) := GapCuts(HistogramOf(gaps, quantum), GapBinsOf(gaps, quantum, u), quantum, u);
            letterCut == 2.0 * u && 4.0 * u <= wordCut <= 5.0 * u
  {
    hide BinOf, HistogramOf, Speed, Peaks, PlaceGaps, EdgeCut, Among, GapSlot, Occupied;
    var hist := HistogramOf(gaps, quantum);
    var peaks := Peaks(hist, |gaps|);
    PeaksOccupied(hist, |gaps|);
    forall b: nat ensures GapSlot(BinAt(hist, b), b, u, quantum) {
      GapSlots(gaps, u, quantum, b);
    }
    PlaceSpaces(hist, peaks, u, quantum, |peaks|);
    CutsFromBins(hist, PlaceGaps(peaks, quantum, u, |peaks|), u, quantum);
  }

  lemma CutsFromBins(hist: seq<LengthBin>, g: GapBins, u: real, quantum: real)
    requires Speed(u, quantum) && quantum > 0.0 && u > 0.0 && SpaceBins(g, u, quantum)
    requires forall b: nat :: GapSlot(BinAt(hist, b), b, u, quantum)
    requires Occupied(hist, g.element) && Occupied(hist, g.letter) && Occupied(hist, g.word)
    ensures var (letterCut, wordCut) := GapCuts(hist, g, quantum, u);
            letterCut == 2.0 * u && 4.0 * u <= wordCut <= 5.0 * u
  {
    hide BinOf, Speed, GapSlot, Occupied, EdgeCut;
    var fallback := Max(2.0 * u * 2.2, u * 5.0);
    assert fallback == 5.0 * u;
    if 0 <= g.element && 0 <= g.letter {
      LetterEdge(hist, u, quantum, u * 2.0);
    }
    if 0 <= g.word {
      WordEdge(hist, u, quantum, fallback);
    }
    NoEdge(hist, g.element, g.letter, u * 2.0, quantum);
    NoEdge(hist, if g.letter >= 0 then g.letter else g.element, g.word, fallback, quantum);
  }

  lemma NoEdge(hist: seq<LengthBin>, lo: int, hi: int, fallback: real, quantum: real)
    ensures lo < 0 || hi < 0 ==> EdgeCut(hist, lo, hi, fallback, quantum) == fallback
  {
  }

  // ---------------------------------------------------------------- the text comes back

  lemma TimedFits(run: Run, tone: Tone, u: real, timing: Timing)
    requires run == Run(tone.on, tone.units as real * u) && Keyable(tone) && 0.020 <= u
    requires timing.dahCut == 2.0 * u && timing.letterCut == 2.0 * u && 4.0 * u <= timing.wordCut <= 5.0 * u
    ensures Fits(run, tone, timing)
  {
  }

  lemma TimedFitAt(tones: seq<Tone>, u: real, timing: Timing)
    requires 0.020 <= u && forall i :: 0 <= i < |tones| ==> Keyable(tones[i])
    requires timing.dahCut == 2.0 * u && timing.letterCut == 2.0 * u && 4.0 * u <= timing.wordCut <= 5.0 * u
    ensures FitAt(Timed(tones, u), 0, tones, timing)
  {
    hide Fits, Keyable, Timed;
    var runs := Timed(tones, u);
    forall i | 0 <= i < |tones| ensures Fits(runs[0 + i], tones[i], timing) {
      assert Keyable(tones[i]);
      TimedAt(tones, u, i);
      TimedFits(runs[0 + i], tones[i], u, timing);
    }
  }

  // ---------------------------------------------------------------- or does not

  lemma CopiedDits(marks: seq<real>, timing: Timing)
    requires forall i :: 0 <= i < |marks| ==> marks[i] < timing.dahCut
    ensures Spared(Copied(PatternFor(marks, timing)), '-')
  {
    hide Spared, Copied;
    CopiedSpared(PatternFor(marks, timing), '-');
  }

  ghost predicate ShortMarks(marks: seq<real>, timing: Timing) {
    forall i :: 0 <= i < |marks| ==> marks[i] < timing.dahCut
  }

  lemma {:induction false} ReadDits(runs: seq<Run>, n: nat, timing: Timing)
    requires n <= |runs| && forall i :: 0 <= i < n && runs[i].on ==> runs[i].sec < timing.dahCut
    ensures ShortMarks(ReadTo(runs, n, timing).marks, timing) && AllSpared(ReadTo(runs, n, timing).text, '-')
  {
    hide Copied, PatternFor, Known, PatternOf, Lacks;
    if 0 < n {
      ReadDits(runs, n - 1, timing);
      CopiedDits(ReadTo(runs, n - 1, timing).marks, timing);
    }
  }

  lemma {:induction false} NoneCounted(tones: seq<Tone>, n: nat, units: nat)
    requires n <= |tones| && forall i :: 0 <= i < n ==> tones[i] != Tone(true, units)
    ensures MarkCount(tones, n, units) == 0
  {
    if 0 < n {
      NoneCounted(tones, n - 1, units);
    }
  }

  lemma KeyedShort(tone: Tone, u: real, cut: real)
    requires Keyable(tone) && tone.on && 0.0 < u && 4.0 * u <= cut
    ensures tone.units as real * u < cut
  {
  }

  /** Taken for dits, the dahs of a text cannot come back. */
  lemma WrongCutLoses(text: string, u: real, timing: Timing)
    requires WellSpaced(text) && 0 < Dahs(text) && 0.020 <= u && 4.0 * u <= timing.dahCut
    ensures DecodeRuns(Timed(Keyed(text, |text|), u), timing) != text
  {
    hide Keyed, ReadTo, Known, PatternOf, Spared, Timed, Keyable;
    var tones := Keyed(text, |text|);
    var runs := Timed(tones, u);
    KeyedKeyable(text, |text|);
    forall i | 0 <= i < |runs| && runs[i].on ensures runs[i].sec < timing.dahCut {
      TimedAt(tones, u, i);
      KeyedShort(tones[i], u, timing.dahCut);
    }
    ReadDits(runs, |runs|, timing);
    if DecodeRuns(runs, timing) == text {
      KeyedLacks(text, |text|, '-');
      NoneCounted(tones, |tones|, 3);
    }
  }

  // ---------------------------------------------------------------- the whole

  /** Enough marks are seen, and either the dits outnumber the dahs or both are common enough to
      be peaks of the histogram. */
  predicate Learnable(dits: nat, dahs: nat) {
    && 3 <= dits + dahs
    && (dits > dahs || (Threshold(dits + dahs) <= dits && Threshold(dits + dahs) <= dahs))
  }

  lemma KeyedLengths(text: string, u: real)
    requires WellSpaced(text) && 0.020 <= u && 3.0 * u < LONGEST
    ensures var runs := Timed(Keyed(text, |text|), u);
            MarksSay(Marks(runs), u, Dits(text), Dahs(text)) && Among(Gaps(runs), u, true)
  {
    hide Keyed, Timed, Lengths, Keyable, Among, MarkCount, MarksSay;
    KeyedKeyable(text, |text|);
    var tones := Keyed(text, |text|);
    TimedMarks(tones, u, |tones|);
    TimedGaps(tones, u, |tones|);
  }

  lemma MeasuredRuns(runs: seq<Run>, u: real, columnSec: real, dits: nat, dahs: nat)
    requires Speed(u, QuantumOf(columnSec)) && MarksSay(Marks(runs), u, dits, dahs) && Among(Gaps(runs), u, true)
    ensures var t := Measure(runs, columnSec);
            && (Learnable(dits, dahs) ==> t.ok && t.dahCut == 2.0 * u && t.letterCut == 2.0 * u && 4.0 * u <= t.wordCut <= 5.0 * u)
            && (!Learnable(dits, dahs) && t.ok ==> 4.0 * u <= t.dahCut)
            && (t.ok ==> 3 <= dits + dahs)
  {
    hide Marks, Gaps, QuantumOf, MarkCuts, GapCuts, PairOf, GapBinsOf, HistogramOf, NumOf, Among, Threshold;
    var quantum, marks := QuantumOf(columnSec), Marks(runs);
    if 3 <= |marks| {
      MeasuredMarks(marks, u, quantum);
      MeasuredSpaces(Gaps(runs), u, quantum);
    }
  }

  /** A text keyed evenly, at a speed the columns resolve, is timed from its own runs and comes
      back if and only if it is `Learnable`. */
  lemma MeasuredTextComesBack(text: string, u: real, columnSec: real)
    requires WellSpaced(text) && Speed(u, QuantumOf(columnSec))
    ensures var runs := Timed(Keyed(text, |text|), u);
            var timing := Measure(runs, columnSec);
            timing.ok && DecodeRuns(runs, timing) == text <==> Learnable(Dits(text), Dahs(text))
  {
    hide Keyed, Timed, Measure, Threshold, MarksSay, Among, Dits, Dahs, DecodeRuns, WellSpaced, Marks, Gaps, QuantumOf, Keyable;
    var tones := Keyed(text, |text|);
    var runs := Timed(tones, u);
    var timing := Measure(runs, columnSec);
    KeyedLengths(text, u);
    MeasuredRuns(runs, u, columnSec, Dits(text), Dahs(text));
    if Learnable(Dits(text), Dahs(text)) {
      KeyedKeyable(text, |text|);
      TimedFitAt(tones, u, timing);
      KeyedTextComesBack(runs, text, timing);
    } else if timing.ok {
      WrongCutLoses(text, u, timing);
    }
  }

  // ---------------------------------------------------------------- texts that do not come back

  lemma {:induction false} CharacterCount(pat: string, gap: nat, n: nat, element: char)
    requires n <= |pat| && IsPattern(pat) && (element == '.' || element == '-')
    ensures MarkCount(Character(pat, gap, n), 2 * n, Length(element)) == CountIn(pat, element, n)
  {
    if 0 < n {
      CharacterCount(pat, gap, n - 1, element);
      var before, tones := Character(pat, gap, n - 1), Character(pat, gap, n);
      MarkCountPrefix(before, tones, 2 * (n - 1), Length(element));
      var k: nat := 2 * n - 1;
      assert MarkCount(tones, k, Length(element)) == CountIn(pat, element, n);
    }
  }

  lemma {:induction false} MarkCountPrefix(before: seq<Tone>, tones: seq<Tone>, n: nat, units: nat)
    requires before <= tones && n <= |before|
    ensures MarkCount(tones, n, units) == MarkCount(before, n, units)
  {
    if 0 < n {
      MarkCountPrefix(before, tones, n - 1, units);
    }
  }

  lemma LetterCounts(text: string)
    requires |text| == 1 && Known(text[0])
    ensures WellSpaced(text)
    ensures var pat := PatternOf(text[0]); Dits(text) == CountIn(pat, '.', |pat|) && Dahs(text) == CountIn(pat, '-', |pat|)
  {
    hide PatternOf, Known, Keyed, Character, IsPattern, WellSpaced;
    LetterKeyed(text);
    var pat := PatternOf(text[0]);
    PatternShape(text[0]);
    CharacterCount(pat, 3, |pat|, '.');
    CharacterCount(pat, 3, |pat|, '-');
  }

  /** Three dahs and nothing else, at 20 words a minute and the column period of a new decoder:
      they are taken for dits. */
  lemma DahsAloneAreLost()
    ensures WellSpaced("O")
    ensures var runs := Timed(Keyed("O", 1), 0.06);
            var timing := Measure(runs, 1024.0 / 48000.0);
            !(timing.ok && DecodeRuns(runs, timing) == "O")
  {
    hide Measure, DecodeRuns, Keyed, Timed, PatternOf, WellSpaced, Dits, Dahs;
    PatternOfO();
    LetterCounts("O");
    MeasuredTextComesBack("O", 0.06, 1024.0 / 48000.0);
  }

  /** One dit among three dahs is lost among them too. */
  lemma FewDitsAreLost()
    ensures WellSpaced("J")
    ensures var runs := Timed(Keyed("J", 1), 0.06);
            var timing := Measure(runs, 1024.0 / 48000.0);
            !(timing.ok && DecodeRuns(runs, timing) == "J")
  {
    hide Measure, DecodeRuns, Keyed, Timed, PatternOf, WellSpaced, Dits, Dahs;
    PatternOfJ();
    LetterCounts("J");
    MeasuredTextComesBack("J", 0.06, 1024.0 / 48000.0);
  }
}
