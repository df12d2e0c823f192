/** `measure`: dit, dah, letter and word are found as peaks of length histograms. Lengths are
    exact reals; |ln(ratio / 3)| is compared through the larger of ratio / 3 and 3 / ratio, whose
    logarithm it is. */
module SpectrumTiming {
  import opened RealNumbers
  import opened SpectrumRuns
  import opened Sorting

  const LONGEST := 2.5
  const NO_TIMING := Timing(0.0, 0.0, 0.0, 0.0, false)

  datatype LengthBin = LengthBin(count: nat, lo: real, hi: real)

  const EMPTY_BIN := LengthBin(0, 0.0, 0.0)

  function Round(x: real): int {
    if x >= 0.0 then (x + 0.5).Floor else -((0.5 - x).Floor)
  }

  function BinOf(sec: real, quantum: real): (bin: nat)
    requires quantum > 0.0
    ensures 1 <= bin
  {
    var b := Round(sec / quantum);
    if b < 1 then 1 else b
  }

  // ---------------------------------------------------------------- lengths and their histogram

  predicate Measurable(run: Run, on: bool) {
    run.on == on && LEAST_MARK <= run.sec < LONGEST
  }

  /** The measurable marks (or spaces) among the first `n` runs. */
  function Lengths(runs: seq<Run>, on: bool, n: nat): (vals: seq<real>)
    requires n <= |runs|
    ensures |vals| <= n
    ensures forall i :: 0 <= i < |vals| ==> LEAST_MARK <= vals[i] < LONGEST
  {
    if n == 0 then [] else
      Lengths(runs, on, n - 1) + (if Measurable(runs[n - 1], on) then [runs[n - 1].sec] else [])
  }

  /** `hist.resize(n)` */
  function Resized(hist: seq<LengthBin>, n: nat): (longer: seq<LengthBin>)
    requires |hist| <= n
    ensures |longer| == n
    ensures forall b :: 0 <= b < n ==> longer[b] == if b < |hist| then hist[b] else EMPTY_BIN
  {
    hist + seq(n - |hist|, i => EMPTY_BIN)
  }

  function Noted(slot: LengthBin, sec: real): LengthBin {
    if slot.count == 0 then LengthBin(1, sec, sec)
    else LengthBin(slot.count + 1, Min(slot.lo, sec), Max(slot.hi, sec))
  }

  /** `noteBin` */
  function NoteBin(hist: seq<LengthBin>, bin: nat, sec: real): (noted: seq<LengthBin>)
    ensures |noted| == if bin < |hist| then |hist| else bin + 1
    ensures forall b :: 0 <= b < |noted| ==>
      noted[b] == if b == bin then Noted(BinAt(hist, b), sec) else BinAt(hist, b)
  {
    var longer := if bin < |hist| then hist else Resized(hist, bin + 1);
    longer[bin := Noted(longer[bin], sec)]
  }

  /** A bin, empty outside the histogram. */
  function BinAt(hist: seq<LengthBin>, b: int): LengthBin {
    if 0 <= b < |hist| then hist[b] else EMPTY_BIN
  }

  function Histogram(vals: seq<real>, quantum: real, n: nat): seq<LengthBin>
    requires n <= |vals| && quantum > 0.0
  {
    if n == 0 then [] else NoteBin(Histogram(vals, quantum, n - 1), BinOf(vals[n - 1], quantum), vals[n - 1])
  }

  /** What a bin holds, said of the lengths themselves. */
  ghost predicate BinSays(slot: LengthBin, vals: seq<real>, quantum: real, n: nat, b: nat)
    requires n <= |vals| && quantum > 0.0
  {
    && slot.count == Count(vals, quantum, n, b)
    && (forall i :: 0 <= i < n && BinOf(vals[i], quantum) == b ==> slot.lo <= vals[i] <= slot.hi && 0 < slot.count)
    && (0 < slot.count ==> exists i :: 0 <= i < n && BinOf(vals[i], quantum) == b && vals[i] == slot.lo)
    && (0 < slot.count ==> exists i :: 0 <= i < n && BinOf(vals[i], quantum) == b && vals[i] == slot.hi)
  }

  function Count(vals: seq<real>, quantum: real, n: nat, b: nat): (count: nat)
    requires n <= |vals| && quantum > 0.0
    ensures count <= n
  {
    if n == 0 then 0 else
      Count(vals, quantum, n - 1, b) + (if BinOf(vals[n - 1], quantum) == b then 1 else 0)
  }

  lemma {:induction false} HistogramSays(vals: seq<real>, quantum: real, n: nat, b: nat)
    requires n <= |vals| && quantum > 0.0
    ensures BinSays(BinAt(Histogram(vals, quantum, n), b), vals, quantum, n, b)
  {
    hide BinOf;
    if 0 < n {
      HistogramSays(vals, quantum, n - 1, b);
      var was, now := BinAt(Histogram(vals, quantum, n - 1), b), BinAt(Histogram(vals, quantum, n), b);
      if BinOf(vals[n - 1], quantum) == b {
        assert now == Noted(was, vals[n - 1]);
      } else {
        assert now == was;
      }
    }
  }

  /** A shorter run never falls into a higher bin. */
  lemma BinMonotone(a: real, b: real, quantum: real)
    requires quantum > 0.0 && a <= b
    ensures BinOf(a, quantum) <= BinOf(b, quantum)
  {
    assert a / quantum <= b / quantum;
  }

  /** A length falls into the bin nearest to it in quanta, halves into the higher, and into none below
      the first. */
  lemma BinNearest(sec: real, quantum: real)
    requires quantum > 0.0
    ensures var quanta, bin := sec / quantum, BinOf(sec, quantum) as real;
            (quanta < 1.5 ==> bin == 1.0) && (0.5 <= quanta ==> bin - 0.5 <= quanta < bin + 0.5)
  {
    RoundSays(sec / quantum);
  }

  lemma RoundSays(x: real)
    ensures 0.0 <= x ==> Round(x) as real - 0.5 <= x < Round(x) as real + 0.5
    ensures x < 1.5 ==> Round(x) <= 1
    ensures 0.5 <= x ==> 1 <= Round(x)
  {
  }

  // ---------------------------------------------------------------- peaks

  /** A twentieth of the lengths, to the nearest whole number, but at least three. */
  lemma ThresholdSays(total: nat)
    ensures total < 70 ==> Threshold(total) == 3
    ensures 50 <= total ==> -0.5 < Threshold(total) as real - 0.05 * total as real <= 0.5
  {
  }

  function Threshold(total: nat): (least: nat)
    ensures 3 <= least
  {
    var l := Round(0.05 * total as real);
    if l < 3 then 3 else l
  }

  /** A bin tall enough, not lower than its left neighbour and higher than its right one. */
  predicate IsPeak(hist: seq<LengthBin>, least: nat, k: nat) {
    && least <= BinAt(hist, k).count
    && BinAt(hist, k - 1).count <= BinAt(hist, k).count
    && BinAt(hist, k + 1).count < BinAt(hist, k).count
  }

  /** Of a plateau, its last bin alone is a peak. */
  lemma PlateauEnds(hist: seq<LengthBin>, least: nat, j: nat, k: nat)
    requires j <= k && least <= BinAt(hist, k).count && BinAt(hist, k + 1).count < BinAt(hist, k).count
    requires forall i :: j <= i <= k ==> BinAt(hist, i).count == BinAt(hist, k).count
    requires BinAt(hist, j - 1).count <= BinAt(hist, k).count
    ensures IsPeak(hist, least, k) && forall i :: j <= i < k ==> !IsPeak(hist, least, i)
  {
    assert j < k ==> BinAt(hist, k - 1).count == BinAt(hist, k).count;
    forall i | j <= i < k ensures !IsPeak(hist, least, i) {
      assert BinAt(hist, i + 1).count == BinAt(hist, k).count == BinAt(hist, i).count;
    }
  }

  function PeaksTo(hist: seq<LengthBin>, least: nat, n: nat): seq<nat>
    requires n <= |hist|
  {
    if n == 0 then [] else PeaksTo(hist, least, n - 1) + (if IsPeak(hist, least, n - 1) then [n - 1] else [])
  }

  /** The first of the fullest bins below `n`. */
  function Fullest(hist: seq<LengthBin>, n: nat): (best: nat)
    requires n <= |hist|
    ensures best < n || best == 0
  {
    if n == 0 then 0 else
      var best := Fullest(hist, n - 1);
      if BinAt(hist, n - 1).count > BinAt(hist, best).count then n - 1 else best
  }

  /** `histogramPeaks` */
  function Peaks(hist: seq<LengthBin>, total: nat): seq<nat> {
    if total == 0 || BinAt(hist, Fullest(hist, |hist|)).count == 0 then []
    else
      var peaks := PeaksTo(hist, Threshold(total), |hist|);
      if peaks == [] then [Fullest(hist, |hist|)] else peaks
  }

  // ---------------------------------------------------------------- dit and dah

  datatype Pair = NoPair | Pair(dit: nat, dah: nat, score: real)

  /** How far a ratio is from 1:3, at least 1. */
  function Skew(lo: nat, hi: nat): real
    requires 0 < lo < hi
  {
    var r := hi as real / lo as real / 3.0;
    Max(r, 1.0 / r)
  }

  lemma ThirdOf(l: real, h: real)
    requires 0.0 < l && 0.0 < h
    ensures 0.0 < h / l / 3.0 && (1.0 <= h / l / 3.0 <==> 3.0 * l <= h) && (h / l / 3.0 == 1.0 <==> h == 3.0 * l)
  {
    var q := h / l;
    assert q * l == h;
    assert (q - 3.0) * l == h - 3.0 * l;
    if 3.0 <= q {
      assert 0.0 <= (q - 3.0) * l;
    } else {
      assert 0.0 < (3.0 - q) * l;
    }
  }

  lemma Inverse(r: real)
    requires 0.0 < r
    ensures (1.0 <= r ==> 1.0 / r <= 1.0) && (r <= 1.0 ==> 1.0 <= 1.0 / r) && (1.0 / r == 1.0 <==> r == 1.0)
  {
    var s := 1.0 / r;
    assert s * r == 1.0;
  }

  /** From 1:3 upwards it is the ratio over three, below that its inverse. */
  lemma SkewSays(lo: nat, hi: nat)
    requires 0 < lo < hi
    ensures var r := hi as real / lo as real / 3.0;
            Skew(lo, hi) == (if 3 * lo <= hi then r else 1.0 / r) && 1.0 <= Skew(lo, hi) && (Skew(lo, hi) == 1.0 <==> hi == 3 * lo)
  {
    ThirdOf(lo as real, hi as real);
    Inverse(hi as real / lo as real / 3.0);
  }

  predicate DahRatio(lo: nat, hi: nat) {
    lo < hi && 1.95 * lo as real <= hi as real <= 5.0 * lo as real
  }

  function Closer(best: Pair, lo: nat, hi: nat): Pair {
    if DahRatio(lo, hi) && (best.NoPair? || Skew(lo, hi) < best.score) then Pair(lo, hi, Skew(lo, hi)) else best
  }

  function PairsWith(best: Pair, peaks: seq<nat>, lo: nat, n: nat): Pair
    requires n <= |peaks|
  {
    if n == 0 then best else Closer(PairsWith(best, peaks, lo, n - 1), lo, peaks[n - 1])
  }

  function BestPair(peaks: seq<nat>, n: nat): Pair
    requires n <= |peaks|
  {
    if n == 0 then NoPair else PairsWith(BestPair(peaks, n - 1), peaks, peaks[n - 1], |peaks|)
  }

  // ---------------------------------------------------------------- cuts

  /** The lengths whose bin lies on one side of the valley, whose double is `valley2`. */
  function Side(vals: seq<real>, quantum: real, valley2: nat, below: bool, n: nat): (part: seq<real>)
    requires n <= |vals| && quantum > 0.0
  {
    if n == 0 then [] else
      Side(vals, quantum, valley2, below, n - 1) +
      (if OnSide(vals[n - 1], quantum, valley2, below) then [vals[n - 1]] else [])
  }

  predicate OnSide(sec: real, quantum: real, valley2: nat, below: bool)
    requires quantum > 0.0
  {
    if below then 2 * BinOf(sec, quantum) < valley2 else 2 * BinOf(sec, quantum) > valley2
  }

  function Greatest(vals: seq<real>, n: nat): real
    requires 1 <= n <= |vals|
  {
    if n == 1 then vals[0] else Max(Greatest(vals, n - 1), vals[n - 1])
  }

  function Least(vals: seq<real>, n: nat): real
    requires 1 <= n <= |vals|
  {
    if n == 1 then vals[0] else Min(Least(vals, n - 1), vals[n - 1])
  }

  /** Dit length and the cut between dits and dahs. */
  function MarkCuts(marks: seq<real>, quantum: real, pair: Pair): (real, real)
    requires quantum > 0.0
  {
    if pair.NoPair? then (MedianOf(marks), MedianOf(marks) * 2.0)
    else
      var dits := Side(marks, quantum, pair.dit + pair.dah, true, |marks|);
      var dahs := Side(marks, quantum, pair.dit + pair.dah, false, |marks|);
      var dit := if dits == [] then pair.dit as real * quantum else MedianOf(dits);
      (dit, if dits != [] && dahs != [] then 0.5 * (Greatest(dits, |dits|) + Least(dahs, |dahs|))
            else 0.5 * (pair.dit + pair.dah) as real * quantum)
  }

  datatype GapBins = GapBins(element: int, letter: int, word: int)

  /** The length of a bin in dits. */
  function Units(bin: nat, quantum: real, dit: real): real
    requires dit > 0.0
  {
    bin as real * quantum / dit
  }

  function PlaceGap(g: GapBins, bin: nat, quantum: real, dit: real): GapBins
    requires dit > 0.0
  {
    var units := Units(bin, quantum, dit);
    if g.element < 0 && 0.22 <= units <= 1.8 then g.(element := bin)
    else if g.letter < 0 && (g.element < 0 || bin > g.element) && 1.45 <= units <= 4.6 then g.(letter := bin)
    else if g.word < 0 && (g.letter < 0 || bin > g.letter) && 3.8 <= units <= 14.0 then g.(word := bin)
    else g
  }

  function PlaceGaps(peaks: seq<nat>, quantum: real, dit: real, n: nat): GapBins
    requires n <= |peaks| && dit > 0.0
  {
    if n == 0 then GapBins(-1, -1, -1) else PlaceGap(PlaceGaps(peaks, quantum, dit, n - 1), peaks[n - 1], quantum, dit)
  }

  /** A peak between `low` and `high` dits. */
  predicate InRange(bin: nat, quantum: real, dit: real, low: real, high: real)
    requires dit > 0.0
  {
    low <= Units(bin, quantum, dit) <= high
  }

  /** `k` is the first of the first `n` peaks in a range, `x` and `y` left aside, or -1 without any. */
  ghost predicate FirstIn(peaks: seq<nat>, n: nat, quantum: real, dit: real, low: real, high: real, k: int, x: int, y: int)
    requires dit > 0.0 && n <= |peaks|
  {
    && -1 <= k < n
    && (0 <= k ==> k != x && k != y && InRange(peaks[k], quantum, dit, low, high))
    && forall i :: 0 <= i < (if k < 0 then n else k) && i != x && i != y ==> !InRange(peaks[i], quantum, dit, low, high)
  }

  function PeakNo(peaks: seq<nat>, k: int): int {
    if 0 <= k < |peaks| then peaks[k] else -1
  }

  /** Gap peaks of 0.22 to 1.8 dits are elements, of 1.45 to 4.6 letters, of 3.8 to 14 words: the first
      of each that is nothing shorter already. */
  lemma {:induction false} GapsSay(peaks: seq<nat>, quantum: real, dit: real, n: nat) returns (e: int, l: int, w: int)
    requires dit > 0.0 && n <= |peaks| && Ascending(peaks)
    ensures FirstIn(peaks, n, quantum, dit, 0.22, 1.8, e, -1, -1)
    ensures FirstIn(peaks, n, quantum, dit, 1.45, 4.6, l, e, -1)
    ensures FirstIn(peaks, n, quantum, dit, 3.8, 14.0, w, e, l)
    ensures PlaceGaps(peaks, quantum, dit, n) == GapBins(PeakNo(peaks, e), PeakNo(peaks, l), PeakNo(peaks, w))
  {
    hide InRange, PlaceGap, FirstIn, Ascending;
    if n == 0 {
      e, l, w := -1, -1, -1;
      FirstOfNone(peaks, quantum, dit);
    } else {
      var e', l', w' := GapsSay(peaks, quantum, dit, n - 1);
      LiesBelow(peaks, n - 1, e', quantum, dit, 0.22, 1.8, -1, -1);
      LiesBelow(peaks, n - 1, l', quantum, dit, 1.45, 4.6, e', -1);
      LiesBelow(peaks, n - 1, w', quantum, dit, 3.8, 14.0, e', l');
      var i, bin := n - 1, peaks[n - 1];
      e := if e' < 0 && InRange(bin, quantum, dit, 0.22, 1.8) then i else e';
      l := if l' < 0 && e != i && InRange(bin, quantum, dit, 1.45, 4.6) then i else l';
      w := if w' < 0 && e != i && l != i && InRange(bin, quantum, dit, 3.8, 14.0) then i else w';
      FirstNext(peaks, n, quantum, dit, 0.22, 1.8, e', -1, -1, -1, -1);
      FirstNext(peaks, n, quantum, dit, 1.45, 4.6, l', e', -1, e, -1);
      FirstNext(peaks, n, quantum, dit, 3.8, 14.0, w', e', l', e, l);
      PlaceNext(GapBins(PeakNo(peaks, e'), PeakNo(peaks, l'), PeakNo(peaks, w')), bin, quantum, dit);
    }
  }

  lemma FirstOfNone(peaks: seq<nat>, quantum: real, dit: real)
    requires dit > 0.0
    ensures forall low, high, x, y :: FirstIn(peaks, 0, quantum, dit, low, high, -1, x, y)
  {
  }

  lemma FirstNext(peaks: seq<nat>, n: nat, quantum: real, dit: real, low: real, high: real, k: int, x: int, y: int, x': int, y': int)
    requires dit > 0.0 && 0 < n <= |peaks| && FirstIn(peaks, n - 1, quantum, dit, low, high, k, x, y)
    requires x' == x || (x == -1 && x' == n - 1)
    requires y' == y || (y == -1 && y' == n - 1)
    ensures FirstIn(peaks, n, quantum, dit, low, high,
                    if k < 0 && x' != n - 1 && y' != n - 1 && InRange(peaks[n - 1], quantum, dit, low, high) then n - 1 else k, x', y')
  {
    hide InRange;
  }

  lemma LiesBelow(peaks: seq<nat>, n: nat, k: int, quantum: real, dit: real, low: real, high: real, x: int, y: int)
    requires dit > 0.0 && n < |peaks| && Ascending(peaks) && FirstIn(peaks, n, quantum, dit, low, high, k, x, y)
    ensures -1 <= k < n && PeakNo(peaks, k) < peaks[n] && (PeakNo(peaks, k) < 0 <==> k < 0)
  {
    hide InRange;
  }

  lemma PlaceNext(g: GapBins, bin: nat, quantum: real, dit: real)
    requires dit > 0.0 && g.element < bin && g.letter < bin
    ensures PlaceGap(g, bin, quantum, dit)
         == if g.element < 0 && InRange(bin, quantum, dit, 0.22, 1.8) then g.(element := bin)
            else if g.letter < 0 && InRange(bin, quantum, dit, 1.45, 4.6) then g.(letter := bin)
            else if g.word < 0 && InRange(bin, quantum, dit, 3.8, 14.0) then g.(word := bin) else g
  {
    hide Units;
  }

  /** The longest length binned at or below `mid2 / 2`, over the bins below `n`. */
  function LongestBelow(hist: seq<LengthBin>, mid2: int, n: nat): real
    requires n <= |hist|
  {
    if n == 0 then -1.0
    else if hist[n - 1].count > 0 && 2 * (n - 1) <= mid2 then Max(LongestBelow(hist, mid2, n - 1), hist[n - 1].hi)
    else LongestBelow(hist, mid2, n - 1)
  }

  const FAR := 1000000000.0

  /** The shortest length binned above `mid2 / 2`. */
  function ShortestAbove(hist: seq<LengthBin>, mid2: int, n: nat): real
    requires n <= |hist|
  {
    if n == 0 then FAR
    else if hist[n - 1].count > 0 && 2 * (n - 1) > mid2 then Min(ShortestAbove(hist, mid2, n - 1), hist[n - 1].lo)
    else ShortestAbove(hist, mid2, n - 1)
  }

  /** `edgeCut` */
  function EdgeCut(hist: seq<LengthBin>, loBin: int, hiBin: int, fallback: real, quantum: real): real {
    if loBin < 0 || hiBin < 0 then fallback
    else
      var loMax, hiMin := LongestBelow(hist, loBin + hiBin, |hist|), ShortestAbove(hist, loBin + hiBin, |hist|);
      if loMax > 0.0 && hiMin < 100000000.0 then 0.5 * (loMax + hiMin)
      else 0.5 * (loBin + hiBin) as real * quantum
  }

  function GapCuts(hist: seq<LengthBin>, g: GapBins, quantum: real, dit: real): (real, real) {
    var letterCut := EdgeCut(hist, g.element, g.letter, dit * 2.0, quantum);
    var wordCut := EdgeCut(hist, if g.letter >= 0 then g.letter else g.element, g.word,
                           Max(letterCut * 2.2, dit * 5.0), quantum);
    (letterCut, if wordCut <= letterCut then letterCut * 2.2 else wordCut)
  }

  // ---------------------------------------------------------------- measure

  function QuantumOf(columnSec: real): (quantum: real)
    ensures quantum > 0.0
  {
    if columnSec > 0.005 then columnSec else 1024.0 / 48000.0
  }

  function Marks(runs: seq<Run>): seq<real> {
    Lengths(runs, true, |runs|)
  }

  function Gaps(runs: seq<Run>): seq<real> {
    Lengths(runs, false, |runs|)
  }

  function HistogramOf(vals: seq<real>, quantum: real): seq<LengthBin>
    requires quantum > 0.0
  {
    Histogram(vals, quantum, |vals|)
  }

  function PairOf(marks: seq<real>, quantum: real): Pair
    requires quantum > 0.0
  {
    var peaks := Peaks(HistogramOf(marks, quantum), |marks|);
    BestPair(peaks, |peaks|)
  }

  function GapBinsOf(gaps: seq<real>, quantum: real, dit: real): GapBins
    requires quantum > 0.0 && dit > 0.0
  {
    var peaks := Peaks(HistogramOf(gaps, quantum), |gaps|);
    PlaceGaps(peaks, quantum, dit, |peaks|)
  }

  /** `measure`, for the column period of the moment. */
  function Measure(runs: seq<Run>, columnSec: real): Timing {
    var quantum, marks, gaps := QuantumOf(columnSec), Marks(runs), Gaps(runs);
    if |marks| < 3 then NO_TIMING
    else
      var (dit, dahCut) := MarkCuts(marks, quantum, PairOf(marks, quantum));
      if dit < 0.020 || dit > 1.2 then NO_TIMING
      else
        var (letterCut, wordCut) := GapCuts(HistogramOf(gaps, quantum), GapBinsOf(gaps, quantum, dit), quantum, dit);
        Timing(dit, dahCut, letterCut, wordCut, true)
  }

  // ---------------------------------------------------------------- what the cuts promise

  ghost predicate Ascending(p: seq<nat>) {
    forall i, j :: 0 <= i < j < |p| ==> p[i] < p[j]
  }

  ghost predicate AllPeaks(p: seq<nat>, hist: seq<LengthBin>, least: nat, n: nat) {
    && (forall k :: k in p ==> k < n && IsPeak(hist, least, k))
    && (forall k :: 0 <= k < n && IsPeak(hist, least, k) ==> k in p)
  }

  lemma {:induction false} PeaksToAscend(hist: seq<LengthBin>, least: nat, n: nat)
    requires n <= |hist|
    ensures Ascending(PeaksTo(hist, least, n)) && AllPeaks(PeaksTo(hist, least, n), hist, least, n)
  {
    hide IsPeak;
    if 0 < n {
      PeaksToAscend(hist, least, n - 1);
      var p := PeaksTo(hist, least, n - 1);
      forall i | 0 <= i < |p| ensures p[i] < n - 1 {
        assert p[i] in p;
      }
    }
  }

  lemma {:induction false} FullestIsFullest(hist: seq<LengthBin>, n: nat)
    requires n <= |hist|
    ensures forall k :: 0 <= k < n ==> BinAt(hist, k).count <= BinAt(hist, Fullest(hist, n)).count
    ensures forall k :: 0 <= k < Fullest(hist, n) ==> BinAt(hist, k).count < BinAt(hist, Fullest(hist, n)).count
  {
    if 0 < n {
      FullestIsFullest(hist, n - 1);
    }
  }

  /** Peaks ascend and are occupied bins. */
  lemma PeaksOccupied(hist: seq<LengthBin>, total: nat)
    ensures Ascending(Peaks(hist, total))
    ensures forall k :: k in Peaks(hist, total) ==> k < |hist| && 0 < hist[k].count
  {
    hide PeaksTo, Fullest, Threshold;
    PeaksToAscend(hist, Threshold(total), |hist|);
  }

  /** Peaks are exactly the local maxima of enough height, where there are any; otherwise the one
      fullest bin. */
  lemma PeaksAreMaxima(hist: seq<LengthBin>, total: nat, k: nat)
    requires 0 < total && k < |hist| && IsPeak(hist, Threshold(total), k)
    ensures k in Peaks(hist, total)
    ensures forall i :: i in Peaks(hist, total) ==> i < |hist| && IsPeak(hist, Threshold(total), i)
  {
    hide PeaksTo, Threshold;
    PeaksToAscend(hist, Threshold(total), |hist|);
    FullestIsFullest(hist, |hist|);
  }

  // the pair

  ghost predicate PairSays(best: Pair, peaks: seq<nat>, n: nat, m: nat)
    requires n <= |peaks| && m <= |peaks|
  {
    match best
    case NoPair => forall i, j :: 0 <= i < |peaks| && 0 <= j < |peaks| && Tried(i, j, n, m) ==> !DahRatio(peaks[i], peaks[j])
    case Pair(dit, dah, score) =>
      && DahRatio(dit, dah) && score == Skew(dit, dah) && dit in peaks && dah in peaks
      && forall i, j :: 0 <= i < |peaks| && 0 <= j < |peaks| && Tried(i, j, n, m) && DahRatio(peaks[i], peaks[j]) ==>
           score <= Skew(peaks[i], peaks[j])
  }

  /** The pairs already compared: all of the first `n` rows, and `m` of row `n`. */
  predicate Tried(i: nat, j: nat, n: nat, m: nat) {
    i < n || (i == n && j < m)
  }

  lemma {:induction false} PairsWithSays(peaks: seq<nat>, n: nat, m: nat)
    requires n < |peaks| && m <= |peaks|
    requires PairSays(BestPair(peaks, n), peaks, n, 0)
    ensures PairSays(PairsWith(BestPair(peaks, n), peaks, peaks[n], m), peaks, n, m)
  {
    hide Skew, DahRatio, BestPair;
    if 0 < m {
      PairsWithSays(peaks, n, m - 1);
      var best, now := PairsWith(BestPair(peaks, n), peaks, peaks[n], m - 1), PairsWith(BestPair(peaks, n), peaks, peaks[n], m);
      assert now == Closer(best, peaks[n], peaks[m - 1]);
      assert forall i: nat, j: nat :: Tried(i, j, n, m) <==> Tried(i, j, n, m - 1) || (i == n && j == m - 1);
    }
  }

  /** Of all pairs of peaks in the admitted range, the one nearest to 1:3 is taken. */
  lemma {:induction false} BestPairSays(peaks: seq<nat>, n: nat)
    requires n <= |peaks|
    ensures PairSays(BestPair(peaks, n), peaks, n, 0)
  {
    hide Skew, DahRatio, PairsWith;
    if 0 < n {
      BestPairSays(peaks, n - 1);
      PairsWithSays(peaks, n - 1, |peaks|);
      assert forall i: nat, j: nat | i < |peaks| && j < |peaks| :: Tried(i, j, n, 0) <==> Tried(i, j, n - 1, |peaks|);
    }
  }

  // the valley

  lemma {:induction false} SideSays(vals: seq<real>, quantum: real, valley2: nat, below: bool, n: nat)
    requires n <= |vals| && quantum > 0.0
    ensures forall v :: v in Side(vals, quantum, valley2, below, n) <==> v in vals[..n] && OnSide(v, quantum, valley2, below)
  {
    hide OnSide;
    if 0 < n {
      SideSays(vals, quantum, valley2, below, n - 1);
      assert vals[..n] == vals[..n - 1] + [vals[n - 1]];
    }
  }

  lemma {:induction false} GreatestSays(vals: seq<real>, n: nat)
    requires 1 <= n <= |vals|
    ensures Greatest(vals, n) in vals && forall i :: 0 <= i < n ==> vals[i] <= Greatest(vals, n)
  {
    if 1 < n {
      GreatestSays(vals, n - 1);
    }
  }

  lemma {:induction false} LeastSays(vals: seq<real>, n: nat)
    requires 1 <= n <= |vals|
    ensures Least(vals, n) in vals && forall i :: 0 <= i < n ==> Least(vals, n) <= vals[i]
  {
    if 1 < n {
      LeastSays(vals, n - 1);
    }
  }

  /** A peak of the histogram is the bin of some length. */
  lemma PeakHasLength(vals: seq<real>, quantum: real, peak: nat) returns (i: nat)
    requires quantum > 0.0 && peak in Peaks(HistogramOf(vals, quantum), |vals|)
    ensures i < |vals| && BinOf(vals[i], quantum) == peak
  {
    hide Peaks, BinOf, Histogram;
    PeaksOccupied(HistogramOf(vals, quantum), |vals|);
    HistogramSays(vals, quantum, |vals|, peak);
    var slot := BinAt(Histogram(vals, quantum, |vals|), peak);
    assert 0 < slot.count;
    i :| 0 <= i < |vals| && BinOf(vals[i], quantum) == peak && vals[i] == slot.lo;
  }

  lemma OnSideOrdered(a: real, b: real, quantum: real, valley2: nat)
    requires quantum > 0.0 && OnSide(a, quantum, valley2, true) && OnSide(b, quantum, valley2, false)
    ensures a < b
  {
    hide BinOf;
    if b <= a {
      BinMonotone(b, a, quantum);
    }
  }

  /** Both clusters are occupied, and the cut lies strictly between them. */
  lemma DahCutSeparates(marks: seq<real>, quantum: real)
    requires quantum > 0.0 && PairOf(marks, quantum).Pair?
    ensures var pair := PairOf(marks, quantum);
            var cut := MarkCuts(marks, quantum, pair).1;
            && (exists m :: m in marks && OnSide(m, quantum, pair.dit + pair.dah, true))
            && (exists m :: m in marks && OnSide(m, quantum, pair.dit + pair.dah, false))
            && (forall m :: m in marks && OnSide(m, quantum, pair.dit + pair.dah, true) ==> m < cut)
            && (forall m :: m in marks && OnSide(m, quantum, pair.dit + pair.dah, false) ==> cut < m)
  {
    hide Peaks, HistogramOf, OnSide, BestPair, Greatest, Least, MedianOf, Side;
    var pair := PairOf(marks, quantum);
    var peaks := Peaks(HistogramOf(marks, quantum), |marks|);
    BestPairSays(peaks, |peaks|);
    var i := PeakHasLength(marks, quantum, pair.dit);
    var j := PeakHasLength(marks, quantum, pair.dah);
    var v2: nat := pair.dit + pair.dah;
    PeakSides(marks[i], marks[j], quantum, pair);
    ClustersSplit(marks, quantum, v2, marks[i], marks[j]);
  }

  lemma PeakSides(a: real, b: real, quantum: real, pair: Pair)
    requires quantum > 0.0 && pair.Pair? && BinOf(a, quantum) == pair.dit && BinOf(b, quantum) == pair.dah
    requires pair.dit < pair.dah
    ensures OnSide(a, quantum, pair.dit + pair.dah, true) && OnSide(b, quantum, pair.dit + pair.dah, false)
  {
  }

  lemma ClustersSplit(marks: seq<real>, quantum: real, v2: nat, a: real, b: real)
    requires quantum > 0.0 && a in marks && b in marks && OnSide(a, quantum, v2, true) && OnSide(b, quantum, v2, false)
    ensures var dits, dahs := Side(marks, quantum, v2, true, |marks|), Side(marks, quantum, v2, false, |marks|);
            && dits != [] && dahs != []
            && var cut := 0.5 * (Greatest(dits, |dits|) + Least(dahs, |dahs|));
            && (forall m :: m in marks && OnSide(m, quantum, v2, true) ==> m < cut)
            && (forall m :: m in marks && OnSide(m, quantum, v2, false) ==> cut < m)
  {
    hide OnSide, Side, Greatest, Least;
    var dits, dahs := Side(marks, quantum, v2, true, |marks|), Side(marks, quantum, v2, false, |marks|);
    assert marks[..|marks|] == marks;
    SideSays(marks, quantum, v2, true, |marks|);
    SideSays(marks, quantum, v2, false, |marks|);
    assert a in dits && b in dahs;
    GreatestSays(dits, |dits|);
    LeastSays(dahs, |dahs|);
    OnSideOrdered(Greatest(dits, |dits|), Least(dahs, |dahs|), quantum, v2);
    forall m | m in marks && OnSide(m, quantum, v2, true) ensures m <= Greatest(dits, |dits|) {
      assert m in dits;
    }
    forall m | m in marks && OnSide(m, quantum, v2, false) ensures Least(dahs, |dahs|) <= m {
      assert m in dahs;
    }
  }

  // the gaps

  lemma {:induction false} ShortestPositive(hist: seq<LengthBin>, mid2: int, n: nat)
    requires n <= |hist| && forall b :: 0 <= b < n && 0 < hist[b].count ==> 0.0 < hist[b].lo
    ensures 0.0 < ShortestAbove(hist, mid2, n)
  {
    if 0 < n {
      ShortestPositive(hist, mid2, n - 1);
    }
  }

  lemma GapHistogramPositive(gaps: seq<real>, quantum: real, b: nat)
    requires quantum > 0.0 && b < |HistogramOf(gaps, quantum)| && 0 < HistogramOf(gaps, quantum)[b].count
    requires forall i :: 0 <= i < |gaps| ==> LEAST_MARK <= gaps[i]
    ensures 0.0 < HistogramOf(gaps, quantum)[b].lo
  {
    hide Histogram, BinOf;
    HistogramSays(gaps, quantum, |gaps|, b);
  }

  lemma {:induction false} PlaceGapsPositive(peaks: seq<nat>, quantum: real, dit: real, n: nat)
    requires n <= |peaks| && 0.0 < dit && 0.0 < quantum
    ensures var g := PlaceGaps(peaks, quantum, dit, n);
            g.element != 0 && g.letter != 0 && g.word != 0
  {
    if 0 < n {
      PlaceGapsPositive(peaks, quantum, dit, n - 1);
    }
  }

  lemma EdgeCutPositive(gaps: seq<real>, quantum: real, loBin: int, hiBin: int, fallback: real)
    requires quantum > 0.0 && fallback > 0.0 && loBin != 0 && hiBin != 0
    requires forall i :: 0 <= i < |gaps| ==> LEAST_MARK <= gaps[i]
    ensures 0.0 < EdgeCut(HistogramOf(gaps, quantum), loBin, hiBin, fallback, quantum)
  {
    hide HistogramOf, LongestBelow, ShortestAbove;
    var hist := HistogramOf(gaps, quantum);
    forall b | 0 <= b < |hist| && 0 < hist[b].count ensures 0.0 < hist[b].lo {
      GapHistogramPositive(gaps, quantum, b);
    }
    ShortestPositive(hist, loBin + hiBin, |hist|);
    if 0 < loBin && 0 < hiBin {
      MidPositive(loBin + hiBin, quantum);
    }
  }

  lemma MidPositive(sum: int, quantum: real)
    requires 0 < sum && 0.0 < quantum
    ensures 0.0 < 0.5 * sum as real * quantum
  {
  }

  /** Whatever was measured, the space cuts are positive and in order. */
  lemma CutsOrdered(runs: seq<Run>, columnSec: real)
    requires Measure(runs, columnSec).ok
    ensures var t := Measure(runs, columnSec);
            0.020 <= t.dit <= 1.2 && 0.0 < t.letterCut < t.wordCut
  {
    hide MarkCuts, EdgeCut, HistogramOf, PairOf, Lengths, Peaks, PlaceGaps, QuantumOf;
    var t, quantum, gaps := Measure(runs, columnSec), QuantumOf(columnSec), Gaps(runs);
    var peaks := Peaks(HistogramOf(gaps, quantum), |gaps|);
    var g := GapBinsOf(gaps, quantum, t.dit);
    PlaceGapsPositive(peaks, quantum, t.dit, |peaks|);
    EdgeCutPositive(gaps, quantum, g.element, g.letter, t.dit * 2.0);
  }
}
