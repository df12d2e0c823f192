/** `measure` as it runs, loop by loop, on growing histograms and lists. */
module SpectrumMeasure {
  import opened RealNumbers
  import opened SpectrumRuns
  import opened SpectrumTiming
  import opened Sorting

  lemma {:induction false} NoPeaksInEmpty(hist: seq<LengthBin>, least: nat, m: nat, n: nat)
    requires m <= n <= |hist| && 0 < least && forall b :: m <= b < n ==> hist[b].count == 0
    ensures PeaksTo(hist, least, n) == PeaksTo(hist, least, m)
  {
    if m < n {
      NoPeaksInEmpty(hist, least, m, n - 1);
    }
  }

  lemma {:induction false} FullestSkipsEmpty(hist: seq<LengthBin>, m: nat, n: nat)
    requires m <= n <= |hist| && forall b :: m <= b < n ==> hist[b].count == 0
    ensures BinAt(hist, Fullest(hist, m)).count == BinAt(hist, Fullest(hist, n)).count
    ensures Fullest(hist, m) == Fullest(hist, n)
  {
    if m < n {
      FullestSkipsEmpty(hist, m, n - 1);
    }
  }

  lemma {:induction false} FullestEmpty(hist: seq<LengthBin>, n: nat)
    requires n <= |hist| && forall b :: 0 <= b < n ==> hist[b].count == 0
    ensures Fullest(hist, n) == 0
  {
    if 0 < n {
      FullestEmpty(hist, n - 1);
    }
  }

  /** The first and last occupied bins. */
  method Ends(hist: seq<LengthBin>) returns (first: int, last: int)
    ensures first < 0 ==> forall b :: 0 <= b < |hist| ==> hist[b].count == 0
    ensures 0 <= first ==> first <= last < |hist| && 0 < hist[first].count
    ensures 0 <= first ==> forall b :: 0 <= b < |hist| && 0 < hist[b].count ==> first <= b <= last
  {
    first, last := -1, -1;
    for i := 0 to |hist|
      invariant first < 0 ==> forall b :: 0 <= b < i ==> hist[b].count == 0
      invariant 0 <= first ==> first <= last < i && 0 < hist[first].count
      invariant 0 <= first ==> forall b :: 0 <= b < i && 0 < hist[b].count ==> first <= b <= last
    {
      if hist[i].count > 0 {
        if first < 0 {
          first := i;
        }
        last := i;
      }
    }
  }

  /** `histogramPeaks` */
  method HistogramPeaks(hist: seq<LengthBin>, total: nat) returns (peaks: seq<nat>)
    ensures peaks == Peaks(hist, total)
  {
    hide Threshold, Fullest, PeaksTo;
    peaks := [];
    if total == 0 || hist == [] {
      EmptyHistogram(hist);
      return;
    }
    var thresh := Threshold(total);
    var first, last := Ends(hist);
    if first < 0 {
      FullestEmpty(hist, |hist|);
      return;
    }
    peaks := ScanPeaks(hist, thresh, first, last);
    var best := ScanFullest(hist, first, last);
    if peaks == [] {
      peaks := [best];
    }
  }

  lemma EmptyHistogram(hist: seq<LengthBin>)
    ensures hist == [] ==> BinAt(hist, Fullest(hist, |hist|)).count == 0
  {
  }

  method ScanPeaks(hist: seq<LengthBin>, thresh: nat, first: nat, last: nat) returns (peaks: seq<nat>)
    requires 0 < thresh && first <= last < |hist|
    requires forall b :: 0 <= b < |hist| && 0 < hist[b].count ==> first <= b <= last
    ensures peaks == PeaksTo(hist, thresh, |hist|)
  {
    peaks := [];
    NoPeaksInEmpty(hist, thresh, 0, first);
    for k := first to last + 1
      invariant peaks == PeaksTo(hist, thresh, k)
    {
      var count := hist[k].count;
      if count < thresh {
        continue;
      }
      var left := if k > 0 then hist[k - 1].count else 0;
      var right := if k + 1 < |hist| then hist[k + 1].count else 0;
      if count >= left && count > right {
        peaks := peaks + [k];
      }
    }
    NoPeaksInEmpty(hist, thresh, last + 1, |hist|);
  }

  method ScanFullest(hist: seq<LengthBin>, first: nat, last: nat) returns (best: nat)
    requires first <= last < |hist| && 0 < hist[first].count
    requires forall b :: 0 <= b < |hist| && 0 < hist[b].count ==> first <= b <= last
    ensures best == Fullest(hist, |hist|) && 0 < BinAt(hist, best).count
  {
    best := first;
    FullestEmpty(hist, first);
    for k := first to last + 1
      invariant first <= best < |hist| && 0 < hist[best].count
      invariant k == first ==> best == first
      invariant k > first ==> best == Fullest(hist, k)
    {
      if hist[k].count > hist[best].count {
        best := k;
      }
    }
    FullestSkipsEmpty(hist, last + 1, |hist|);
  }

  method FindPair(peaks: seq<nat>) returns (best: Pair)
    ensures best == BestPair(peaks, |peaks|)
  {
    hide Closer;
    best := NoPair;
    for i := 0 to |peaks|
      invariant best == BestPair(peaks, i)
    {
      for j := 0 to |peaks|
        invariant best == PairsWith(BestPair(peaks, i), peaks, peaks[i], j)
      {
        best := Closer(best, peaks[i], peaks[j]);
      }
    }
  }

  /** The greatest and least of a list that is not empty, as the library finds them. */
  method Extremes(vals: seq<real>) returns (lo: real, hi: real)
    requires vals != []
    ensures lo == Least(vals, |vals|) && hi == Greatest(vals, |vals|)
  {
    lo, hi := vals[0], vals[0];
    for i := 1 to |vals|
      invariant lo == Least(vals, i) && hi == Greatest(vals, i)
    {
      lo, hi := Min(lo, vals[i]), Max(hi, vals[i]);
    }
  }

  method CutMarks(marks: seq<real>, quantum: real, pair: Pair) returns (dit: real, dahCut: real)
    requires quantum > 0.0
    ensures dit == MarkCuts(marks, quantum, pair).0 && dahCut == MarkCuts(marks, quantum, pair).1
  {
    hide BinOf, MedianOf, Greatest, Least;
    if pair.NoPair? {
      dit := MedianOf(marks);
      dahCut := dit * 2.0;
      return;
    }
    var valley := 0.5 * (pair.dit + pair.dah) as real;
    var ditVals, dahVals := [], [];
    for i := 0 to |marks|
      invariant ditVals == Side(marks, quantum, pair.dit + pair.dah, true, i)
      invariant dahVals == Side(marks, quantum, pair.dit + pair.dah, false, i)
    {
      var bin := BinOf(marks[i], quantum);
      if (bin as real) < valley {
        ditVals := ditVals + [marks[i]];
      } else if bin as real > valley {
        dahVals := dahVals + [marks[i]];
      }
    }
    dit := if ditVals == [] then pair.dit as real * quantum else MedianOf(ditVals);
    if ditVals != [] && dahVals != [] {
      var ditLo, ditHi := Extremes(ditVals);
      var dahLo, dahHi := Extremes(dahVals);
      dahCut := 0.5 * (ditHi + dahLo);
    } else {
      dahCut := valley * quantum;
    }
  }

  method PlacePeaks(peaks: seq<nat>, quantum: real, dit: real) returns (g: GapBins)
    requires dit > 0.0
    ensures g == PlaceGaps(peaks, quantum, dit, |peaks|)
  {
    hide PlaceGap;
    g := GapBins(-1, -1, -1);
    for i := 0 to |peaks|
      invariant g == PlaceGaps(peaks, quantum, dit, i)
    {
      g := PlaceGap(g, peaks[i], quantum, dit);
    }
  }

  method CutEdge(hist: seq<LengthBin>, loBin: int, hiBin: int, fallback: real, quantum: real) returns (cut: real)
    ensures cut == EdgeCut(hist, loBin, hiBin, fallback, quantum)
  {
    if loBin < 0 || hiBin < 0 {
      return fallback;
    }
    var mid := 0.5 * (loBin + hiBin) as real;
    var loMax, hiMin := -1.0, FAR;
    for b := 0 to |hist|
      invariant loMax == LongestBelow(hist, loBin + hiBin, b)
      invariant hiMin == ShortestAbove(hist, loBin + hiBin, b)
    {
      if hist[b].count <= 0 {
        continue;
      }
      if b as real <= mid {
        loMax := Max(loMax, hist[b].hi);
      } else {
        hiMin := Min(hiMin, hist[b].lo);
      }
    }
    cut := if loMax > 0.0 && hiMin < 100000000.0 then 0.5 * (loMax + hiMin) else mid * quantum;
  }

  /** The first loop of `measure`: lengths and histograms of marks and spaces. */
  method Collect(runs: seq<Run>, quantum: real)
    returns (marks: seq<real>, gaps: seq<real>, markHist: seq<LengthBin>, gapHist: seq<LengthBin>)
    requires quantum > 0.0
    ensures marks == Marks(runs) && markHist == HistogramOf(marks, quantum)
    ensures gaps == Gaps(runs) && gapHist == HistogramOf(gaps, quantum)
  {
    hide NoteBin, BinOf;
    marks, gaps, markHist, gapHist := [], [], [], [];
    for i := 0 to |runs|
      invariant marks == Lengths(runs, true, i) && markHist == Histogram(marks, quantum, |marks|)
      invariant gaps == Lengths(runs, false, i) && gapHist == Histogram(gaps, quantum, |gaps|)
    {
      var run := runs[i];
      if run.sec < LEAST_MARK || run.sec >= LONGEST {
        continue;
      }
      var bin := BinOf(run.sec, quantum);
      if run.on {
        HistogramNext(marks, quantum, run.sec);
        marks, markHist := marks + [run.sec], NoteBin(markHist, bin, run.sec);
      } else {
        HistogramNext(gaps, quantum, run.sec);
        gaps, gapHist := gaps + [run.sec], NoteBin(gapHist, bin, run.sec);
      }
    }
  }

  lemma {:induction false} HistogramPrefix(vals: seq<real>, more: seq<real>, quantum: real, n: nat)
    requires n <= |vals| && quantum > 0.0
    ensures Histogram(vals + more, quantum, n) == Histogram(vals, quantum, n)
  {
    hide NoteBin, BinOf;
    if 0 < n {
      HistogramPrefix(vals, more, quantum, n - 1);
    }
  }

  lemma HistogramNext(vals: seq<real>, quantum: real, sec: real)
    requires quantum > 0.0
    ensures Histogram(vals + [sec], quantum, |vals| + 1)
         == NoteBin(Histogram(vals, quantum, |vals|), BinOf(sec, quantum), sec)
  {
    hide NoteBin, BinOf;
    HistogramPrefix(vals, [sec], quantum, |vals|);
  }

  /** `measure` */
  method MeasureRuns(runs: seq<Run>, columnSec: real) returns (timing: Timing)
    ensures timing == Measure(runs, columnSec)
  {
    hide MarkCuts, HistogramOf, Lengths, QuantumOf, Peaks, BestPair, PlaceGaps, EdgeCut;
    timing := NO_TIMING;
    var quantum := QuantumOf(columnSec);
    var marks, gaps, markHist, gapHist := Collect(runs, quantum);
    if |marks| < 3 {
      return;
    }
    var markPeaks := HistogramPeaks(markHist, |marks|);
    var pair := FindPair(markPeaks);
    var dit, dahCut := CutMarks(marks, quantum, pair);
    if dit < 0.020 || dit > 1.2 {
      return;
    }
    var gapPeaks := HistogramPeaks(gapHist, |gaps|);
    var g := PlacePeaks(gapPeaks, quantum, dit);
    var letterCut := CutEdge(gapHist, g.element, g.letter, dit * 2.0, quantum);
    var wordCut := CutEdge(gapHist, if g.letter >= 0 then g.letter else g.element, g.word,
                           Max(letterCut * 2.2, dit * 5.0), quantum);
    if wordCut <= letterCut {
      wordCut := letterCut * 2.2;
    }
    timing := Timing(dit, dahCut, letterCut, wordCut, true);
  }
}
