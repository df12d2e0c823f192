/** Runs out of waterfall columns: the scan that keeps only the current state, and the run-length
    encoding of a whole column sequence that it must produce. */
module SpectrumScan {
  import opened SpectrumRuns

  datatype Column = Column(tSec: real, on: bool)

  /** What the scan remembers. */
  datatype Scan = Scan(haveState: bool, isOn: bool, start: real, sawMark: bool, runs: seq<Run>)

  function ScanColumn(s: Scan, col: Column): Scan {
    if !s.haveState then Scan(true, col.on, col.tSec, col.on, s.runs)
    else if col.on == s.isOn then s
    else
      var dur := col.tSec - s.start;
      var kept := dur >= LEAST_MARK && (s.isOn || s.sawMark);
      Scan(true, col.on, col.tSec, s.sawMark || (s.isOn && kept), if kept then s.runs + [Run(s.isOn, dur)] else s.runs)
  }

  function ScanTo(cols: seq<Column>, from: nat, to: nat): Scan
    requires from <= to <= |cols|
  {
    if to == from then Scan(false, false, 0.0, false, []) else ScanColumn(ScanTo(cols, from, to - 1), cols[to - 1])
  }

  // ---------------------------------------------------------------- run-length encoding

  /** The first column of the stretch of equal columns that column `i` belongs to. */
  function StretchStart(cols: seq<Column>, from: nat, i: nat): (s: nat)
    requires from <= i < |cols|
    ensures from <= s <= i
  {
    if i == from || cols[i - 1].on != cols[i].on then i else StretchStart(cols, from, i - 1)
  }

  /** The stretch is uniform, and cannot be extended to the left. */
  lemma {:induction false} StretchMaximal(cols: seq<Column>, from: nat, i: nat)
    requires from <= i < |cols|
    ensures var s := StretchStart(cols, from, i);
            && (forall k :: s <= k <= i ==> cols[k].on == cols[i].on)
            && (s == from || cols[s - 1].on != cols[i].on)
  {
    if i != from && cols[i - 1].on == cols[i].on {
      StretchMaximal(cols, from, i - 1);
    }
  }

  /** A stretch that column `j` ends and that lasted long enough. */
  predicate LongStretch(cols: seq<Column>, from: nat, j: nat)
    requires from < j < |cols|
  {
    cols[j].on != cols[j - 1].on && cols[j].tSec - cols[StretchStart(cols, from, j - 1)].tSec >= LEAST_MARK
  }

  /** Before column `j` a mark has been heard, or the columns began with the key down. */
  ghost predicate Heard(cols: seq<Column>, from: nat, j: nat)
    requires from <= j <= |cols|
  {
    from < j && (cols[from].on || exists m :: from < m < j && LongStretch(cols, from, m) && cols[m - 1].on)
  }

  /** The run-length encoding of `cols[from..to]`, last stretch excluded: stretches that are too
      short, and spaces before the first mark, are dropped. */
  ghost function BatchRuns(cols: seq<Column>, from: nat, to: nat): seq<Run>
    requires from <= to <= |cols|
  {
    if to <= from + 1 then []
    else
      var j := to - 1;
      BatchRuns(cols, from, j) +
      (if LongStretch(cols, from, j) && (cols[j - 1].on || Heard(cols, from, j))
       then [Run(cols[j - 1].on, cols[j].tSec - cols[StretchStart(cols, from, j - 1)].tSec)] else [])
  }

  lemma HeardNext(cols: seq<Column>, from: nat, j: nat)
    requires from < j < |cols|
    ensures Heard(cols, from, j + 1) <==> Heard(cols, from, j) || (LongStretch(cols, from, j) && cols[j - 1].on)
  {
    hide LongStretch;
  }

  /** The scan state is a summary of the columns seen, and its runs are their encoding. */
  lemma {:induction false} ScanIsBatch(cols: seq<Column>, from: nat, to: nat)
    requires from < to <= |cols|
    ensures ScanTo(cols, from, to)
         == Scan(true, cols[to - 1].on, cols[StretchStart(cols, from, to - 1)].tSec, Heard(cols, from, to), BatchRuns(cols, from, to))
  {
    if from + 1 < to {
      hide Heard;
      var j: nat := to - 1;
      ScanIsBatch(cols, from, j);
      HeardNext(cols, from, j);
    }
  }

  lemma {:induction false} ScanPrefix(cols: seq<Column>, more: seq<Column>, from: nat, to: nat)
    requires from <= to <= |cols|
    ensures ScanTo(cols + more, from, to) == ScanTo(cols, from, to)
  {
    hide ScanColumn;
    if from < to {
      ScanPrefix(cols, more, from, to - 1);
    }
  }
}
