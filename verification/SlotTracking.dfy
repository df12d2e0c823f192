/** Slices of the spectrum and the peak each of them follows: slot arithmetic, the strongest peak of
    a column, and the rule by which a slice moves to another peak. */
module SlotTracking {
  import opened Options
  import opened RealNumbers

  const SLOT_HZ := 1000.0
  const MAX_CHANNELS := 48
  const MIN_SNR := 16.0
  const FOLLOW_HZ := 150.0
  const SWITCH_MARGIN := 1.5
  const SWITCH_COLUMNS := 2

  datatype Peak = Peak(offset: real, power: real, snr: real)

  /** The tracking fields of a channel. */
  datatype Lock = Lock(active: bool, offset: real, snr: real, switchHz: real, switchHits: int, sustained: bool,
                       bornSerial: int, lastSeen: int)

  /** One spectrum column as a slice sees it. */
  datatype Column = Column(spectrum: seq<real>, binWidth: real, noise: real, serial: int, now: int)

  // ---------------------------------------------------------------- slots

  /** `slotCountForSpan` */
  function SlotCount(span: real): (n: nat)
    ensures 1 <= n <= MAX_CHANNELS
  {
    if !(span > 1.0) then 1
    else
      var n := (span / SLOT_HZ + 0.5).Floor;
      if n < 1 then 1 else if n > MAX_CHANNELS then MAX_CHANNELS else n
  }

  /** The whole number of kilohertz nearest to the span, from 1 to 48. */
  lemma SlotCountSays(span: real)
    ensures span < 500.0 ==> SlotCount(span) == 1
    ensures 48500.0 <= span ==> SlotCount(span) == 48
    ensures 500.0 <= span < 48500.0 ==>
              1000.0 * SlotCount(span) as real - 500.0 <= span < 1000.0 * SlotCount(span) as real + 500.0
  {
  }

  function SlotWidth(span: real): real {
    span / SlotCount(span) as real
  }

  function SlotLow(span: real, slot: int): real {
    -span / 2.0 + slot as real * SlotWidth(span)
  }

  /** `slotForOffset` */
  function SlotFor(offset: real, span: real): (slot: int)
    requires 0.0 < span
    ensures 0 <= slot < SlotCount(span)
  {
    WidthPositive(span);
    var slot := ((offset + span / 2.0) / SlotWidth(span)).Floor;
    if slot < 0 then 0 else if slot >= SlotCount(span) then SlotCount(span) - 1 else slot
  }

  lemma WidthPositive(span: real)
    requires 0.0 < span
    ensures 0.0 < SlotWidth(span) && SlotWidth(span) * SlotCount(span) as real == span
  {
  }

  predicate InSlot(offset: real, span: real, slot: int) {
    SlotLow(span, slot) <= offset < SlotLow(span, slot) + SlotWidth(span)
  }

  lemma MulOrder(a: real, b: real, w: real)
    requires 0.0 < w
    ensures a <= b ==> a * w <= b * w
    ensures a > b ==> a * w > b * w
  {
    var d := b - a;
    assert b * w - a * w == d * w;
    if a <= b {
      assert d * w >= 0.0;
    } else {
      assert (-d) * w > 0.0;
    }
  }

  lemma ProductOrder(q: real, w: real, k: real, x: real)
    requires 0.0 < w && q * w == x
    ensures k <= q ==> k * w <= x
    ensures k > q ==> k * w > x
  {
    MulOrder(k, q, w);
  }

  lemma QuotientOf(x: real, w: real)
    requires 0.0 < w
    ensures x / w * w == x
  {
  }

  lemma FloorIs(q: real, k: int)
    ensures q.Floor == k <==> k as real <= q && !(k as real + 1.0 <= q)
  {
  }

  lemma Quotient(x: real, w: real, k: int)
    requires 0.0 < w
    ensures k as real * w <= x < k as real * w + w <==> (x / w).Floor == k
  {
    QuotientOf(x, w);
    Between(x / w, w, k as real, x);
    FloorIs(x / w, k);
  }

  lemma Between(q: real, w: real, k: real, x: real)
    requires 0.0 < w && q * w == x
    ensures k * w <= x < k * w + w <==> k <= q && !(k + 1.0 <= q)
  {
    ProductOrder(q, w, k, x);
    ProductOrder(q, w, k + 1.0, x);
    assert (k + 1.0) * w == k * w + w;
  }

  lemma QuotientInside(x: real, w: real, n: nat)
    requires 0.0 < w && 0.0 <= x < n as real * w
    ensures 0 <= (x / w).Floor < n
  {
    var q := x / w;
    QuotientOf(x, w);
    ProductOrder(q, w, 0.0, x);
    ProductOrder(q, w, n as real, x);
  }

  /** Inside the span, a slot contains exactly the offsets that map to it. */
  lemma SlotContainsItsOffsets(offset: real, span: real, slot: int)
    requires 0.0 < span && 0 <= slot < SlotCount(span)
    ensures InSlot(offset, span, slot) ==> SlotFor(offset, span) == slot
    ensures -span / 2.0 <= offset < span / 2.0 && SlotFor(offset, span) == slot ==> InSlot(offset, span, slot)
  {
    hide SlotCount, SlotWidth;
    WidthPositive(span);
    var x := offset + span / 2.0;
    Quotient(x, SlotWidth(span), slot);
    if 0.0 <= x < span {
      QuotientInside(x, SlotWidth(span), SlotCount(span));
    }
  }

  // ---------------------------------------------------------------- the strongest peak

  function OffsetOf(col: Column, b: int): real {
    (b - |col.spectrum| / 2) as real * col.binWidth
  }

  /** A bin above the gate, not below its neighbors, and above one of the two next to it. */
  predicate IsPeakBin(col: Column, b: int) {
    && 2 <= b < |col.spectrum| - 2 && col.spectrum[b] >= col.noise + MIN_SNR
    && col.spectrum[b] >= col.spectrum[b - 1] && col.spectrum[b] >= col.spectrum[b + 1]
    && col.spectrum[b] >= col.spectrum[b - 2] && col.spectrum[b] >= col.spectrum[b + 2]
    && (col.spectrum[b] > col.spectrum[b - 1] || col.spectrum[b] > col.spectrum[b + 1])
  }

  predicate Eligible(col: Column, low: real, high: real, b: int) {
    IsPeakBin(col, b) && low <= OffsetOf(col, b) < high
  }

  function PeakAt(col: Column, b: int): Peak
    requires 0 <= b < |col.spectrum|
  {
    Peak(OffsetOf(col, b), col.spectrum[b], col.spectrum[b] - col.noise)
  }

  function StrongestTo(col: Column, low: real, high: real, n: nat): Option<Peak>
    requires n <= |col.spectrum|
  {
    if n == 0 then None
    else
      var best := StrongestTo(col, low, high, n - 1);
      if Eligible(col, low, high, n - 1) && (best.None? || PeakAt(col, n - 1).snr > best.value.snr)
      then Some(PeakAt(col, n - 1)) else best
  }

  /** `findStrongestPeak` */
  function Strongest(col: Column, low: real, high: real): Option<Peak> {
    if |col.spectrum| < 8 || col.binWidth <= 0.0 || !(high > low) then None
    else StrongestTo(col, low, high, |col.spectrum|)
  }

  /** Bin `b` is eligible, no eligible bin below `n` is stronger, and none before it is as strong. */
  ghost predicate IsStrongest(col: Column, low: real, high: real, n: nat, b: int)
    requires n <= |col.spectrum|
  {
    && 0 <= b < n && Eligible(col, low, high, b)
    && (forall c :: 0 <= c < n && Eligible(col, low, high, c) ==> col.spectrum[c] <= col.spectrum[b])
    && (forall c :: 0 <= c < b && Eligible(col, low, high, c) ==> col.spectrum[c] < col.spectrum[b])
  }

  ghost predicate StrongestSays(best: Option<Peak>, col: Column, low: real, high: real, n: nat)
    requires n <= |col.spectrum|
  {
    match best
    case None => forall b :: 0 <= b < n ==> !Eligible(col, low, high, b)
    case Some(p) => exists b :: 0 <= b < n && IsStrongest(col, low, high, n, b) && p == PeakAt(col, b)
  }

  lemma StrongestNext(col: Column, low: real, high: real, n: nat, b: int)
    requires n < |col.spectrum| && IsStrongest(col, low, high, n, b)
    ensures Eligible(col, low, high, n) && col.spectrum[n] > col.spectrum[b] ==> IsStrongest(col, low, high, n + 1, n)
    ensures !(Eligible(col, low, high, n) && col.spectrum[n] > col.spectrum[b]) ==> IsStrongest(col, low, high, n + 1, b)
  {
    hide Eligible;
  }

  lemma StrongestFirst(col: Column, low: real, high: real, n: nat)
    requires n < |col.spectrum| && forall b :: 0 <= b < n ==> !Eligible(col, low, high, b)
    ensures Eligible(col, low, high, n) ==> IsStrongest(col, low, high, n + 1, n)
  {
    hide Eligible;
  }

  /** The peak found is an eligible bin of the greatest power, the first of them; none is found
      only if there is none. */
  lemma {:induction false} StrongestIsStrongest(col: Column, low: real, high: real, n: nat)
    requires n <= |col.spectrum|
    ensures StrongestSays(StrongestTo(col, low, high, n), col, low, high, n)
  {
    hide Eligible, OffsetOf, IsStrongest;
    if 0 < n {
      StrongestIsStrongest(col, low, high, n - 1);
      var best := StrongestTo(col, low, high, n - 1);
      if best.Some? {
        var b :| 0 <= b < n - 1 && IsStrongest(col, low, high, n - 1, b) && best.value == PeakAt(col, b);
        StrongestNext(col, low, high, n - 1, b);
      } else {
        StrongestFirst(col, low, high, n - 1);
      }
    }
  }

  // ---------------------------------------------------------------- following

  function NearLow(l: Lock, slotLow: real): real {
    Max(slotLow, l.offset - FOLLOW_HZ)
  }

  function NearHigh(l: Lock, slotHigh: real): real {
    Min(slotHigh, l.offset + FOLLOW_HZ + 1.0)
  }

  function BestOf(col: Column, slotLow: real, slotHigh: real): Option<Peak> {
    Strongest(col, slotLow, slotHigh)
  }

  function NearOf(l: Lock, col: Column, slotLow: real, slotHigh: real): Option<Peak> {
    Strongest(col, NearLow(l, slotLow), NearHigh(l, slotHigh))
  }

  /** `armSlot` and `retargetSlot`, as far as the tracking goes. */
  function LockedOn(l: Lock, p: Peak, col: Column): Lock {
    Lock(true, p.offset, p.snr, p.offset, 0, false, col.serial, col.now)
  }

  predicate Follows(l: Lock, best: Option<Peak>, near: Option<Peak>) {
    near.Some? && (best.None? || Abs(best.value.offset - l.offset) <= FOLLOW_HZ || near.value.snr + SWITCH_MARGIN >= best.value.snr)
  }

  function Followed(l: Lock, near: Peak, col: Column): Lock {
    l.(offset := near.offset, snr := 0.8 * l.snr + 0.2 * near.snr, switchHits := 0, lastSeen := col.now,
       sustained := l.sustained || l.bornSerial != col.serial)
  }

  /** The strongest peak lies outside the follow window, and is stronger by the margin than
      anything inside it. */
  predicate Candidate(l: Lock, best: Option<Peak>, near: Option<Peak>) {
    && l.active && best.Some? && Abs(best.value.offset - l.offset) > FOLLOW_HZ
    && (near.Some? ==> best.value.snr > near.value.snr + SWITCH_MARGIN)
  }

  function Counted(l: Lock, best: Peak): Lock {
    if l.switchHits > 0 && Abs(best.offset - l.switchHz) <= FOLLOW_HZ then l.(switchHits := l.switchHits + 1)
    else l.(switchHits := 1, switchHz := best.offset)
  }

  /** `trackSlot` */
  function Tracked(l: Lock, col: Column, slotLow: real, slotHigh: real): Lock {
    var best, near := BestOf(col, slotLow, slotHigh), NearOf(l, col, slotLow, slotHigh);
    if !l.active then (if best.Some? then LockedOn(l, best.value, col) else l)
    else if Follows(l, best, near) then Followed(l, near.value, col)
    else if best.None? || Abs(best.value.offset - l.offset) <= FOLLOW_HZ then l.(switchHits := 0)
    else if near.Some? && !(best.value.snr > near.value.snr + SWITCH_MARGIN) then l.(switchHits := 0)
    else
      var c := Counted(l, best.value);
      if c.switchHits >= SWITCH_COLUMNS then LockedOn(c, best.value, col) else c
  }

  /** Whether the column makes a slice lock on: a free one to any peak, an active one to a second
      candidate. */
  predicate LocksOn(l: Lock, col: Column, slotLow: real, slotHigh: real) {
    var best, near := BestOf(col, slotLow, slotHigh), NearOf(l, col, slotLow, slotHigh);
    if !l.active then best.Some?
    else Candidate(l, best, near) && Counted(l, best.value).switchHits >= SWITCH_COLUMNS
  }

  // ---------------------------------------------------------------- one column

  lemma StrongestInside(col: Column, low: real, high: real)
    requires Strongest(col, low, high).Some?
    ensures low <= Strongest(col, low, high).value.offset < high
  {
    hide IsPeakBin, OffsetOf;
    StrongestIsStrongest(col, low, high, |col.spectrum|);
  }

  /** A peak of a wider window that lies in a narrower one is the strongest there as well. */
  lemma StrongestNarrow(col: Column, low: real, high: real, low2: real, high2: real)
    requires low <= low2 && high2 <= high && Strongest(col, low, high).Some?
    requires low2 <= Strongest(col, low, high).value.offset < high2
    ensures Strongest(col, low2, high2).Some? && Strongest(col, low2, high2).value.snr >= Strongest(col, low, high).value.snr
  {
    hide IsPeakBin, OffsetOf;
    var n := |col.spectrum|;
    StrongestIsStrongest(col, low, high, n);
    StrongestIsStrongest(col, low2, high2, n);
    var p := Strongest(col, low, high).value;
    var b :| 0 <= b < n && IsStrongest(col, low, high, n, b) && p == PeakAt(col, b);
    assert Eligible(col, low2, high2, b);
  }

  /** Whether an offset lies in the follow window of a lock. */
  predicate InWindow(l: Lock, offset: real) {
    l.offset - FOLLOW_HZ <= offset < l.offset + FOLLOW_HZ + 1.0
  }

  /** A candidate lies outside the whole follow window. */
  lemma CandidateOutside(l: Lock, col: Column, slotLow: real, slotHigh: real)
    requires Candidate(l, BestOf(col, slotLow, slotHigh), NearOf(l, col, slotLow, slotHigh))
    ensures !InWindow(l, BestOf(col, slotLow, slotHigh).value.offset)
  {
    hide Strongest;
    StrongestInside(col, slotLow, slotHigh);
    if InWindow(l, BestOf(col, slotLow, slotHigh).value.offset) {
      StrongestNarrow(col, slotLow, slotHigh, NearLow(l, slotLow), NearHigh(l, slotHigh));
    }
  }

  /** The steps of an active lock: it counts a candidate, or stays in its window and forgets. */
  lemma TrackedCases(l: Lock, col: Column, slotLow: real, slotHigh: real)
    requires l.active && 0 <= l.switchHits
    ensures var best, near, m := BestOf(col, slotLow, slotHigh), NearOf(l, col, slotLow, slotHigh), Tracked(l, col, slotLow, slotHigh);
            && m.active
            && (!Candidate(l, best, near) ==> m.switchHits == 0 && InWindow(l, m.offset))
            && (Candidate(l, best, near) && (l.switchHits == 0 || Abs(best.value.offset - l.switchHz) > FOLLOW_HZ) ==>
                  m == l.(switchHits := 1, switchHz := best.value.offset))
            && (Candidate(l, best, near) && 1 <= l.switchHits && Abs(best.value.offset - l.switchHz) <= FOLLOW_HZ ==>
                  m.offset == best.value.offset && m.switchHits == 0 && !InWindow(l, m.offset))
  {
    hide Strongest;
    var best, near := BestOf(col, slotLow, slotHigh), NearOf(l, col, slotLow, slotHigh);
    if near.Some? {
      StrongestInside(col, NearLow(l, slotLow), NearHigh(l, slotHigh));
    }
    if Candidate(l, best, near) {
      CandidateOutside(l, col, slotLow, slotHigh);
    }
  }

  lemma TrackedInSlot(l: Lock, col: Column, slotLow: real, slotHigh: real)
    requires l.active ==> slotLow <= l.offset < slotHigh
    ensures Tracked(l, col, slotLow, slotHigh).active ==> slotLow <= Tracked(l, col, slotLow, slotHigh).offset < slotHigh
  {
    hide Strongest;
    var best, near := BestOf(col, slotLow, slotHigh), NearOf(l, col, slotLow, slotHigh);
    if best.Some? {
      StrongestInside(col, slotLow, slotHigh);
    }
    if near.Some? {
      StrongestInside(col, NearLow(l, slotLow), NearHigh(l, slotHigh));
    }
  }

  // ---------------------------------------------------------------- whole runs

  /** A slice over a run of columns, from no lock on. */
  ghost predicate IsRun(locks: seq<Lock>, cols: seq<Column>, slotLow: real, slotHigh: real) {
    && |locks| == |cols| + 1 && !locks[0].active && locks[0].switchHits == 0
    && forall t :: 0 <= t < |cols| ==> locks[t + 1] == Tracked(locks[t], cols[t], slotLow, slotHigh)
  }

  predicate CandidateAt(locks: seq<Lock>, cols: seq<Column>, slotLow: real, slotHigh: real, t: nat)
    requires t < |cols| && t < |locks|
  {
    Candidate(locks[t], BestOf(cols[t], slotLow, slotHigh), NearOf(locks[t], cols[t], slotLow, slotHigh))
  }

  /** Between columns, a pending switch remembers the candidate of the column before. */
  ghost predicate Pending(locks: seq<Lock>, cols: seq<Column>, slotLow: real, slotHigh: real, t: nat)
    requires t <= |cols| && t < |locks|
  {
    && (locks[t].active ==> slotLow <= locks[t].offset < slotHigh)
    && (locks[t].switchHits == 0 || locks[t].switchHits == 1)
    && (locks[t].switchHits == 1 <==>
          0 < t && locks[t].active && CandidateAt(locks, cols, slotLow, slotHigh, t - 1) && locks[t].offset == locks[t - 1].offset)
    && (locks[t].switchHits == 1 ==> locks[t].switchHz == BestOf(cols[t - 1], slotLow, slotHigh).value.offset)
  }

  lemma {:induction false} RunPending(locks: seq<Lock>, cols: seq<Column>, slotLow: real, slotHigh: real, t: nat)
    requires IsRun(locks, cols, slotLow, slotHigh) && t <= |cols|
    ensures Pending(locks, cols, slotLow, slotHigh, t)
  {
    hide Tracked, BestOf, NearOf;
    if 0 < t {
      RunPending(locks, cols, slotLow, slotHigh, t - 1);
      assert locks[t - 1 + 1] == Tracked(locks[t - 1], cols[t - 1], slotLow, slotHigh);
      TrackedInSlot(locks[t - 1], cols[t - 1], slotLow, slotHigh);
      if locks[t - 1].active {
        TrackedCases(locks[t - 1], cols[t - 1], slotLow, slotHigh);
        if CandidateAt(locks, cols, slotLow, slotHigh, t - 1) {
          CandidateOutside(locks[t - 1], cols[t - 1], slotLow, slotHigh);
        }
      } else {
        ArmedFresh(locks[t - 1], cols[t - 1], slotLow, slotHigh);
      }
    }
  }

  lemma ArmedFresh(l: Lock, col: Column, slotLow: real, slotHigh: real)
    requires !l.active && l.switchHits == 0
    ensures Tracked(l, col, slotLow, slotHigh).switchHits == 0
  {
    hide Strongest;
  }

  /** In every run an active slice stays inside its slot. */
  lemma StaysInSlot(locks: seq<Lock>, cols: seq<Column>, span: real, slot: int, t: nat)
    requires 0.0 < span && 0 <= slot < SlotCount(span) && t <= |cols|
    requires IsRun(locks, cols, SlotLow(span, slot), SlotLow(span, slot) + SlotWidth(span))
    ensures locks[t].active ==> InSlot(locks[t].offset, span, slot) && SlotFor(locks[t].offset, span) == slot
  {
    hide SlotLow, SlotWidth, SlotFor, Tracked;
    RunPending(locks, cols, SlotLow(span, slot), SlotLow(span, slot) + SlotWidth(span), t);
    SlotContainsItsOffsets(locks[t].offset, span, slot);
  }

  /** In every run a slice leaves its follow window exactly when this column and the one before
      both had their strongest peak outside it, over the margin, and the two lie close together. */
  lemma LeavesAfterTwo(locks: seq<Lock>, cols: seq<Column>, slotLow: real, slotHigh: real, t: nat)
    requires IsRun(locks, cols, slotLow, slotHigh) && t < |cols| && locks[t].active
    ensures !InWindow(locks[t], locks[t + 1].offset) <==>
            && 0 < t && CandidateAt(locks, cols, slotLow, slotHigh, t - 1) && CandidateAt(locks, cols, slotLow, slotHigh, t)
            && locks[t].offset == locks[t - 1].offset
            && Abs(BestOf(cols[t], slotLow, slotHigh).value.offset - BestOf(cols[t - 1], slotLow, slotHigh).value.offset) <= FOLLOW_HZ
    ensures !InWindow(locks[t], locks[t + 1].offset) ==> locks[t + 1].offset == BestOf(cols[t], slotLow, slotHigh).value.offset
  {
    hide Tracked, BestOf, NearOf;
    RunPending(locks, cols, slotLow, slotHigh, t);
    TrackedCases(locks[t], cols[t], slotLow, slotHigh);
  }
}
