/** What a slice does with a column, told by the bins of its spectrum: a free slice locks on to the
    strongest eligible bin of its slot, and a locked one follows the strongest of its window, unless a
    rival elsewhere in the slot is stronger by the margin. */
module SlotFollowing {
  import opened Options
  import opened RealNumbers
  import opened SlotTracking

  /** A peak: at least 16 dB above the noise, not below any bin up to two away, and not level with
      both neighbors. */
  lemma PeakBinSays(col: Column, b: int)
    ensures IsPeakBin(col, b) <==>
            && 2 <= b < |col.spectrum| - 2 && 16.0 <= col.spectrum[b] - col.noise
            && (forall c :: b - 2 <= c <= b + 2 ==> col.spectrum[c] <= col.spectrum[b])
            && (col.spectrum[b - 1] != col.spectrum[b] || col.spectrum[b + 1] != col.spectrum[b])
  {
    if IsPeakBin(col, b) {
      forall c | b - 2 <= c <= b + 2 ensures col.spectrum[c] <= col.spectrum[b] {
        assert c == b - 2 || c == b - 1 || c == b || c == b + 1 || c == b + 2;
      }
    }
  }

  /** A column that is searched at all. */
  predicate Searched(col: Column) {
    8 <= |col.spectrum| && 0.0 < col.binWidth
  }

  /** The search finds the bin that is the strongest, and nothing only where nothing is eligible. */
  lemma SearchSays(col: Column, low: real, high: real)
    requires Searched(col)
    ensures forall b :: IsStrongest(col, low, high, |col.spectrum|, b) ==> Strongest(col, low, high) == Some(PeakAt(col, b))
    ensures Strongest(col, low, high).Some? <==> exists b :: Eligible(col, low, high, b)
    ensures Strongest(col, low, high).Some? ==>
              exists b :: IsStrongest(col, low, high, |col.spectrum|, b) && Strongest(col, low, high) == Some(PeakAt(col, b))
  {
    hide OffsetOf, IsPeakBin;
    var n := |col.spectrum|;
    StrongestIsStrongest(col, low, high, n);
    if b :| Eligible(col, low, high, b) {
      InRange(col, b);
      assert low < high;
    }
    forall b | IsStrongest(col, low, high, n, b) ensures Strongest(col, low, high) == Some(PeakAt(col, b)) {
      assert Eligible(col, low, high, b);
      InRange(col, b);
      var c :| 0 <= c < n && IsStrongest(col, low, high, n, c) && StrongestTo(col, low, high, n).value == PeakAt(col, c);
      StrongestIsOne(col, low, high, b, c);
    }
  }

  lemma InRange(col: Column, b: int)
    requires IsPeakBin(col, b)
    ensures 0 <= b < |col.spectrum|
  {
  }

  lemma StrongestIsOne(col: Column, low: real, high: real, b: int, c: int)
    requires IsStrongest(col, low, high, |col.spectrum|, b) && IsStrongest(col, low, high, |col.spectrum|, c)
    ensures b == c
  {
    hide Eligible;
    assert col.spectrum[b] <= col.spectrum[c] && col.spectrum[c] <= col.spectrum[b];
  }

  // ---------------------------------------------------------------- a free slice

  /** In every run, a free slice is locked behind a column exactly if some bin of its slot is eligible,
      and then on the strongest of them. */
  lemma ArmsWhenHeard(locks: seq<Lock>, cols: seq<Column>, slotLow: real, slotHigh: real, t: nat)
    requires IsRun(locks, cols, slotLow, slotHigh) && t < |cols| && !locks[t].active
    ensures locks[t + 1].active <==> Searched(cols[t]) && exists b :: Eligible(cols[t], slotLow, slotHigh, b)
    ensures !locks[t + 1].active ==> locks[t + 1] == locks[t]
    ensures forall b :: Searched(cols[t]) && IsStrongest(cols[t], slotLow, slotHigh, |cols[t].spectrum|, b) ==>
              locks[t + 1] == Lock(true, OffsetOf(cols[t], b), cols[t].spectrum[b] - cols[t].noise, OffsetOf(cols[t], b), 0,
                                   false, cols[t].serial, cols[t].now)
  {
    hide Eligible, StrongestTo, OffsetOf, IsStrongest;
    assert locks[t + 1] == Tracked(locks[t], cols[t], slotLow, slotHigh);
    if Searched(cols[t]) {
      hide Strongest;
      SearchSays(cols[t], slotLow, slotHigh);
    }
  }

  // ---------------------------------------------------------------- a locked slice

  /** An eligible bin of the follow window. */
  predicate NearBin(l: Lock, col: Column, slotLow: real, slotHigh: real, b: int) {
    Eligible(col, slotLow, slotHigh, b) && l.offset - 150.0 <= OffsetOf(col, b) < l.offset + 151.0
  }

  lemma NearBins(l: Lock, col: Column, slotLow: real, slotHigh: real, b: int)
    ensures NearBin(l, col, slotLow, slotHigh, b) <==> Eligible(col, NearLow(l, slotLow), NearHigh(l, slotHigh), b)
  {
    hide IsPeakBin, OffsetOf;
  }

  /** An eligible bin more than 150 Hz away that is stronger by more than 1.5 dB than all of the window. */
  ghost predicate Rival(l: Lock, col: Column, slotLow: real, slotHigh: real, c: int) {
    && Eligible(col, slotLow, slotHigh, c) && Abs(OffsetOf(col, c) - l.offset) > 150.0
    && forall b :: NearBin(l, col, slotLow, slotHigh, b) ==> col.spectrum[b] + 1.5 < col.spectrum[c]
  }

  ghost predicate StrongestNear(l: Lock, col: Column, slotLow: real, slotHigh: real, b: int) {
    && NearBin(l, col, slotLow, slotHigh, b)
    && (forall c :: NearBin(l, col, slotLow, slotHigh, c) ==> col.spectrum[c] <= col.spectrum[b])
    && (forall c :: c < b && NearBin(l, col, slotLow, slotHigh, c) ==> col.spectrum[c] < col.spectrum[b])
  }

  lemma NearIs(l: Lock, col: Column, slotLow: real, slotHigh: real, b: int)
    requires Searched(col) && StrongestNear(l, col, slotLow, slotHigh, b)
    ensures NearOf(l, col, slotLow, slotHigh) == Some(PeakAt(col, b)) && 0 <= b < |col.spectrum|
  {
    hide Eligible, NearBin, NearLow, NearHigh, Strongest, OffsetOf;
    var low, high, n := NearLow(l, slotLow), NearHigh(l, slotHigh), |col.spectrum|;
    NearBins(l, col, slotLow, slotHigh, b);
    EligibleInRange(col, low, high, b);
    forall c | Eligible(col, low, high, c) ensures NearBin(l, col, slotLow, slotHigh, c) {
      NearBins(l, col, slotLow, slotHigh, c);
    }
    SearchSays(col, low, high);
    assert IsStrongest(col, low, high, n, b);
  }

  lemma EligibleInRange(col: Column, low: real, high: real, b: int)
    requires Eligible(col, low, high, b)
    ensures 0 <= b < |col.spectrum|
  {
  }

  /** The peaks the tracking looks at, as bins. */
  lemma PeaksAreBins(l: Lock, col: Column, slotLow: real, slotHigh: real)
    requires Searched(col)
    ensures var best := BestOf(col, slotLow, slotHigh);
            && (best.Some? <==> exists b :: Eligible(col, slotLow, slotHigh, b))
            && (best.Some? ==> exists b :: IsStrongest(col, slotLow, slotHigh, |col.spectrum|, b) && best.value == PeakAt(col, b))
    ensures var near := NearOf(l, col, slotLow, slotHigh);
            && (near.Some? <==> exists b :: NearBin(l, col, slotLow, slotHigh, b))
            && (near.Some? ==> exists b :: StrongestNear(l, col, slotLow, slotHigh, b) && near.value == PeakAt(col, b))
  {
    hide Eligible, NearBin, NearLow, NearHigh, Strongest, OffsetOf;
    var low, high, n := NearLow(l, slotLow), NearHigh(l, slotHigh), |col.spectrum|;
    SearchSays(col, slotLow, slotHigh);
    SearchSays(col, low, high);
    forall b ensures NearBin(l, col, slotLow, slotHigh, b) <==> Eligible(col, low, high, b) {
      NearBins(l, col, slotLow, slotHigh, b);
    }
    if NearOf(l, col, slotLow, slotHigh).Some? {
      var b :| IsStrongest(col, low, high, n, b) && NearOf(l, col, slotLow, slotHigh).value == PeakAt(col, b);
      forall c | Eligible(col, low, high, c) ensures 0 <= c < n {
        EligibleInRange(col, low, high, c);
      }
      assert StrongestNear(l, col, slotLow, slotHigh, b);
    }
  }

  /** There is a candidate exactly where there is a rival. */
  lemma CandidateSays(l: Lock, col: Column, slotLow: real, slotHigh: real)
    requires l.active && Searched(col)
    ensures Candidate(l, BestOf(col, slotLow, slotHigh), NearOf(l, col, slotLow, slotHigh))
            <==> exists c :: Rival(l, col, slotLow, slotHigh, c)
  {
    hide IsPeakBin, Strongest, OffsetOf;
    var best, near := BestOf(col, slotLow, slotHigh), NearOf(l, col, slotLow, slotHigh);
    PeaksAreBins(l, col, slotLow, slotHigh);
    if Candidate(l, best, near) {
      var b :| IsStrongest(col, slotLow, slotHigh, |col.spectrum|, b) && best.value == PeakAt(col, b);
      CandidateIsRival(l, col, slotLow, slotHigh, b);
    }
    if c :| Rival(l, col, slotLow, slotHigh, c) {
      var b :| IsStrongest(col, slotLow, slotHigh, |col.spectrum|, b) && best.value == PeakAt(col, b);
      EligibleInRange(col, slotLow, slotHigh, c);
      assert col.spectrum[c] <= col.spectrum[b];
      RivalIsAway(l, col, slotLow, slotHigh, b, c);
    }
  }

  lemma CandidateIsRival(l: Lock, col: Column, slotLow: real, slotHigh: real, b: int)
    requires l.active && Searched(col) && IsStrongest(col, slotLow, slotHigh, |col.spectrum|, b)
    requires BestOf(col, slotLow, slotHigh) == Some(PeakAt(col, b))
    requires Candidate(l, BestOf(col, slotLow, slotHigh), NearOf(l, col, slotLow, slotHigh))
    ensures Rival(l, col, slotLow, slotHigh, b)
  {
    hide IsPeakBin, Strongest, OffsetOf, NearBin;
    PeaksAreBins(l, col, slotLow, slotHigh);
  }

  /** The strongest bin is not in the window when a rival beats the window by the margin. */
  lemma RivalIsAway(l: Lock, col: Column, slotLow: real, slotHigh: real, b: int, c: int)
    requires Rival(l, col, slotLow, slotHigh, c) && Eligible(col, slotLow, slotHigh, b) && col.spectrum[c] <= col.spectrum[b]
    ensures Abs(OffsetOf(col, b) - l.offset) > 150.0
  {
    hide IsPeakBin, OffsetOf;
    assert Abs(OffsetOf(col, b) - l.offset) <= 150.0 ==> NearBin(l, col, slotLow, slotHigh, b);
  }

  /** In every run, a locked slice without a rival moves to the strongest bin of its window, and waits
      where it is when the slot is silent. */
  lemma FollowsDrift(locks: seq<Lock>, cols: seq<Column>, slotLow: real, slotHigh: real, t: nat)
    requires IsRun(locks, cols, slotLow, slotHigh) && t < |cols| && locks[t].active && Searched(cols[t])
    ensures forall b :: StrongestNear(locks[t], cols[t], slotLow, slotHigh, b)
                        && (forall c :: !Rival(locks[t], cols[t], slotLow, slotHigh, c)) ==>
              0 <= b < |cols[t].spectrum|
              && locks[t + 1] == locks[t].(offset := OffsetOf(cols[t], b),
                                           snr := 0.8 * locks[t].snr + 0.2 * (cols[t].spectrum[b] - cols[t].noise),
                                           switchHits := 0, lastSeen := cols[t].now,
                                           sustained := locks[t].sustained || locks[t].bornSerial != cols[t].serial)
    ensures (forall b :: !Eligible(cols[t], slotLow, slotHigh, b)) ==> locks[t + 1] == locks[t].(switchHits := 0)
  {
    hide Eligible, NearBin, Strongest, OffsetOf, Rival, StrongestNear;
    var l, col := locks[t], cols[t];
    assert locks[t + 1] == Tracked(l, col, slotLow, slotHigh);
    PeaksAreBins(l, col, slotLow, slotHigh);
    CandidateSays(l, col, slotLow, slotHigh);
    forall b | StrongestNear(l, col, slotLow, slotHigh, b)
      ensures 0 <= b < |col.spectrum| && NearOf(l, col, slotLow, slotHigh) == Some(PeakAt(col, b)) {
      NearIs(l, col, slotLow, slotHigh, b);
    }
    NearBinsEligible(l, col, slotLow, slotHigh);
  }

  lemma NearBinsEligible(l: Lock, col: Column, slotLow: real, slotHigh: real)
    ensures forall b :: NearBin(l, col, slotLow, slotHigh, b) ==> Eligible(col, slotLow, slotHigh, b)
  {
  }
}
