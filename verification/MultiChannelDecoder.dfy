/** The slices at work: each channel follows a peak of its slice and feeds its own spectrum decoder. */
module MultiChannelDecoders {
  import opened Options
  import opened RealNumbers
  import opened SlotTracking
  import opened SpectrumDecoders

  /** `findStrongestPeak` */
  method FindStrongestPeak(col: Column, low: real, high: real) returns (found: Option<Peak>)
    ensures found == Strongest(col, low, high)
  {
    hide OffsetOf;
    found := None;
    var n := |col.spectrum|;
    if n < 8 || col.binWidth <= 0.0 || !(high > low) {
      return;
    }
    var gate := col.noise + MIN_SNR;
    NoEdgePeaks(col, low, high, 2);
    for b := 2 to n - 2
      invariant found == StrongestTo(col, low, high, b)
    {
      var p := col.spectrum[b];
      if p < gate {
        continue;
      }
      if p < col.spectrum[b - 1] || p < col.spectrum[b + 1] {
        continue;
      }
      if p < col.spectrum[b - 2] || p < col.spectrum[b + 2] {
        continue;
      }
      if p <= col.spectrum[b - 1] && p <= col.spectrum[b + 1] {
        continue;
      }
      var offset := OffsetOf(col, b);
      if offset < low || offset >= high {
        continue;
      }
      var snr := p - col.noise;
      if found.None? || snr > found.value.snr {
        found := Some(Peak(offset, p, snr));
      }
    }
    assert StrongestTo(col, low, high, n - 1) == StrongestTo(col, low, high, n - 2);
    assert StrongestTo(col, low, high, n) == StrongestTo(col, low, high, n - 1);
  }

  lemma NoEdgePeaks(col: Column, low: real, high: real, n: nat)
    requires n <= 2 && n <= |col.spectrum|
    ensures StrongestTo(col, low, high, n) == None
  {
  }

  /** `powerAtOffset`: the greatest power within `halfBins` of the bin nearest to an offset. */
  function PowerAt(spectrum: seq<real>, center: int, k: nat, halfBins: nat): real {
    var b := center - halfBins + k;
    var here := if 0 <= b < |spectrum| then spectrum[b] else -200.0;
    if k == 0 then Max(-200.0, here) else Max(PowerAt(spectrum, center, k - 1, halfBins), here)
  }

  /** Whether bin `b` is one of the first `k + 1` of the window. */
  predicate InReach(spectrum: seq<real>, center: int, k: nat, halfBins: nat, b: int) {
    center - halfBins <= b <= center - halfBins + k && 0 <= b < |spectrum|
  }

  /** No bin in reach is stronger; the power is that of one of them, or the floor of -200 dB. */
  lemma {:induction false} PowerIsGreatest(spectrum: seq<real>, center: int, k: nat, halfBins: nat)
    ensures -200.0 <= PowerAt(spectrum, center, k, halfBins)
    ensures forall b :: InReach(spectrum, center, k, halfBins, b) ==> spectrum[b] <= PowerAt(spectrum, center, k, halfBins)
    ensures PowerAt(spectrum, center, k, halfBins) == -200.0
            || exists b :: InReach(spectrum, center, k, halfBins, b) && spectrum[b] == PowerAt(spectrum, center, k, halfBins)
  {
    if 0 < k {
      PowerIsGreatest(spectrum, center, k - 1, halfBins);
      assert forall b :: InReach(spectrum, center, k, halfBins, b)
                         <==> InReach(spectrum, center, k - 1, halfBins, b) || (b == center - halfBins + k && 0 <= b < |spectrum|);
    }
  }

  function CenterBin(col: Column, offset: real): int
    requires 0.0 < col.binWidth
  {
    var x := offset / col.binWidth;
    var c := |col.spectrum| / 2 + (if x >= 0.0 then (x + 0.5).Floor else -((0.5 - x).Floor));
    if c > |col.spectrum| - 1 then |col.spectrum| - 1 else if c < 0 then 0 else c
  }

  /** The power a decoder is fed. */
  function PowerNear(col: Column, offset: real, bins: nat): real
    requires 0.0 < col.binWidth
  {
    PowerAt(col.spectrum, CenterBin(col, offset), 2 * bins, bins)
  }

  lemma WholeQuotient(k: int, w: real)
    requires 0.0 < w
    ensures k as real * w / w == k as real
  {
  }

  /** The offset of a bin leads back to it: a decoder is never fed less than the power of the bin its
      slice follows. */
  lemma HearsItsBin(col: Column, b: int, bins: nat)
    requires 0.0 < col.binWidth && 0 <= b < |col.spectrum|
    ensures CenterBin(col, OffsetOf(col, b)) == b
    ensures col.spectrum[b] <= PowerNear(col, OffsetOf(col, b), bins)
  {
    hide PowerAt;
    var k := b - |col.spectrum| / 2;
    WholeQuotient(k, col.binWidth);
    assert OffsetOf(col, b) / col.binWidth == k as real;
    assert (k as real + 0.5).Floor == k && (0.5 - k as real).Floor == -k;
    PowerIsGreatest(col.spectrum, b, 2 * bins, bins);
    assert InReach(col.spectrum, b, 2 * bins, bins, b);
  }

  /** The decoder of a slice after tracking: locking on starts it anew, and keeps the text where the
      slice was active. */
  function Tuned(l: Lock, c: Copy, col: Column, slotLow: real, slotHigh: real): Copy {
    if LocksOn(l, col, slotLow, slotHigh) then FreshCopy(if l.active then c.text else "") else c
  }

  /** What tracking remembers of a channel that is free. */
  const FREE := Lock(false, 0.0, 0.0, 0.0, 0, false, -1, 0)

  /** An active channel is one of the slots of a span and follows an offset of its own slot. */
  predicate AtHome(l: Lock, span: real, i: nat) {
    l.active ==> i < SlotCount(span) && InSlot(l.offset, span, i)
  }

  /** As long as the span stays the same, every channel stays at home; a free one is. */
  lemma TrackedAtHome(l: Lock, col: Column, span: real, i: nat)
    requires 0.0 < span && i < SlotCount(span) && AtHome(l, span, i)
    ensures AtHome(Tracked(l, col, SlotLow(span, i), SlotLow(span, i) + SlotWidth(span)), span, i) && AtHome(FREE, span, i)
  {
    hide Tracked, SlotCount, SlotLow, SlotWidth;
    TrackedInSlot(l, col, SlotLow(span, i), SlotLow(span, i) + SlotWidth(span));
  }

  class Channel {
    var active: bool
    var offsetHz: real
    var frequencyHz: real
    var snrDb: real
    var lastPowerDb: real
    var lastSeenMs: int
    var sustained: bool
    var bornSerial: int
    var switchHz: real
    var switchHits: int
    const scope: SpectrumDecoder

    ghost function View(): Lock
      reads this
    {
      Lock(active, offsetHz, snrDb, switchHz, switchHits, sustained, bornSerial, lastSeenMs)
    }

    /** Nothing about the channel is different. */
    ghost predicate Kept(l: Lock, c: Copy)
      reads this, scope
    {
      View() == l && scope.State() == c
    }

    /** What a column has made of a channel that was `l` with the decoder `c`: the lock is tracked;
        an active channel feeds its decoder the power at its offset, a free one leaves it alone. */
    ghost predicate Took(l: Lock, c: Copy, col: Column, slotLow: real, slotHigh: real, center: real, bins: nat)
      reads this, scope
      requires 0.0 < col.binWidth
    {
      && View() == Tracked(l, col, slotLow, slotHigh)
      && (if active
          then scope.Fed(Tuned(l, c, col, slotLow, slotHigh), PowerNear(col, offsetHz, bins), true, col.noise, col.binWidth)
               && frequencyHz == center + offsetHz && lastPowerDb == PowerNear(col, offsetHz, bins)
          else scope.State() == c)
    }

    /** `resetChannelState` on a new channel. */
    constructor ()
      ensures fresh(scope) && scope.Valid() && Kept(FREE, FreshCopy(""))
    {
      active, offsetHz, frequencyHz, snrDb, lastPowerDb, lastSeenMs := false, 0.0, 0.0, 0.0, -200.0, 0;
      sustained, bornSerial, switchHz, switchHits := false, -1, 0.0, 0;
      scope := new SpectrumDecoder();
    }

    /** A change of the span: the copy goes, and the slice is free again. */
    method Release()
      requires scope.Valid()
      modifies this, scope
      ensures scope.Valid() && Kept(FREE, FreshCopy(""))
    {
      hide SpectrumDecoder.Valid;
      scope.ClearDecode();
      scope.ResetTiming();
      active, offsetHz, frequencyHz, snrDb, lastPowerDb, lastSeenMs := false, 0.0, 0.0, 0.0, -200.0, 0;
      sustained, bornSerial, switchHz, switchHits := false, -1, 0.0, 0;
    }

    method SetLock(pk: Peak, col: Column)
      modifies this
      ensures offsetHz == pk.offset && snrDb == pk.snr && switchHz == pk.offset && switchHits == 0 && !sustained
      ensures bornSerial == col.serial && lastSeenMs == col.now && active == old(active)
    {
      offsetHz, snrDb, switchHz, switchHits := pk.offset, pk.snr, pk.offset, 0;
      sustained, bornSerial, lastSeenMs := false, col.serial, col.now;
    }

    /** `armSlot` */
    method ArmSlot(pk: Peak, col: Column)
      requires scope.Valid()
      modifies this, scope
      ensures scope.Valid() && View() == LockedOn(old(View()), pk, col) && scope.State() == FreshCopy("")
    {
      hide SpectrumDecoder.Valid, SpectrumDecoder.State;
      scope.ClearDecode();
      scope.ResetTiming();
      active := true;
      SetLock(pk, col);
    }

    /** `retargetSlot`: the copy already decoded is kept. */
    method RetargetSlot(pk: Peak, col: Column)
      requires scope.Valid() && active
      modifies this, scope
      ensures scope.Valid() && View() == LockedOn(old(View()), pk, col) && scope.State() == FreshCopy(old(scope.text))
      ensures scope.text == old(scope.text)
    {
      hide SpectrumDecoder.Valid;
      var kept := scope.text;
      scope.AdoptText(kept);
      SetLock(pk, col);
    }

    lemma TextOf()
      ensures scope.State().text == scope.text
    {
    }

    /** `trackSlot`: only arming a free slice loses its text. */
    method TrackSlot(col: Column, slotLow: real, slotHigh: real)
      requires scope.Valid()
      modifies this, scope
      ensures scope.Valid() && View() == Tracked(old(View()), col, slotLow, slotHigh)
      ensures scope.State() == Tuned(old(View()), old(scope.State()), col, slotLow, slotHigh)
      ensures old(active) ==> scope.text == old(scope.text)
    {
      hide SpectrumDecoder.Valid, Strongest, SpectrumDecoder.State;
      TextOf();
      var best := FindStrongestPeak(col, slotLow, slotHigh);
      if !active {
        if best.Some? {
          ArmSlot(best.value, col);
        }
        return;
      }
      var near := FindStrongestPeak(col, Max(slotLow, offsetHz - FOLLOW_HZ), Min(slotHigh, offsetHz + FOLLOW_HZ + 1.0));
      if near.Some? && (best.None? || Abs(best.value.offset - offsetHz) <= FOLLOW_HZ || near.value.snr + SWITCH_MARGIN >= best.value.snr) {
        offsetHz := near.value.offset;
        snrDb := 0.8 * snrDb + 0.2 * near.value.snr;
        switchHits := 0;
        lastSeenMs := col.now;
        if bornSerial != col.serial {
          sustained := true;
        }
        return;
      }
      // the last alternative has been excluded above
      if best.None? || Abs(best.value.offset - offsetHz) <= FOLLOW_HZ
         || (near.Some? && !(best.value.snr > near.value.snr + SWITCH_MARGIN)) {
        switchHits := 0;
        return;
      }
      if switchHits > 0 && Abs(best.value.offset - switchHz) <= FOLLOW_HZ {
        switchHits := switchHits + 1;
      } else {
        switchHits := 1;
        switchHz := best.value.offset;
      }
      if switchHits >= SWITCH_COLUMNS {
        RetargetSlot(best.value, col);
      }
    }
  }

  class MultiChannelDecoder {
    const channels: seq<Channel>
    var centerHz: real
    var halfBins: nat
    var maxActive: nat
    var columnClockMs: int
    var columnSerial: int
    var naturalSlots: nat
    var spanHz: real

    /** Channels share nothing. */
    ghost predicate Apart() {
      && |channels| == MAX_CHANNELS
      && (forall i, j :: 0 <= i < j < |channels| ==> channels[i] != channels[j] && channels[i].scope != channels[j].scope)
    }

    ghost predicate Scopes()
      reads channels, set i | 0 <= i < |channels| :: channels[i].scope
    {
      forall i :: 0 <= i < |channels| ==> channels[i].scope.Valid()
    }

    /** One slice of one column: follow, then copy. */
    method StepSlot(ch: Channel, col: Column, slotLow: real, slotHigh: real)
      requires ch.scope.Valid() && 0.0 < col.binWidth
      modifies ch, ch.scope
      ensures ch.scope.Valid()
      ensures ch.Took(old(ch.View()), old(ch.scope.State()), col, slotLow, slotHigh, centerHz, halfBins)
    {
      hide SpectrumDecoder.Valid, Tracked, PowerAt, CenterBin, SpectrumDecoder.Fed, SpectrumDecoder.State, LocksOn;
      ghost var l, c := ch.View(), ch.scope.State();
      ch.TrackSlot(col, slotLow, slotHigh);
      if !ch.active {
        FreeIsAlone(l, col, slotLow, slotHigh);
        return;
      }
      ch.frequencyHz := centerHz + ch.offsetHz;
      var powerDb := PowerAt(col.spectrum, CenterBin(col, ch.offsetHz), 2 * halfBins, halfBins);
      ch.lastPowerDb := powerDb;
      ch.scope.FeedColumn(powerDb, true, col.noise, col.binWidth);
    }

    /** A slice that stays free did not lock on. */
    lemma FreeIsAlone(l: Lock, col: Column, slotLow: real, slotHigh: real)
      ensures !Tracked(l, col, slotLow, slotHigh).active ==> !LocksOn(l, col, slotLow, slotHigh)
    {
      hide Strongest;
    }

    /** What a column has made of channel `i`. */
    ghost predicate After(i: nat, l: Lock, c: Copy, col: Column, span: real, first: nat, used: nat)
      reads this, channels, set j | 0 <= j < |channels| :: channels[j].scope
      requires i < |channels| && 0.0 < col.binWidth
    {
      if first <= i < first + used
      then channels[i].Took(l, c, col, SlotLow(span, i), SlotLow(span, i) + SlotWidth(span), centerHz, halfBins)
      else channels[i].Kept(l, c)
    }

    /** All slices of one column. */
    method TrackAll(col: Column, span: real, first: nat, used: nat)
      requires Apart() && Scopes() && first + used <= |channels| && 0.0 < col.binWidth
      modifies channels, set i | 0 <= i < |channels| :: channels[i].scope
      ensures Scopes()
      ensures forall i :: 0 <= i < |channels| ==>
        After(i, old(channels[i].View()), old(channels[i].scope.State()), col, span, first, used)
    {
      hide SpectrumDecoder.Valid, SlotLow, SlotWidth, Channel.Took, SpectrumDecoder.State;
      for slot := first to first + used
        invariant Scopes()
        invariant forall i :: 0 <= i < |channels| ==>
          After(i, old(channels[i].View()), old(channels[i].scope.State()), col, span, first, slot - first)
      {
        StepSlot(channels[slot], col, SlotLow(span, slot), SlotLow(span, slot) + SlotWidth(span));
      }
    }

    /** On a change of the span every slice is released. */
    method ReleaseAll()
      requires Apart() && Scopes()
      modifies channels, set i | 0 <= i < |channels| :: channels[i].scope
      ensures Scopes() && forall i :: 0 <= i < |channels| ==> channels[i].Kept(FREE, FreshCopy(""))
    {
      hide SpectrumDecoder.Valid, Channel.Kept;
      for k := 0 to |channels|
        invariant Scopes() && forall i :: 0 <= i < k ==> channels[i].Kept(FREE, FreshCopy(""))
      {
        channels[k].Release();
      }
    }

    predicate Moves(span: real)
      reads `spanHz
    {
      spanHz > 0.0 && Abs(spanHz - span) > 1.0
    }

    /** `processSpectrumColumn` */
    method ProcessSpectrumColumn(spectrum: seq<real>, binWidth: real, center: real, noise: real)
      requires Apart() && Scopes()
      modifies `centerHz, `columnClockMs, `columnSerial, `spanHz, `naturalSlots
      modifies channels, set i | 0 <= i < |channels| :: channels[i].scope
      ensures Scopes()
      ensures spectrum != [] && 0.0 < binWidth ==>
        var span := SpanOf(spectrum, binWidth);
        var col := Column(spectrum, binWidth, noise, columnSerial, ClockFrom(old(columnClockMs)));
        var moved := old(spanHz) > 0.0 && (span < old(spanHz) - 1.0 || old(spanHz) + 1.0 < span);
        && spanHz == span && naturalSlots == SlotCount(span) && columnSerial == old(columnSerial) + 1
        && forall i :: 0 <= i < |channels| ==>
             After(i, LockBefore(moved, old(channels[i].View())),
                   CopyBefore(moved, old(channels[i].scope.State())), col, span, FirstSlot(span), UsedSlots(span))
    {
      hide After, Apart, Scopes, SlotCount, Channel.View, SpectrumDecoder.State, SpanOf, PeriodMs, FirstSlot, UsedSlots;
      if spectrum == [] || binWidth <= 0.0 {
        return;
      }
      ApartCount();
      centerHz := center;
      var now := ClockFrom(columnClockMs);
      columnClockMs := now + PeriodMs(binWidth);
      columnSerial := columnSerial + 1;
      var span := SpanOf(spectrum, binWidth);
      var moved := Moves(span);
      spanHz := span;
      naturalSlots := SlotCount(span);
      var col := Column(spectrum, binWidth, noise, columnSerial, now);
      RunSlices(col, span, moved, FirstSlot(span), UsedSlots(span));
    }

    /** The channels' part of a column. */
    method RunSlices(col: Column, span: real, moved: bool, first: nat, used: nat)
      requires Apart() && Scopes() && first + used <= |channels| && 0.0 < col.binWidth
      modifies channels, set i | 0 <= i < |channels| :: channels[i].scope
      ensures Scopes()
      ensures forall i :: 0 <= i < |channels| ==>
        After(i, LockBefore(moved, old(channels[i].View())), CopyBefore(moved, old(channels[i].scope.State())),
              col, span, first, used)
    {
      hide After, Channel.View, SpectrumDecoder.State, Apart, Scopes;
      if moved {
        ReleaseAll();
        label released:
        TrackAll(col, span, first, used);
        forall i | 0 <= i < |channels|
          ensures After(i, LockBefore(moved, old(channels[i].View())), CopyBefore(moved, old(channels[i].scope.State())),
                        col, span, first, used) {
          assert old@released(channels[i].Kept(FREE, FreshCopy("")));
          assert After(i, old@released(channels[i].View()), old@released(channels[i].scope.State()), col, span, first, used);
        }
      } else {
        TrackAll(col, span, first, used);
      }
    }

    /** A change of the span begins with free channels. */
    function LockBefore(moved: bool, l: Lock): Lock {
      if moved then FREE else l
    }

    function CopyBefore(moved: bool, c: Copy): Copy {
      if moved then FreshCopy("") else c
    }

    lemma ApartCount()
      requires Apart()
      ensures |channels| == MAX_CHANNELS
    {
    }

    function SpanOf(spectrum: seq<real>, binWidth: real): real {
      |spectrum| as real * binWidth
    }

    function PeriodMs(binWidth: real): int
      requires 0.0 < binWidth
    {
      if binWidth > 20.0 then (1000.0 / binWidth + 0.5).Floor else 11
    }

    function ClockFrom(clock: int): int {
      if clock < 0 then 0 else clock
    }

    function UsedSlots(span: real): (used: nat)
      reads `maxActive
      ensures 1 <= used <= SlotCount(span)
      ensures used == SlotCount(span) || used == maxActive || (maxActive == 0 && used == 1)
      ensures 0 < maxActive ==> used <= maxActive
    {
      var wanted := if maxActive < 1 then 1 else maxActive;
      if SlotCount(span) < wanted then SlotCount(span) else wanted
    }

    function FirstSlot(span: real): (first: nat)
      reads `maxActive
      ensures first + UsedSlots(span) <= SlotCount(span)
      ensures 0 <= SlotCount(span) - UsedSlots(span) - 2 * first <= 1
    {
      (SlotCount(span) - UsedSlots(span)) / 2
    }
  }
}
