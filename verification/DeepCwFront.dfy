/** The front end as it runs: a circular delay line, filtered samples kept only as long as the
    interpolation needs them, any number of samples per call. */
module DeepCwFronts {
  import opened FrontEnd

  class DeepCwFront {
    const cfg: Front
    var mixPhase: real
    const delay: array<real>
    var delayAt: nat
    var delayFill: nat
    var source: seq<real>
    var sourceOrigin: nat
    var outPos: real
    /** All samples fed, their mix, all output, and the time of the delay line's first slot. */
    ghost var fed: seq<Pair>
    ghost var mixed: seq<real>
    ghost var out: seq<real>
    ghost var lap: nat

    constructor (cfg: Front)
      requires cfg.Usable()
      ensures Valid() && fresh(delay) && this.cfg == cfg && fed == [] && out == []
    {
      this.cfg := cfg;
      mixPhase, delayAt, delayFill, source, sourceOrigin, outPos := 0.0, 0, 0, [], 0, 0.0;
      delay := new real[|cfg.fir|](i => 0.0);
      fed, mixed, out, lap := [], [], [], 0;
      new;
      assert cfg.Mixed([]) == [];
    }

    /** Slot `s` holds the sample of this lap where it has been written, of the last lap elsewhere. */
    ghost predicate LineOk()
      reads `mixed, `delayAt, `delayFill, `lap, delay
    {
      && delay.Length == |cfg.fir| && 0 < delay.Length && lap + delayAt == |mixed|
      && delayAt < delay.Length && delayFill == (if |mixed| < delay.Length then |mixed| else delay.Length)
      && (lap == 0 || delay.Length <= lap)
      && (forall s :: 0 <= s < delayAt ==> delay[s] == mixed[lap + s])
      && (0 < lap ==> forall s :: delayAt <= s < delay.Length ==> delay[s] == mixed[lap - delay.Length + s])
    }

    ghost predicate MixOk()
      reads `fed, `mixed, `mixPhase
    {
      cfg.Usable() && mixed == cfg.Mixed(fed) && mixPhase == cfg.Phase(|fed|)
    }

    /** What is kept of the filtered signal is its end. */
    ghost predicate SourceOk()
      reads `mixed, `source, `sourceOrigin
    {
      cfg.Usable() && sourceOrigin <= |cfg.Filtered(mixed)| && source == cfg.Filtered(mixed)[sourceOrigin..]
    }

    ghost predicate OutOk()
      reads `outPos, `out, `sourceOrigin
    {
      cfg.Usable() && outPos == cfg.Pos(|out|) && sourceOrigin <= outPos.Floor
    }

    /** Between calls: everything due has been put out. */
    ghost predicate Valid()
      reads this, delay
    {
      LineOk() && MixOk() && SourceOk() && OutOk() && cfg.Converts(fed, out)
    }

    /** One sample enters the delay line. */
    method Enter(x: real)
      requires LineOk()
      modifies `mixed, `delayAt, `delayFill, `lap, delay
      ensures LineOk() && mixed == old(mixed) + [x]
      ensures delay.Length == |cfg.fir| && (delayFill < delay.Length <==> |mixed| < |cfg.fir|) && delayFill <= delay.Length
    {
      delay[delayAt] := x;
      mixed := mixed + [x];
      delayAt := delayAt + 1;
      if delayAt >= delay.Length {
        delayAt, lap := 0, lap + delay.Length;
      }
      if delayFill < delay.Length {
        delayFill := delayFill + 1;
      }
    }

    /** The filter, started at the oldest sample and going round the line. */
    method Filter() returns (acc: real)
      requires LineOk() && delayFill == delay.Length
      ensures |cfg.fir| <= |mixed| && acc == cfg.Dot(mixed, |mixed| - |cfg.fir|, |cfg.fir|)
    {
      acc := 0.0;
      var tap := delayAt;
      for k := 0 to delay.Length
        invariant acc == cfg.Dot(mixed, |mixed| - |cfg.fir|, k)
        invariant tap == if delayAt + k <= delay.Length then delayAt + k else delayAt + k - delay.Length
      {
        if tap >= delay.Length {
          tap := 0;
        }
        acc := acc + delay[tap] * cfg.fir[k];
        tap := tap + 1;
      }
    }

    /** One sample through mixer and filter. */
    method Take(x: Pair, ghost was: seq<real>)
      requires LineOk() && MixOk() && SourceOk() && was <= cfg.Filtered(mixed)
      modifies `mixPhase, `mixed, `delayAt, `delayFill, `lap, `source, `fed, delay
      ensures LineOk() && MixOk() && SourceOk() && fed == old(fed) + [x] && was <= cfg.Filtered(mixed)
    {
      hide LineOk, Front.MixAt, Front.Turned, Front.Mixed, Front.Filtered, Front.Dot, Front.Usable, Front.Phase;
      var mixedNow := cfg.MixAt(mixPhase, x);
      cfg.MixedSnoc(fed, x);
      cfg.FilteredSnoc(mixed, mixedNow);
      cfg.NextPhase(|fed|);
      fed := fed + [x];
      mixPhase := cfg.Turned(mixPhase);
      Enter(mixedNow);
      if delayFill < delay.Length {
        return;
      }
      var acc := Filter();
      source := source + [acc];
    }

    /** All output that is due; the guard against leaving the kept samples never holds. */
    method Emit() returns (pcm: seq<real>)
      requires SourceOk() && OutOk() && cfg.Emitted(cfg.Filtered(mixed), out)
      modifies `outPos, `out
      ensures SourceOk() && OutOk() && out == old(out) + pcm && cfg.IsOutput(cfg.Filtered(mixed), out)
    {
      hide Front.Filtered, Front.Usable, Front.Pos, Front.Emitted, Front.Interpolated, Front.OutBound, Front.Ratio;
      pcm := [];
      var ratio := cfg.Ratio();
      ghost var f := cfg.Filtered(mixed);
      var available := sourceOrigin + |source|;
      while outPos + 1.0 < available as real
        invariant OutOk() && out == old(out) + pcm && cfg.Emitted(f, out)
        decreases cfg.OutBound(available) - |out|
      {
        cfg.DueIsBounded(|out|, available);
        cfg.InterpolatedHere(f, sourceOrigin, outPos);
        cfg.NextPhase(|out|);
        var left := outPos.Floor;
        var fraction := outPos - left as real;
        var i0 := left - sourceOrigin;
        var i1 := i0 + 1;
        if i0 < 0 || i1 >= |source| {
          break;
        }
        var sample := source[i0] * (1.0 - fraction) + source[i1] * fraction;
        cfg.EmittedNext(f, out, sample);
        pcm := pcm + [sample];
        out := out + [sample];
        outPos := outPos + ratio;
      }
    }

    /** Filtered samples in front of the next output are dropped. */
    method DropSource()
      requires SourceOk() && OutOk()
      modifies `source, `sourceOrigin
      ensures SourceOk() && OutOk()
    {
      hide Front.Filtered, Front.Usable, Front.Pos;
      var keep := outPos.Floor;
      if keep > sourceOrigin {
        var drop := if keep - sourceOrigin < |source| then keep - sourceOrigin else |source|;
        source := source[drop..];
        sourceOrigin := sourceOrigin + drop;
      }
    }

    /** All samples of a call through mixer and filter. */
    method TakeAll(samples: seq<Pair>)
      requires LineOk() && MixOk() && SourceOk()
      modifies `mixPhase, `mixed, `delayAt, `delayFill, `lap, `source, `fed, delay
      ensures LineOk() && MixOk() && SourceOk() && fed == old(fed) + samples
      ensures old(cfg.Filtered(mixed)) <= cfg.Filtered(mixed)
    {
      hide LineOk, MixOk, SourceOk, Front.Filtered;
      Parts();
      ghost var was := cfg.Filtered(mixed);
      for n := 0 to |samples|
        invariant LineOk() && MixOk() && SourceOk()
        invariant fed == old(fed) + samples[..n] && was <= cfg.Filtered(mixed)
      {
        Take(samples[n], was);
      }
    }

    /** `deepcw_front_process`: after any split of the input into calls, all output so far is the
        conversion of all input so far. */
    method Process(samples: seq<Pair>) returns (pcm: seq<real>)
      requires Valid()
      modifies this, delay
      ensures Valid() && fed == old(fed) + samples && out == old(out) + pcm
    {
      hide LineOk, MixOk, SourceOk, OutOk, Front.Emitted, Front.Filtered, Front.Mixed, Front.Due;
      pcm := [];
      if samples == [] {
        return;
      }
      Parts();
      ghost var was := cfg.Filtered(mixed);
      TakeAll(samples);
      MorePart(was);
      pcm := Emit();
      DropSource();
      Parts();
    }

    lemma Parts()
      ensures LineOk() ==> delay.Length == |cfg.fir|
      ensures MixOk() ==> cfg.Usable() && mixed == cfg.Mixed(fed)
      ensures MixOk() ==> (cfg.Converts(fed, out) <==> cfg.IsOutput(cfg.Filtered(mixed), out))
    {
    }

    lemma MorePart(was: seq<real>)
      requires cfg.Usable() && was <= cfg.Filtered(mixed) && cfg.Emitted(was, out)
      ensures cfg.Emitted(cfg.Filtered(mixed), out)
    {
      hide Front.Filtered, Front.Emitted;
      var f := cfg.Filtered(mixed);
      cfg.EmittedStays(was, f[|was|..], out);
      assert was + f[|was|..] == f;
    }
  }

  /** However the same samples are split into calls, the same output comes. */
  lemma FrontChunkIndependence(a: DeepCwFront, b: DeepCwFront)
    requires a.Valid() && b.Valid() && a.cfg == b.cfg && a.fed == b.fed
    ensures a.out == b.out && a.mixPhase == b.mixPhase && a.outPos == b.outPos
  {
    hide Front.Converts, DeepCwFront.LineOk, DeepCwFront.SourceOk;
    a.cfg.OutputIsUnique(a.fed, a.out, b.out);
  }
}
