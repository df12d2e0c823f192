/** What `deepcw_front_process` computes, said for a whole signal at once: mixing, a filter that is
    a dot product with the last `taps` samples, and linear interpolation at a fixed step. */
module FrontEnd {
  type Pair = (real, real)

  /** Trigonometry is left open; `fir` is the designed filter. */
  datatype Front = Front(srcRate: real, pitch: real, center: real, target: real, realAudio: bool, fir: seq<real>,
                         pi: real, cos: real -> real, sin: real -> real) {
    predicate Usable() {
      0.0 < srcRate && 0.0 < target && 0.0 < pi && fir != []
    }

    function Step(): real
      requires Usable()
    {
      2.0 * pi * (pitch - center) / srcRate
    }

    function Ratio(): (r: real)
      requires Usable()
      ensures 0.0 < r
    {
      srcRate / target
    }

    /** `fmod(x, 2 * pi)` removes `k` whole turns, `k` rounded toward zero. */
    function Truncated(x: real): int {
      if x >= 0.0 then x.Floor else -((-x).Floor)
    }

    function Shifted(x: real, k: int): real {
      x - 2.0 * pi * k as real
    }

    /** The mixer phase moves on by one step and is wrapped when it is far from zero. */
    function Turned(phase: real): real
      requires Usable()
    {
      var p := phase + Step();
      if p > 8.0 * pi || p < -8.0 * pi then Shifted(p, Truncated(p / (2.0 * pi))) else p
    }

    function Phase(n: nat): real
      requires Usable()
    {
      if n == 0 then 0.0 else Turned(Phase(n - 1))
    }

    function MixAt(phase: real, x: Pair): real {
      if realAudio then x.0 * cos(phase) else x.0 * cos(phase) + x.1 * sin(phase)
    }

    function Mixed(fed: seq<Pair>): (mixed: seq<real>)
      requires Usable()
      ensures |mixed| == |fed|
      ensures forall n :: 0 <= n < |fed| ==> mixed[n] == MixAt(Phase(n), fed[n])
    {
      seq(|fed|, n requires 0 <= n < |fed| => MixAt(Phase(n), fed[n]))
    }

    /** The first `k` products of the filter with the samples from `start` on. */
    function Dot(mixed: seq<real>, start: nat, k: nat): real
      requires k <= |fir| && start + k <= |mixed|
    {
      if k == 0 then 0.0 else Dot(mixed, start, k - 1) + mixed[start + k - 1] * fir[k - 1]
    }

    /** The whole filtered signal; it begins when the filter is full. */
    function Filtered(mixed: seq<real>): (f: seq<real>)
      requires Usable()
      ensures |f| == if |mixed| < |fir| then 0 else |mixed| - |fir| + 1
      ensures forall k :: 0 <= k < |f| ==> f[k] == Dot(mixed, k, |fir|)
    {
      seq(if |mixed| < |fir| then 0 else |mixed| - |fir| + 1,
          k requires 0 <= k < if |mixed| < |fir| then 0 else |mixed| - |fir| + 1 => Dot(mixed, k, |fir|))
    }

    /** Where output `m` lies in the filtered signal. */
    function Pos(m: nat): (p: real)
      requires Usable()
      ensures 0.0 <= p
    {
      if m == 0 then 0.0 else Pos(m - 1) + Ratio()
    }

    /** Output `m` is due once the filtered signal reaches past the sample behind it. */
    predicate Due(m: nat, available: nat)
      requires Usable()
    {
      Pos(m) + 1.0 < available as real
    }

    /** That is, once both samples around it are there. */
    lemma DueWhenThere(m: nat, available: nat)
      requires Usable()
      ensures Due(m, available) <==> Pos(m).Floor + 1 < available
    {
      hide Pos;
    }

    function Interpolated(f: seq<real>, p: real): real
      requires 0.0 <= p && p + 1.0 < |f| as real
    {
      f[p.Floor] * (1.0 - (p - p.Floor as real)) + f[p.Floor + 1] * (p - p.Floor as real)
    }

    /** Every value of `out` was due and is interpolated from `f`. */
    ghost predicate Emitted(f: seq<real>, out: seq<real>)
      requires Usable()
    {
      forall m :: 0 <= m < |out| ==> Due(m, |f|) && out[m] == Interpolated(f, Pos(m))
    }

    /** `out` is the interpolation of all of `f`: every output that is due, and no other. */
    ghost predicate IsOutput(f: seq<real>, out: seq<real>)
      requires Usable()
    {
      Emitted(f, out) && !Due(|out|, |f|)
    }

    /** The batch meaning of the front end. */
    ghost predicate Converts(fed: seq<Pair>, out: seq<real>)
      requires Usable()
    {
      IsOutput(Filtered(Mixed(fed)), out)
    }

    // -------------------------------------------------------------- about the spec

    lemma {:induction false} PosIsMultiple(m: nat)
      requires Usable()
      ensures Pos(m) == m as real * Ratio()
    {
      if 0 < m {
        PosIsMultiple(m - 1);
      }
    }

    /** Only so many outputs can be due. */
    function OutBound(available: nat): nat
      requires Usable()
    {
      (available as real / Ratio()).Floor + 1
    }

    lemma DueIsBounded(m: nat, available: nat)
      requires Usable() && Due(m, available)
      ensures m < OutBound(available)
    {
      hide Ratio, Pos;
      PosIsMultiple(m);
      var r, a := Ratio(), available as real;
      assert a / r * r == a;
      assert (a / r - m as real) * r > 0.0;
      assert a / r > m as real;
    }

    lemma {:induction false} PosGrows(a: nat, b: nat)
      requires Usable() && a <= b
      ensures Pos(a) <= Pos(b)
    {
      hide Ratio;
      if a < b {
        PosGrows(a, b - 1);
      }
    }

    /** The samples fed determine the output. */
    lemma OutputIsUnique(fed: seq<Pair>, a: seq<real>, b: seq<real>)
      requires Usable() && Converts(fed, a) && Converts(fed, b)
      ensures a == b
    {
      hide Mixed, Filtered, Pos;
    }

    /** What was put out stays right when more is filtered. */
    lemma EmittedStays(f: seq<real>, more: seq<real>, out: seq<real>)
      requires Usable() && Emitted(f, out)
      ensures Emitted(f + more, out)
    {
      hide Pos;
      forall m | 0 <= m < |out| ensures Due(m, |f + more|) && out[m] == Interpolated(f + more, Pos(m)) {
        assert Due(m, |f|) && out[m] == Interpolated(f, Pos(m));
      }
    }

    lemma EmittedNext(f: seq<real>, out: seq<real>, sample: real)
      requires Usable() && Emitted(f, out) && Due(|out|, |f|) && sample == Interpolated(f, Pos(|out|))
      ensures Emitted(f, out + [sample])
    {
      hide Pos, Due, Interpolated;
    }

    lemma {:induction false} DotPrefix(mixed: seq<real>, more: seq<real>, start: nat, k: nat)
      requires k <= |fir| && start + k <= |mixed|
      ensures Dot(mixed + more, start, k) == Dot(mixed, start, k)
    {
      if 0 < k {
        DotPrefix(mixed, more, start, k - 1);
      }
    }

    lemma NextPhase(n: nat)
      requires Usable()
      ensures Phase(n + 1) == Turned(Phase(n)) && Pos(n + 1) == Pos(n) + Ratio()
    {
      hide Turned, Ratio;
    }

    /** The kept end of the filtered signal suffices for the next output. */
    lemma InterpolatedHere(f: seq<real>, origin: nat, p: real)
      requires origin <= |f| && origin <= p.Floor && 0.0 <= p && p + 1.0 < |f| as real
      ensures var i, kept := p.Floor - origin, f[origin..];
              0 <= i && i + 1 < |kept|
              && kept[i] * (1.0 - (p - p.Floor as real)) + kept[i + 1] * (p - p.Floor as real) == Interpolated(f, p)
    {
    }

    /** One more sample adds one filtered value, once the filter is full. */
    lemma FilteredSnoc(mixed: seq<real>, x: real)
      requires Usable()
      ensures |mixed| + 1 < |fir| ==> Filtered(mixed + [x]) == Filtered(mixed) == []
      ensures |fir| <= |mixed| + 1 ==>
                Filtered(mixed + [x]) == Filtered(mixed) + [Dot(mixed + [x], |mixed| + 1 - |fir|, |fir|)]
    {
      hide Dot;
      var longer := Filtered(mixed + [x]);
      forall k | 0 <= k < |Filtered(mixed)| ensures longer[k] == Filtered(mixed)[k] {
        DotPrefix(mixed, [x], k, |fir|);
      }
    }

    lemma MixedSnoc(fed: seq<Pair>, x: Pair)
      requires Usable()
      ensures Mixed(fed + [x]) == Mixed(fed) + [MixAt(Phase(|fed|), x)]
    {
      hide *;
      var longer, shorter := Mixed(fed + [x]), Mixed(fed);
      forall k | 0 <= k < |fed| ensures longer[k] == shorter[k] {
        MixedValue(fed + [x], k);
        MixedValue(fed, k);
      }
      MixedValue(fed + [x], |fed|);
      SnocIs(longer, shorter);
    }

    lemma MixedValue(fed: seq<Pair>, n: nat)
      requires Usable() && n < |fed|
      ensures |Mixed(fed)| == |fed| && Mixed(fed)[n] == MixAt(Phase(n), fed[n])
    {
      hide MixAt, Phase;
    }

    lemma SnocIs(longer: seq<real>, shorter: seq<real>)
      requires |longer| == |shorter| + 1 && forall k :: 0 <= k < |shorter| ==> longer[k] == shorter[k]
      ensures longer == shorter + [longer[|shorter|]]
    {
    }

    // -------------------------------------------------------------- the mixer

    /** Trigonometric functions of period `2 * pi`. */
    ghost predicate Periodic() {
      forall x: real, k: int {:trigger Shifted(x, k)} :: cos(Shifted(x, k)) == cos(x) && sin(Shifted(x, k)) == sin(x)
    }

    function Angle(n: nat): real
      requires Usable()
    {
      n as real * Step()
    }

    lemma {:induction false} PhaseTurns(n: nat) returns (k: int)
      requires Usable()
      ensures Phase(n) == Shifted(Angle(n), k)
    {
      k := 0;
      if 0 < n {
        k := PhaseTurns(n - 1);
        var p := Phase(n - 1) + Step();
        assert p == Shifted(Angle(n), k) by { NextAngle(n); }
        if p > 8.0 * pi || p < -8.0 * pi {
          var more := Truncated(p / (2.0 * pi));
          TurnsAdd(Angle(n), k, more);
          k := k + more;
        }
      }
    }

    lemma NextAngle(n: nat)
      requires Usable() && 0 < n
      ensures Angle(n) == Angle(n - 1) + Step()
    {
      hide Step;
    }

    lemma TurnsAdd(x: real, k: int, more: int)
      ensures Shifted(Shifted(x, k), more) == Shifted(x, k + more)
    {
    }

    /** Wrapping the phase does not change the mixed signal: sample `n` is mixed at `n` steps. */
    lemma MixesAtAngle(n: nat, x: Pair)
      requires Usable() && Periodic()
      ensures MixAt(Phase(n), x) == MixAt(Angle(n), x)
    {
      hide Angle, Phase, Shifted;
      var k := PhaseTurns(n);
    }

    ghost predicate Addition() {
      forall x, y :: cos(x - y) == cos(x) * cos(y) + sin(x) * sin(y)
    }

    /** A sample of a tone at an angle, as a pair and as a single value. */
    function Turning(level: real, angle: real): Pair {
      (level * cos(angle), level * sin(angle))
    }

    function Swinging(level: real, angle: real): real {
      level * cos(angle)
    }

    /** A pair of samples of a tone comes out as a cosine, turned back by the mixer. */
    lemma ToneLands(n: nat, level: real, angle: real)
      requires Usable() && Periodic() && Addition() && !realAudio
      ensures MixAt(Phase(n), Turning(level, angle)) == Swinging(level, angle - Angle(n))
    {
      hide *;
      MixesAtAngle(n, Turning(level, angle));
      ToneAt(level, angle, Angle(n));
    }

    lemma ToneAt(level: real, angle: real, phase: real)
      requires Addition() && !realAudio
      ensures MixAt(phase, Turning(level, angle)) == Swinging(level, angle - phase)
    {
      hide Addition;
      Sum(angle, phase);
      Spread(level, cos(angle), sin(angle), cos(phase), sin(phase));
    }

    ghost predicate Reflection() {
      forall x :: cos(-x) == cos(x) && sin(-x) == -sin(x)
    }

    /** A real tone comes out as two halves, turned back and turned on by the mixer. */
    lemma RealToneLands(n: nat, level: real, angle: real)
      requires Usable() && Periodic() && Addition() && Reflection() && realAudio
      ensures MixAt(Phase(n), Turning(level, angle))
           == 0.5 * (Swinging(level, angle - Angle(n)) + Swinging(level, angle + Angle(n)))
    {
      hide *;
      MixesAtAngle(n, Turning(level, angle));
      RealToneAt(level, angle, Angle(n));
    }

    lemma RealToneAt(level: real, angle: real, phase: real)
      requires Addition() && Reflection() && realAudio
      ensures MixAt(phase, Turning(level, angle)) == 0.5 * (Swinging(level, angle - phase) + Swinging(level, angle + phase))
    {
      hide Addition, Reflection;
      Sum(angle, phase);
      SumBack(angle, phase);
      Halves(level, cos(angle), sin(angle), cos(phase), sin(phase));
    }

    lemma Halves(level: real, c: real, s: real, d: real, t: real)
      ensures level * c * d == 0.5 * (level * (c * d + s * t) + level * (c * d - s * t))
    {
      var x, y := c * d, s * t;
      assert level * (x + y) + level * (x - y) == 2.0 * (level * x);
      assert level * c * d == level * x;
    }

    lemma Reflected(x: real)
      requires Reflection()
      ensures cos(-x) == cos(x) && sin(-x) == -sin(x)
    {
    }

    lemma SumBack(x: real, y: real)
      requires Addition() && Reflection()
      ensures cos(x + y) == cos(x) * cos(y) - sin(x) * sin(y)
    {
      hide *;
      Sum(x, -y);
      Reflected(y);
      assert x - (-y) == x + y;
      Negated(sin(x), sin(y));
    }

    lemma Negated(s: real, t: real)
      ensures s * (-t) == -(s * t)
    {
    }

    lemma Sum(x: real, y: real)
      requires Addition()
      ensures cos(x - y) == cos(x) * cos(y) + sin(x) * sin(y)
    {
    }

    lemma Spread(level: real, c: real, s: real, d: real, t: real)
      ensures level * c * d + level * s * t == level * (c * d + s * t)
    {
    }

    /** By how much the angle of a tone moves on at each sample. */
    function TurnOf(frequency: real): real
      requires Usable()
    {
      2.0 * pi * frequency / srcRate
    }

    function ToneAngle(frequency: real, start: real, n: nat): real
      requires Usable()
    {
      start + n as real * TurnOf(frequency)
    }

    /** So the tone at the pitch lands on the center. */
    lemma PitchLandsOnCenter(n: nat, level: real, start: real)
      requires Usable() && Periodic() && Addition() && !realAudio
      ensures MixAt(Phase(n), Turning(level, ToneAngle(pitch, start, n))) == Swinging(level, ToneAngle(center, start, n))
    {
      hide *;
      ToneLands(n, level, ToneAngle(pitch, start, n));
      AnglesDiffer(n, start);
    }

    lemma AnglesDiffer(n: nat, start: real)
      requires Usable()
      ensures ToneAngle(pitch, start, n) - Angle(n) == ToneAngle(center, start, n)
    {
      StepIs();
      hide Step, TurnOf;
      Multiples(n as real, TurnOf(pitch), TurnOf(center));
    }

    lemma StepIs()
      requires Usable()
      ensures Step() == TurnOf(pitch) - TurnOf(center)
    {
      var p, c := 2.0 * pi * pitch, 2.0 * pi * center;
      assert 2.0 * pi * (pitch - center) == p - c;
      assert (p - c) / srcRate == p / srcRate - c / srcRate;
    }

    lemma Multiples(n: real, a: real, b: real)
      ensures n * (a - b) == n * a - n * b
    {
    }

    // -------------------------------------------------------------- the filter and the interpolation

    /** A single one at sample `j` is answered by the filter read backwards. */
    lemma {:induction false} ImpulseResponse(mixed: seq<real>, j: nat, start: nat, k: nat)
      requires k <= |fir| && start + k <= |mixed| && j < |mixed|
      requires forall i :: 0 <= i < |mixed| ==> mixed[i] == if i == j then 1.0 else 0.0
      ensures Dot(mixed, start, k) == if start <= j < start + k then fir[j - start] else 0.0
    {
      if 0 < k {
        ImpulseResponse(mixed, j, start, k - 1);
      }
    }

    /** The filter is linear. */
    lemma {:induction false} DotLinear(a: seq<real>, b: seq<real>, c: seq<real>, x: real, y: real, start: nat, k: nat)
      requires k <= |fir| && start + k <= |a| && |a| == |b| == |c|
      requires forall i :: 0 <= i < |a| ==> c[i] == x * a[i] + y * b[i]
      ensures Dot(c, start, k) == x * Dot(a, start, k) + y * Dot(b, start, k)
    {
      if 0 < k {
        DotLinear(a, b, c, x, y, start, k - 1);
        var i := start + k - 1;
        OneTerm(a[i], b[i], x, y, fir[k - 1], Dot(a, start, k - 1), Dot(b, start, k - 1));
      }
    }

    lemma OneTerm(a: real, b: real, x: real, y: real, f: real, da: real, db: real)
      ensures x * da + y * db + (x * a + y * b) * f == x * (da + a * f) + y * (db + b * f)
    {
      assert (x * a + y * b) * f == x * (a * f) + y * (b * f);
      assert x * (da + a * f) == x * da + x * (a * f);
      assert y * (db + b * f) == y * db + y * (b * f);
    }

    /** Samples on a straight line are interpolated on that line. */
    lemma LinesStay(f: seq<real>, a: real, b: real, p: real)
      requires 0.0 <= p && p + 1.0 < |f| as real
      requires forall i :: 0 <= i < |f| ==> f[i] == a + b * i as real
      ensures Interpolated(f, p) == a + b * p
    {
      var i := p.Floor;
      var t := p - i as real;
      Between(a + b * i as real, b, t);
      assert f[i + 1] == a + b * i as real + b by { NextOnLine(b, i); }
      assert b * p == b * i as real + b * t by { Parts(b, i as real, t); }
    }

    lemma NextOnLine(b: real, i: int)
      ensures b * (i + 1) as real == b * i as real + b
    {
    }

    lemma Parts(b: real, i: real, t: real)
      ensures b * (i + t) == b * i + b * t
    {
    }

    lemma Between(v: real, b: real, t: real)
      ensures v * (1.0 - t) + (v + b) * t == v + b * t
    {
    }
  }
}
