/** The in-place radix-2 transform over any commutative ring with a suitable root of unity.
    `Dft` is the plain sum; `FftRadix2` leaves exactly that in the array. */
module Fft {
  import opened BitReversal

  datatype Ring<!T> = Ring(zero: T, one: T, add: (T, T) -> T, mul: (T, T) -> T, neg: T -> T)

  /** The laws of a commutative ring with one. */
  ghost predicate IsRing<T(!new)>(r: Ring<T>) {
    && (forall a, b :: r.add(a, b) == r.add(b, a))
    && (forall a, b, c :: r.add(r.add(a, b), c) == r.add(a, r.add(b, c)))
    && (forall a :: r.add(a, r.zero) == a)
    && (forall a :: r.add(a, r.neg(a)) == r.zero)
    && (forall a, b :: r.mul(a, b) == r.mul(b, a))
    && (forall a, b, c :: r.mul(r.mul(a, b), c) == r.mul(a, r.mul(b, c)))
    && (forall a :: r.mul(a, r.one) == a)
    && (forall a, b, c :: r.mul(a, r.add(b, c)) == r.add(r.mul(a, b), r.mul(a, c)))
  }

  function Pow<T>(r: Ring<T>, w: T, e: nat): T {
    if e == 0 then r.one else r.mul(Pow(r, w, e - 1), w)
  }

  /** The first `n` terms of the sum that defines coefficient `k`. */
  function Sum<T>(r: Ring<T>, x: seq<T>, w: T, k: nat, n: nat): T
    requires n <= |x|
  {
    if n == 0 then r.zero else r.add(Sum(r, x, w, k, n - 1), r.mul(x[n - 1], Pow(r, w, (n - 1) * k)))
  }

  /** X[k] is the sum of x[t] w^(t k). */
  function Dft<T>(r: Ring<T>, x: seq<T>, w: T): (y: seq<T>)
    ensures |y| == |x| && forall k :: 0 <= k < |x| ==> y[k] == Sum(r, x, w, k, |x|)
  {
    seq(|x|, k requires 0 <= k < |x| => Sum(r, x, w, k, |x|))
  }

  function Sub<T>(r: Ring<T>, a: T, b: T): T { r.add(a, r.neg(b)) }

  // ---------------------------------------------------------------- the laws, one at a time

  lemma AddComm<T(!new)>(r: Ring<T>, a: T, b: T)
    requires IsRing(r)
    ensures r.add(a, b) == r.add(b, a)
  {}

  lemma AddAssoc<T(!new)>(r: Ring<T>, a: T, b: T, c: T)
    requires IsRing(r)
    ensures r.add(r.add(a, b), c) == r.add(a, r.add(b, c))
  {}

  lemma MulComm<T(!new)>(r: Ring<T>, a: T, b: T)
    requires IsRing(r)
    ensures r.mul(a, b) == r.mul(b, a)
  {}

  lemma MulAssoc<T(!new)>(r: Ring<T>, a: T, b: T, c: T)
    requires IsRing(r)
    ensures r.mul(r.mul(a, b), c) == r.mul(a, r.mul(b, c))
  {}

  lemma MulOne<T(!new)>(r: Ring<T>, a: T)
    requires IsRing(r)
    ensures r.mul(a, r.one) == a && r.mul(r.one, a) == a
  {}

  lemma AddZero<T(!new)>(r: Ring<T>, a: T)
    requires IsRing(r)
    ensures r.add(a, r.zero) == a && r.add(r.zero, a) == a
  {}

  lemma Distrib<T(!new)>(r: Ring<T>, a: T, b: T, c: T)
    requires IsRing(r)
    ensures r.mul(a, r.add(b, c)) == r.add(r.mul(a, b), r.mul(a, c))
  {}

  lemma AddCancel<T(!new)>(r: Ring<T>, a: T, b: T, c: T)
    requires IsRing(r) && r.add(a, b) == r.add(a, c)
    ensures b == c
  {
    var n := r.neg(a);
    hide *;
    NegLeft(r, a);
    AddAssoc(r, n, a, b);
    AddAssoc(r, n, a, c);
    AddZero(r, b);
    AddZero(r, c);
  }

  lemma NegLeft<T(!new)>(r: Ring<T>, a: T)
    requires IsRing(r)
    ensures r.add(r.neg(a), a) == r.zero && r.add(a, r.neg(a)) == r.zero
  {}

  lemma MulZero<T(!new)>(r: Ring<T>, a: T)
    requires IsRing(r)
    ensures r.mul(a, r.zero) == r.zero
  {
    hide *;
    var z := r.mul(a, r.zero);
    Distrib(r, a, r.zero, r.zero);
    AddZero(r, r.zero);
    AddZero(r, z);
    AddCancel(r, z, z, r.zero);
  }

  /** a (-b) = -(a b) */
  lemma MulNeg<T(!new)>(r: Ring<T>, a: T, b: T)
    requires IsRing(r)
    ensures r.mul(a, r.neg(b)) == r.neg(r.mul(a, b))
  {
    hide *;
    Distrib(r, a, b, r.neg(b));
    NegLeft(r, b);
    MulZero(r, a);
    NegLeft(r, r.mul(a, b));
    AddCancel(r, r.mul(a, b), r.mul(a, r.neg(b)), r.neg(r.mul(a, b)));
  }

  lemma NegNeg<T(!new)>(r: Ring<T>, a: T)
    requires IsRing(r)
    ensures r.neg(r.neg(a)) == a
  {
    hide *;
    NegLeft(r, a);
    NegLeft(r, r.neg(a));
    AddCancel(r, r.neg(a), r.neg(r.neg(a)), a);
  }

  /** (a + b) + (c + d) = (a + c) + (b + d) */
  lemma AddShuffle<T(!new)>(r: Ring<T>, a: T, b: T, c: T, d: T)
    requires IsRing(r)
    ensures r.add(r.add(a, b), r.add(c, d)) == r.add(r.add(a, c), r.add(b, d))
  {
    hide *;
    AddAssoc(r, a, b, r.add(c, d));
    AddAssoc(r, b, c, d);
    AddComm(r, b, c);
    AddAssoc(r, c, b, d);
    AddAssoc(r, a, c, r.add(b, d));
  }

  // ---------------------------------------------------------------- powers

  lemma {:induction false} PowAdd<T(!new)>(r: Ring<T>, w: T, a: nat, b: nat)
    requires IsRing(r)
    ensures Pow(r, w, a + b) == r.mul(Pow(r, w, a), Pow(r, w, b))
  {
    hide IsRing;
    if b == 0 {
      MulOne(r, Pow(r, w, a));
    } else {
      PowAdd(r, w, a, b - 1);
      MulAssoc(r, Pow(r, w, a), Pow(r, w, b - 1), w);
      assert a + b - 1 == a + (b - 1);
    }
  }

  lemma {:induction false} PowPow<T(!new)>(r: Ring<T>, w: T, a: nat, b: nat)
    requires IsRing(r)
    ensures 0 <= a * b && Pow(r, Pow(r, w, a), b) == Pow(r, w, a * b)
  {
    hide IsRing;
    if b > 0 {
      PowPow(r, w, a, b - 1);
      assert a * b == a * (b - 1) + a;
      PowAdd(r, w, a * (b - 1), a);
    }
  }

  lemma PowOne<T(!new)>(r: Ring<T>, w: T)
    requires IsRing(r)
    ensures Pow(r, w, 1) == w
  {
    assert Pow(r, w, 1) == r.mul(Pow(r, w, 0), w);
    MulOne(r, w);
  }

  lemma {:induction false} OnePow<T(!new)>(r: Ring<T>, e: nat)
    requires IsRing(r)
    ensures Pow(r, r.one, e) == r.one
  {
    if e > 0 { OnePow(r, e - 1); MulOne(r, r.one); }
  }

  /** w is a root for length 2m: its m-th power is minus one. */
  ghost predicate HalfTurn<T(!new)>(r: Ring<T>, w: T, m: nat) {
    Pow(r, w, m) == r.neg(r.one)
  }

  function Square<T>(r: Ring<T>, w: T): T { Pow(r, w, 2) }

  /** The square of a root for length 4m is a root for length 2m. */
  lemma SquareHalfTurn<T(!new)>(r: Ring<T>, w: T, m: nat)
    requires IsRing(r) && HalfTurn(r, w, 2 * m)
    ensures HalfTurn(r, Square(r, w), m)
  {
    PowPow(r, w, 2, m);
  }

  /** Half a turn further on, a power changes its sign; a whole turn changes nothing. */
  lemma Turn<T(!new)>(r: Ring<T>, w: T, m: nat, k: nat)
    requires IsRing(r) && HalfTurn(r, w, m)
    ensures Pow(r, w, k + m) == r.neg(Pow(r, w, k))
    ensures Pow(r, w, k + 2 * m) == Pow(r, w, k)
  {
    var p := Pow(r, w, k);
    hide IsRing, Pow;
    PowAdd(r, w, k, m);
    MulNeg(r, p, r.one);
    MulOne(r, p);
    PowAdd(r, w, k + m, m);
    MulNeg(r, r.neg(p), r.one);
    MulOne(r, r.neg(p));
    NegNeg(r, p);
    assert k + m + m == k + 2 * m;
  }

  lemma {:induction false} Turns<T(!new)>(r: Ring<T>, w: T, m: nat, k: nat, turns: nat)
    requires IsRing(r) && HalfTurn(r, w, m)
    ensures 0 <= turns * (2 * m) && Pow(r, w, k + turns * (2 * m)) == Pow(r, w, k)
  {
    hide *;
    if turns > 0 {
      Turns(r, w, m, k, turns - 1);
      assert (turns - 1) * (2 * m) + 2 * m == turns * (2 * m);
      Turn(r, w, m, k + (turns - 1) * (2 * m));
    }
  }

  // ---------------------------------------------------------------- splitting the sum

  function Evens<T>(x: seq<T>): (y: seq<T>)
    ensures |y| == |x| / 2 && forall i :: 0 <= i < |y| ==> y[i] == x[2 * i]
  {
    seq(|x| / 2, i requires 0 <= i < |x| / 2 => x[2 * i])
  }

  function Odds<T>(x: seq<T>): (y: seq<T>)
    ensures |y| == |x| / 2 && forall i :: 0 <= i < |y| ==> y[i] == x[2 * i + 1]
  {
    seq(|x| / 2, i requires 0 <= i < |x| / 2 => x[2 * i + 1])
  }

  /** The exponents of the terms 2t and 2t + 1 in powers of the square. */
  lemma TermPowers<T(!new)>(r: Ring<T>, w: T, t: nat, k: nat)
    requires IsRing(r)
    ensures 0 <= t * k && 0 <= (2 * t) * k && 0 <= (2 * t + 1) * k
    ensures Pow(r, w, (2 * t) * k) == Pow(r, Square(r, w), t * k)
    ensures Pow(r, w, (2 * t + 1) * k) == r.mul(Pow(r, w, k), Pow(r, Square(r, w), t * k))
  {
    hide IsRing, Pow;
    assert 0 <= t * k;
    PowPow(r, w, 2, t * k);
    assert (2 * t) * k == 2 * (t * k);
    assert (2 * t + 1) * k == k + 2 * (t * k);
    PowAdd(r, w, k, 2 * (t * k));
  }

  /** x (p q) = p (x q) */
  lemma MulSwap<T(!new)>(r: Ring<T>, x: T, p: T, q: T)
    requires IsRing(r)
    ensures r.mul(x, r.mul(p, q)) == r.mul(p, r.mul(x, q))
  {
    hide *;
    MulAssoc(r, x, p, q);
    MulComm(r, x, p);
    MulAssoc(r, p, x, q);
  }

  /** ((e + p o) + a) + p b = (e + a) + p (o + b) */
  lemma Regroup<T(!new)>(r: Ring<T>, e: T, p: T, o: T, a: T, b: T)
    requires IsRing(r)
    ensures r.add(r.add(r.add(e, r.mul(p, o)), a), r.mul(p, b)) == r.add(r.add(e, a), r.mul(p, r.add(o, b)))
  {
    hide *;
    AddAssoc(r, r.add(e, r.mul(p, o)), a, r.mul(p, b));
    AddShuffle(r, e, r.mul(p, o), a, r.mul(p, b));
    Distrib(r, p, o, b);
  }

  lemma {:induction false} SumSplit<T(!new)>(r: Ring<T>, x: seq<T>, w: T, k: nat, s: nat)
    requires IsRing(r) && 2 * s <= |x|
    ensures Sum(r, x, w, k, 2 * s)
         == r.add(Sum(r, Evens(x), Square(r, w), k, s), r.mul(Pow(r, w, k), Sum(r, Odds(x), Square(r, w), k, s)))
  {
    hide *;
    if s == 0 {
      SumNone(r, x, w, k);
      SumNone(r, Evens(x), Square(r, w), k);
      SumNone(r, Odds(x), Square(r, w), k);
      MulZero(r, Pow(r, w, k));
      AddZero(r, r.zero);
    } else {
      SumSplit(r, x, w, k, s - 1);
      SplitNext(r, x, w, k, s - 1);
    }
  }

  lemma SumNone<T>(r: Ring<T>, x: seq<T>, w: T, k: nat)
    ensures Sum(r, x, w, k, 0) == r.zero
  {
  }

  lemma SumNext<T>(r: Ring<T>, x: seq<T>, w: T, k: nat, t: nat)
    requires t < |x|
    ensures 0 <= t * k && Sum(r, x, w, k, t + 1) == r.add(Sum(r, x, w, k, t), r.mul(x[t], Pow(r, w, t * k)))
  {
    hide Pow;
  }

  lemma SplitNext<T(!new)>(r: Ring<T>, x: seq<T>, w: T, k: nat, t: nat)
    requires IsRing(r) && 2 * t + 2 <= |x|
    requires Sum(r, x, w, k, 2 * t)
          == r.add(Sum(r, Evens(x), Square(r, w), k, t), r.mul(Pow(r, w, k), Sum(r, Odds(x), Square(r, w), k, t)))
    ensures Sum(r, x, w, k, 2 * t + 2)
         == r.add(Sum(r, Evens(x), Square(r, w), k, t + 1), r.mul(Pow(r, w, k), Sum(r, Odds(x), Square(r, w), k, t + 1)))
  {
    hide *;
    var v, p := Square(r, w), Pow(r, w, k);
    TermPowers(r, w, t, k);
    var q := Pow(r, v, t * k);
    var e, o := Sum(r, Evens(x), v, k, t), Sum(r, Odds(x), v, k, t);
    SumNext(r, x, w, k, 2 * t);
    SumNext(r, x, w, k, 2 * t + 1);
    SumNext(r, Evens(x), v, k, t);
    SumNext(r, Odds(x), v, k, t);
    MulSwap(r, x[2 * t + 1], p, q);
    Regroup(r, e, p, o, r.mul(x[2 * t], q), r.mul(x[2 * t + 1], q));
  }

  /** Coefficients of the half-length transforms repeat after m. */
  lemma {:induction false} SumTurn<T(!new)>(r: Ring<T>, y: seq<T>, w: T, m: nat, k: nat, s: nat)
    requires IsRing(r) && HalfTurn(r, w, m) && s <= |y|
    ensures Sum(r, y, Square(r, w), k + m, s) == Sum(r, y, Square(r, w), k, s)
  {
    hide *;
    if s > 0 {
      SumTurn(r, y, w, m, k, s - 1);
      TermTurn(r, w, m, k, s - 1);
      SumNext(r, y, Square(r, w), k + m, s - 1);
      SumNext(r, y, Square(r, w), k, s - 1);
    } else {
      SumNone(r, y, Square(r, w), k + m);
      SumNone(r, y, Square(r, w), k);
    }
  }

  lemma Exponents(t: nat, k: nat, m: nat)
    ensures 0 <= t * k && 0 <= t * (k + m) && 0 <= t * (2 * m)
    ensures 2 * (t * (k + m)) == 2 * (t * k) + t * (2 * m)
  {
    assert t * (k + m) == t * k + t * m;
    assert t * (2 * m) == 2 * (t * m);
  }

  lemma TermTurn<T(!new)>(r: Ring<T>, w: T, m: nat, k: nat, t: nat)
    requires IsRing(r) && HalfTurn(r, w, m)
    ensures 0 <= t * k && 0 <= t * (k + m)
    ensures Pow(r, Square(r, w), t * (k + m)) == Pow(r, Square(r, w), t * k)
  {
    hide IsRing, HalfTurn, Pow;
    Exponents(t, k, m);
    PowPow(r, w, 2, t * (k + m));
    PowPow(r, w, 2, t * k);
    Turns(r, w, m, 2 * (t * k), t);
  }

  /** The halves of a transform from the transforms of its halves. */
  lemma DftSplit<T(!new)>(r: Ring<T>, x: seq<T>, w: T, m: nat, k: nat)
    requires IsRing(r) && HalfTurn(r, w, m) && |x| == 2 * m && k < m
    ensures var e, o := Dft(r, Evens(x), Square(r, w)), Dft(r, Odds(x), Square(r, w));
            var v := r.mul(o[k], Pow(r, w, k));
            Dft(r, x, w)[k] == r.add(e[k], v) && Dft(r, x, w)[k + m] == Sub(r, e[k], v)
  {
    hide IsRing, HalfTurn, Pow, Square, Sum;
    var p := Pow(r, w, k);
    var o := Dft(r, Odds(x), Square(r, w))[k];
    SumSplit(r, x, w, k, m);
    MulComm(r, o, p);
    SumSplit(r, x, w, k + m, m);
    SumTurn(r, Evens(x), w, m, k, m);
    SumTurn(r, Odds(x), w, m, k, m);
    Turn(r, w, m, k);
    MulComm(r, r.neg(p), o);
    MulNeg(r, o, p);
  }

  // ---------------------------------------------------------------- stages

  /** One block of a stage: every pair half a block apart is replaced by its sum and difference. */
  function Butterfly<T>(r: Ring<T>, a: seq<T>, wlen: T): (b: seq<T>)
    ensures |b| == |a|
  {
    var half := |a| / 2;
    seq(|a|, k requires 0 <= k < |a| =>
          if k < half then r.add(a[k], r.mul(a[k + half], Pow(r, wlen, k)))
          else if k < 2 * half then Sub(r, a[k - half], r.mul(a[k], Pow(r, wlen, k - half)))
          else a[k])
  }

  /** A whole stage: blocks of `len` side by side. */
  function StageFrom<T>(r: Ring<T>, a: seq<T>, len: nat, wlen: T): (b: seq<T>)
    requires 0 < len
    ensures |b| == |a|
    decreases |a|
  {
    if |a| < len then a else Butterfly(r, a[..len], wlen) + StageFrom(r, a[len..], len, wlen)
  }

  /** What the array holds once blocks of `2^p` are transformed: the transforms of the
      subsequences whose indices agree in their lowest bits, in bit-reversed order. */
  function Blocks<T>(r: Ring<T>, x: seq<T>, w: T, p: nat, q: nat): (b: seq<T>)
    requires |x| == Exp2(q)
    ensures |b| == |x|
    decreases q
  {
    if q <= p then Dft(r, x, w)
    else Blocks(r, Evens(x), Square(r, w), p, q - 1) + Blocks(r, Odds(x), Square(r, w), p, q - 1)
  }

  lemma ButterflyDft<T(!new)>(r: Ring<T>, x: seq<T>, w: T, m: nat)
    requires IsRing(r) && HalfTurn(r, w, m) && |x| == 2 * m
    ensures Butterfly(r, Dft(r, Evens(x), Square(r, w)) + Dft(r, Odds(x), Square(r, w)), w) == Dft(r, x, w)
  {
    hide IsRing, HalfTurn, Pow, Square, Sum;
    var e, o := Dft(r, Evens(x), Square(r, w)), Dft(r, Odds(x), Square(r, w));
    var b := Butterfly(r, e + o, w);
    forall k | 0 <= k < 2 * m ensures b[k] == Dft(r, x, w)[k] {
      DftSplit(r, x, w, m, if k < m then k else k - m);
    }
  }

  lemma {:induction false} StageConcat<T>(r: Ring<T>, a: seq<T>, b: seq<T>, len: nat, wlen: T, blocks: nat)
    requires 0 < len && |a| == blocks * len
    ensures StageFrom(r, a + b, len, wlen) == StageFrom(r, a, len, wlen) + StageFrom(r, b, len, wlen)
    decreases blocks
  {
    hide Butterfly;
    if blocks == 0 {
      assert a + b == b;
    } else {
      assert |a| == (blocks - 1) * len + len;
      assert (blocks - 1) * len >= 0;
      assert (a + b)[..len] == a[..len] && (a + b)[len..] == a[len..] + b;
      StageConcat(r, a[len..], b, len, wlen, blocks - 1);
      var f, g, h := Butterfly(r, a[..len], wlen), StageFrom(r, a[len..], len, wlen), StageFrom(r, b, len, wlen);
      assert f + (g + h) == (f + g) + h;
    }
  }

  lemma {:induction false} Divides(p: nat, q: nat)
    requires p <= q
    ensures 0 <= Exp2(q - p) * Exp2(p) == Exp2(q)
  {
    if p < q {
      Divides(p, q - 1);
      assert Exp2(q - p) * Exp2(p) == 2 * (Exp2(q - 1 - p) * Exp2(p));
    }
  }

  /** One stage turns transformed blocks of 2^(p-1) into transformed blocks of 2^p. */
  lemma {:induction false} StageStep<T(!new)>(r: Ring<T>, x: seq<T>, w: T, p: nat, q: nat)
    requires IsRing(r) && |x| == Exp2(q) && 0 < p <= q && HalfTurn(r, w, Exp2(q - 1))
    ensures StageFrom(r, Blocks(r, x, w, p - 1, q), Exp2(p), Pow(r, w, Exp2(q - p))) == Blocks(r, x, w, p, q)
    decreases q
  {
    hide *;
    if p == q {
      TopStage(r, x, w, q);
    } else {
      var e, o, v := Evens(x), Odds(x), Square(r, w);
      HalfBlocks(x, q);
      HalfRoots(r, w, p, q);
      StageStep(r, e, v, p, q - 1);
      StageStep(r, o, v, p, q - 1);
      BlocksHalf(r, x, w, p - 1, q);
      BlocksHalf(r, x, w, p, q);
      Divides(p, q - 1);
      StageConcat(r, Blocks(r, e, v, p - 1, q - 1), Blocks(r, o, v, p - 1, q - 1), Exp2(p), Pow(r, w, Exp2(q - p)),
                  Exp2(q - 1 - p));
    }
  }

  lemma HalfRoots<T(!new)>(r: Ring<T>, w: T, p: nat, q: nat)
    requires IsRing(r) && 0 < p < q && HalfTurn(r, w, Exp2(q - 1))
    ensures HalfTurn(r, Square(r, w), Exp2(q - 2))
    ensures Pow(r, Square(r, w), Exp2(q - 1 - p)) == Pow(r, w, Exp2(q - p))
  {
    hide IsRing, HalfTurn, Pow;
    SquareHalfTurn(r, w, Exp2(q - 2));
    PowPow(r, w, 2, Exp2(q - 1 - p));
  }

  lemma BlocksHalf<T>(r: Ring<T>, x: seq<T>, w: T, p: nat, q: nat)
    requires |x| == Exp2(q) && p < q
    ensures |Evens(x)| == |Odds(x)| == Exp2(q - 1)
    ensures Blocks(r, x, w, p, q)
         == Blocks(r, Evens(x), Square(r, w), p, q - 1) + Blocks(r, Odds(x), Square(r, w), p, q - 1)
  {
    hide Dft, Square;
  }

  lemma BlocksTop<T>(r: Ring<T>, x: seq<T>, w: T, p: nat, q: nat)
    requires |x| == Exp2(q) && q <= p
    ensures Blocks(r, x, w, p, q) == Dft(r, x, w)
  {
    hide Dft;
  }

  lemma HalfBlocks<T>(x: seq<T>, q: nat)
    requires 0 < q && |x| == Exp2(q)
    ensures |Evens(x)| == |Odds(x)| == Exp2(q - 1)
  {
  }

  lemma TopStage<T(!new)>(r: Ring<T>, x: seq<T>, w: T, q: nat)
    requires IsRing(r) && 0 < q && |x| == Exp2(q) && HalfTurn(r, w, Exp2(q - 1))
    ensures StageFrom(r, Blocks(r, x, w, q - 1, q), Exp2(q), Pow(r, w, Exp2(0))) == Blocks(r, x, w, q, q)
  {
    var a, m := Blocks(r, x, w, q - 1, q), Exp2(q - 1);
    assert Exp2(0) == 1 && Exp2(q) == 2 * m;
    hide *;
    BlocksHalf(r, x, w, q - 1, q);
    BlocksTop(r, Evens(x), Square(r, w), q - 1, q - 1);
    BlocksTop(r, Odds(x), Square(r, w), q - 1, q - 1);
    BlocksTop(r, x, w, q, q);
    PowOne(r, w);
    ButterflyDft(r, x, w, m);
    OneBlock(r, a, Exp2(q), w);
  }

  lemma OneBlock<T>(r: Ring<T>, a: seq<T>, len: nat, wlen: T)
    requires 0 < len == |a|
    ensures StageFrom(r, a, len, wlen) == Butterfly(r, a, wlen)
  {
    hide Butterfly;
    assert a[..len] == a && a[len..] == [];
  }

  // ---------------------------------------------------------------- the array

  lemma SingleDft<T(!new)>(r: Ring<T>, x: seq<T>, w: T)
    requires IsRing(r) && |x| == 1
    ensures Dft(r, x, w) == x
  {
    hide IsRing;
    SumNone(r, x, w, 0);
    SumNext(r, x, w, 0, 0);
    assert Pow(r, w, 0) == r.one;
    MulOne(r, x[0]);
    AddZero(r, x[0]);
  }

  /** Bit-reversed order is what the stages start from. */
  lemma {:induction false} BlocksStart<T(!new)>(r: Ring<T>, x: seq<T>, w: T, q: nat, i: nat)
    requires IsRing(r) && |x| == Exp2(q) && i < |x|
    ensures Blocks(r, x, w, 0, q)[i] == x[Rev(i, q)]
    decreases q
  {
    hide IsRing, Dft, Blocks, Square;
    if q == 0 {
      BlocksTop(r, x, w, 0, q);
      SingleDft(r, x, w);
    } else {
      var h := Exp2(q - 1);
      BlocksHalf(r, x, w, 0, q);
      RevHigh(i, q);
      if i < h {
        BlocksStart(r, Evens(x), Square(r, w), q - 1, i);
      } else {
        BlocksStart(r, Odds(x), Square(r, w), q - 1, i - h);
      }
    }
  }

  /** Element `m` once the first `j` pairs of the block at `i` are done. */
  ghost function PairAt<T>(r: Ring<T>, was: seq<T>, i: nat, half: nat, j: nat, wlen: T, m: nat): T
    requires j <= half && i + 2 * half <= |was| && m < |was|
  {
    if i <= m < i + j then r.add(was[m], r.mul(was[m + half], Pow(r, wlen, m - i)))
    else if i + half <= m < i + half + j then Sub(r, was[m - half], r.mul(was[m], Pow(r, wlen, m - half - i)))
    else was[m]
  }

  ghost predicate Paired<T>(r: Ring<T>, was: seq<T>, now: seq<T>, i: nat, half: nat, j: nat, wlen: T)
  {
    && |now| == |was| && j <= half && i + 2 * half <= |was|
    && (forall m :: 0 <= m < |was| ==> now[m] == PairAt(r, was, i, half, j, wlen, m))
  }

  lemma PairedNext<T>(r: Ring<T>, was: seq<T>, now: seq<T>, i: nat, half: nat, j: nat, wlen: T)
    requires Paired(r, was, now, i, half, j, wlen) && j < half
    ensures var u, v := now[i + j], r.mul(now[i + j + half], Pow(r, wlen, j));
            Paired(r, was, now[i + j := r.add(u, v)][i + j + half := Sub(r, u, v)], i, half, j + 1, wlen)
  {
    hide Pow, Sub;
    var u, v := now[i + j], r.mul(now[i + j + half], Pow(r, wlen, j));
    var next := now[i + j := r.add(u, v)][i + j + half := Sub(r, u, v)];
    assert u == was[i + j] && now[i + j + half] == was[i + j + half];
    forall m | 0 <= m < |was| ensures next[m] == PairAt(r, was, i, half, j + 1, wlen, m) {
      assert now[m] == PairAt(r, was, i, half, j, wlen, m);
    }
  }

  lemma PairedDone<T>(r: Ring<T>, was: seq<T>, now: seq<T>, i: nat, half: nat, wlen: T)
    requires Paired(r, was, now, i, half, half, wlen)
    ensures now[..i] == was[..i] && now[i + 2 * half..] == was[i + 2 * half..]
    ensures now[i..i + 2 * half] == Butterfly(r, was[i..i + 2 * half], wlen)
  {
    hide Pow, Sub;
    var block := was[i..i + 2 * half];
    forall k | 0 <= k < 2 * half ensures now[i..i + 2 * half][k] == Butterfly(r, block, wlen)[k] {
      assert now[i + k] == PairAt(r, was, i, half, half, wlen, i + k);
    }
    forall m | 0 <= m < i || i + 2 * half <= m < |was| ensures now[m] == was[m] {
      assert now[m] == PairAt(r, was, i, half, half, wlen, m);
    }
  }

  method ButterflyInPlace<T(!new)>(r: Ring<T>, a: array<T>, i: nat, len: nat, wlen: T)
    requires i + len <= a.Length && len % 2 == 0
    modifies a
    ensures a[..i] == old(a[..i]) && a[i + len..] == old(a[i + len..])
    ensures a[i..i + len] == Butterfly(r, old(a[i..i + len]), wlen)
  {
    hide Pow, Paired, Sub, Butterfly;
    var half, w, j := len / 2, r.one, 0;
    ghost var was := a[..];
    PairedStart(r, was, i, half, wlen);
    while j < half
      invariant 0 <= j <= half && w == Pow(r, wlen, j)
      invariant Paired(r, was, a[..], i, half, j, wlen)
    {
      ghost var now := a[..];
      PairedNext(r, was, now, i, half, j, wlen);
      NextPower(r, wlen, j);
      var u := a[i + j];
      var v := r.mul(a[i + j + half], w);
      a[i + j] := r.add(u, v);
      a[i + j + half] := Sub(r, u, v);
      assert a[..] == now[i + j := r.add(u, v)][i + j + half := Sub(r, u, v)];
      w := r.mul(w, wlen);
      j := j + 1;
    }
    PairedDone(r, was, a[..], i, half, wlen);
    ArrayParts(a[..], i, i + len);
    ArrayParts(was, i, i + len);
  }

  lemma ArrayParts<T>(s: seq<T>, i: nat, k: nat)
    requires i <= k <= |s|
    ensures s == s[..i] + s[i..k] + s[k..]
  {
  }

  lemma PairedStart<T>(r: Ring<T>, was: seq<T>, i: nat, half: nat, wlen: T)
    requires i + 2 * half <= |was|
    ensures Pow(r, wlen, 0) == r.one && Paired(r, was, was, i, half, 0, wlen)
  {
  }

  lemma NextPower<T>(r: Ring<T>, w: T, j: nat)
    ensures Pow(r, w, j + 1) == r.mul(Pow(r, w, j), w)
  {
  }

  method Stage<T(!new)>(r: Ring<T>, a: array<T>, len: nat, wlen: T, ghost blocks: nat)
    requires 0 < len && len % 2 == 0 && a.Length == blocks * len
    modifies a
    ensures a[..] == StageFrom(r, old(a[..]), len, wlen)
  {
    ghost var was, c := a[..], 0;
    var i := 0;
    assert a[..0] + StageFrom(r, was[0..], len, wlen) == StageFrom(r, was, len, wlen) by { assert was[0..] == was; }
    while i < a.Length
      invariant 0 <= c <= blocks && i == c * len <= a.Length
      invariant a[i..] == was[i..]
      invariant a[..i] + StageFrom(r, was[i..], len, wlen) == StageFrom(r, was, len, wlen)
      decreases blocks - c
    {
      hide StageFrom, Butterfly;
      NextBlock(c, blocks, len);
      ghost var before, rest := a[..i], was[i..];
      ghost var block := rest[..len];
      assert a[i..i + len] == a[i..][..len] == block;
      assert a[i + len..] == a[i..][len..] == rest[len..] == was[i + len..];
      ButterflyInPlace(r, a, i, len, wlen);
      StageNext(r, before, rest, a[..i + len], was[i + len..], len, wlen);
      assert a[..i + len] + StageFrom(r, was[i + len..], len, wlen) == StageFrom(r, was, len, wlen);
      i := i + len;
      c := c + 1;
    }
    StageDone(r, was[i..], len, wlen);
    assert a[..i] == a[..];
  }

  lemma NextBlock(c: nat, blocks: nat, len: nat)
    requires c * len < blocks * len && 0 < len
    ensures c < blocks && (c + 1) * len == c * len + len <= blocks * len
  {
    MulOrder(blocks, c, len);
    MulOrder(c + 1, blocks, len);
  }

  lemma MulOrder(a: nat, b: nat, c: nat)
    ensures a <= b ==> a * c <= b * c
    ensures (a + 1) * c == a * c + c
  {
    if a <= b { assert (b - a) * c >= 0; }
  }

  lemma StageNext<T>(r: Ring<T>, before: seq<T>, rest: seq<T>, now: seq<T>, more: seq<T>, len: nat, wlen: T)
    requires 0 < len <= |rest| && more == rest[len..]
    requires |now| == |before| + len && now[..|before|] == before
    requires now[|before|..] == Butterfly(r, rest[..len], wlen)
    ensures now + StageFrom(r, more, len, wlen) == before + StageFrom(r, rest, len, wlen)
  {
    hide Butterfly;
    var b, t := Butterfly(r, rest[..len], wlen), StageFrom(r, more, len, wlen);
    assert StageFrom(r, rest, len, wlen) == b + t;
    hide *;
    assert now == now[..|before|] + now[|before|..];
    assert before + (b + t) == (before + b) + t;
  }

  lemma StageDone<T>(r: Ring<T>, rest: seq<T>, len: nat, wlen: T)
    requires 0 < len && rest == []
    ensures StageFrom(r, rest, len, wlen) == []
  {
  }

  lemma StageCount(p: nat, q: nat)
    requires 0 < p <= q
    ensures Exp2(q - p) * Exp2(p) >= 0
    ensures Exp2(q) / Exp2(p) == Exp2(q - p) && Exp2(q) == Exp2(q - p) * Exp2(p) && Exp2(p) % 2 == 0
  {
    assert Exp2(p) == 2 * Exp2(p - 1);
    hide Exp2;
    Divides(p, q);
    DivMul(Exp2(q - p), Exp2(p));
  }

  lemma DivMul(a: nat, b: nat)
    requires 0 < b
    ensures 0 <= a * b && (a * b) / b == a
  {
    var d := (a * b) / b;
    assert 0 <= a * b;
    assert d * b <= a * b < d * b + b;
    MulOrder(d + 1, a, b);
    MulOrder(d, a, b);
    MulOrder(a + 1, d, b);
    MulOrder(a, d, b);
  }

  /** `fft_radix2`, with `root` the root of unity for the whole length: the stage of blocks of
      `len` uses its power `n / len`. It leaves the transform of what the array held. */
  method FftRadix2<T(!new)>(r: Ring<T>, a: array<T>, root: T, ghost q: nat)
    requires IsRing(r) && a.Length == Exp2(q) && (0 < q ==> HalfTurn(r, root, Exp2(q - 1)))
    modifies a
    ensures a[..] == Dft(r, old(a[..]), root)
  {
    hide *;
    ghost var x := a[..];
    var n := a.Length;
    LengthOne(q);
    if n <= 1 {
      SingleDft(r, x, root);
      return;
    }
    Permute(a, q);
    StartOrder(r, x, a[..], root, q);
    var len := 2;
    ghost var p: nat := 1;
    while len <= n
      invariant 1 <= p <= q + 1 && len == Exp2(p)
      invariant a[..] == Blocks(r, x, root, p - 1, q)
      decreases q + 1 - p
    {
      Exp2Order(p, q);
      StageCount(p, q);
      var wlen := Pow(r, root, n / len);
      StageStep(r, x, root, p, q);
      Stage(r, a, len, wlen, Exp2(q - p));
      Exp2Next(p);
      len := 2 * len;
      p := p + 1;
    }
    Exp2Order(p, q);
    BlocksTop(r, x, root, p - 1, q);
  }

  lemma LengthOne(q: nat)
    ensures Exp2(q) <= 1 <==> q == 0
    ensures Exp2(1) == 2 && 1 <= Exp2(q)
  {
  }

  lemma Exp2Next(p: nat)
    ensures Exp2(p + 1) == 2 * Exp2(p)
  {
  }

  lemma StartOrder<T(!new)>(r: Ring<T>, x: seq<T>, now: seq<T>, w: T, q: nat)
    requires IsRing(r) && |x| == |now| == Exp2(q)
    requires forall i :: 0 <= i < |now| ==> now[i] == x[Rev(i, q)]
    ensures now == Blocks(r, x, w, 0, q)
  {
    hide IsRing, Blocks, Rev;
    forall i | 0 <= i < |now| ensures now[i] == Blocks(r, x, w, 0, q)[i] {
      BlocksStart(r, x, w, q, i);
    }
  }
}
