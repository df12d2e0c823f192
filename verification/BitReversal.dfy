/** The bit-reversal permutation in front of the transform, and the counter that walks it. */
module BitReversal {

  function Exp2(p: nat): (n: nat)
    ensures 0 < n
  {
    if p == 0 then 1 else 2 * Exp2(p - 1)
  }

  lemma {:induction false} Exp2Order(p: nat, q: nat)
    ensures p <= q <==> Exp2(p) <= Exp2(q)
  {
    if p > 0 && q > 0 { Exp2Order(p - 1, q - 1); }
  }

  // ---------------------------------------------------------------- exclusive or

  /** `^` on non-negative integers. */
  function Xor(a: nat, b: nat): nat
    decreases a + b
  {
    if a == 0 && b == 0 then 0 else 2 * Xor(a / 2, b / 2) + (a % 2 + b % 2) % 2
  }

  lemma {:induction false} XorZero(a: nat)
    ensures Xor(a, 0) == a
  {
    if a > 0 { XorZero(a / 2); }
  }

  /** Flipping the highest bit. */
  lemma {:induction false} XorBit(j: nat, p: nat)
    requires j < 2 * Exp2(p)
    ensures Xor(j, Exp2(p)) == if j >= Exp2(p) then j - Exp2(p) else j + Exp2(p)
  {
    if p == 0 {
      XorZero(0);
    } else {
      XorBit(j / 2, p - 1);
    }
  }

  // ---------------------------------------------------------------- reversal of bits

  /** The lowest `q` bits of `i`, in reverse order. */
  function Rev(i: nat, q: nat): (r: nat)
    requires i < Exp2(q)
    ensures r < Exp2(q)
  {
    if q == 0 then 0 else (if i % 2 == 1 then Exp2(q - 1) else 0) + Rev(i / 2, q - 1)
  }

  lemma HighHalf(i: nat, h: nat, g: nat)
    requires h == 2 * g
    ensures i < h <==> i / 2 < g
    ensures h <= i ==> (i - h) / 2 == i / 2 - g && (i - h) % 2 == i % 2
  {
  }

  lemma Exp2Twice(q: nat)
    requires 0 < q
    ensures Exp2(q) == 2 * Exp2(q - 1)
  {
  }

  lemma RevOne(i: nat)
    requires i < Exp2(1)
    ensures Exp2(0) == 1 && i < 2 && Rev(i, 1) == i && Rev(0, 0) == 0
  {
  }

  /** The same from the other end. */
  lemma {:induction false} RevHigh(i: nat, q: nat)
    requires 0 < q && i < Exp2(q)
    ensures var h := Exp2(q - 1);
            Rev(i, q) == if i < h then 2 * Rev(i, q - 1) else 2 * Rev(i - h, q - 1) + 1
  {
    hide Rev, Exp2;
    if q == 1 {
      RevOne(i);
    } else {
      Exp2Twice(q);
      Exp2Twice(q - 1);
      RevStep(i, q);
      var h, g := Exp2(q - 1), Exp2(q - 2);
      HighHalf(i, h, g);
      RevHigh(i / 2, q - 1);
      if i >= h {
        RevStep(i - h, q - 1);
      } else {
        RevStep(i, q - 1);
      }
    }
  }

  lemma RevStep(i: nat, q: nat)
    requires 0 < q && i < Exp2(q)
    ensures i / 2 < Exp2(q - 1)
    ensures Rev(i, q) == (if i % 2 == 1 then Exp2(q - 1) else 0) + Rev(i / 2, q - 1)
  {
  }

  /** Reversing twice changes nothing. */
  lemma {:induction false} RevInvolution(i: nat, q: nat)
    requires i < Exp2(q)
    ensures Rev(Rev(i, q), q) == i
  {
    if q > 0 {
      RevStep(i, q);
      RevInvolution(i / 2, q - 1);
      RevHigh(Rev(i, q), q);
    }
  }

  /** What one round of the counter computes: it clears the leading ones and sets the next bit. */
  function Bump(j: nat, q: nat): nat
    requires 0 < q && j < Exp2(q)
  {
    if j < Exp2(q - 1) then j + Exp2(q - 1)
    else if q == 1 then 0
    else Bump(j - Exp2(q - 1), q - 1)
  }

  /** Counting up by one, seen through the reversal. */
  lemma {:induction false} RevNext(i: nat, q: nat)
    requires 0 < q && i + 1 < Exp2(q)
    ensures Rev(i + 1, q) == Bump(Rev(i, q), q)
  {
    RevStep(i, q);
    RevStep(i + 1, q);
    if i % 2 == 1 {
      assert (i + 1) / 2 == i / 2 + 1;
      RevNext(i / 2, q - 1);
    } else {
      assert (i + 1) / 2 == i / 2;
    }
  }

  /** Only the last index has all bits set, and the counter is never advanced from it. */
  lemma {:induction false} RevBelowTop(i: nat, q: nat)
    requires i + 1 < Exp2(q)
    ensures Rev(i, q) + 1 < Exp2(q)
  {
    if q > 0 {
      RevStep(i, q);
      if i % 2 == 1 { RevBelowTop(i / 2, q - 1); }
    }
  }

  /** `for (; j >= bit; bit >>= 1) j ^= bit; j ^= bit;` from an index that is not all ones. The
      loop ends because some bit of `j` is clear. */
  method BumpCounter(from: nat, n: nat, ghost q: nat) returns (j: nat)
    requires 0 < q && n == Exp2(q) && from + 1 < n
    ensures j == Bump(from, q)
  {
    j := from;
    var bit := n / 2;
    ghost var p: nat := q - 1;
    while j >= bit
      invariant bit == Exp2(p) && j + 1 < 2 * bit
      invariant Bump(j, p + 1) == Bump(from, q)
      decreases p
    {
      XorBit(j, p);
      j := Xor(j, bit);
      bit := bit / 2;
      p := p - 1;
    }
    XorBit(j, p);
    j := Xor(j, bit);
  }

  /** Where the permuted element comes from once indices up to `i` have been handled: a swap
      settles both of its ends. */
  ghost predicate Settled(p: nat, i: nat, q: nat)
    requires p < Exp2(q)
  {
    p < i || Rev(p, q) < i
  }

  /** Indices below `i`, and what they were swapped with, are in their final place. */
  ghost predicate Reordered<T>(now: seq<T>, first: seq<T>, i: nat, q: nat) {
    && |now| == |first| == Exp2(q)
    && forall p :: 0 <= p < |now| ==> now[p] == if Settled(p, i, q) then first[Rev(p, q)] else first[p]
  }

  method Permute<T>(a: array<T>, ghost q: nat)
    requires a.Length == Exp2(q)
    modifies a
    ensures forall p :: 0 <= p < a.Length ==> a[p] == old(a[Rev(p, q)])
  {
    ghost var first := a[..];
    StartReordered(first, q);
    var n := a.Length;
    var i, j := 1, 0;
    while i < n
      invariant 1 <= i <= n && a.Length == n && j == Rev(i - 1, q)
      invariant Reordered(a[..], first, i, q)
    {
      hide Rev, Reordered, Settled, Bump, Exp2;
      PositiveBits(q);
      RevBelowTop(i - 1, q);
      RevCounts(i, q);
      j := BumpCounter(j, n, q);
      assert j == Rev(i, q);
      ghost var was := a[..];
      if i < j {
        a[i], a[j] := a[j], a[i];
      }
      ReorderNext(was, a[..], first, i, q);
      i := i + 1;
      assert j == Rev(i - 1, q);
    }
    assert forall p :: 0 <= p < n ==> a[p] == a[..][p];
  }

  lemma RevCounts(i: nat, q: nat)
    requires 0 < q && 0 < i < Exp2(q)
    ensures Rev(i, q) == Bump(Rev(i - 1, q), q)
  {
    hide *;
    RevNext(i - 1, q);
  }

  lemma PositiveBits(q: nat)
    ensures 1 < Exp2(q) ==> 0 < q
  {
  }

  lemma {:induction false} RevZero(q: nat)
    ensures Rev(0, q) == 0
  {
    if q > 0 { RevZero(q - 1); }
  }

  lemma StartReordered<T>(first: seq<T>, q: nat)
    requires |first| == Exp2(q)
    ensures Rev(0, q) == 0
    ensures Reordered(first, first, 1, q)
  {
    hide Rev;
    RevZero(q);
    forall p | 0 <= p < |first| && Settled(p, 1, q) ensures first[p] == first[Rev(p, q)] {
      RevInvolution(p, q);
    }
  }

  lemma ReorderNext<T>(was: seq<T>, now: seq<T>, first: seq<T>, i: nat, q: nat)
    requires Reordered(was, first, i, q) && i < |was|
    requires now == if i < Rev(i, q) then was[i := was[Rev(i, q)]][Rev(i, q) := was[i]] else was
    ensures Reordered(now, first, i + 1, q)
  {
    hide Rev;
    RevInvolution(i, q);
    forall p | 0 <= p < |was|
      ensures now[p] == if Settled(p, i + 1, q) then first[Rev(p, q)] else first[p]
    {
      RevInvolution(p, q);
    }
  }
}
