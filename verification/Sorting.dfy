/** Sorting of lengths, and what it gives when there are only two kinds of them. */
module Sorting {
  function Insert(s: seq<real>, v: real): (t: seq<real>)
    ensures |t| == |s| + 1
  {
    if s == [] || s[|s| - 1] <= v then s + [v] else Insert(s[..|s| - 1], v) + [s[|s| - 1]]
  }

  /** The first `n` lengths in ascending order. */
  function Sorted(vals: seq<real>, n: nat): (t: seq<real>)
    requires n <= |vals|
    ensures |t| == n
  {
    if n == 0 then [] else Insert(Sorted(vals, n - 1), vals[n - 1])
  }

  /** `medianOf` */
  function MedianOf(vals: seq<real>): real {
    var n, v := |vals|, Sorted(vals, |vals|);
    if n == 0 then 0.0 else if n % 2 == 1 then v[n / 2] else 0.5 * (v[n / 2 - 1] + v[n / 2])
  }

  function NumOf(vals: seq<real>, n: nat, v: real): (count: nat)
    requires n <= |vals|
    ensures count <= n
  {
    if n == 0 then 0 else NumOf(vals, n - 1, v) + (if vals[n - 1] == v then 1 else 0)
  }

  lemma {:induction false} NumOfPrefix(vals: seq<real>, more: seq<real>, n: nat, v: real)
    requires n <= |vals|
    ensures NumOf(vals + more, n, v) == NumOf(vals, n, v)
  {
    if 0 < n {
      NumOfPrefix(vals, more, n - 1, v);
    }
  }

  /** Lengths of one unit and of three. */
  ghost predicate TwoKinds(vals: seq<real>, u: real) {
    forall i :: 0 <= i < |vals| ==> vals[i] == u || vals[i] == 3.0 * u
  }

  function Level(a: real, n: nat, b: real, m: nat): (s: seq<real>)
    ensures |s| == n + m
    ensures forall i :: 0 <= i < n + m ==> s[i] == if i < n then a else b
  {
    seq(n + m, i => if i < n then a else b)
  }

  lemma {:induction false} InsertLow(a: real, n: nat, b: real, m: nat)
    requires a < b
    ensures Insert(Level(a, n, b, m), a) == Level(a, n + 1, b, m)
  {
    if 0 < m {
      InsertLow(a, n, b, m - 1);
      assert Level(a, n, b, m)[..n + m - 1] == Level(a, n, b, m - 1);
    }
  }

  lemma {:induction false} SortedTwo(vals: seq<real>, u: real, n: nat)
    requires n <= |vals| && TwoKinds(vals, u) && 0.0 < u
    ensures Sorted(vals, n) == Level(u, NumOf(vals, n, u), 3.0 * u, n - NumOf(vals, n, u))
  {
    hide Insert, Level;
    if n == 0 {
      LevelNone(u, 3.0 * u);
    } else {
      SortedTwo(vals, u, n - 1);
      var nd := NumOf(vals, n - 1, u);
      if vals[n - 1] == u {
        InsertLow(u, nd, 3.0 * u, n - 1 - nd);
      } else {
        InsertHigh(u, nd, 3.0 * u, n - 1 - nd);
      }
    }
  }

  lemma LevelNone(a: real, b: real)
    ensures Level(a, 0, b, 0) == []
  {
  }

  lemma InsertHigh(a: real, n: nat, b: real, m: nat)
    requires a < b
    ensures Insert(Level(a, n, b, m), b) == Level(a, n, b, m + 1)
  {
  }

  // ---------------------------------------------------------------- it sorts

  ghost predicate Ordered(s: seq<real>) {
    forall i, j :: 0 <= i < j < |s| ==> s[i] <= s[j]
  }

  lemma SnocOrdered(s: seq<real>, x: real)
    requires Ordered(s) && forall v :: v in s ==> v <= x
    ensures Ordered(s + [x])
  {
    forall i | 0 <= i < |s| ensures s[i] <= x {
      assert s[i] in s;
    }
  }

  lemma InitOrdered(s: seq<real>)
    requires s != [] && Ordered(s)
    ensures Ordered(s[..|s| - 1]) && forall v :: v in s ==> v <= s[|s| - 1]
  {
  }

  lemma {:induction false} InsertRearranges(s: seq<real>, v: real)
    ensures multiset(Insert(s, v)) == multiset(s) + multiset{v}
  {
    if s != [] && v < s[|s| - 1] {
      InsertRearranges(s[..|s| - 1], v);
      var init, last := s[..|s| - 1], s[|s| - 1];
      assert s == init + [last];
      assert multiset(s) == multiset(init) + multiset{last};
    }
  }

  lemma InsertMembers(s: seq<real>, v: real)
    ensures forall x :: x in Insert(s, v) ==> x in s || x == v
  {
    hide Insert;
    InsertRearranges(s, v);
    forall x | x in Insert(s, v) ensures x in s || x == v {
      assert x in multiset(Insert(s, v));
    }
  }

  lemma {:induction false} InsertOrders(s: seq<real>, v: real)
    requires Ordered(s)
    ensures Ordered(Insert(s, v))
  {
    hide Ordered;
    if s != [] {
      InitOrdered(s);
      var init, last := s[..|s| - 1], s[|s| - 1];
      if v < last {
        InsertOrders(init, v);
        InsertMembers(init, v);
        assert s == init + [last];
        forall x | x in Insert(init, v) ensures x <= last {
          assert x != v ==> x in s;
        }
        SnocOrdered(Insert(init, v), last);
      } else {
        SnocOrdered(s, v);
      }
    } else {
      SnocOrdered(s, v);
    }
  }

  lemma PrefixNext(vals: seq<real>, n: nat)
    requires 0 < n <= |vals|
    ensures multiset(vals[..n]) == multiset(vals[..n - 1]) + multiset{vals[n - 1]}
  {
    assert vals[..n] == vals[..n - 1] + [vals[n - 1]];
  }

  lemma {:induction false} SortedRearranges(vals: seq<real>, n: nat)
    requires n <= |vals|
    ensures multiset(Sorted(vals, n)) == multiset(vals[..n])
  {
    hide Insert;
    if 0 < n {
      SortedRearranges(vals, n - 1);
      InsertRearranges(Sorted(vals, n - 1), vals[n - 1]);
      PrefixNext(vals, n);
    } else {
      assert vals[..0] == [];
    }
  }

  /** A sorted list is in order (and, by the lemma above, a rearrangement). */
  lemma {:induction false} SortedOrders(vals: seq<real>, n: nat)
    requires n <= |vals|
    ensures Ordered(Sorted(vals, n))
  {
    if 0 < n {
      hide Insert, Ordered;
      SortedOrders(vals, n - 1);
      InsertOrders(Sorted(vals, n - 1), vals[n - 1]);
    }
  }
}
