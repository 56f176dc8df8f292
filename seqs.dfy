/** Sums and counts over sequences, and why reordering leaves them alone. */
module Seqs {
  /** The sum of f over s, left to right (`reduce((sum, x) => sum + f(x), 0)`). */
  function SumBy<T>(s: seq<T>, f: T -> int): int
  {
    if s == [] then 0 else SumBy(s[..|s| - 1], f) + f(s[|s| - 1])
  }

  lemma {:induction false} SumByAppend<T>(a: seq<T>, b: seq<T>, f: T -> int)
    ensures SumBy(a + b, f) == SumBy(a, f) + SumBy(b, f)
    decreases |b|
  {
    if b == [] {
      assert a + b == a;
    } else {
      assert (a + b)[..|a + b| - 1] == a + b[..|b| - 1];
      SumByAppend(a, b[..|b| - 1], f);
    }
  }

  lemma SumByCons<T>(x: T, s: seq<T>, f: T -> int)
    ensures SumBy([x] + s, f) == f(x) + SumBy(s, f)
  {
    SumByAppend([x], s, f);
    assert [x][..0] == [];
  }

  /** Sequences holding the same elements, in any order, have the same sum. */
  lemma {:induction false} SumByPermutation<T>(a: seq<T>, b: seq<T>, f: T -> int)
    requires multiset(a) == multiset(b)
    ensures SumBy(a, f) == SumBy(b, f)
    decreases |a|
  {
    if a != [] {
      var x := a[0];
      assert x in multiset(b);
      var k :| 0 <= k < |b| && b[k] == x;
      var rest := b[..k] + b[k + 1..];
      assert b == b[..k] + [x] + b[k + 1..];
      assert a == [x] + a[1..];
      calc {
        multiset(a[1..]);
        multiset(a) - multiset{x};
        multiset(b) - multiset{x};
        multiset(b[..k]) + multiset{x} + multiset(b[k + 1..]) - multiset{x};
        multiset(rest);
      }
      SumByPermutation(a[1..], rest, f);
      SumByCons(x, a[1..], f);
      SumByAppend(b[..k] + [x], b[k + 1..], f);
      SumByAppend(b[..k], [x], f);
      SumByAppend(b[..k], b[k + 1..], f);
      assert SumBy([x], f) == f(x) by {
        assert [x][..0] == [];
      }
    } else {
      assert |b| == |multiset(b)| == 0;
    }
  }

  /** Where x first occurs in s; |s| when it does not. */
  function Pos<T(==)>(s: seq<T>, x: T): (r: nat)
    ensures r <= |s| && (r < |s| <==> x in s)
    ensures r < |s| ==> s[r] == x && forall j :: 0 <= j < r ==> s[j] != x
  {
    if s == [] then 0 else if s[0] == x then 0 else 1 + Pos(s[1..], x)
  }

  predicate Distinct<T(==)>(s: seq<T>)
  {
    forall i, j :: 0 <= i < j < |s| ==> s[i] != s[j]
  }

  lemma PosPrefix<T>(p: seq<T>, x: T, y: T)
    requires y in p
    ensures Pos(p + [x], y) == Pos(p, y)
  {
    if p[0] != y {
      assert (p + [x])[1..] == p[1..] + [x];
      PosPrefix(p[1..], x, y);
    }
  }

  lemma PosLast<T>(p: seq<T>, x: T)
    requires x !in p
    ensures Pos(p + [x], x) == |p|
  {
    if p != [] {
      assert (p + [x])[1..] == p[1..] + [x];
      PosLast(p[1..], x);
    }
  }

  /** In a sequence without repeats, Pos finds the index itself. */
  lemma PosDistinct<T>(s: seq<T>, i: nat)
    requires Distinct(s) && i < |s|
    ensures Pos(s, s[i]) == i
  {
  }

  /** The elements of s, each once, in the order they first appear. */
  function FirstSeen<T(==)>(s: seq<T>): seq<T>
  {
    if s == [] then []
    else
      var f := FirstSeen(s[..|s| - 1]);
      if s[|s| - 1] in f then f else f + [s[|s| - 1]]
  }

  /** FirstSeen keeps exactly the elements of s, once each, and orders them
      by their first occurrence in s. */
  lemma {:induction false} FirstSeenOrder<T>(s: seq<T>)
    ensures Distinct(FirstSeen(s))
    ensures forall x :: x in FirstSeen(s) <==> x in s
    ensures forall x, y :: x in s && y in s ==> (Pos(FirstSeen(s), x) < Pos(FirstSeen(s), y) <==> Pos(s, x) < Pos(s, y))
  {
    if s != [] {
      var p, z := s[..|s| - 1], s[|s| - 1];
      assert s == p + [z];
      FirstSeenOrder(p);
      var f := FirstSeen(p);
      forall x | x in p
        ensures Pos(s, x) == Pos(p, x) && Pos(FirstSeen(s), x) == Pos(f, x)
      {
        PosPrefix(p, z, x);
        if z !in f {
          PosPrefix(f, z, x);
        }
      }
      if z !in p {
        PosLast(p, z);
        PosLast(f, z);
      }
    }
  }

  lemma {:induction false} DistinctOnce<T>(s: seq<T>, x: T)
    requires Distinct(s)
    ensures multiset(s)[x] <= 1
  {
    if s != [] {
      assert s == [s[0]] + s[1..];
      DistinctOnce(s[1..], x);
      if s[0] == x {
        assert x !in s[1..];
      }
    }
  }

  /** A reordering of a sequence without repeats has none either. */
  lemma DistinctPermutation<T>(a: seq<T>, b: seq<T>)
    requires Distinct(a) && multiset(a) == multiset(b)
    ensures Distinct(b)
  {
    forall i, j | 0 <= i < j < |b|
      ensures b[i] != b[j]
    {
      if b[i] == b[j] {
        var x := b[j];
        assert b == b[..j] + [x] + b[j + 1..];
        assert x in b[..j];
        assert multiset(b)[x] >= 2;
        DistinctOnce(a, x);
        assert false;
      }
    }
  }
}
