/** `Array.prototype.sort` with a comparator, which ECMAScript 2019 and later
    requires to be stable: elements the comparator calls equal keep their
    input order. A comparator here is a key of two integers compared
    lexicographically, and the sort is an insertion sort. */
module StableSort {
  import opened Seqs

  datatype SortKey = SortKey(major: int, minor: int)

  predicate KeyLe(a: SortKey, b: SortKey)
  {
    a.major < b.major || (a.major == b.major && a.minor <= b.minor)
  }

  predicate SortedBy<T>(s: seq<T>, key: T -> SortKey)
  {
    forall i, j :: 0 <= i < j < |s| ==> KeyLe(key(s[i]), key(s[j]))
  }

  /** Puts x after every leading element whose key is not above its own. */
  function Insert<T>(x: T, s: seq<T>, key: T -> SortKey): seq<T>
  {
    if s == [] then [x]
    else if !KeyLe(key(s[0]), key(x)) then [x] + s
    else [s[0]] + Insert(x, s[1..], key)
  }

  function Sort<T>(s: seq<T>, key: T -> SortKey): seq<T>
  {
    if s == [] then [] else Insert(s[|s| - 1], Sort(s[..|s| - 1], key), key)
  }

  /** Elements of out with equal keys come in the order they have in s. */
  predicate StableIn<T(==)>(out: seq<T>, s: seq<T>, key: T -> SortKey)
  {
    forall i, j :: 0 <= i < j < |out| && key(out[i]) == key(out[j]) ==> Pos(s, out[i]) < Pos(s, out[j])
  }

  lemma {:induction false} InsertPermutes<T>(x: T, s: seq<T>, key: T -> SortKey)
    ensures multiset(Insert(x, s, key)) == multiset(s) + multiset{x}
  {
    if s != [] && KeyLe(key(s[0]), key(x)) {
      InsertPermutes(x, s[1..], key);
      assert s == [s[0]] + s[1..];
    }
  }

  /** How many leading elements of s have keys not above key(x). */
  function Cut<T>(x: T, s: seq<T>, key: T -> SortKey): (k: nat)
    ensures k <= |s|
    ensures forall i :: 0 <= i < k ==> KeyLe(key(s[i]), key(x))
    ensures k < |s| ==> !KeyLe(key(s[k]), key(x))
  {
    if s == [] || !KeyLe(key(s[0]), key(x)) then 0 else 1 + Cut(x, s[1..], key)
  }

  /** Insert splits s at the cut. */
  lemma {:induction false} InsertSplits<T>(x: T, s: seq<T>, key: T -> SortKey)
    ensures Insert(x, s, key) == s[..Cut(x, s, key)] + [x] + s[Cut(x, s, key)..]
  {
    if s != [] && KeyLe(key(s[0]), key(x)) {
      InsertSplits(x, s[1..], key);
      var k := Cut(x, s[1..], key);
      assert s[..k + 1] == [s[0]] + s[1..][..k];
      assert s[k + 1..] == s[1..][k..];
    }
  }

  lemma InsertSorted<T>(x: T, s: seq<T>, key: T -> SortKey)
    requires SortedBy(s, key)
    ensures SortedBy(Insert(x, s, key), key)
  {
    InsertSplits(x, s, key);
    var k := Cut(x, s, key);
    var r := Insert(x, s, key);
    assert |r| == |s| + 1;
    forall i, j | 0 <= i < j < |r|
      ensures KeyLe(key(r[i]), key(r[j]))
    {
      if j < k {
        assert r[i] == s[i] && r[j] == s[j];
      } else if j == k {
        assert r[i] == s[i] && r[j] == x;
      } else if i < k {
        assert r[i] == s[i] && r[j] == s[j - 1];
      } else if i == k {
        assert r[i] == x && r[j] == s[j - 1];
        assert KeyLe(key(s[k]), key(s[j - 1]));
      } else {
        assert r[i] == s[i - 1] && r[j] == s[j - 1];
      }
    }
  }

  /** The sort permutes its input and orders it by key. */
  lemma {:induction false} SortPermutesAndOrders<T>(s: seq<T>, key: T -> SortKey)
    ensures multiset(Sort(s, key)) == multiset(s)
    ensures SortedBy(Sort(s, key), key)
  {
    if s != [] {
      var p := s[..|s| - 1];
      SortPermutesAndOrders(p, key);
      InsertPermutes(s[|s| - 1], Sort(p, key), key);
      InsertSorted(s[|s| - 1], Sort(p, key), key);
      assert s == p + [s[|s| - 1]];
    }
  }

  /** The sorted sequence holds the input's elements, as often as it does. */
  lemma SortKeeps<T>(s: seq<T>, key: T -> SortKey, out: seq<T>)
    requires out == Sort(s, key)
    ensures multiset(out) == multiset(s)
    ensures forall x :: x in out <==> x in s
  {
    SortPermutesAndOrders(s, key);
    forall x
      ensures x in out <==> x in s
    {
      assert x in out <==> x in multiset(out);
      assert x in s <==> x in multiset(s);
    }
  }

  /** Inserting an element that comes after all of t in s keeps t's ties in
      order and puts the new element after its own ties. */
  lemma InsertStable<T>(x: T, t: seq<T>, s: seq<T>, key: T -> SortKey)
    requires SortedBy(t, key) && StableIn(t, s, key)
    requires forall y :: y in t ==> Pos(s, y) < Pos(s, x)
    ensures StableIn(Insert(x, t, key), s, key)
  {
    InsertSplits(x, t, key);
    SplitStable(x, t, Cut(x, t, key), s, key);
  }

  lemma SplitStable<T>(x: T, t: seq<T>, k: nat, s: seq<T>, key: T -> SortKey)
    requires k <= |t| && SortedBy(t, key) && StableIn(t, s, key)
    requires k < |t| ==> !KeyLe(key(t[k]), key(x))
    requires forall y :: y in t ==> Pos(s, y) < Pos(s, x)
    ensures StableIn(t[..k] + [x] + t[k..], s, key)
  {
    var r := t[..k] + [x] + t[k..];
    forall i, j | 0 <= i < j < |r| && key(r[i]) == key(r[j])
      ensures Pos(s, r[i]) < Pos(s, r[j])
    {
      if j < k {
        assert r[i] == t[i] && r[j] == t[j];
      } else if j == k {
        assert r[i] == t[i] && r[j] == x;
      } else if i < k {
        assert r[i] == t[i] && r[j] == t[j - 1];
      } else if i == k {
        assert false;
      } else {
        assert r[i] == t[i - 1] && r[j] == t[j - 1];
      }
    }
  }

  /** Elements with equal keys leave the sort in the order they entered it. */
  lemma {:induction false} SortStable<T>(s: seq<T>, key: T -> SortKey)
    requires Distinct(s)
    ensures StableIn(Sort(s, key), s, key)
  {
    if s != [] {
      var p, x := s[..|s| - 1], s[|s| - 1];
      assert s == p + [x];
      assert Distinct(p);
      SortStable(p, key);
      SortPermutesAndOrders(p, key);
      var t := Sort(p, key);
      forall y | y in t
        ensures Pos(s, y) == Pos(p, y) < |p| == Pos(s, x)
      {
        assert y in multiset(t);
        assert y in p;
        PosPrefix(p, x, y);
        PosLast(p, x);
      }
      InsertStable(x, t, s, key);
    }
  }
}
