/** A JavaScript `Map`: entries kept in the order their keys were first set. */
module InsertionMap {
  import opened Wrappers
  import opened Seqs

  datatype Entry<K, V> = Entry(key: K, value: V)

  /** `Array.from(map.keys())`. */
  function Keys<K(==), V>(m: seq<Entry<K, V>>): (ks: seq<K>)
    ensures |ks| == |m| && forall i :: 0 <= i < |m| ==> ks[i] == m[i].key
  {
    if m == [] then [] else Keys(m[..|m| - 1]) + [m[|m| - 1].key]
  }

  predicate UniqueKeys<K(==), V>(m: seq<Entry<K, V>>)
  {
    forall i, j :: 0 <= i < j < |m| ==> m[i].key != m[j].key
  }

  /** Where key k sits, if it is there. */
  function IndexOf<K(==), V>(m: seq<Entry<K, V>>, k: K): (r: Option<nat>)
    ensures r.Some? ==> r.value < |m| && m[r.value].key == k && forall j :: 0 <= j < r.value ==> m[j].key != k
    ensures r.None? ==> forall j :: 0 <= j < |m| ==> m[j].key != k
  {
    if m == [] then None
    else if m[0].key == k then Some(0)
    else match IndexOf(m[1..], k)
      case None => None
      case Some(i) => Some(i + 1)
  }

  /** The first entry holding k is the one IndexOf finds. */
  lemma {:induction false} IndexOfIs<K, V>(m: seq<Entry<K, V>>, k: K, i: nat)
    requires i < |m| && m[i].key == k && forall j :: 0 <= j < i ==> m[j].key != k
    ensures IndexOf(m, k) == Some(i)
  {
    if i > 0 {
      IndexOfIs(m[1..], k, i - 1);
    }
  }

  /** `map.get(k)`. */
  function Get<K(==), V>(m: seq<Entry<K, V>>, k: K): Option<V>
  {
    match IndexOf(m, k)
    case None => None
    case Some(i) => Some(m[i].value)
  }

  /** `map.set(k, v)`: a present key keeps its place and takes the new value;
      a new key goes last. */
  function Set<K(==), V>(m: seq<Entry<K, V>>, k: K, v: V): seq<Entry<K, V>>
  {
    match IndexOf(m, k)
    case None => m + [Entry(k, v)]
    case Some(i) => m[i := Entry(k, v)]
  }

  /** Setting reads back: k now maps to v, every other key is untouched, and
      the keys keep their order, with k appended when it is new. */
  lemma GetSet<K, V>(m: seq<Entry<K, V>>, k: K, v: V, k': K)
    ensures Get(Set(m, k, v), k) == Some(v)
    ensures k' != k ==> Get(Set(m, k, v), k') == Get(m, k')
    ensures Keys(Set(m, k, v)) == if Get(m, k).Some? then Keys(m) else Keys(m) + [k]
  {
    var m' := Set(m, k, v);
    match IndexOf(m, k)
    case None =>
      assert IndexOf(m', k) == Some(|m|);
      if k' != k {
        match IndexOf(m, k')
        case None =>
          assert IndexOf(m', k') == None;
        case Some(i) =>
          assert IndexOf(m', k') == Some(i);
      }
    case Some(i) =>
      IndexOfIs(m', k, i);
      if k' != k {
        match IndexOf(m, k')
        case None =>
          assert IndexOf(m', k') == None;
        case Some(j) =>
          IndexOfIs(m', k', j);
      }
  }

  /** Setting never duplicates a key. */
  lemma SetUnique<K, V>(m: seq<Entry<K, V>>, k: K, v: V)
    requires UniqueKeys(m)
    ensures UniqueKeys(Set(m, k, v))
  {
  }

  /** A sum over the entries changes by the replaced entry only. */
  lemma SumBySet<K, V>(m: seq<Entry<K, V>>, k: K, v: V, f: Entry<K, V> -> int)
    ensures SumBy(Set(m, k, v), f)
      == SumBy(m, f) + f(Entry(k, v)) - (if Get(m, k).Some? then f(Entry(k, Get(m, k).value)) else 0)
  {
    match IndexOf(m, k)
    case None =>
      SumByAppend(m, [Entry(k, v)], f);
      assert [Entry(k, v)][..0] == [];
    case Some(i) =>
      var e := Entry(k, v);
      assert m == m[..i] + [m[i]] + m[i + 1..];
      assert m[i := e] == m[..i] + [e] + m[i + 1..];
      SumByAppend(m[..i] + [m[i]], m[i + 1..], f);
      SumByAppend(m[..i], [m[i]], f);
      SumByAppend(m[..i] + [e], m[i + 1..], f);
      SumByAppend(m[..i], [e], f);
      assert [e][..0] == [] && [m[i]][..0] == [];
  }

  /** A key is present exactly when it is among the keys. */
  lemma GetKeys<K, V>(m: seq<Entry<K, V>>, k: K)
    ensures Get(m, k).Some? <==> k in Keys(m)
  {
    if k in Keys(m) {
      var i :| 0 <= i < |m| && Keys(m)[i] == k;
      assert m[i].key == k;
    }
  }

  /** With unique keys, each entry is what its key reads back. */
  lemma GetEntry<K, V>(m: seq<Entry<K, V>>, i: nat)
    requires UniqueKeys(m) && i < |m|
    ensures Get(m, m[i].key) == Some(m[i].value)
  {
    IndexOfIs(m, m[i].key, i);
  }

  lemma UniqueKeysDistinct<K, V>(m: seq<Entry<K, V>>)
    ensures UniqueKeys(m) <==> Distinct(Keys(m))
  {
  }

  /** SumBySet, for a caller who knows the replaced entry as e (or knows
      that a new key's e weighs nothing). */
  lemma SumByReplace<K, V>(m: seq<Entry<K, V>>, k: K, v: V, e: V, f: Entry<K, V> -> int)
    requires Get(m, k).Some? ==> Get(m, k).value == e
    requires Get(m, k).None? ==> f(Entry(k, e)) == 0
    ensures SumBy(Set(m, k, v), f) == SumBy(m, f) + f(Entry(k, v)) - f(Entry(k, e))
  {
    SumBySet(m, k, v, f);
  }
}
