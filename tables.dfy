/**
 * What the store does with the JavaScript `Map`s it keeps: list the values in insertion
 * order (`Array.from(map.values())`), keep those that satisfy a test (`filter`) and take
 * the first that does (`find`).
 */
module Tables {
  import opened Wrappers

  /** The integers `lo, lo + 1, ..., hi - 1`. */
  function Range(lo: int, hi: int): (r: seq<int>)
    ensures |r| == if lo < hi then hi - lo else 0
    ensures forall i :: 0 <= i < |r| ==> r[i] == lo + i
    decreases hi - lo
  {
    if lo < hi then [lo] + Range(lo + 1, hi) else []
  }

  lemma RangeSnoc(lo: int, hi: int)
    requires lo <= hi
    ensures Range(lo, hi + 1) == Range(lo, hi) + [hi]
  {
    assert |Range(lo, hi + 1)| == |Range(lo, hi) + [hi]|;
  }

  /** The keys of `m` are exactly `1, 2, ..., next - 1`: ids handed out by a counter. */
  ghost predicate KeysUpTo<V>(m: map<int, V>, next: int) {
    next >= 1 && forall k :: k in m <==> 1 <= k < next
  }

  /** The values of `m` listed in the order of `keys`. */
  function ValuesOf<K, V>(m: map<K, V>, keys: seq<K>): (r: seq<V>)
    requires forall k :: k in keys ==> k in m
    ensures |r| == |keys|
    ensures forall i :: 0 <= i < |keys| ==> r[i] == m[keys[i]]
  {
    if keys == [] then [] else [m[keys[0]]] + ValuesOf(m, keys[1..])
  }

  /** `keys` lists every key of `m` exactly once. */
  ghost predicate ListsKeys<K(!new), V>(m: map<K, V>, keys: seq<K>) {
    (forall i, j :: 0 <= i < j < |keys| ==> keys[i] != keys[j]) &&
    (forall k :: k in keys <==> k in m)
  }

  /** A value is listed exactly when it is stored under some listed key. */
  lemma ValuesOfMembership<K(!new), V>(m: map<K, V>, keys: seq<K>, v: V)
    requires ListsKeys(m, keys)
    ensures v in ValuesOf(m, keys) <==> v in m.Values
  {
    var r := ValuesOf(m, keys);
    if v in m.Values {
      var k :| k in m && m[k] == v;
      var i :| 0 <= i < |keys| && keys[i] == k;
      assert r[i] == v;
    }
  }

  lemma ValuesOfMembershipAll<K(!new), V(!new)>(m: map<K, V>, keys: seq<K>)
    requires ListsKeys(m, keys)
    ensures forall v :: v in ValuesOf(m, keys) <==> v in m.Values
  {
    forall v
      ensures v in ValuesOf(m, keys) <==> v in m.Values
    {
      ValuesOfMembership(m, keys, v);
    }
  }

  /** Counter-assigned keys, listed in ascending order, list every key once. */
  lemma KeysUpToListed<V>(m: map<int, V>, next: int)
    requires KeysUpTo(m, next)
    ensures ListsKeys(m, Range(1, next))
  {
    var r := Range(1, next);
    forall k
      ensures k in r <==> k in m
    {
      if 1 <= k < next {
        assert r[k - 1] == k;
      }
    }
  }

  /** Inserting a new key appends its value at the end of the listing. */
  lemma ValuesOfInsert<K, V>(m: map<K, V>, keys: seq<K>, k: K, v: V)
    requires forall j :: j in keys ==> j in m
    requires k !in keys
    ensures ValuesOf(m[k := v], keys + [k]) == ValuesOf(m, keys) + [v]
  {
    var a, b := ValuesOf(m[k := v], keys + [k]), ValuesOf(m, keys) + [v];
    assert |a| == |b|;
    forall i | 0 <= i < |a|
      ensures a[i] == b[i]
    {
      if i < |keys| {
        assert (keys + [k])[i] == keys[i];
      }
    }
  }

  /** Overwriting a listed key changes its value in place and keeps its position. */
  lemma ValuesOfOverwrite<K, V>(m: map<K, V>, keys: seq<K>, i: nat, v: V)
    requires forall j :: j in keys ==> j in m
    requires i < |keys|
    requires forall j :: 0 <= j < |keys| && j != i ==> keys[j] != keys[i]
    ensures ValuesOf(m[keys[i] := v], keys) == ValuesOf(m, keys)[i := v]
  {
    var a, b := ValuesOf(m[keys[i] := v], keys), ValuesOf(m, keys)[i := v];
    assert |a| == |b|;
    forall j | 0 <= j < |a|
      ensures a[j] == b[j]
    {
    }
  }

  /** `a` is `b` with some elements left out, the rest in their original order. */
  predicate IsSubsequence<T(==)>(a: seq<T>, b: seq<T>)
    decreases |b|
  {
    if a == [] then true
    else if b == [] then false
    else if a[0] == b[0] then IsSubsequence(a[1..], b[1..])
    else IsSubsequence(a, b[1..])
  }

  /** `s.filter(p)`. */
  function Filter<T(==,!new)>(s: seq<T>, p: T -> bool): (r: seq<T>)
    ensures forall x :: x in r <==> x in s && p(x)
    ensures IsSubsequence(r, s)
    ensures |r| <= |s|
  {
    if s == [] then []
    else if p(s[0]) then [s[0]] + Filter(s[1..], p)
    else Filter(s[1..], p)
  }

  /** `filter` keeps every occurrence of a kept element and drops every other one. */
  lemma {:induction false} FilterCounts<T(!new)>(s: seq<T>, p: T -> bool)
    ensures forall x :: multiset(Filter(s, p))[x] == if p(x) then multiset(s)[x] else 0
  {
    if s != [] {
      FilterCounts(s[1..], p);
      assert s == [s[0]] + s[1..];
    }
  }

  /** `s.findIndex(p)`, with `None` for -1. */
  function FindIndex<T>(s: seq<T>, p: T -> bool): (r: Option<nat>)
    ensures r.Some? ==> r.value < |s| && p(s[r.value]) && forall j :: 0 <= j < r.value ==> !p(s[j])
    ensures r.None? ==> forall j :: 0 <= j < |s| ==> !p(s[j])
  {
    if s == [] then None
    else if p(s[0]) then Some(0)
    else
      match FindIndex(s[1..], p)
      case None => None
      case Some(i) => Some(i + 1)
  }

  /** `s.find(p)`: the first element that satisfies `p`, `None` for `undefined`. */
  function Find<T>(s: seq<T>, p: T -> bool): (r: Option<T>)
    ensures r.None? <==> forall j :: 0 <= j < |s| ==> !p(s[j])
    ensures r.Some? ==> exists i :: 0 <= i < |s| && s[i] == r.value && p(s[i]) && forall j :: 0 <= j < i ==> !p(s[j])
  {
    match FindIndex(s, p)
    case None => None
    case Some(i) => Some(s[i])
  }
}
