/** Python dictionaries: a map together with the order in which its keys were
    first inserted, which is the order iteration visits them in. */
module OrderedMap {

  predicate Distinct<T(==)>(s: seq<T>) {
    forall i, j :: 0 <= i < j < |s| ==> s[i] != s[j]
  }

  /** `r` is `s` with some elements deleted: what is left keeps its order. */
  predicate SubseqOf<T(==)>(r: seq<T>, s: seq<T>)
    decreases |s|
  {
    if |s| == 0 then |r| == 0
    else (|r| > 0 && r[0] == s[0] && SubseqOf(r[1..], s[1..])) || SubseqOf(r, s[1..])
  }

  datatype OMap<K, V> = OMap(m: map<K, V>, order: seq<K>)

  /** Every key is listed exactly once, and only keys are listed. */
  ghost predicate Valid<K(!new), V>(o: OMap<K, V>) {
    && Distinct(o.order)
    && (forall k :: k in o.m <==> k in o.order)
  }

  /** `{}`. */
  function Empty<K(!new), V>(): (o: OMap<K, V>)
    ensures Valid(o) && o.m == map[] && o.order == []
  {
    OMap(map[], [])
  }

  /** `d[k] = v`: an existing key keeps its place, a new key goes last. */
  function Put<K(!new), V>(o: OMap<K, V>, k: K, v: V): (r: OMap<K, V>)
    ensures k in r.m && r.m[k] == v
    ensures forall k' :: k' != k ==> (k' in r.m <==> k' in o.m)
    ensures forall k' :: k' in o.m && k' != k ==> r.m[k'] == o.m[k']
    ensures k in o.m ==> r.order == o.order
    ensures k !in o.m ==> r.order == o.order + [k]
    ensures Valid(o) ==> Valid(r)
  {
    OMap(o.m[k := v], if k in o.m then o.order else o.order + [k])
  }

  /** The sequence with every occurrence of `k` dropped. */
  function Without<K(==,!new)>(s: seq<K>, k: K): (r: seq<K>)
    ensures forall x :: x in r <==> x in s && x != k
    ensures k !in s ==> r == s
    ensures Distinct(s) ==> Distinct(r)
    ensures SubseqOf(r, s)
  {
    if |s| == 0 then []
    else
      var rest := Without(s[1..], k);
      assert Distinct(s) ==> s[0] !in s[1..];
      if s[0] == k then rest
      else
        assert ([s[0]] + rest)[1..] == rest;
        [s[0]] + rest
  }

  /** `del d[k]`: the key leaves the map and the iteration order. */
  function Remove<K(!new), V>(o: OMap<K, V>, k: K): (r: OMap<K, V>)
    ensures k !in r.m
    ensures forall k' :: k' != k ==> (k' in r.m <==> k' in o.m)
    ensures forall k' :: k' in r.m ==> r.m[k'] == o.m[k']
    ensures r.order == Without(o.order, k)
    ensures Valid(o) ==> Valid(r)
  {
    OMap(o.m - {k}, Without(o.order, k))
  }

  /** Inserting a fresh key and deleting it again restores the dictionary,
      iteration order included. */
  lemma PutRemove<K(!new), V>(o: OMap<K, V>, k: K, v: V)
    requires Valid(o) && k !in o.m
    ensures Remove(Put(o, k, v), k) == o
  {
    var r := Remove(Put(o, k, v), k);
    assert r.m == o.m;
    WithoutLast(o.order, k);
  }

  lemma {:induction false} WithoutLast<K(!new)>(s: seq<K>, k: K)
    requires k !in s
    ensures Without(s + [k], k) == s
  {
    if |s| > 0 {
      assert (s + [k])[1..] == s[1..] + [k];
      WithoutLast(s[1..], k);
    }
  }
}
