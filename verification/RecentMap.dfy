/** Python's OrderedDict: distinct keys with values, in insertion order, oldest first. */
module RecentMap {
  import opened Common

  datatype Item<K, V> = Item(key: K, value: V)

  predicate Has<K(==), V>(d: seq<Item<K, V>>, key: K) {
    exists i :: 0 <= i < |d| && d[i].key == key
  }

  ghost predicate DistinctKeys<K, V>(d: seq<Item<K, V>>) {
    forall i, j :: 0 <= i < j < |d| ==> d[i].key != d[j].key
  }

  function Get<K(==), V>(d: seq<Item<K, V>>, key: K): (r: Option<V>)
    ensures r.Some? <==> Has(d, key)
  {
    if |d| == 0 then None
    else if d[|d| - 1].key == key then Some(d[|d| - 1].value)
    else Get(d[..|d| - 1], key)
  }

  /** `del d[key]`, if it is there. */
  function Without<K(==), V>(d: seq<Item<K, V>>, key: K): seq<Item<K, V>> {
    if |d| == 0 then []
    else if d[|d| - 1].key == key then Without(d[..|d| - 1], key)
    else Without(d[..|d| - 1], key) + [d[|d| - 1]]
  }

  /** `d[key] = value; d.move_to_end(key)`. */
  function Refresh<K(==), V>(d: seq<Item<K, V>>, key: K, value: V): seq<Item<K, V>> {
    Without(d, key) + [Item(key, value)]
  }

  lemma {:induction false} WithoutMembers<K(!new), V(!new)>(d: seq<Item<K, V>>, key: K)
    ensures forall x :: x in Without(d, key) <==> x in d && x.key != key
    ensures |Without(d, key)| <= |d|
  {
    if |d| > 0 {
      WithoutMembers(d[..|d| - 1], key);
      assert d == d[..|d| - 1] + [d[|d| - 1]];
    }
  }

  lemma {:induction false} HasStep<K(!new), V(!new)>(d: seq<Item<K, V>>, key: K)
    requires |d| > 0
    ensures Has(d, key) <==> Has(d[..|d| - 1], key) || d[|d| - 1].key == key
    ensures DistinctKeys(d) && d[|d| - 1].key == key ==> !Has(d[..|d| - 1], key)
  {
    var before := d[..|d| - 1];
    assert forall i :: 0 <= i < |before| ==> before[i] == d[i];
    if Has(d, key) {
      var i :| 0 <= i < |d| && d[i].key == key;
      assert i < |before| ==> before[i].key == key;
    }
  }

  lemma {:induction false} WithoutKeepsDistinct<K(!new), V(!new)>(d: seq<Item<K, V>>, key: K)
    requires DistinctKeys(d)
    ensures DistinctKeys(Without(d, key))
    ensures |Without(d, key)| == |d| - (if Has(d, key) then 1 else 0)
  {
    if |d| > 0 {
      hide Has;
      var n := |d| - 1;
      WithoutKeepsDistinct(d[..n], key);
      WithoutMembers(d[..n], key);
      var rest := Without(d[..n], key);
      forall i | 0 <= i < |rest| ensures rest[i].key != d[n].key {
        assert rest[i] in rest;
        assert rest[i] in d[..n];
      }
      HasStep(d, key);
    }
  }

  lemma {:induction false} WithoutMissing<K(!new), V(!new)>(d: seq<Item<K, V>>, key: K)
    requires !Has(d, key)
    ensures Without(d, key) == d
  {
    if |d| > 0 {
      var n := |d| - 1;
      forall i | 0 <= i < n ensures d[..n][i].key != key {
        assert d[i].key != key;
      }
      assert d[n].key != key;
      WithoutMissing(d[..n], key);
    }
  }

  lemma {:induction false} RefreshKeepsDistinct<K(!new), V(!new)>(d: seq<Item<K, V>>, key: K, value: V)
    requires DistinctKeys(d)
    ensures DistinctKeys(Refresh(d, key, value))
    ensures |Refresh(d, key, value)| == |d| + (if Has(d, key) then 0 else 1)
    ensures forall x :: x in Refresh(d, key, value) <==> x == Item(key, value) || (x in d && x.key != key)
  {
    WithoutKeepsDistinct(d, key);
    WithoutMembers(d, key);
    var rest := Without(d, key);
    forall i | 0 <= i < |rest| ensures rest[i].key != key {
      assert rest[i] in rest;
    }
  }

  lemma {:induction false} GetIsMember<K(!new), V(!new)>(d: seq<Item<K, V>>, key: K)
    requires Has(d, key)
    ensures Item(key, Get(d, key).value) in d
  {
    if d[|d| - 1].key != key {
      var i :| 0 <= i < |d| && d[i].key == key;
      assert d[..|d| - 1][i].key == key;
      GetIsMember(d[..|d| - 1], key);
    }
  }
}
