/** Python's `dict` as the modelled code uses it: entries kept in
    first-insertion order, assignment to a present key replacing its value
    in place, `del` removing the entry. */
module Dicts {

  import opened Wrappers

  /** Entries in iteration order. */
  type Dict<K, V> = seq<(K, V)>

  function Keys<K, V>(d: Dict<K, V>): (ks: seq<K>)
    ensures |ks| == |d|
    ensures forall i :: 0 <= i < |d| ==> ks[i] == d[i].0
  {
    if |d| == 0 then [] else Keys(d[..|d| - 1]) + [d[|d| - 1].0]
  }

  function Values<K, V>(d: Dict<K, V>): (vs: seq<V>)
    ensures |vs| == |d|
    ensures forall i :: 0 <= i < |d| ==> vs[i] == d[i].1
  {
    if |d| == 0 then [] else Values(d[..|d| - 1]) + [d[|d| - 1].1]
  }

  /** No key occurs twice, the shape every dict has. */
  predicate Distinct<K(==), V>(d: Dict<K, V>) {
    forall i, j :: 0 <= i < j < |d| ==> d[i].0 != d[j].0
  }

  /** `d.get(k)`: the value stored under `k`, `None` when absent. */
  function Get<K(==), V>(d: Dict<K, V>, k: K): (r: Option<V>)
    ensures r.None? <==> k !in Keys(d)
    ensures r.Some? ==> (k, r.value) in d
  {
    if |d| == 0 then None
    else if d[|d| - 1].0 == k then Some(d[|d| - 1].1)
    else Get(d[..|d| - 1], k)
  }

  /** In a dict, an entry is exactly what lookup returns. */
  lemma {:induction false} GetEntry<K, V>(d: Dict<K, V>, k: K, v: V)
    requires Distinct(d)
    ensures Get(d, k) == Some(v) <==> (k, v) in d
    decreases |d|
  {
    if |d| > 0 {
      var init := d[..|d| - 1];
      assert Distinct(init);
      GetEntry(init, k, v);
      if d[|d| - 1].0 == k {
        assert forall i :: 0 <= i < |init| ==> init[i].0 != k;
        assert (k, v) !in init;
        assert d == init + [d[|d| - 1]];
      } else {
        assert (k, v) in d <==> (k, v) in init by {
          assert d == init + [d[|d| - 1]];
        }
      }
    }
  }

  lemma KeysSnoc<K, V>(d: Dict<K, V>, e: (K, V))
    ensures Keys(d + [e]) == Keys(d) + [e.0]
  {
    assert (d + [e])[..|d|] == d;
  }

  /** `d[k] = v`: the value is replaced in place when `k` is present, and
      the entry appended otherwise. */
  function Set<K(==), V>(d: Dict<K, V>, k: K, v: V): (r: Dict<K, V>)
    ensures |r| == if k in Keys(d) then |d| else |d| + 1
  {
    if k in Keys(d) then seq(|d|, i requires 0 <= i < |d| => if d[i].0 == k then (k, v) else d[i])
    else d + [(k, v)]
  }

  /** After `d[k] = v`, `k` maps to `v` and every other key to what it did before. */
  lemma SetGet<K, V>(d: Dict<K, V>, k: K, v: V, k': K)
    ensures Get(Set(d, k, v), k') == if k' == k then Some(v) else Get(d, k')
  {
    if k in Keys(d) {
      ReplaceGet(d, k, v, k');
    } else {
      assert (d + [(k, v)])[..|d|] == d;
    }
  }

  lemma {:induction false} ReplaceGet<K, V>(d: Dict<K, V>, k: K, v: V, k': K)
    requires k in Keys(d)
    ensures Get(seq(|d|, i requires 0 <= i < |d| => if d[i].0 == k then (k, v) else d[i]), k')
         == if k' == k then Some(v) else Get(d, k')
    decreases |d|
  {
    var r := seq(|d|, i requires 0 <= i < |d| => if d[i].0 == k then (k, v) else d[i]);
    var init := d[..|d| - 1];
    if d[|d| - 1].0 != k {
      assert k in Keys(init) by {
        var j :| 0 <= j < |d| && Keys(d)[j] == k;
        assert Keys(init)[j] == k;
      }
      ReplaceGet(init, k, v, k');
      assert r[..|d| - 1] == seq(|init|, i requires 0 <= i < |init| => if init[i].0 == k then (k, v) else init[i]);
    } else if k' != k {
      if k in Keys(init) {
        ReplaceGet(init, k, v, k');
        assert r[..|d| - 1] == seq(|init|, i requires 0 <= i < |init| => if init[i].0 == k then (k, v) else init[i]);
      } else {
        assert r[..|d| - 1] == init;
      }
    }
  }

  /** `d[k] = v` keeps the order of the keys, appending `k` when it is new. */
  lemma SetKeys<K, V>(d: Dict<K, V>, k: K, v: V)
    ensures Keys(Set(d, k, v)) == if k in Keys(d) then Keys(d) else Keys(d) + [k]
  {
    if k !in Keys(d) {
      KeysSnoc(d, (k, v));
    }
  }

  lemma SetDistinct<K, V>(d: Dict<K, V>, k: K, v: V)
    requires Distinct(d)
    ensures Distinct(Set(d, k, v))
  {
    var r := Set(d, k, v);
    SetKeys(d, k, v);
    assert forall i :: 0 <= i < |r| ==> r[i].0 == Keys(r)[i];
  }

  /** `del d[k]`, which raises `KeyError` when `k` is absent. */
  function Remove<K(==, !new), V>(d: Dict<K, V>, k: K, name: string): (r: Result<Dict<K, V>>)
    ensures r.Err? <==> k !in Keys(d)
    ensures r.Err? ==> r.error == KeyError(name)
    ensures r.Ok? && Distinct(d) ==> Distinct(r.value) && Get(r.value, k).None?
    ensures r.Ok? ==> forall k' :: k' != k ==> Get(r.value, k') == Get(d, k')
  {
    if k !in Keys(d) then Err(KeyError(name)) else Ok(Without(d, k))
  }

  /** The entries whose key is not `k`, in order. */
  function Without<K(==, !new), V>(d: Dict<K, V>, k: K): (r: Dict<K, V>)
    ensures k !in Keys(r)
    ensures forall k' :: k' != k ==> Get(r, k') == Get(d, k')
    ensures forall e :: e in r ==> e in d
    ensures Distinct(d) ==> Distinct(r)
  {
    if |d| == 0 then []
    else
      var init, last := d[..|d| - 1], d[|d| - 1];
      var r := Without(init, k);
      if last.0 == k then r
      else
        KeysSnoc(r, last);
        assert (r + [last])[..|r|] == r;
        assert d == init + [last];
        assert Distinct(d) ==> last.0 !in Keys(r) by {
          if Distinct(d) {
            assert forall e :: e in init ==> e.0 != last.0;
            assert forall i :: 0 <= i < |r| ==> r[i] in init && Keys(r)[i] != last.0;
          }
        }
        r + [last]
  }
}
