/**
  Python dicts with their iteration order made explicit: `order` lists the keys
  in the order the dict yields them and `entries` holds the values. Assigning
  to an existing key keeps its position; a new key goes to the end.
 */
module Dicts {
  import opened Values

  datatype RawDict<K, V> = RawDict(order: seq<K>, entries: map<K, V>)
  {
    ghost predicate Valid()
    {
      && (forall i, j | 0 <= i < j < |order| :: order[i] != order[j])
      && entries.Keys == (set i | 0 <= i < |order| :: order[i])
    }
  }

  type Dict<K, V> = d: RawDict<K, V> | d.Valid() witness RawDict([], map[])

  function Empty<K(==), V>(): (r: Dict<K, V>)
    ensures r.entries == map[] && r.order == []
  {
    RawDict([], map[])
  }

  /** `d.get(k)`: the value stored under `k`, if any. */
  function Get<K(==), V>(d: Dict<K, V>, k: K): (r: Option<V>)
    ensures r.Some? <==> k in d.entries
    ensures r.Some? ==> r.value == d.entries[k]
  {
    if k in d.entries then Some(d.entries[k]) else None
  }

  /** `d[k] = v`: the key holds `v`, keeps its place if it was there and is appended otherwise. */
  function Put<K(==), V>(d: Dict<K, V>, k: K, v: V): (r: Dict<K, V>)
    ensures r.entries == d.entries[k := v]
    ensures r.order == if k in d.entries then d.order else d.order + [k]
  {
    if k in d.entries then RawDict(d.order, d.entries[k := v])
    else
      var r := RawDict(d.order + [k], d.entries[k := v]);
      assert (set i | 0 <= i < |r.order| :: r.order[i]) == (set i | 0 <= i < |d.order| :: d.order[i]) + {k} by {
        assert r.order[|d.order|] == k;
        forall i | 0 <= i < |d.order| ensures r.order[i] == d.order[i] { }
      }
      r
  }

  /** `d.items()`: the pairs in iteration order. */
  function Items<K(==), V>(d: Dict<K, V>): (r: seq<(K, V)>)
    ensures |r| == |d.order|
    ensures forall i | 0 <= i < |r| :: r[i].0 == d.order[i] && d.order[i] in d.entries && r[i].1 == d.entries[d.order[i]]
  {
    seq(|d.order|, i requires 0 <= i < |d.order| => (d.order[i], d.entries[d.order[i]]))
  }

  /** Assigns every pair of `ps`, first to last, into `d`. */
  function PutAll<K(==), V>(d: Dict<K, V>, ps: seq<(K, V)>): (r: Dict<K, V>)
    ensures r.entries.Keys == d.entries.Keys + (set i | 0 <= i < |ps| :: ps[i].0)
    decreases |ps|
  {
    if ps == [] then d
    else
      var init := ps[..|ps| - 1];
      PairKeysSnoc(ps);
      Put(PutAll(d, init), ps[|ps| - 1].0, ps[|ps| - 1].1)
  }

  lemma PairKeysSnoc<K, V>(ps: seq<(K, V)>)
    requires ps != []
    ensures var init := ps[..|ps| - 1];
      (set i | 0 <= i < |ps| :: ps[i].0) == (set i | 0 <= i < |init| :: init[i].0) + {ps[|ps| - 1].0}
  {
    var init := ps[..|ps| - 1];
    var whole := set i | 0 <= i < |ps| :: ps[i].0;
    var front := set i | 0 <= i < |init| :: init[i].0;
    forall k | k in whole ensures k in front + {ps[|ps| - 1].0} {
      var i :| 0 <= i < |ps| && ps[i].0 == k;
      if i < |init| { assert init[i] == ps[i]; }
    }
    forall k | k in front ensures k in whole {
      var i :| 0 <= i < |init| && init[i].0 == k;
      assert ps[i] == init[i];
    }
  }

  lemma PutAllSnoc<K, V>(d: Dict<K, V>, ps: seq<(K, V)>, p: (K, V))
    ensures PutAll(d, ps + [p]) == Put(PutAll(d, ps), p.0, p.1)
  {
    assert (ps + [p])[..|ps|] == ps;
  }

  /** `d.update(e)`: every key of `e` takes `e`'s value, later writes winning. */
  function Update<K(==), V>(d: Dict<K, V>, e: Dict<K, V>): (r: Dict<K, V>)
  {
    PutAll(d, Items(e))
  }

  predicate HasKey<K(==), V>(ps: seq<(K, V)>, k: K)
  {
    exists i | 0 <= i < |ps| :: ps[i].0 == k
  }

  lemma HasKeyConcat<K, V>(a: seq<(K, V)>, b: seq<(K, V)>, k: K)
    ensures HasKey(a + b, k) <==> HasKey(a, k) || HasKey(b, k)
  {
    if HasKey(a + b, k) {
      var i :| 0 <= i < |a + b| && (a + b)[i].0 == k;
      if i >= |a| { assert b[i - |a|].0 == k; }
    }
    if HasKey(a, k) {
      var i :| 0 <= i < |a| && a[i].0 == k;
      assert (a + b)[i].0 == k;
    }
    if HasKey(b, k) {
      var i :| 0 <= i < |b| && b[i].0 == k;
      assert (a + b)[|a| + i].0 == k;
    }
  }

  /** The value of the last pair of `ps` whose key is `k`. */
  function LastValue<K(==), V>(ps: seq<(K, V)>, k: K): V
    requires HasKey(ps, k)
    decreases |ps|
  {
    var init := ps[..|ps| - 1];
    if ps[|ps| - 1].0 == k then ps[|ps| - 1].1
    else
      assert HasKey(init, k) by {
        var i :| 0 <= i < |ps| && ps[i].0 == k;
        assert init[i].0 == k;
      }
      LastValue(init, k)
  }

  /** After assigning the pairs `ps`, a key of `ps` holds the last value `ps` gave it; any other key is untouched. */
  lemma {:induction false} PutAllGet<K, V>(d: Dict<K, V>, ps: seq<(K, V)>, k: K)
    ensures Get(PutAll(d, ps), k) == if HasKey(ps, k) then Some(LastValue(ps, k)) else Get(d, k)
    decreases |ps|
  {
    if ps != [] {
      var init := ps[..|ps| - 1];
      PutAllGet(d, init, k);
      HasKeyInit(ps, k);
    }
  }

  lemma HasKeyInit<K, V>(ps: seq<(K, V)>, k: K)
    requires ps != []
    ensures HasKey(ps, k) <==> ps[|ps| - 1].0 == k || HasKey(ps[..|ps| - 1], k)
  {
    var init := ps[..|ps| - 1];
    if HasKey(ps, k) && ps[|ps| - 1].0 != k {
      var i :| 0 <= i < |ps| && ps[i].0 == k;
      assert init[i].0 == k;
    }
    if HasKey(init, k) {
      var i :| 0 <= i < |init| && init[i].0 == k;
      assert ps[i].0 == k;
    }
  }

  /** `d.update(e)` overwrites exactly `e`'s keys with `e`'s values: the later dict wins on shared keys. */
  lemma UpdateEntries<K, V>(d: Dict<K, V>, e: Dict<K, V>)
    ensures Update(d, e).entries == d.entries + e.entries
  {
    var r := Update(d, e).entries;
    var m := d.entries + e.entries;
    forall k | k in r ensures k in m && r[k] == m[k] {
      if k in e.entries { UpdateGetNew(d, e, k); } else { UpdateGetOld(d, e, k); }
    }
    forall k | k in m ensures k in r {
      if k in e.entries { UpdateGetNew(d, e, k); } else { UpdateGetOld(d, e, k); }
    }
  }

  lemma UpdateGetNew<K, V>(d: Dict<K, V>, e: Dict<K, V>, k: K)
    requires k in e.entries
    ensures Get(Update(d, e), k) == Some(e.entries[k])
  {
    var items := Items(e);
    var i :| 0 <= i < |e.order| && e.order[i] == k;
    assert items[i].0 == k;
    LastValueUnique(items, i);
    PutAllGet(d, items, k);
  }

  lemma UpdateGetOld<K, V>(d: Dict<K, V>, e: Dict<K, V>, k: K)
    requires k !in e.entries
    ensures Get(Update(d, e), k) == Get(d, k)
  {
    PutAllGet(d, Items(e), k);
  }

  /** In a list of pairs whose keys are distinct, the last value of a key is its only value. */
  lemma {:induction false} LastValueUnique<K, V>(ps: seq<(K, V)>, i: nat)
    requires i < |ps|
    requires forall a, b | 0 <= a < b < |ps| :: ps[a].0 != ps[b].0
    ensures HasKey(ps, ps[i].0) && LastValue(ps, ps[i].0) == ps[i].1
    decreases |ps|
  {
    if i != |ps| - 1 {
      var init := ps[..|ps| - 1];
      assert init[i] == ps[i];
      LastValueUnique(init, i);
    }
  }
}
