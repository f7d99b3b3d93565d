/**
 * Python dictionaries as the source uses them: entries kept in insertion
 * order, keys distinct, and assignment to a present key replacing the value
 * in place (the key keeps its position).  Several results of the core are
 * lists built by iterating a dictionary, so the order is part of the model.
 */
module Dicts {
  import opened Wrappers

  /** Position of the entry with key `k`, if any. */
  function IndexOf<K(==), V>(es: seq<(K, V)>, k: K): (r: Option<nat>)
    ensures r.Some? ==> r.value < |es| && es[r.value].0 == k
    ensures r.Some? ==> forall j | 0 <= j < r.value :: es[j].0 != k
    ensures r.None? <==> forall j | 0 <= j < |es| :: es[j].0 != k
    decreases |es|
  {
    if |es| == 0 then None
    else if es[0].0 == k then Some(0)
    else match IndexOf(es[1..], k)
      case None => None
      case Some(i) => Some(i + 1)
  }

  datatype Dict<K(==), V> = Dict(entries: seq<(K, V)>) {

    /** Keys are distinct, as in every Python dict. */
    ghost predicate Valid() {
      forall i, j | 0 <= i < j < |entries| :: entries[i].0 != entries[j].0
    }

    /** `list(d.keys())`. */
    function Keys(): (ks: seq<K>)
      ensures |ks| == |entries|
      ensures forall i | 0 <= i < |ks| :: ks[i] == entries[i].0
    {
      seq(|entries|, i requires 0 <= i < |entries| => entries[i].0)
    }

    /** `list(d.values())`. */
    function Values(): (vs: seq<V>)
      ensures |vs| == |entries|
      ensures forall i | 0 <= i < |vs| :: vs[i] == entries[i].1
    {
      seq(|entries|, i requires 0 <= i < |entries| => entries[i].1)
    }

    /** `k in d`. */
    predicate HasKey(k: K) {
      IndexOf(entries, k).Some?
    }

    /** `d.get(k)`. */
    function Get(k: K): Option<V> {
      match IndexOf(entries, k)
      case Some(i) => Some(entries[i].1)
      case None => None
    }

    /** `d[k] = v`. */
    function Put(k: K, v: V): Dict<K, V> {
      match IndexOf(entries, k)
      case Some(i) => Dict(entries[i := (k, v)])
      case None => Dict(entries + [(k, v)])
    }
  }

  function Empty<K(==), V>(): (d: Dict<K, V>)
    ensures d.Valid() && d.Keys() == []
  {
    Dict([])
  }

  /** Membership agrees with the key list. */
  lemma HasKeyIffInKeys<K, V>(d: Dict<K, V>, k: K)
    ensures d.HasKey(k) <==> k in d.Keys()
  {
    if k in d.Keys() {
      var i :| 0 <= i < |d.Keys()| && d.Keys()[i] == k;
      assert d.entries[i].0 == k;
    }
  }

  /** A key reads as present exactly when it is a key. */
  lemma GetSomeHasKey<K, V>(d: Dict<K, V>, k: K)
    ensures d.Get(k).Some? <==> d.HasKey(k)
  {
  }

  /** `d[k] = v` adds exactly the key `k`. */
  lemma PutHasKey<K, V>(d: Dict<K, V>, k: K, v: V, k': K)
    ensures d.Put(k, v).HasKey(k') <==> k' == k || d.HasKey(k')
  {
    GetPut(d, k, v, k');
    GetSomeHasKey(d, k');
    GetSomeHasKey(d.Put(k, v), k');
  }

  /** Every key of `a` is a key of `b`. */
  ghost predicate KeysWithin<K(!new), V>(a: Dict<K, V>, b: Dict<K, V>) {
    forall k :: a.HasKey(k) ==> b.HasKey(k)
  }

  /** `d[k] = v` keeps every key. */
  lemma PutKeepsKeys<K(!new), V>(d: Dict<K, V>, k: K, v: V)
    ensures KeysWithin(d, d.Put(k, v)) && d.Put(k, v).HasKey(k)
  {
    forall k' | d.HasKey(k') ensures d.Put(k, v).HasKey(k') {
      PutHasKey(d, k, v, k');
    }
    PutHasKey(d, k, v, k);
  }

  lemma KeysWithinTrans<K(!new), V>(a: Dict<K, V>, b: Dict<K, V>, c: Dict<K, V>)
    requires KeysWithin(a, b) && KeysWithin(b, c)
    ensures KeysWithin(a, c)
  {
  }

  /** Every one of `ks` is a key of `d`. */
  ghost predicate HasKeys<K, V>(d: Dict<K, V>, ks: seq<K>) {
    forall j | 0 <= j < |ks| :: d.HasKey(ks[j])
  }

  /** Keys held stay held in a dict with more keys. */
  lemma HasKeysWithin<K(!new), V>(a: Dict<K, V>, b: Dict<K, V>, ks: seq<K>, k: K)
    requires HasKeys(a, ks) && KeysWithin(a, b) && b.HasKey(k)
    ensures HasKeys(b, ks + [k])
  {
    forall j | 0 <= j < |ks| + 1 ensures b.HasKey((ks + [k])[j]) {
      if j < |ks| {
        assert (ks + [k])[j] == ks[j];
      }
    }
  }

  /** In a valid dict the entry found by key is the only one with that key. */
  lemma GetEntry<K, V>(d: Dict<K, V>, i: nat)
    requires d.Valid() && i < |d.entries|
    ensures d.Get(d.entries[i].0) == Some(d.entries[i].1)
  {
    var k := d.entries[i].0;
    var j := IndexOf(d.entries, k);
    assert j.Some?;
    assert j.value == i;
  }

  /** After `d[k] = v`, `d[k]` is `v` and every other key reads as before. */
  lemma GetPut<K, V>(d: Dict<K, V>, k: K, v: V, k': K)
    ensures d.Put(k, v).Get(k) == Some(v)
    ensures k' != k ==> d.Put(k, v).Get(k') == d.Get(k')
  {
    var es := d.entries;
    var e := d.Put(k, v).entries;
    match IndexOf(es, k)
    case Some(i) =>
      assert e == es[i := (k, v)];
      assert forall j | 0 <= j < |es| && j != i :: e[j] == es[j];
      assert e[i].0 == k;
      assert IndexOf(e, k) == Some(i);
      if k' != k {
        assert forall j | 0 <= j < |es| :: (es[j].0 == k' <==> e[j].0 == k');
        assert IndexOf(e, k') == IndexOf(es, k');
      }
    case None =>
      assert e == es + [(k, v)];
      assert forall j | 0 <= j < |es| :: e[j] == es[j];
      assert e[|es|].0 == k;
      assert IndexOf(e, k) == Some(|es|);
      if k' != k {
        assert forall j | 0 <= j < |e| :: (e[j].0 == k' <==> j < |es| && es[j].0 == k');
        assert IndexOf(e, k') == IndexOf(es, k');
      }
  }

  /** `d[k] = v` keeps the keys distinct; a new key goes at the end, a present
      key keeps its place and the key list is unchanged. */
  lemma PutShape<K, V>(d: Dict<K, V>, k: K, v: V)
    requires d.Valid()
    ensures d.Put(k, v).Valid()
    ensures !d.HasKey(k) ==> d.Put(k, v).entries == d.entries + [(k, v)]
    ensures d.HasKey(k) ==> d.Put(k, v).Keys() == d.Keys()
    ensures d.Put(k, v).HasKey(k)
  {
    GetPut(d, k, v, k);
    var e := d.Put(k, v).entries;
    match IndexOf(d.entries, k)
    case Some(i) =>
      assert forall j | 0 <= j < |e| :: e[j].0 == d.entries[j].0;
    case None =>
      assert forall j | 0 <= j < |d.entries| :: e[j] == d.entries[j];
  }

  /** Assigning a key twice leaves the second value, in the first one's place. */
  lemma PutPut<K, V>(d: Dict<K, V>, k: K, v: V, w: V)
    ensures d.Put(k, v).Put(k, w) == d.Put(k, w)
  {
    var es := d.entries;
    var e := d.Put(k, v).entries;
    match IndexOf(es, k)
    case Some(i) =>
      assert e == es[i := (k, v)];
      assert forall j | 0 <= j < |es| :: (es[j].0 == k <==> e[j].0 == k);
      assert e[i].0 == k;
      assert IndexOf(e, k) == Some(i);
      assert e[i := (k, w)] == es[i := (k, w)];
    case None =>
      assert e == es + [(k, v)];
      assert forall j | 0 <= j < |es| :: e[j] == es[j];
      assert e[|es|].0 == k;
      assert IndexOf(e, k) == Some(|es|);
      assert e[|es| := (k, w)] == es + [(k, w)];
  }

  /** Two entry lists with the same keys in the same order find every key
      at the same place, whatever values they hold. */
  lemma IndexOfSameKeys<K, V, W>(a: seq<(K, V)>, b: seq<(K, W)>, k: K)
    requires |a| == |b| && forall i | 0 <= i < |a| :: a[i].0 == b[i].0
    ensures IndexOf(a, k) == IndexOf(b, k)
  {
    var ra, rb := IndexOf(a, k), IndexOf(b, k);
    if ra.Some? && rb.Some? {
      assert a[rb.value].0 == k;
      assert b[ra.value].0 == k;
    }
  }
}
