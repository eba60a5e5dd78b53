/**
 * The router's `DictQueue` (lab5/myrouter.py, identical in lab4/myrouter.py):
 * a FIFO of keyed entries with lookup and removal by key. The source links
 * nodes into a circular doubly-linked list behind a sentinel and keeps a
 * dict from key to node; here the list is the sequence it encodes, oldest
 * entry (the sentinel's `prev`) first, and the dict maps each key to the
 * value of its node.
 */
module DictQueues {
  import opened Wrappers

  /** The keys of the entries. */
  function KeySet<K, V>(items: seq<(K, V)>): set<K> {
    set i | 0 <= i < |items| :: items[i].0
  }

  /** No key occurs twice. */
  ghost predicate DistinctKeys<K, V>(items: seq<(K, V)>) {
    forall i, j :: 0 <= i < j < |items| ==> items[i].0 != items[j].0
  }

  /** The position of the first entry with key `k`, or -1. */
  function IndexOf<K(==), V>(items: seq<(K, V)>, k: K): (r: int)
    ensures -1 <= r < |items|
    ensures r >= 0 ==> items[r].0 == k && forall j :: 0 <= j < r ==> items[j].0 != k
    ensures r < 0 <==> k !in KeySet(items)
  {
    if items == [] then -1
    else if items[0].0 == k then 0
    else
      var r := IndexOf(items[1..], k);
      assert forall j :: 0 < j < |items| ==> items[j] == items[1..][j - 1];
      if r < 0 then -1 else r + 1
  }

  /** The value stored under `k`, if any. */
  function Lookup<K(==), V>(items: seq<(K, V)>, k: K): (r: Option<V>)
    ensures r.None? <==> k !in KeySet(items)
  {
    var i := IndexOf(items, k);
    if i < 0 then None else Some(items[i].1)
  }

  /** The entries without the one keyed `k` (unlinking its node), order kept. */
  function RemoveKey<K(==), V>(items: seq<(K, V)>, k: K): (r: seq<(K, V)>)
    ensures k !in KeySet(items) ==> r == items
  {
    var i := IndexOf(items, k);
    if i < 0 then items else items[..i] + items[i + 1..]
  }

  /** The entries with the value under `k` replaced in place (position kept). */
  function Replace<K(==), V>(items: seq<(K, V)>, k: K, v: V): (r: seq<(K, V)>)
    ensures |r| == |items|
  {
    var i := IndexOf(items, k);
    if i < 0 then items else items[i := (k, v)]
  }

  lemma KeySetConcat<K, V>(a: seq<(K, V)>, b: seq<(K, V)>)
    ensures KeySet(a + b) == KeySet(a) + KeySet(b)
  {
    var ab := a + b;
    forall x | x in KeySet(a) ensures x in KeySet(ab) {
      var j :| 0 <= j < |a| && a[j].0 == x;
      assert ab[j].0 == x;
    }
    forall x | x in KeySet(b) ensures x in KeySet(ab) {
      var j :| 0 <= j < |b| && b[j].0 == x;
      assert ab[|a| + j].0 == x;
    }
    forall x | x in KeySet(ab) ensures x in KeySet(a) + KeySet(b) {
      var j :| 0 <= j < |ab| && ab[j].0 == x;
      if j < |a| { assert a[j].0 == x; } else { assert b[j - |a|].0 == x; }
    }
  }

  /** With distinct keys, the oldest entry's key is not among the rest: popping it then pushing it back is a legal push. */
  lemma HeadNotInTail<K, V>(items: seq<(K, V)>)
    requires DistinctKeys(items) && items != []
    ensures items[0].0 !in KeySet(items[1..])
  {
    forall x | x in KeySet(items[1..]) ensures x != items[0].0 {
      var j :| 0 <= j < |items[1..]| && items[1..][j].0 == x;
      assert items[1..][j] == items[j + 1];
    }
  }

  /** With distinct keys, looking a key up finds a value exactly when that entry is in the list. */
  lemma LookupIsMember<K, V>(items: seq<(K, V)>, k: K, v: V)
    requires DistinctKeys(items)
    ensures Lookup(items, k) == Some(v) <==> (k, v) in items
  {
    var i := IndexOf(items, k);
    if (k, v) in items {
      var p :| 0 <= p < |items| && items[p] == (k, v);
      assert i == p;
    }
  }

  /** Removing a key keeps exactly the other entries. */
  lemma RemoveKeyMembers<K, V>(items: seq<(K, V)>, k: K)
    requires DistinctKeys(items)
    ensures forall e :: e in RemoveKey(items, k) <==> e in items && e.0 != k
  {
    var i := IndexOf(items, k);
    if i >= 0 {
      var r := items[..i] + items[i + 1..];
      forall e | e in items && e.0 != k ensures e in r {
        var p :| 0 <= p < |items| && items[p] == e;
        if p < i { assert r[p] == e; } else { assert p != i && r[p - 1] == e; }
      }
      forall e | e in r ensures e in items && e.0 != k {
        var p :| 0 <= p < |r| && r[p] == e;
        var p' := if p < i then p else p + 1;
        assert items[p'] == e && p' != i;
      }
    } else {
      forall e | e in items ensures e.0 != k {
        var p :| 0 <= p < |items| && items[p] == e;
      }
    }
  }

  /** Replacing the value under a present key keeps every other entry. */
  lemma ReplaceMembers<K, V>(items: seq<(K, V)>, k: K, v: V)
    requires DistinctKeys(items) && k in KeySet(items)
    ensures forall e :: e in Replace(items, k, v) <==> e == (k, v) || (e in items && e.0 != k)
  {
    var i := IndexOf(items, k);
    var r := items[i := (k, v)];
    forall e | e in items && e.0 != k ensures e in r {
      var p :| 0 <= p < |items| && items[p] == e;
      assert r[p] == e;
    }
    assert r[i] == (k, v);
    forall e | e in r && e != (k, v) ensures e in items && e.0 != k {
      var p :| 0 <= p < |r| && r[p] == e;
      assert p != i && items[p] == e;
    }
  }

  lemma RemoveKeyProperties<K, V>(items: seq<(K, V)>, k: K)
    requires DistinctKeys(items)
    ensures DistinctKeys(RemoveKey(items, k))
    ensures KeySet(RemoveKey(items, k)) == KeySet(items) - {k}
    ensures k in KeySet(items) ==> |RemoveKey(items, k)| == |items| - 1
  {
    var i := IndexOf(items, k);
    if i >= 0 {
      RemoveAtDistinct(items, i);
      RemoveAtKeys(items, i);
    }
  }

  lemma RemoveAtDistinct<K, V>(items: seq<(K, V)>, i: nat)
    requires DistinctKeys(items) && i < |items|
    ensures DistinctKeys(items[..i] + items[i + 1..])
  {
    var r := items[..i] + items[i + 1..];
    forall a, b | 0 <= a < b < |r| ensures r[a].0 != r[b].0 {
      var a' := if a < i then a else a + 1;
      var b' := if b < i then b else b + 1;
      assert r[a] == items[a'] && r[b] == items[b'];
    }
  }

  lemma RemoveAtKeys<K, V>(items: seq<(K, V)>, i: nat)
    requires DistinctKeys(items) && i < |items|
    ensures KeySet(items[..i] + items[i + 1..]) == KeySet(items) - {items[i].0}
  {
    var r := items[..i] + items[i + 1..];
    forall x | x in KeySet(items) - {items[i].0} ensures x in KeySet(r) {
      var j :| 0 <= j < |items| && items[j].0 == x;
      if j < i { assert r[j] == items[j]; } else { assert r[j - 1] == items[j]; }
    }
    forall x | x in KeySet(r) ensures x in KeySet(items) - {items[i].0} {
      var j :| 0 <= j < |r| && r[j].0 == x;
      var j' := if j < i then j else j + 1;
      assert r[j] == items[j'] && j' != i;
    }
  }

  lemma ReplaceProperties<K, V>(items: seq<(K, V)>, k: K, v: V)
    requires DistinctKeys(items)
    ensures DistinctKeys(Replace(items, k, v))
    ensures KeySet(Replace(items, k, v)) == KeySet(items)
  {
    var i := IndexOf(items, k);
    if i >= 0 {
      var r := items[i := (k, v)];
      forall x | x in KeySet(items) ensures x in KeySet(r) {
        var j :| 0 <= j < |items| && items[j].0 == x;
        assert r[j].0 == x;
      }
    }
  }

  /**
   * The queue. `items` is the list in queue order (oldest first), `index` the
   * source's `map` and `size` its counter.
   */
  class DictQueue<K(==), V> {
    var items: seq<(K, V)>
    var index: map<K, V>
    var size: nat

    /** The map's keys are the list's keys, each mapped to its entry's value, and `size` is the list length. */
    ghost predicate Valid()
      reads this
    {
      && size == |items|
      && DistinctKeys(items)
      && index.Keys == KeySet(items)
      && forall i :: 0 <= i < |items| ==> items[i].0 in index && index[items[i].0] == items[i].1
    }

    constructor ()
      ensures Valid() && items == []
    {
      items, index, size := [], map[], 0;
    }

    /** `push`: adds a new entry at the newest end. Callers only push absent keys. */
    method Push(k: K, v: V)
      requires Valid() && k !in KeySet(items)
      modifies this
      ensures Valid()
      ensures items == old(items) + [(k, v)]
    {
      items := items + [(k, v)];
      index := index[k := v];
      size := size + 1;
      KeySetConcat(old(items), [(k, v)]);
      assert KeySet([(k, v)]) == {k} by {
        assert [(k, v)][0].0 == k;
      }
    }

    /** `peek`: the oldest entry, or None on an empty queue. */
    method Peek() returns (r: Option<(K, V)>)
      requires Valid()
      ensures r.None? <==> items == []
      ensures r.Some? ==> r.value == items[0]
    {
      if size == 0 {
        r := None;
      } else {
        r := Some(items[0]);
      }
    }

    /** `pop`: removes and returns the oldest entry, or None on an empty queue. */
    method Pop() returns (r: Option<(K, V)>)
      requires Valid()
      modifies this
      ensures Valid()
      ensures old(items) == [] ==> r.None? && items == []
      ensures old(items) != [] ==> r == Some(old(items)[0]) && items == old(items)[1..]
    {
      if size == 0 {
        return None;
      }
      var p := items[0];
      items := items[1..];
      index := index - {p.0};
      size := size - 1;
      r := Some(p);
      assert KeySet(items) == KeySet(old(items)) - {p.0} by {
        forall x | x in KeySet(old(items)) - {p.0} ensures x in KeySet(items) {
          var j :| 0 <= j < |old(items)| && old(items)[j].0 == x;
          assert j != 0 && items[j - 1].0 == x;
        }
      }
    }

    /** `remove`: unlinks the entry keyed `k` and returns its value; an absent key changes nothing. */
    method Remove(k: K) returns (r: Option<V>)
      requires Valid()
      modifies this
      ensures Valid()
      ensures r == Lookup(old(items), k)
      ensures items == RemoveKey(old(items), k)
    {
      if size == 0 || k !in index {
        return None;
      }
      r := Some(index[k]);
      RemoveKeyProperties(items, k);
      items := RemoveKey(items, k);
      index := index - {k};
      size := size - 1;
    }

    /** `get`: the value stored under `k`; never changes the queue. */
    method Get(k: K) returns (r: Option<V>)
      requires Valid()
      ensures r == Lookup(items, k)
    {
      if size == 0 || k !in index {
        return None;
      }
      r := Some(index[k]);
      var i := IndexOf(items, k);
      assert items[i].0 == k;
    }

    /**
     * Stores a new value under a present key, keeping its queue position.
     * Models the router appending to the `wait_packs` list of the value that
     * `get` returned, which changes the value inside the node in place.
     */
    method SetValue(k: K, v: V)
      requires Valid() && k in KeySet(items)
      modifies this
      ensures Valid()
      ensures items == Replace(old(items), k, v)
    {
      ReplaceProperties(items, k, v);
      items := Replace(items, k, v);
      index := index[k := v];
    }
  }
}
