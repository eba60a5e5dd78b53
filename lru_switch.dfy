/**
 * The learning switch with a least-recently-used MAC table
 * (lab2/myswitch_lru.py). `LRUCache` keeps its nodes on the same circular
 * list as the router's queue, least recently used at the sentinel's `prev`,
 * so it is built on `DictQueue`: the list in order from least to most
 * recently used, the dict from key to value.
 */
module LruSwitch {
  import opened Wrappers
  import opened Packets
  import opened DictQueues
  import opened SwitchCommon

  /** `LRUCache(5)`: the switch's table size. */
  const TableCapacity: nat := 5

  /**
   * `put`: a present key gets the new value in place (its recency is kept);
   * an absent key goes in as most recently used, after evicting the least
   * recently used entry when the cache is full.
   */
  function PutEffect<K(==), V>(items: seq<(K, V)>, cap: nat, k: K, v: V): seq<(K, V)>
    requires 1 <= cap && |items| <= cap
  {
    if k in KeySet(items) then Replace(items, k, v)
    else if |items| == cap then items[1..] + [(k, v)]
    else items + [(k, v)]
  }

  /** `get`: the value under `k` and the list with `k` moved to most recently used, or None and no change. */
  function GetEffect<K(==), V>(items: seq<(K, V)>, k: K): (Option<V>, seq<(K, V)>) {
    match Lookup(items, k)
    case None => (None, items)
    case Some(v) => (Some(v), RemoveKey(items, k) + [(k, v)])
  }

  /** A valid cache: distinct keys, never more than `cap` entries. */
  ghost predicate CacheInvariant<K, V>(items: seq<(K, V)>, cap: nat) {
    DistinctKeys(items) && |items| <= cap
  }

  lemma KeyAppended<K, V>(items: seq<(K, V)>, k: K, v: V)
    requires DistinctKeys(items) && k !in KeySet(items)
    ensures DistinctKeys(items + [(k, v)])
    ensures KeySet(items + [(k, v)]) == KeySet(items) + {k}
  {
    KeySetConcat(items, [(k, v)]);
    assert KeySet([(k, v)]) == {k} by {
      assert [(k, v)][0].0 == k;
    }
    forall i | 0 <= i < |items| ensures items[i].0 != k {
      assert items[i].0 in KeySet(items);
    }
  }

  /** Whether `put` of `k` into `items` evicts the least recently used entry. */
  predicate Evicts<K(==), V>(items: seq<(K, V)>, cap: nat, k: K) {
    k !in KeySet(items) && |items| == cap
  }

  /** The entries after `put`: the new binding, and every old entry of another key except an evicted one. */
  lemma PutMembers<K, V>(items: seq<(K, V)>, cap: nat, k: K, v: V)
    requires 1 <= cap && CacheInvariant(items, cap)
    ensures var r := PutEffect(items, cap, k, v);
      && CacheInvariant(r, cap)
      && forall e :: e in r <==> e == (k, v) || (e in items && e.0 != k && !(Evicts(items, cap, k) && e.0 == items[0].0))
  {
    if k in KeySet(items) {
      ReplaceProperties(items, k, v);
      ReplaceMembers(items, k, v);
    } else if |items| == cap {
      RemoveAtDistinct(items, 0);
      assert items[..0] + items[1..] == items[1..];
      assert KeySet(items[1..]) <= KeySet(items) by {
        forall x | x in KeySet(items[1..]) ensures x in KeySet(items) {
          var j :| 0 <= j < |items[1..]| && items[1..][j].0 == x;
          assert items[j + 1].0 == x;
        }
      }
      KeyAppended(items[1..], k, v);
      HeadNotInTail(items);
      forall e | e in items && e.0 != items[0].0 ensures e in items[1..] {
        var p :| 0 <= p < |items| && items[p] == e;
        assert p != 0 && items[1..][p - 1] == e;
      }
      forall e | e in items[1..] ensures e.0 != items[0].0 && e in items {
        var p :| 0 <= p < |items[1..]| && items[1..][p] == e;
        assert items[1..][p].0 in KeySet(items[1..]);
      }
    } else {
      KeyAppended(items, k, v);
      forall e | e in items ensures e.0 != k {
        var p :| 0 <= p < |items| && items[p] == e;
        assert items[p].0 in KeySet(items);
      }
    }
  }

  /**
   * `put` keeps the cache valid and binds `k` to `v`. Any other key keeps its
   * value, except the least recently used one, which is gone exactly when `k`
   * was new and the cache was full.
   */
  lemma PutBinds<K, V>(items: seq<(K, V)>, cap: nat, k: K, v: V)
    requires 1 <= cap && CacheInvariant(items, cap)
    ensures var r := PutEffect(items, cap, k, v);
      && CacheInvariant(r, cap)
      && Lookup(r, k) == Some(v)
      && forall j, w :: j != k ==> (Lookup(r, j) == Some(w) <==> Lookup(items, j) == Some(w) && !(Evicts(items, cap, k) && j == items[0].0))
  {
    var r := PutEffect(items, cap, k, v);
    PutMembers(items, cap, k, v);
    LookupIsMember(r, k, v);
    forall j, w | j != k
      ensures Lookup(r, j) == Some(w) <==> Lookup(items, j) == Some(w) && !(Evicts(items, cap, k) && j == items[0].0)
    {
      LookupIsMember(r, j, w);
      LookupIsMember(items, j, w);
    }
  }

  /** `put` on a present key changes only that entry's value: every key stays at its recency position. */
  lemma PutPresentKeepsRecency<K, V>(items: seq<(K, V)>, cap: nat, k: K, v: V)
    requires 1 <= cap && |items| <= cap && k in KeySet(items)
    ensures var r := PutEffect(items, cap, k, v);
      |r| == |items| && forall i :: 0 <= i < |items| ==> r[i].0 == items[i].0
  {
  }

  /** `put` of a new key into a full cache evicts exactly the least recently used entry and adds the key as most recent. */
  lemma PutEvictsLeastRecent<K, V>(items: seq<(K, V)>, cap: nat, k: K, v: V)
    requires 1 <= cap && |items| == cap && k !in KeySet(items)
    ensures PutEffect(items, cap, k, v) == items[1..] + [(k, v)]
    ensures |PutEffect(items, cap, k, v)| == cap
  {
  }

  /**
   * `get` returns the value under `k` (None when absent). A hit makes `k` the
   * most recently used key and changes no binding; a miss changes nothing.
   */
  lemma GetRefreshes<K, V>(items: seq<(K, V)>, k: K)
    requires DistinctKeys(items)
    ensures var (r, items') := GetEffect(items, k);
      && r == Lookup(items, k)
      && (r.None? ==> items' == items)
      && (r.Some? ==> items'[|items'| - 1] == (k, r.value) && |items'| == |items|)
      && DistinctKeys(items')
      && forall j, w :: Lookup(items', j) == Some(w) <==> Lookup(items, j) == Some(w)
  {
    var (r, items') := GetEffect(items, k);
    if r.Some? {
      RemoveKeyProperties(items, k);
      RemoveKeyMembers(items, k);
      KeyAppended(RemoveKey(items, k), k, r.value);
      LookupIsMember(items, k, r.value);
      forall j, w ensures Lookup(items', j) == Some(w) <==> Lookup(items, j) == Some(w) {
        LookupIsMember(items', j, w);
        LookupIsMember(items, j, w);
      }
    }
  }

  /** `LRUCache`: a capacity and the list of entries from least to most recently used. */
  class LruCache<K(==), V> {
    const cap: nat
    const list: DictQueue<K, V>

    ghost predicate Valid()
      reads this, list
    {
      list.Valid() && 1 <= cap && |list.items| <= cap
    }

    /** `remove_lru` asserts a non-empty cache, which a zero capacity would break on the first insertion. */
    constructor (cap: nat)
      requires 1 <= cap
      ensures Valid() && this.cap == cap && list.items == []
    {
      this.cap := cap;
      list := new DictQueue();
    }

    /** `remove_lru`: drops the least recently used entry. */
    method RemoveLru()
      requires Valid() && |list.items| > 0
      modifies list
      ensures Valid()
      ensures list.items == old(list.items)[1..]
    {
      var _ := list.Pop();
    }

    /** `flush_mru`: makes a present key the most recently used. */
    method FlushMru(k: K)
      requires Valid() && k in KeySet(list.items)
      modifies list
      ensures Valid()
      ensures list.items == GetEffect(old(list.items), k).1
    {
      var v := list.Remove(k);
      RemoveKeyProperties(old(list.items), k);
      list.Push(k, v.value);
    }

    /** `put`. */
    method Put(k: K, v: V)
      requires Valid()
      modifies list
      ensures Valid()
      ensures list.items == PutEffect(old(list.items), cap, k, v)
    {
      var present := list.Get(k);
      if present.Some? {
        list.SetValue(k, v);
      } else {
        if list.size == cap {
          RemoveLru();
          HeadNotInTail(old(list.items));
          assert KeySet(list.items) <= KeySet(old(list.items)) by {
            forall x | x in KeySet(list.items) ensures x in KeySet(old(list.items)) {
              var j :| 0 <= j < |list.items| && list.items[j].0 == x;
              assert old(list.items)[j + 1].0 == x;
            }
          }
        }
        list.Push(k, v);
      }
    }

    /** `get`. */
    method Get(k: K) returns (r: Option<V>)
      requires Valid()
      modifies list
      ensures Valid()
      ensures (r, list.items) == GetEffect(old(list.items), k)
    {
      var present := list.Get(k);
      if present.Some? {
        FlushMru(k);
        r := present;
      } else {
        r := None;
      }
    }
  }

  /** The switch's state: the table (least recently used first), the output, and whether `main` has returned. */
  datatype SwitchState = SwitchState(table: seq<(Mac, PortName)>, sent: seq<Out>, stopped: bool)

  /**
   * One turn of the `main` loop for a frame received on `from` (None: a
   * packet without an Ethernet header, on which `main` returns): learn the
   * source, then drop, flood or forward.
   */
  function ReceiveEffect(ports: seq<Port>, st: SwitchState, from: PortName, frame: Option<Frame>): SwitchState
    requires |st.table| <= TableCapacity
  {
    match frame
    case None => st.(stopped := true)
    case Some(f) =>
      var learned := PutEffect(st.table, TableCapacity, f.eth.src, from);
      match Classify(ports, f.eth.dst)
      case ForMe => st.(table := learned)
      case Broadcast => st.(table := learned, sent := st.sent + Flood(ports, from, f))
      case Unicast =>
        var (port, table') := GetEffect(learned, f.eth.dst);
        st.(table := table', sent := st.sent + Deliver(ports, from, f, port))
  }

  /**
   * After every Ethernet frame the table is still valid and maps the source
   * to the arrival port; a frame for the switch itself sends nothing, a
   * broadcast floods, and any other destination goes to its learned port
   * alone or is flooded when it has none.
   */
  lemma ReceiveLearnsAndForwards(ports: seq<Port>, st: SwitchState, from: PortName, f: Frame)
    requires CacheInvariant(st.table, TableCapacity)
    ensures var st' := ReceiveEffect(ports, st, from, Some(f));
      && CacheInvariant(st'.table, TableCapacity)
      && Lookup(st'.table, f.eth.src) == Some(from)
      && !st'.stopped == !st.stopped
      && (f.eth.dst in OwnMacs(ports) ==> st'.sent == st.sent)
      && (f.eth.dst !in OwnMacs(ports) && f.eth.dst == BroadcastMac ==> st'.sent == st.sent + Flood(ports, from, f))
      && (f.eth.dst !in OwnMacs(ports) && f.eth.dst != BroadcastMac ==>
            var known := Lookup(PutEffect(st.table, TableCapacity, f.eth.src, from), f.eth.dst);
            st'.sent == st.sent + (if known.Some? then [Out(known.value, f)] else Flood(ports, from, f)))
  {
    var learned := PutEffect(st.table, TableCapacity, f.eth.src, from);
    PutBinds(st.table, TableCapacity, f.eth.src, from);
    GetRefreshes(learned, f.eth.dst);
  }

  /** A packet without an Ethernet header ends the loop and changes nothing else. */
  lemma NonEthernetStops(ports: seq<Port>, st: SwitchState, from: PortName)
    requires |st.table| <= TableCapacity
    ensures ReceiveEffect(ports, st, from, None) == SwitchState(st.table, st.sent, true)
  {
  }

  /** The switch of `main`: its ports, its cache and its output. */
  class Switch {
    const ports: seq<Port>
    const cache: LruCache<Mac, PortName>
    var sent: seq<Out>
    var stopped: bool

    ghost predicate Valid()
      reads this, cache, cache.list
    {
      cache.Valid() && cache.cap == TableCapacity
    }

    function Snapshot(): SwitchState
      reads this, cache, cache.list
    {
      SwitchState(cache.list.items, sent, stopped)
    }

    constructor (ports: seq<Port>)
      ensures Valid() && this.ports == ports && Snapshot() == SwitchState([], [], false)
    {
      this.ports := ports;
      cache := new LruCache(TableCapacity);
      sent := [];
      stopped := false;
    }

    /** One turn of the loop in `main`; once `main` has returned no further frame is handled. */
    method Receive(from: PortName, frame: Option<Frame>)
      requires Valid() && !stopped
      modifies this, cache.list
      ensures Valid()
      ensures Snapshot() == ReceiveEffect(ports, old(Snapshot()), from, frame)
    {
      if frame.None? {
        stopped := true;
        return;
      }
      var f := frame.value;
      cache.Put(f.eth.src, from);
      var kind := Classify(ports, f.eth.dst);
      if kind == Broadcast {
        sent := sent + Flood(ports, from, f);
      } else if kind == Unicast {
        var p := cache.Get(f.eth.dst);
        if p.Some? {
          sent := sent + [Out(p.value, f)];
        } else {
          sent := sent + Flood(ports, from, f);
        }
      }
    }
  }
}
