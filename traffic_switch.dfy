/**
 * The learning switch that evicts the least-used MAC entry
 * (lab2/myswitch_traffic.py). Its `mac_table` dict keeps insertion order,
 * which decides ties on eviction, so it is a list of (MAC, entry) pairs in
 * insertion order.
 */
module TrafficSwitch {
  import opened Wrappers
  import opened Packets
  import opened DictQueues
  import opened SwitchCommon

  /** The `[port, count]` of a learned address: where it was seen, and how many frames were sent to it. */
  datatype Entry = Entry(port: PortName, count: nat)

  /** The table never holds more than this many addresses. */
  const TableLimit: nat := 5

  /**
   * `min(mac_table.items(), key=count)`: the position of the first entry with
   * the smallest traffic count.
   */
  function LeastTraffic(table: seq<(Mac, Entry)>): (i: nat)
    requires table != []
    ensures i < |table|
    ensures forall j :: 0 <= j < |table| ==> table[i].1.count <= table[j].1.count
    ensures forall j :: 0 <= j < i ==> table[j].1.count > table[i].1.count
  {
    if |table| == 1 then 0
    else
      var k := LeastTraffic(table[1..]) + 1;
      assert forall j :: 0 < j < |table| ==> table[j] == table[1..][j - 1];
      if table[0].1.count <= table[k].1.count then 0 else k
  }

  /**
   * Learning the source: a known address gets the arrival port and keeps its
   * count and position; a new one is appended with count 0, after the
   * least-used entry is popped when the table is full.
   */
  function LearnEffect(table: seq<(Mac, Entry)>, src: Mac, port: PortName): seq<(Mac, Entry)> {
    match Lookup(table, src)
    case Some(e) => Replace(table, src, Entry(port, e.count))
    case None =>
      var room := if |table| == TableLimit then RemoveKey(table, table[LeastTraffic(table)].0) else table;
      room + [(src, Entry(port, 0))]
  }

  /** Sending to a known destination: its count goes up by one, in place. */
  function CountEffect(table: seq<(Mac, Entry)>, dst: Mac): seq<(Mac, Entry)> {
    match Lookup(table, dst)
    case Some(e) => Replace(table, dst, e.(count := e.count + 1))
    case None => table
  }

  ghost predicate TableInvariant(table: seq<(Mac, Entry)>) {
    DistinctKeys(table) && |table| <= TableLimit
  }

  /** The entry learning gives the source: the arrival port, and the old count or 0. */
  function LearnedEntry(table: seq<(Mac, Entry)>, src: Mac, port: PortName): Entry {
    Entry(port, if Lookup(table, src).Some? then Lookup(table, src).value.count else 0)
  }

  /** Whether learning `src` evicts an entry: `src` is new and the table is full. */
  predicate Evicts(table: seq<(Mac, Entry)>, src: Mac) {
    Lookup(table, src).None? && |table| == TableLimit
  }

  /** Appending an entry under a new key: distinct keys kept, exactly one entry added. */
  lemma AppendNew(room: seq<(Mac, Entry)>, src: Mac, e: Entry)
    requires DistinctKeys(room) && src !in KeySet(room)
    ensures DistinctKeys(room + [(src, e)]) && |room + [(src, e)]| == |room| + 1
    ensures forall x :: x in room + [(src, e)] <==> x == (src, e) || x in room
    ensures forall x :: x in room ==> x.0 != src
  {
    forall i | 0 <= i < |room| ensures room[i].0 != src {
      assert room[i].0 in KeySet(room);
    }
  }

  lemma LearnNewMembers(table: seq<(Mac, Entry)>, src: Mac, port: PortName)
    requires TableInvariant(table) && Lookup(table, src).None?
    ensures var t' := LearnEffect(table, src, port);
      && TableInvariant(t')
      && forall x :: x in t' <==> x == (src, Entry(port, 0)) ||
                                  (x in table && !(|table| == TableLimit && x.0 == table[LeastTraffic(table)].0))
  {
    if |table| == TableLimit {
      var victim := table[LeastTraffic(table)].0;
      var room := RemoveKey(table, victim);
      RemoveKeyProperties(table, victim);
      RemoveKeyMembers(table, victim);
      AppendNew(room, src, Entry(port, 0));
    } else {
      AppendNew(table, src, Entry(port, 0));
    }
  }

  lemma LearnMembers(table: seq<(Mac, Entry)>, src: Mac, port: PortName)
    requires TableInvariant(table)
    ensures var t' := LearnEffect(table, src, port);
      && TableInvariant(t')
      && forall x :: x in t' <==> x == (src, LearnedEntry(table, src, port)) ||
                                  (x in table && x.0 != src && !(Evicts(table, src) && x.0 == table[LeastTraffic(table)].0))
  {
    match Lookup(table, src)
    case Some(known) =>
      ReplaceProperties(table, src, Entry(port, known.count));
      ReplaceMembers(table, src, Entry(port, known.count));
    case None =>
      LearnNewMembers(table, src, port);
      forall x | x in table ensures x.0 != src {
        var p :| 0 <= p < |table| && table[p] == x;
        assert table[p].0 in KeySet(table);
      }
  }

  /**
   * Learning keeps the table valid and binds the source to the arrival port.
   * A known source keeps its count; a new one starts at 0 and, when the table
   * was full, exactly the first least-used entry is evicted. No other entry changes.
   */
  lemma LearnBindsSource(table: seq<(Mac, Entry)>, src: Mac, port: PortName)
    requires TableInvariant(table)
    ensures var t' := LearnEffect(table, src, port);
      && TableInvariant(t')
      && (Lookup(table, src).Some? ==> Lookup(t', src) == Some(Entry(port, Lookup(table, src).value.count)))
      && (Lookup(table, src).None? ==> Lookup(t', src) == Some(Entry(port, 0)))
      && forall m, e :: m != src ==>
           (Lookup(t', m) == Some(e) <==> Lookup(table, m) == Some(e) && !(Evicts(table, src) && m == table[LeastTraffic(table)].0))
  {
    var t' := LearnEffect(table, src, port);
    LearnMembers(table, src, port);
    LookupIsMember(t', src, LearnedEntry(table, src, port));
    forall m, e | m != src
      ensures Lookup(t', m) == Some(e) <==> Lookup(table, m) == Some(e) && !(Evicts(table, src) && m == table[LeastTraffic(table)].0)
    {
      LookupIsMember(t', m, e);
      LookupIsMember(table, m, e);
    }
  }

  /** Counting a send to a known destination adds exactly one to its count and changes nothing else. */
  lemma CountAddsOne(table: seq<(Mac, Entry)>, dst: Mac)
    requires TableInvariant(table) && Lookup(table, dst).Some?
    ensures var t' := CountEffect(table, dst);
      && TableInvariant(t')
      && Lookup(t', dst) == Some(Lookup(table, dst).value.(count := Lookup(table, dst).value.count + 1))
      && forall m :: m != dst ==> Lookup(t', m) == Lookup(table, m)
  {
    var e := Lookup(table, dst).value;
    var t' := CountEffect(table, dst);
    ReplaceProperties(table, dst, e.(count := e.count + 1));
    ReplaceMembers(table, dst, e.(count := e.count + 1));
    LookupIsMember(t', dst, e.(count := e.count + 1));
    forall m | m != dst ensures Lookup(t', m) == Lookup(table, m) {
      if Lookup(table, m).Some? {
        LookupIsMember(table, m, Lookup(table, m).value);
        LookupIsMember(t', m, Lookup(table, m).value);
      } else if Lookup(t', m).Some? {
        LookupIsMember(t', m, Lookup(t', m).value);
        LookupIsMember(table, m, Lookup(t', m).value);
      }
    }
  }

  /** The switch's state: the table in insertion order, the output, and whether `main` has returned. */
  datatype SwitchState = SwitchState(table: seq<(Mac, Entry)>, sent: seq<Out>, stopped: bool)

  /** One turn of the `main` loop for a frame received on `from` (None: no Ethernet header, and `main` returns). */
  function ReceiveEffect(ports: seq<Port>, st: SwitchState, from: PortName, frame: Option<Frame>): SwitchState {
    match frame
    case None => st.(stopped := true)
    case Some(f) =>
      var learned := LearnEffect(st.table, f.eth.src, from);
      match Classify(ports, f.eth.dst)
      case ForMe => st.(table := learned)
      case Broadcast => st.(table := learned, sent := st.sent + Flood(ports, from, f))
      case Unicast =>
        match Lookup(learned, f.eth.dst)
        case Some(e) => st.(table := CountEffect(learned, f.eth.dst), sent := st.sent + [Out(e.port, f)])
        case None => st.(table := learned, sent := st.sent + Flood(ports, from, f))
  }

  /**
   * Forwarding: a known unicast destination gets one send to its learned
   * port and one more unit of traffic; a frame for the switch, a broadcast or
   * an unknown destination changes no count (after learning), and the last
   * two are flooded.
   */
  lemma ReceiveForwards(ports: seq<Port>, st: SwitchState, from: PortName, f: Frame)
    requires TableInvariant(st.table)
    ensures var learned := LearnEffect(st.table, f.eth.src, from);
      var st' := ReceiveEffect(ports, st, from, Some(f));
      && TableInvariant(st'.table)
      && (Classify(ports, f.eth.dst) == Unicast && Lookup(learned, f.eth.dst).Some? ==>
            && st'.sent == st.sent + [Out(Lookup(learned, f.eth.dst).value.port, f)]
            && Lookup(st'.table, f.eth.dst) == Some(Lookup(learned, f.eth.dst).value.(count := Lookup(learned, f.eth.dst).value.count + 1))
            && forall m :: m != f.eth.dst ==> Lookup(st'.table, m) == Lookup(learned, m))
      && (Classify(ports, f.eth.dst) != Unicast || Lookup(learned, f.eth.dst).None? ==>
            && st'.table == learned
            && st'.sent == st.sent + (if Classify(ports, f.eth.dst) == ForMe then [] else Flood(ports, from, f)))
  {
    var learned := LearnEffect(st.table, f.eth.src, from);
    LearnBindsSource(st.table, f.eth.src, from);
    if Classify(ports, f.eth.dst) == Unicast && Lookup(learned, f.eth.dst).Some? {
      CountAddsOne(learned, f.eth.dst);
    }
  }

  /** The switch of `main`: its ports, its table and its output. */
  class Switch {
    const ports: seq<Port>
    var table: seq<(Mac, Entry)>
    var sent: seq<Out>
    var stopped: bool

    function Snapshot(): SwitchState
      reads this
    {
      SwitchState(table, sent, stopped)
    }

    constructor (ports: seq<Port>)
      ensures this.ports == ports && Snapshot() == SwitchState([], [], false)
    {
      this.ports := ports;
      table := [];
      sent := [];
      stopped := false;
    }

    /** One turn of the loop in `main`; once `main` has returned no further frame is handled. */
    method Receive(from: PortName, frame: Option<Frame>)
      requires !stopped
      modifies this
      ensures Snapshot() == ReceiveEffect(ports, old(Snapshot()), from, frame)
    {
      if frame.None? {
        stopped := true;
        return;
      }
      var f := frame.value;
      var p := Lookup(table, f.eth.src);
      if p.Some? {
        table := Replace(table, f.eth.src, Entry(from, p.value.count));
      } else {
        if |table| == TableLimit {
          table := RemoveKey(table, table[LeastTraffic(table)].0);
        }
        table := table + [(f.eth.src, Entry(from, 0))];
      }
      var kind := Classify(ports, f.eth.dst);
      if kind == Broadcast {
        sent := sent + Flood(ports, from, f);
      } else if kind == Unicast {
        var known := Lookup(table, f.eth.dst);
        if known.Some? {
          table := Replace(table, f.eth.dst, known.value.(count := known.value.count + 1));
          sent := sent + [Out(known.value.port, f)];
        } else {
          sent := sent + Flood(ports, from, f);
        }
      }
    }
  }
}
