/**
 * What the three learning switches of lab2 share: the frame they forward,
 * their ports, the `flood` helper and the order in which the forwarding rule
 * tests the destination (own MAC, then broadcast, then the learned table).
 */
module SwitchCommon {
  import opened Wrappers
  import opened Packets

  /** A received frame: its Ethernet header and everything after it, which the switch forwards untouched. */
  datatype Frame = Frame(eth: EthHeader, body: seq<byte>)

  /** A switch port: its name and its own hardware address. */
  datatype Port = Port(name: PortName, mac: Mac)

  /** One `send_packet(port, frame)` call. */
  datatype Out = Out(port: PortName, frame: Frame)

  /** The ports' own MAC addresses (`mymacs`). */
  function OwnMacs(ports: seq<Port>): seq<Mac> {
    seq(|ports|, i requires 0 <= i < |ports| => ports[i].mac)
  }

  /** `flood`: the frame on every port but the arrival one, in port order. */
  function Flood(ports: seq<Port>, from: PortName, f: Frame): seq<Out> {
    if ports == [] then []
    else (if ports[0].name != from then [Out(ports[0].name, f)] else []) + Flood(ports[1..], from, f)
  }

  /**
   * Flooding sends the unchanged frame on exactly the ports other than the
   * arrival port, each once, in port order.
   */
  lemma {:induction false} FloodSendsToOthers(ports: seq<Port>, from: PortName, f: Frame)
    ensures forall o :: o in Flood(ports, from, f) ==> o.frame == f && o.port != from
    ensures forall i :: 0 <= i < |ports| && ports[i].name != from ==> Out(ports[i].name, f) in Flood(ports, from, f)
    ensures forall o :: o in Flood(ports, from, f) ==> exists i :: 0 <= i < |ports| && ports[i].name == o.port
    ensures |Flood(ports, from, f)| <= |ports|
  {
    if ports != [] {
      FloodSendsToOthers(ports[1..], from, f);
      forall i | 0 <= i < |ports| && ports[i].name != from
        ensures Out(ports[i].name, f) in Flood(ports, from, f)
      {
        if i > 0 {
          assert ports[i] == ports[1..][i - 1];
        }
      }
      forall o | o in Flood(ports, from, f)
        ensures exists i :: 0 <= i < |ports| && ports[i].name == o.port
      {
        if o !in Flood(ports[1..], from, f) {
          assert ports[0].name == o.port;
        } else {
          var i :| 0 <= i < |ports[1..]| && ports[1..][i].name == o.port;
          assert ports[i + 1].name == o.port;
        }
      }
    }
  }

  /** The k-th of `sends` is the frame on the port at position `idx[k]`, which is not the arrival port. */
  predicate Picks(ports: seq<Port>, from: PortName, f: Frame, sends: seq<Out>, idx: seq<nat>) {
    && |idx| == |sends|
    && forall k :: 0 <= k < |idx| ==>
         idx[k] < |ports| && ports[idx[k]].name != from && sends[k] == Out(ports[idx[k]].name, f)
  }

  predicate Increasing(idx: seq<nat>) {
    forall k, l :: 0 <= k < l < |idx| ==> idx[k] < idx[l]
  }

  /** Every position from `lo` on whose port is not the arrival port is listed in `idx`. */
  predicate Covers(ports: seq<Port>, from: PortName, idx: seq<nat>, lo: nat) {
    forall i :: lo <= i < |ports| && ports[i].name != from ==> i in idx
  }

  /**
   * `idx` lists, in increasing order, exactly the positions of the ports other
   * than `from`, and the k-th send of `sends` goes to port `idx[k]`.
   */
  predicate SendsInPortOrder(ports: seq<Port>, from: PortName, f: Frame, sends: seq<Out>, idx: seq<nat>) {
    Picks(ports, from, f, sends, idx) && Increasing(idx) && Covers(ports, from, idx, 0)
  }

  /** Positions in `ports[1..]` as positions in `ports`. */
  function Shift(tail: seq<nat>): (r: seq<nat>)
    ensures |r| == |tail| && forall k :: 0 <= k < |r| ==> r[k] == tail[k] + 1
  {
    seq(|tail|, k requires 0 <= k < |tail| => tail[k] + 1)
  }

  lemma ShiftPicks(ports: seq<Port>, from: PortName, f: Frame, rest: seq<Out>, tail: seq<nat>)
    requires ports != [] && Picks(ports[1..], from, f, rest, tail)
    ensures Picks(ports, from, f, rest, Shift(tail))
  {
    var shifted := Shift(tail);
    forall k | 0 <= k < |shifted|
      ensures shifted[k] < |ports| && ports[shifted[k]].name != from && rest[k] == Out(ports[shifted[k]].name, f)
    {
      assert ports[shifted[k]] == ports[1..][tail[k]];
    }
  }

  lemma ShiftIncreasing(tail: seq<nat>)
    requires Increasing(tail)
    ensures Increasing(Shift(tail))
  {
  }

  lemma ShiftCovers(ports: seq<Port>, from: PortName, tail: seq<nat>)
    requires ports != [] && Covers(ports[1..], from, tail, 0)
    ensures Covers(ports, from, Shift(tail), 1)
  {
    var shifted := Shift(tail);
    forall i | 1 <= i < |ports| && ports[i].name != from
      ensures i in shifted
    {
      assert ports[1..][i - 1] == ports[i];
      var k :| 0 <= k < |tail| && tail[k] == i - 1;
      assert shifted[k] == i;
    }
  }

  lemma SkipFirstCovers(ports: seq<Port>, from: PortName, idx: seq<nat>)
    requires ports != [] && ports[0].name == from && Covers(ports, from, idx, 1)
    ensures Covers(ports, from, idx, 0)
  {
  }

  /** Sending on the first port puts position `0` in front. */
  lemma TakeFirst(ports: seq<Port>, from: PortName, f: Frame, rest: seq<Out>, shifted: seq<nat>)
    requires ports != [] && ports[0].name != from
    requires Picks(ports, from, f, rest, shifted) && Increasing(shifted) && Covers(ports, from, shifted, 1)
    requires forall k :: 0 <= k < |shifted| ==> shifted[k] >= 1
    ensures SendsInPortOrder(ports, from, f, [Out(ports[0].name, f)] + rest, [0] + shifted)
  {
    var idx := [0] + shifted;
    var sends := [Out(ports[0].name, f)] + rest;
    assert forall k :: 1 <= k < |idx| ==> idx[k] == shifted[k - 1] && sends[k] == rest[k - 1];
    assert Picks(ports, from, f, sends, idx);
    assert Increasing(idx);
    assert forall i :: 1 <= i < |ports| && ports[i].name != from ==> i in shifted && i in idx;
  }

  lemma FloodCons(ports: seq<Port>, from: PortName, f: Frame)
    requires ports != []
    ensures ports[0].name != from ==> Flood(ports, from, f) == [Out(ports[0].name, f)] + Flood(ports[1..], from, f)
    ensures ports[0].name == from ==> Flood(ports, from, f) == Flood(ports[1..], from, f)
  {
    assert [] + Flood(ports[1..], from, f) == Flood(ports[1..], from, f);
  }

  /** The positions found for `ports[1..]`, moved one up, with `0` in front when the first port is sent on. */
  lemma FloodStep(ports: seq<Port>, from: PortName, f: Frame, tail: seq<nat>) returns (idx: seq<nat>)
    requires ports != [] && SendsInPortOrder(ports[1..], from, f, Flood(ports[1..], from, f), tail)
    ensures SendsInPortOrder(ports, from, f, Flood(ports, from, f), idx)
  {
    var rest := Flood(ports[1..], from, f);
    var shifted := Shift(tail);
    ShiftPicks(ports, from, f, rest, tail);
    ShiftIncreasing(tail);
    ShiftCovers(ports, from, tail);
    FloodCons(ports, from, f);
    if ports[0].name != from {
      TakeFirst(ports, from, f, rest, shifted);
      idx := [0] + shifted;
    } else {
      SkipFirstCovers(ports, from, shifted);
      idx := shifted;
    }
  }

  /**
   * Flooding is exactly the ports other than the arrival port, in port order:
   * the k-th send goes to port `idx[k]`, the positions `idx` increase, and
   * they are every position whose port is not the arrival port.
   */
  lemma {:induction false} FloodInPortOrder(ports: seq<Port>, from: PortName, f: Frame) returns (idx: seq<nat>)
    ensures SendsInPortOrder(ports, from, f, Flood(ports, from, f), idx)
  {
    if ports == [] {
      idx := [];
    } else {
      var tail := FloodInPortOrder(ports[1..], from, f);
      idx := FloodStep(ports, from, f, tail);
    }
  }

  /** How the forwarding rule classifies a destination before consulting the table. */
  datatype Kind = ForMe | Broadcast | Unicast

  function Classify(ports: seq<Port>, dst: Mac): (k: Kind)
    ensures k == ForMe <==> dst in OwnMacs(ports)
    ensures k == Broadcast <==> dst !in OwnMacs(ports) && dst == BroadcastMac
  {
    if dst in OwnMacs(ports) then ForMe
    else if dst == BroadcastMac then Broadcast
    else Unicast
  }

  /** The output for a unicast destination: one send to the learned port, or a flood when none is usable. */
  function Deliver(ports: seq<Port>, from: PortName, f: Frame, learned: Option<PortName>): seq<Out> {
    match learned
    case Some(port) => [Out(port, f)]
    case None => Flood(ports, from, f)
  }
}
