/**
 * State and ARP handling shared by the two queueing routers
 * (lab5/myrouter.py and the earlier lab4/myrouter.py, whose `handle_arp`
 * and ARP-miss queueing are the same code): the ARP table, the queue of
 * packets waiting for address resolution, and the log of transmissions.
 */
module RouterCore {
  import opened Wrappers
  import opened Packets
  import opened DictQueues

  /** A packet that carries an IPv4 header: everything the IP path handles or queues. */
  type IpFrame = p: Packet | p.IpPacket? witness IpPacket(EthHeader(0, 0), Ipv4Header(0, 0, 0), OtherPayload(0, []))

  /** ARP requests sent for one next hop before its packets are given up. */
  const RetryBudget: int := 5

  /** `ARPSendInfo(send_time, remain_times, wait_packs, intf)`. */
  datatype ArpSendInfo = ArpSendInfo(sendTime: int, remainTimes: int, waitPacks: seq<IpFrame>, intf: Interface)

  /**
   * What the routers own and change: the ARP table (`arp_table`), the
   * pending-resolution queue (`arp_send`, oldest entry first) and every packet
   * handed to `send_packet` so far, in order.
   */
  datatype State = State(arpTable: map<Ip, Mac>, queue: seq<(Ip, ArpSendInfo)>, sent: seq<Tx>)

  /** The router's own addresses, in interface order. */
  function RouterIps(interfaces: seq<Interface>): seq<Ip> {
    seq(|interfaces|, i requires 0 <= i < |interfaces| => interfaces[i].ip)
  }

  /** `is_ip_in_router`: some interface carries this address. */
  predicate IsIpInRouter(interfaces: seq<Interface>, ip: Ip) {
    ip in RouterIps(interfaces)
  }

  /** `net.interface_by_ipaddr`: the first interface that carries the address. */
  function InterfaceByIp(interfaces: seq<Interface>, ip: Ip): (intf: Interface)
    requires IsIpInRouter(interfaces, ip)
    ensures intf in interfaces && intf.ip == ip
  {
    if interfaces[0].ip == ip then interfaces[0]
    else
      assert RouterIps(interfaces) == [interfaces[0].ip] + RouterIps(interfaces[1..]);
      InterfaceByIp(interfaces[1..], ip)
  }

  /** The sends of the flush loop: each waiting packet, Ethernet destination set to `hw`, on `port`, in queue order. */
  function Released(packs: seq<IpFrame>, hw: Mac, port: PortName): (txs: seq<Tx>)
    ensures |txs| == |packs|
    ensures forall i :: 0 <= i < |packs| ==> txs[i] == Tx(port, WithEthDst(packs[i], hw))
  {
    seq(|packs|, i requires 0 <= i < |packs| => Tx(port, WithEthDst(packs[i], hw)))
  }

  /**
   * `handle_arp`: learn the sender's binding; answer a Request aimed at one of
   * the router's addresses on the arrival port; for any other operation aimed
   * at the router, flush the packets waiting for the sender's address.
   */
  function HandleArpEffect(interfaces: seq<Interface>, st: State, arp: ArpHeader, port: PortName): State {
    var learned := st.arpTable[arp.senderIp := arp.senderHw];
    if !IsIpInRouter(interfaces, arp.targetIp) then
      st.(arpTable := learned)
    else if arp.operation == ArpRequest then
      var intf := InterfaceByIp(interfaces, arp.targetIp);
      State(learned, st.queue, st.sent + [Tx(port, ArpReplyPacket(intf.mac, arp.senderHw, intf.ip, arp.senderIp))])
    else
      match Lookup(st.queue, arp.senderIp)
      case None => st.(arpTable := learned)
      case Some(info) =>
        State(learned, RemoveKey(st.queue, arp.senderIp), st.sent + Released(info.waitPacks, arp.senderHw, info.intf.name))
  }

  /**
   * After any ARP packet the table maps the sender's address to its hardware
   * address and no other binding changes.
   */
  lemma ArpLearnsSender(interfaces: seq<Interface>, st: State, arp: ArpHeader, port: PortName)
    ensures var st' := HandleArpEffect(interfaces, st, arp, port);
      && arp.senderIp in st'.arpTable && st'.arpTable[arp.senderIp] == arp.senderHw
      && st'.arpTable.Keys == st.arpTable.Keys + {arp.senderIp}
      && forall ip :: ip in st.arpTable && ip != arp.senderIp ==> st'.arpTable[ip] == st.arpTable[ip]
  {
  }

  /**
   * A reply is sent exactly for a Request whose target is a router address:
   * one ARP Reply, on the arrival port, from the owning interface's (MAC, IP)
   * to the requester's (MAC, IP); the queue is untouched.
   */
  lemma ArpRequestAnswered(interfaces: seq<Interface>, st: State, arp: ArpHeader, port: PortName)
    requires arp.operation == ArpRequest
    ensures var st' := HandleArpEffect(interfaces, st, arp, port);
      && st'.queue == st.queue
      && (!IsIpInRouter(interfaces, arp.targetIp) ==> st'.sent == st.sent)
      && (IsIpInRouter(interfaces, arp.targetIp) ==>
            exists intf :: intf in interfaces && intf.ip == arp.targetIp &&
              st'.sent == st.sent + [Tx(port, ArpPacket(EthHeader(intf.mac, arp.senderHw),
                                                       ArpHeader(ArpReply, intf.mac, intf.ip, arp.senderHw, arp.senderIp)))])
  {
    if IsIpInRouter(interfaces, arp.targetIp) {
      var intf := InterfaceByIp(interfaces, arp.targetIp);
      assert intf in interfaces && intf.ip == arp.targetIp;
    }
  }

  /**
   * An ARP packet that is not a Request and targets a router address releases
   * the entry waiting for the sender's address: the entry leaves the queue, the
   * other entries stay in order, and each of its packets is sent exactly once,
   * in queue order, on the stored interface with Ethernet destination set to
   * the sender's MAC. Without such an entry nothing is sent.
   */
  lemma ArpReplyReleasesWaiting(interfaces: seq<Interface>, st: State, arp: ArpHeader, port: PortName)
    requires arp.operation != ArpRequest && IsIpInRouter(interfaces, arp.targetIp)
    requires DistinctKeys(st.queue)
    ensures var st' := HandleArpEffect(interfaces, st, arp, port);
      && DistinctKeys(st'.queue)
      && KeySet(st'.queue) == KeySet(st.queue) - {arp.senderIp}
      && st'.queue == RemoveKey(st.queue, arp.senderIp)
      && (arp.senderIp !in KeySet(st.queue) ==> st'.sent == st.sent)
      && (arp.senderIp in KeySet(st.queue) ==>
            var info := Lookup(st.queue, arp.senderIp).value;
            && |st'.sent| == |st.sent| + |info.waitPacks|
            && st'.sent[..|st.sent|] == st.sent
            && forall i :: 0 <= i < |info.waitPacks| ==>
                 st'.sent[|st.sent| + i] == Tx(info.intf.name, WithEthDst(info.waitPacks[i], arp.senderHw)))
  {
    RemoveKeyProperties(st.queue, arp.senderIp);
  }

  /**
   * The ARP-cache step of the send path: on a hit, send the packet on the
   * egress interface to the cached MAC; on a miss, create the entry
   * `(0, 5, [packet], intf)` for the next hop or append to the existing one.
   */
  function ResolveAndSend(st: State, nextHop: Ip, out: IpFrame, intf: Interface): State {
    if nextHop in st.arpTable then
      st.(sent := st.sent + [Tx(intf.name, WithEthDst(out, st.arpTable[nextHop]))])
    else
      match Lookup(st.queue, nextHop)
      case None => st.(queue := st.queue + [(nextHop, ArpSendInfo(0, RetryBudget, [out], intf))])
      case Some(info) => st.(queue := Replace(st.queue, nextHop, info.(waitPacks := info.waitPacks + [out])))
  }

  /** The ARP timing of an entry: when its last request went out and how many remain. */
  predicate SameClock(a: ArpSendInfo, b: ArpSendInfo) {
    a.sendTime == b.sendTime && a.remainTimes == b.remainTimes
  }

  /**
   * `b` is `a` after sends that only queue packets: every old entry keeps its
   * key, position and timing, and every new entry is a fresh one (time 0,
   * full budget) at the newest end.
   */
  ghost predicate Extends(a: seq<(Ip, ArpSendInfo)>, b: seq<(Ip, ArpSendInfo)>) {
    && |a| <= |b|
    && (forall i :: 0 <= i < |a| ==> b[i].0 == a[i].0 && SameClock(a[i].1, b[i].1))
    && (forall i :: |a| <= i < |b| ==> b[i].1.sendTime == 0 && b[i].1.remainTimes == RetryBudget)
  }

  /**
   * The miss path only ever pushes a key that is absent, so the queue keeps
   * distinct keys; entries are never reordered or re-timed.
   */
  lemma ResolveAndSendKeepsQueue(st: State, nextHop: Ip, out: IpFrame, intf: Interface)
    requires DistinctKeys(st.queue)
    ensures var st' := ResolveAndSend(st, nextHop, out, intf);
      && DistinctKeys(st'.queue) && Extends(st.queue, st'.queue)
      && st'.arpTable == st.arpTable
      && KeySet(st'.queue) == KeySet(st.queue) + (if nextHop in st.arpTable then {} else {nextHop})
  {
    ResolveAndSendExtends(st, nextHop, out, intf);
    if nextHop !in st.arpTable {
      match Lookup(st.queue, nextHop)
      case None =>
        KeySetConcat(st.queue, [(nextHop, ArpSendInfo(0, RetryBudget, [out], intf))]);
        assert KeySet([(nextHop, ArpSendInfo(0, RetryBudget, [out], intf))]) == {nextHop} by {
          assert [(nextHop, ArpSendInfo(0, RetryBudget, [out], intf))][0].0 == nextHop;
        }
      case Some(info) =>
        ReplaceProperties(st.queue, nextHop, info.(waitPacks := info.waitPacks + [out]));
    }
  }

  /** The extension part alone, which holds whatever the queue's keys are. */
  lemma ResolveAndSendExtends(st: State, nextHop: Ip, out: IpFrame, intf: Interface)
    ensures Extends(st.queue, ResolveAndSend(st, nextHop, out, intf).queue)
  {
    if nextHop !in st.arpTable && Lookup(st.queue, nextHop).Some? {
      var i := IndexOf(st.queue, nextHop);
      assert st.queue[i].1 == Lookup(st.queue, nextHop).value;
    }
  }

  /**
   * What the ARP-miss path does to the state, seen from outside: on a hit one
   * transmission of the packet on the egress port to the cached MAC and no
   * queue change; on a miss no transmission, and the entry for the next hop
   * now ends with the packet (holding only it when the entry is new).
   */
  lemma ResolveAndSendOutcome(st: State, nextHop: Ip, out: IpFrame, intf: Interface)
    requires DistinctKeys(st.queue)
    ensures var st' := ResolveAndSend(st, nextHop, out, intf);
      && (nextHop in st.arpTable ==>
            st'.queue == st.queue && st'.sent == st.sent + [Tx(intf.name, WithEthDst(out, st.arpTable[nextHop]))])
      && (nextHop !in st.arpTable ==>
            && st'.sent == st.sent
            && Lookup(st'.queue, nextHop).Some?
            && var packs := Lookup(st'.queue, nextHop).value.waitPacks;
               && packs == (if Lookup(st.queue, nextHop).None? then [out] else Lookup(st.queue, nextHop).value.waitPacks + [out])
               && (Lookup(st.queue, nextHop).None? ==> Lookup(st'.queue, nextHop).value == ArpSendInfo(0, RetryBudget, [out], intf)))
  {
    if nextHop !in st.arpTable {
      var st' := ResolveAndSend(st, nextHop, out, intf);
      match Lookup(st.queue, nextHop)
      case None =>
        KeySetConcat(st.queue, [(nextHop, ArpSendInfo(0, RetryBudget, [out], intf))]);
        assert st'.queue[|st.queue|].0 == nextHop;
        var j := IndexOf(st'.queue, nextHop);
        assert j == |st.queue|;
      case Some(info) =>
        var i := IndexOf(st.queue, nextHop);
        assert st'.queue[i].0 == nextHop;
        assert IndexOf(st'.queue, nextHop) == i;
    }
  }

  lemma ExtendsTransitive(a: seq<(Ip, ArpSendInfo)>, b: seq<(Ip, ArpSendInfo)>, c: seq<(Ip, ArpSendInfo)>)
    requires Extends(a, b) && Extends(b, c)
    ensures Extends(a, c)
  {
  }

  /** The entry is due for action at time `now`; with `exhausted`, also out of budget. */
  predicate Due(info: ArpSendInfo, now: int, exhausted: bool) {
    now - info.sendTime >= 1 && (exhausted ==> info.remainTimes <= 0)
  }

  /** The number of due (or due and exhausted) entries: the measure that bounds `resend_arp`. */
  function Weight(q: seq<(Ip, ArpSendInfo)>, now: int, exhausted: bool): nat {
    if q == [] then 0 else (if Due(q[0].1, now, exhausted) then 1 else 0) + Weight(q[1..], now, exhausted)
  }

  lemma {:induction false} WeightAppend(a: seq<(Ip, ArpSendInfo)>, b: seq<(Ip, ArpSendInfo)>, now: int, exhausted: bool)
    ensures Weight(a + b, now, exhausted) == Weight(a, now, exhausted) + Weight(b, now, exhausted)
  {
    if a == [] {
      assert a + b == b;
    } else {
      assert (a + b)[1..] == a[1..] + b;
      WeightAppend(a[1..], b, now, exhausted);
    }
  }

  /** Fresh entries are never exhausted, so queueing cannot add to the exhausted count. */
  lemma {:induction false} ExtendsKeepsExhausted(a: seq<(Ip, ArpSendInfo)>, b: seq<(Ip, ArpSendInfo)>, now: int)
    requires Extends(a, b)
    ensures Weight(b, now, true) == Weight(a, now, true)
  {
    if a == [] {
      if b != [] {
        assert Extends([], b[1..]);
        ExtendsKeepsExhausted([], b[1..], now);
      }
    } else {
      assert Extends(a[1..], b[1..]);
      ExtendsKeepsExhausted(a[1..], b[1..], now);
    }
  }

  /**
   * One retry of `resend_arp` for an entry already popped from the queue: an
   * ARP request for the key from the entry's interface, and the entry pushed
   * back at the newest end stamped `now` with one request fewer remaining.
   */
  function Requeue(st: State, key: Ip, info: ArpSendInfo, now: int): State {
    State(st.arpTable,
          st.queue + [(key, info.(sendTime := now, remainTimes := info.remainTimes - 1))],
          st.sent + [Tx(info.intf.name, ArpRequestPacket(info.intf.mac, info.intf.ip, key))])
  }

  /**
   * Retrying a due entry that still has budget moves it out of the due set
   * and leaves the number of due exhausted entries as it was: the measure of
   * the resend loop goes down.
   */
  lemma RequeueWeights(st: State, now: int)
    requires st.queue != [] && Due(st.queue[0].1, now, false) && st.queue[0].1.remainTimes > 0
    ensures var q' := Requeue(st.(queue := st.queue[1..]), st.queue[0].0, st.queue[0].1, now).queue;
      && Weight(q', now, true) == Weight(st.queue, now, true)
      && Weight(q', now, false) == Weight(st.queue, now, false) - 1
  {
    var (k, info) := st.queue[0];
    var entry := (k, info.(sendTime := now, remainTimes := info.remainTimes - 1));
    WeightAppend(st.queue[1..], [entry], now, true);
    WeightAppend(st.queue[1..], [entry], now, false);
    var tail: seq<(Ip, ArpSendInfo)> := [entry][1..];
    assert tail == [];
  }

  /**
   * The ARP table, the pending-resolution queue and the transmission log,
   * as the two queueing routers hold them: the shared `handle_arp` and the
   * ARP step of the send path update them in place.
   */
  class ArpState {
    var arpTable: map<Ip, Mac>
    const arpSend: DictQueue<Ip, ArpSendInfo>
    var sent: seq<Tx>

    ghost predicate Valid()
      reads this, arpSend
    {
      arpSend.Valid()
    }

    function Snapshot(): State
      reads this, arpSend
    {
      State(arpTable, arpSend.items, sent)
    }

    constructor ()
      ensures Valid() && Snapshot() == State(map[], [], [])
    {
      arpTable := map[];
      arpSend := new DictQueue();
      sent := [];
    }

    /** `handle_arp`. */
    method HandleArp(interfaces: seq<Interface>, arp: ArpHeader, port: PortName)
      requires Valid()
      modifies this, arpSend
      ensures Valid()
      ensures Snapshot() == HandleArpEffect(interfaces, old(Snapshot()), arp, port)
    {
      arpTable := arpTable[arp.senderIp := arp.senderHw];
      if IsIpInRouter(interfaces, arp.targetIp) {
        if arp.operation == ArpRequest {
          var intf := InterfaceByIp(interfaces, arp.targetIp);
          sent := sent + [Tx(port, ArpReplyPacket(intf.mac, arp.senderHw, intf.ip, arp.senderIp))];
        } else {
          var waiting := arpSend.Remove(arp.senderIp);
          if waiting.Some? {
            Release(waiting.value.waitPacks, arp.senderHw, waiting.value.intf.name);
          }
        }
      }
    }

    /** The flush loop of `handle_arp`: each waiting packet, readdressed to `hw`, sent on `port` in order. */
    method Release(packs: seq<IpFrame>, hw: Mac, port: PortName)
      modifies this
      ensures arpTable == old(arpTable)
      ensures sent == old(sent) + Released(packs, hw, port)
    {
      for i := 0 to |packs|
        invariant arpTable == old(arpTable)
        invariant sent == old(sent) + Released(packs[..i], hw, port)
      {
        sent := sent + [Tx(port, WithEthDst(packs[i], hw))];
        assert Released(packs[..i + 1], hw, port) == Released(packs[..i], hw, port) + [Tx(port, WithEthDst(packs[i], hw))];
      }
      assert packs[..|packs|] == packs;
    }

    /** The ARP step of `send_ip`: transmit on a cache hit, otherwise queue behind the next hop. */
    method Deliver(nextHop: Ip, out: IpFrame, intf: Interface)
      requires Valid()
      modifies this, arpSend
      ensures Valid()
      ensures Snapshot() == ResolveAndSend(old(Snapshot()), nextHop, out, intf)
    {
      if nextHop in arpTable {
        sent := sent + [Tx(intf.name, WithEthDst(out, arpTable[nextHop]))];
      } else {
        var waiting := arpSend.Get(nextHop);
        if waiting.None? {
          arpSend.Push(nextHop, ArpSendInfo(0, RetryBudget, [out], intf));
        } else {
          arpSend.SetValue(nextHop, waiting.value.(waitPacks := waiting.value.waitPacks + [out]));
        }
      }
    }

    /** The retry branch of `resend_arp`, for an entry the loop has just popped. */
    method Retry(key: Ip, info: ArpSendInfo, now: int)
      requires Valid() && key !in KeySet(arpSend.items)
      modifies this, arpSend
      ensures Valid()
      ensures Snapshot() == Requeue(old(Snapshot()), key, info, now)
    {
      sent := sent + [Tx(info.intf.name, ArpRequestPacket(info.intf.mac, info.intf.ip, key))];
      arpSend.Push(key, info.(sendTime := now, remainTimes := info.remainTimes - 1));
    }
  }
}
