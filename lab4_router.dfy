/**
 * The earlier static router (lab4/myrouter.py): the same ARP handling and
 * ARP-miss queue as the final one, but no ICMP at all. The TTL is
 * decremented before any decision, packets for the router itself and packets
 * with no route are dropped, and an entry whose ARP requests have run out is
 * discarded with its packets.
 */
module Lab4Router {
  import opened Wrappers
  import opened Packets
  import opened DictQueues
  import opened ForwardTable
  import opened RouterCore

  datatype Config = Config(interfaces: seq<Interface>, routes: seq<Route>)

  /** The route `handle_ip` uses: none for a packet to a router address, else the lookup (ValueError caught). */
  function ForwardFor(cfg: Config, dst: Ip): Option<Route> {
    if IsIpInRouter(cfg.interfaces, dst) then None else SearchCatching(cfg.routes, dst)
  }

  /** `handle_ip`. */
  function HandleIpEffect(cfg: Config, st: State, pkt: IpFrame): State {
    var ttl := pkt.ip.ttl - 1;
    match ForwardFor(cfg, pkt.ip.dst)
    case None => st
    case Some(route) =>
      var nextHop := if route.nextHop == ZeroIp then pkt.ip.dst else route.nextHop;
      ResolveAndSend(st, nextHop, IpPacket(EthHeader(route.intf.mac, pkt.eth.dst), pkt.ip.(ttl := ttl), pkt.payload), route.intf)
  }

  /** `handle_packet`: ARP to `handle_arp`, IPv4 to `handle_ip`, anything else ignored. */
  function HandlePacketEffect(cfg: Config, st: State, port: PortName, pkt: Packet): State {
    match pkt
    case ArpPacket(_, arp) => HandleArpEffect(cfg.interfaces, st, arp, port)
    case IpPacket(_, _, _) => HandleIpEffect(cfg, st, pkt)
    case OtherPacket(_) => st
  }

  /** One iteration of `resend_arp` on a due oldest entry: retry it, or drop it with its packets. */
  function ResendStep(st: State, now: int): State
    requires st.queue != []
  {
    var (key, info) := st.queue[0];
    var rest := st.(queue := st.queue[1..]);
    if info.remainTimes > 0 then Requeue(rest, key, info, now) else rest
  }

  lemma ResendStepShrinks(st: State, now: int)
    requires st.queue != [] && Due(st.queue[0].1, now, false)
    ensures Weight(ResendStep(st, now).queue, now, false) < Weight(st.queue, now, false)
  {
    if st.queue[0].1.remainTimes > 0 {
      RequeueWeights(st, now);
    }
  }

  /** `resend_arp`: iterate while the oldest entry is due. */
  function ResendEffect(st: State, now: int): State
    decreases Weight(st.queue, now, false)
  {
    if st.queue != [] && Due(st.queue[0].1, now, false) then
      ResendStepShrinks(st, now);
      ResendEffect(ResendStep(st, now), now)
    else st
  }

  /**
   * A packet for one of the router's addresses, or for an address no entry
   * contains, is dropped: no transmission and no state change.
   */
  lemma LocalOrUnroutableDropped(cfg: Config, st: State, pkt: IpFrame)
    requires IsIpInRouter(cfg.interfaces, pkt.ip.dst)
          || forall j :: 0 <= j < |cfg.routes| ==> !Contains(cfg.routes[j].net, pkt.ip.dst)
    ensures HandleIpEffect(cfg, st, pkt) == st
  {
    SearchIsLongestMatch(cfg.routes, pkt.ip.dst);
  }

  /**
   * Any other packet goes to the ARP step on the longest-prefix-match entry's
   * interface, with TTL one less (even when it reaches 0 or below), the egress
   * MAC as Ethernet source and its source address untouched; the next hop is
   * the destination itself for a directly connected entry.
   */
  lemma RoutedPacketForwarded(cfg: Config, st: State, pkt: IpFrame, i: int)
    requires !IsIpInRouter(cfg.interfaces, pkt.ip.dst) && IsLongestMatch(cfg.routes, pkt.ip.dst, i)
    ensures var r := cfg.routes[i];
      HandleIpEffect(cfg, st, pkt) == ResolveAndSend(st,
        if r.nextHop == ZeroIp then pkt.ip.dst else r.nextHop,
        IpPacket(EthHeader(r.intf.mac, pkt.eth.dst), Ipv4Header(pkt.ip.src, pkt.ip.dst, pkt.ip.ttl - 1), pkt.payload),
        r.intf)
  {
    LongestMatchIsSearched(cfg.routes, pkt.ip.dst, i);
  }

  /** When `resend_arp` returns, the oldest entry (if any) is not due. */
  lemma {:induction false} ResendLeavesNoDueHead(st: State, now: int)
    ensures var st' := ResendEffect(st, now);
      st'.queue == [] || !Due(st'.queue[0].1, now, false)
    decreases Weight(st.queue, now, false)
  {
    if st.queue != [] && Due(st.queue[0].1, now, false) {
      ResendStepShrinks(st, now);
      ResendLeavesNoDueHead(ResendStep(st, now), now);
    }
  }

  /** An exhausted due entry is dropped with its packets and nothing is sent. */
  lemma ExhaustedEntryDiscarded(st: State, now: int)
    requires st.queue != [] && st.queue[0].1.remainTimes <= 0
    ensures ResendStep(st, now) == State(st.arpTable, st.queue[1..], st.sent)
  {
  }

  /**
   * `resend_arp` only ever sends ARP requests, each from the interface stored
   * with its entry, and never touches the ARP table.
   */
  lemma {:induction false} ResendSendsOnlyRequests(st: State, now: int)
    ensures var st' := ResendEffect(st, now);
      && st'.arpTable == st.arpTable
      && |st.sent| <= |st'.sent| && st'.sent[..|st.sent|] == st.sent
      && forall i :: |st.sent| <= i < |st'.sent| ==> st'.sent[i].packet.ArpPacket? && st'.sent[i].packet.arp.operation == ArpRequest
    decreases Weight(st.queue, now, false)
  {
    if st.queue != [] && Due(st.queue[0].1, now, false) {
      var st1 := ResendStep(st, now);
      ResendStepShrinks(st, now);
      ResendSendsOnlyRequests(st1, now);
      var st' := ResendEffect(st1, now);
      assert st'.sent[..|st1.sent|] == st1.sent;
      assert st1.sent[..|st.sent|] == st.sent;
      forall i | |st.sent| <= i < |st'.sent|
        ensures st'.sent[i].packet.ArpPacket? && st'.sent[i].packet.arp.operation == ArpRequest
      {
        if i < |st1.sent| {
          assert st'.sent[i] == st1.sent[i];
        }
      }
    }
  }

  /** The router: its configuration and the ARP state it updates in place. */
  class Router {
    const cfg: Config
    const tables: ArpState

    ghost predicate Valid()
      reads tables, tables.arpSend
    {
      tables.Valid()
    }

    function Snapshot(): State
      reads tables, tables.arpSend
    {
      tables.Snapshot()
    }

    /** `__init__` with `build_forward_table`; the routes of the configuration file are given as `staticRoutes`. */
    constructor (interfaces: seq<Interface>, staticRoutes: seq<Route>)
      ensures Valid() && Snapshot() == State(map[], [], [])
      ensures cfg.interfaces == interfaces
      ensures |cfg.routes| == |interfaces| + |staticRoutes|
      ensures forall i :: 0 <= i < |interfaces| ==> cfg.routes[i] == ConnectedRoute(interfaces[i])
      ensures cfg.routes[|interfaces|..] == staticRoutes
    {
      var table := BuildForwardTable(interfaces, staticRoutes);
      cfg := Config(interfaces, table);
      tables := new ArpState();
    }

    /** `handle_ip`. */
    method HandleIp(pkt: IpFrame)
      requires Valid()
      modifies tables, tables.arpSend
      ensures Valid()
      ensures Snapshot() == HandleIpEffect(cfg, old(Snapshot()), pkt)
    {
      var ttl := pkt.ip.ttl - 1;
      var forward := if IsIpInRouter(cfg.interfaces, pkt.ip.dst) then None else SearchCatching(cfg.routes, pkt.ip.dst);
      if forward.Some? {
        var route := forward.value;
        var nextHop := if route.nextHop == ZeroIp then pkt.ip.dst else route.nextHop;
        tables.Deliver(nextHop, IpPacket(EthHeader(route.intf.mac, pkt.eth.dst), pkt.ip.(ttl := ttl), pkt.payload), route.intf);
      }
    }

    /** `handle_packet` for a frame received on `port`. */
    method HandlePacket(port: PortName, pkt: Packet)
      requires Valid()
      modifies tables, tables.arpSend
      ensures Valid()
      ensures Snapshot() == HandlePacketEffect(cfg, old(Snapshot()), port, pkt)
    {
      match pkt
      case ArpPacket(_, arp) => tables.HandleArp(cfg.interfaces, arp, port);
      case IpPacket(_, _, _) => HandleIp(pkt);
      case OtherPacket(_) =>
    }

    /** `resend_arp` at time `now`. */
    method ResendArp(now: int)
      requires Valid()
      modifies tables, tables.arpSend
      ensures Valid()
      ensures Snapshot() == ResendEffect(old(Snapshot()), now)
    {
      while true
        invariant Valid()
        invariant ResendEffect(Snapshot(), now) == ResendEffect(old(Snapshot()), now)
        decreases Weight(tables.arpSend.items, now, false)
      {
        var head := tables.arpSend.Peek();
        if head.None? || now - head.value.1.sendTime < 1 {
          break;
        }
        ghost var before := Snapshot();
        HeadNotInTail(tables.arpSend.items);
        var node := tables.arpSend.Pop();
        var (key, info) := node.value;
        if info.remainTimes > 0 {
          tables.Retry(key, info, now);
        }
        ResendStepShrinks(before, now);
      }
    }
  }
}
