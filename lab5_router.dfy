/**
 * The final static router (lab5/myrouter.py): longest-prefix forwarding,
 * TTL handling, ARP resolution with a queue of waiting packets and a retry
 * timer, and the ICMP messages of RFC 792 (Echo Reply, Time Exceeded,
 * Destination Unreachable codes 0, 1 and 3).
 *
 * Each operation is a pure effect on `RouterCore.State`; the `Router` class
 * performs it in place and is proved to agree with it.
 */
module Lab5Router {
  import opened Wrappers
  import opened Packets
  import opened DictQueues
  import opened ForwardTable
  import opened RouterCore

  /**
   * What is fixed once the router has started: its interfaces, its forwarding
   * table, and the packet serialiser (`to_bytes` of an Ethernet-less packet),
   * which is a collaborator and not modelled.
   */
  datatype Config = Config(interfaces: seq<Interface>, routes: seq<Route>, encode: (Ipv4Header, IpPayload) -> seq<byte>)

  /** The bytes of the offending datagram an ICMP error quotes: its IPv4 header and the first 64 bits of its data. */
  const QuotedBytes: nat := 28

  /** `bytes[:28]`. */
  function Quote(bytes: seq<byte>): (r: seq<byte>)
    ensures r <= bytes
    ensures |r| == QuotedBytes || r == bytes
    ensures |r| <= QuotedBytes
  {
    if |bytes| <= QuotedBytes then bytes else bytes[..QuotedBytes]
  }

  /**
   * `make_icmp_error`: an ICMP error about `orig`, addressed back to its
   * source, with no source address yet (0.0.0.0), TTL 65 and a blank Ethernet
   * header, quoting the start of `orig` without its Ethernet header. A `code`
   * of None and a `code` of 0 both leave the ICMP code at its default, 0.
   */
  function MakeIcmpError(encode: (Ipv4Header, IpPayload) -> seq<byte>, orig: IpFrame, icmpType: nat, code: nat): (e: IpFrame)
    ensures e.ip.dst == orig.ip.src && e.ip.src == ZeroIp && e.ip.ttl == OriginTtl
    ensures e.payload.IcmpPayload? && e.payload.icmp.icmpType == icmpType && e.payload.icmp.code == code
    ensures e.payload.icmp.data <= encode(orig.ip, orig.payload)
    ensures |e.payload.icmp.data| == QuotedBytes || e.payload.icmp.data == encode(orig.ip, orig.payload)
  {
    IpPacket(EthHeader(ZeroMac, ZeroMac), Ipv4Header(ZeroIp, orig.ip.src, OriginTtl),
             IcmpPayload(Icmp(icmpType, code, 0, 0, Quote(encode(orig.ip, orig.payload)))))
  }

  predicate IsEchoRequest(p: IpFrame) {
    p.payload.IcmpPayload? && p.payload.icmp.icmpType == IcmpEchoRequest
  }

  /**
   * The Echo Reply `handle_ip` builds for an Echo Request: addresses swapped,
   * TTL 65, identifier, sequence number and data copied.
   */
  function EchoReply(req: IpFrame): (r: IpFrame)
    requires IsEchoRequest(req)
    ensures r.ip.src == req.ip.dst && r.ip.dst == req.ip.src && r.ip.ttl == OriginTtl
    ensures r.payload.IcmpPayload? && r.payload.icmp.icmpType == IcmpEchoReply && r.payload.icmp.code == 0
    ensures r.payload.icmp.identifier == req.payload.icmp.identifier
    ensures r.payload.icmp.sequence == req.payload.icmp.sequence
    ensures r.payload.icmp.data == req.payload.icmp.data
  {
    var echo := req.payload.icmp;
    IpPacket(EthHeader(ZeroMac, ZeroMac), Ipv4Header(req.ip.dst, req.ip.src, OriginTtl),
             IcmpPayload(Icmp(IcmpEchoReply, 0, echo.identifier, echo.sequence, echo.data)))
  }

  /** What one call of `send_ip` decides, before any recursive call. */
  datatype Step =
    | Forward(nextHop: Ip, out: IpFrame, intf: Interface)  // to the ARP step, rewritten for the egress interface
    | Reissue(error: IpFrame)                                // `send_ip` is called again on an ICMP error
    | Drop                                                   // nothing is sent and nothing is queued

  /**
   * The decision of `send_ip` exactly as written: on a route hit the TTL is
   * decremented, reaching 0 gives Time Exceeded, otherwise the packet is
   * rewritten for the egress interface; without a route, Destination
   * Unreachable (code 0) is aimed at the packet's source.
   */
  function SendStepAsWritten(cfg: Config, pkt: IpFrame): (s: Step)
    ensures s.Reissue? ==> s.error.ip.src == ZeroIp && s.error.ip.dst == pkt.ip.src && s.error.ip.ttl == OriginTtl
    ensures s.Reissue? <==> Search(cfg.routes, pkt.ip.dst).None? || pkt.ip.ttl == 1
    ensures !s.Drop?
  {
    match Search(cfg.routes, pkt.ip.dst)
    case Some(route) =>
      var ttl := pkt.ip.ttl - 1;
      if ttl == 0 then
        Reissue(MakeIcmpError(cfg.encode, pkt.(ip := pkt.ip.(ttl := ttl)), IcmpTimeExceeded, 0))
      else
        var nextHop := if route.nextHop == ZeroIp then pkt.ip.dst else route.nextHop;
        var src := if pkt.ip.src == ZeroIp then route.intf.ip else pkt.ip.src;
        Forward(nextHop, IpPacket(EthHeader(route.intf.mac, pkt.eth.dst), pkt.ip.(ttl := ttl, src := src), pkt.payload), route.intf)
    case None =>
      Reissue(MakeIcmpError(cfg.encode, pkt, IcmpDestinationUnreachable, CodeNetUnreachable))
  }

  /**
   * The measure under which the corrected `send_ip` terminates: an ICMP error
   * the router has just made (source 0.0.0.0, TTL 65) ranks below anything else.
   */
  function Rank(p: IpFrame): nat {
    if p.ip.src == ZeroIp && p.ip.ttl > 1 then 0 else 1
  }

  /**
   * The corrected decision: an unroutable packet that still has no source
   * address (an error the router made about a packet that was itself
   * unroutable) is dropped instead of being answered with a second error
   * aimed at 0.0.0.0. Every other packet is handled as written.
   */
  function SendStep(cfg: Config, pkt: IpFrame): (s: Step)
    ensures s.Reissue? ==> Rank(pkt) == 1 && Rank(s.error) == 0
    ensures s.Drop? <==> Search(cfg.routes, pkt.ip.dst).None? && pkt.ip.src == ZeroIp
  {
    if Search(cfg.routes, pkt.ip.dst).None? && pkt.ip.src == ZeroIp then Drop
    else SendStepAsWritten(cfg, pkt)
  }

  /** `send_ip` (corrected as in `SendStep`): the state after sending `pkt` and every error it causes. */
  function SendEffect(cfg: Config, st: State, pkt: IpFrame): State
    decreases Rank(pkt)
  {
    match SendStep(cfg, pkt)
    case Forward(nextHop, out, intf) => ResolveAndSend(st, nextHop, out, intf)
    case Reissue(error) => SendEffect(cfg, st, error)
    case Drop => st
  }

  /**
   * `handle_ip`: a packet for one of the router's addresses is answered (Echo
   * Reply to an Echo Request, Destination Unreachable code 3 otherwise); any
   * other packet is sent on.
   */
  function HandleIpEffect(cfg: Config, st: State, pkt: IpFrame): State {
    if IsIpInRouter(cfg.interfaces, pkt.ip.dst) then
      if IsEchoRequest(pkt) then SendEffect(cfg, st, EchoReply(pkt))
      else SendEffect(cfg, st, MakeIcmpError(cfg.encode, pkt, IcmpDestinationUnreachable, CodePortUnreachable))
    else SendEffect(cfg, st, pkt)
  }

  /** `handle_packet`: ARP to `handle_arp`, IPv4 to `handle_ip`, anything else ignored. */
  function HandlePacketEffect(cfg: Config, st: State, port: PortName, pkt: Packet): State {
    match pkt
    case ArpPacket(_, arp) => HandleArpEffect(cfg.interfaces, st, arp, port)
    case IpPacket(_, _, _) => HandleIpEffect(cfg, st, pkt)
    case OtherPacket(_) => st
  }

  /** Sends the packets one after the other, in order. */
  function SendAll(cfg: Config, st: State, pkts: seq<IpFrame>): State {
    if pkts == [] then st else SendEffect(cfg, SendAll(cfg, st, pkts[..|pkts| - 1]), pkts[|pkts| - 1])
  }

  /** The give-up branch of `resend_arp`: Destination Unreachable code 1 about each waiting packet, in order. */
  function HostUnreachables(encode: (Ipv4Header, IpPayload) -> seq<byte>, packs: seq<IpFrame>): (errs: seq<IpFrame>)
    ensures |errs| == |packs|
    ensures forall i :: 0 <= i < |packs| ==> errs[i] == MakeIcmpError(encode, packs[i], IcmpDestinationUnreachable, CodeHostUnreachable)
  {
    seq(|packs|, i requires 0 <= i < |packs| => MakeIcmpError(encode, packs[i], IcmpDestinationUnreachable, CodeHostUnreachable))
  }

  /**
   * One iteration of the `resend_arp` loop on a due oldest entry: pop it; with
   * requests left, send one and push it back stamped `now`; otherwise send
   * Host Unreachable about each of its packets and forget it.
   */
  function ResendStep(cfg: Config, st: State, now: int): State
    requires st.queue != []
  {
    var (key, info) := st.queue[0];
    var rest := st.(queue := st.queue[1..]);
    if info.remainTimes > 0 then Requeue(rest, key, info, now)
    else SendAll(cfg, rest, HostUnreachables(cfg.encode, info.waitPacks))
  }

  /** `resend_arp`: iterate while the oldest entry is due (its last request at least a second old). */
  function ResendEffect(cfg: Config, st: State, now: int): State
    decreases Weight(st.queue, now, true), Weight(st.queue, now, false)
  {
    if st.queue != [] && Due(st.queue[0].1, now, false) then
      ResendStepShrinks(cfg, st, now);
      ResendEffect(cfg, ResendStep(cfg, st, now), now)
    else st
  }

  // ---------------------------------------------------------------------------
  // Queue discipline: sending only ever appends fresh entries or packets.

  lemma {:induction false} SendEffectExtends(cfg: Config, st: State, pkt: IpFrame)
    ensures Extends(st.queue, SendEffect(cfg, st, pkt).queue)
    decreases Rank(pkt)
  {
    match SendStep(cfg, pkt)
    case Forward(nextHop, out, intf) => ResolveAndSendExtends(st, nextHop, out, intf);
    case Reissue(error) => SendEffectExtends(cfg, st, error);
    case Drop =>
  }

  lemma {:induction false} SendAllExtends(cfg: Config, st: State, pkts: seq<IpFrame>)
    ensures Extends(st.queue, SendAll(cfg, st, pkts).queue)
  {
    if pkts != [] {
      var mid := SendAll(cfg, st, pkts[..|pkts| - 1]);
      SendAllExtends(cfg, st, pkts[..|pkts| - 1]);
      SendEffectExtends(cfg, mid, pkts[|pkts| - 1]);
      ExtendsTransitive(st.queue, mid.queue, SendAll(cfg, st, pkts).queue);
    }
  }

  /** Each iteration of `resend_arp` retires a due exhausted entry, or else moves a due entry out of the due set. */
  lemma ResendStepShrinks(cfg: Config, st: State, now: int)
    requires st.queue != [] && Due(st.queue[0].1, now, false)
    ensures var q' := ResendStep(cfg, st, now).queue;
      || Weight(q', now, true) < Weight(st.queue, now, true)
      || (Weight(q', now, true) == Weight(st.queue, now, true) && Weight(q', now, false) < Weight(st.queue, now, false))
  {
    var (key, info) := st.queue[0];
    var rest := st.(queue := st.queue[1..]);
    if info.remainTimes > 0 {
      RequeueWeights(st, now);
    } else {
      SendAllExtends(cfg, rest, HostUnreachables(cfg.encode, info.waitPacks));
      ExtendsKeepsExhausted(rest.queue, ResendStep(cfg, st, now).queue, now);
    }
  }

  // ---------------------------------------------------------------------------
  // Properties of the send path.

  /**
   * A routed packet whose TTL does not run out goes to the ARP step on the
   * longest-prefix-match entry's interface, with TTL one less, the egress MAC as
   * Ethernet source, an unset source address replaced by the egress address,
   * and the destination itself as next hop when the entry is directly connected.
   */
  lemma RouteHitForwards(cfg: Config, pkt: IpFrame, i: int)
    requires IsLongestMatch(cfg.routes, pkt.ip.dst, i) && pkt.ip.ttl != 1
    ensures var r := cfg.routes[i];
      SendStep(cfg, pkt) == Forward(
        if r.nextHop == ZeroIp then pkt.ip.dst else r.nextHop,
        IpPacket(EthHeader(r.intf.mac, pkt.eth.dst),
                 Ipv4Header(if pkt.ip.src == ZeroIp then r.intf.ip else pkt.ip.src, pkt.ip.dst, pkt.ip.ttl - 1),
                 pkt.payload),
        r.intf)
  {
    LongestMatchIsSearched(cfg.routes, pkt.ip.dst, i);
  }

  /**
   * A routed packet arriving with TTL 1 is not forwarded: the router sends
   * Time Exceeded (code 0) back to its source, quoting it with TTL 0.
   */
  lemma TtlExpiryReportsTimeExceeded(cfg: Config, st: State, pkt: IpFrame)
    requires Search(cfg.routes, pkt.ip.dst).Some? && pkt.ip.ttl == 1
    ensures SendEffect(cfg, st, pkt) ==
      SendEffect(cfg, st, MakeIcmpError(cfg.encode, pkt.(ip := pkt.ip.(ttl := 0)), IcmpTimeExceeded, 0))
  {
  }

  /**
   * A packet with no route is answered with Destination Unreachable code 0
   * to its source, unless it has no source address yet, in which case it is dropped.
   */
  lemma NoRouteReportsNetUnreachable(cfg: Config, st: State, pkt: IpFrame)
    requires forall j :: 0 <= j < |cfg.routes| ==> !Contains(cfg.routes[j].net, pkt.ip.dst)
    ensures pkt.ip.src != ZeroIp ==>
      SendEffect(cfg, st, pkt) == SendEffect(cfg, st, MakeIcmpError(cfg.encode, pkt, IcmpDestinationUnreachable, CodeNetUnreachable))
    ensures pkt.ip.src == ZeroIp ==> SendEffect(cfg, st, pkt) == st
  {
    SearchIsLongestMatch(cfg.routes, pkt.ip.dst);
  }

  /**
   * Whatever is sent, the ARP table does not change, earlier queue entries keep
   * their keys, positions and timers, and the transmission log only grows.
   */
  lemma {:induction false} SendKeepsEarlierState(cfg: Config, st: State, pkt: IpFrame)
    ensures var st' := SendEffect(cfg, st, pkt);
      && st'.arpTable == st.arpTable && Extends(st.queue, st'.queue)
      && |st.sent| <= |st'.sent| && st'.sent[..|st.sent|] == st.sent
    decreases Rank(pkt)
  {
    SendEffectExtends(cfg, st, pkt);
    match SendStep(cfg, pkt)
    case Forward(nextHop, out, intf) =>
    case Reissue(error) => SendKeepsEarlierState(cfg, st, error);
    case Drop =>
  }

  /**
   * An ICMP error made by `send_ip` is never itself answered with another
   * error: under the correction every chain of `send_ip` calls has at most
   * two links.
   */
  lemma ErrorNeverReissued(cfg: Config, pkt: IpFrame)
    requires SendStep(cfg, pkt).Reissue?
    ensures !SendStep(cfg, SendStep(cfg, pkt).error).Reissue?
  {
  }

  /** The `send_ip` chain as written settles (forwards, queues or drops) within `fuel` calls. */
  predicate SettlesAsWritten(cfg: Config, pkt: IpFrame, fuel: nat)
    decreases fuel
  {
    fuel > 0 &&
    match SendStepAsWritten(cfg, pkt)
    case Reissue(error) => SettlesAsWritten(cfg, error, fuel - 1)
    case _ => true
  }

  /** A router with one interface 10.0.0.1/24 on `eth0` and only its connected route. */
  function LoneInterface(): Config {
    var eth0 := Interface("eth0", 0x0200_0000_0001, 0x0A00_0001, Network(0x0A00_0000, 24));
    Config([eth0], [ConnectedRoute(eth0)], (h: Ipv4Header, p: IpPayload) => [])
  }

  lemma LoneInterfaceRoutes(ip: Ip)
    ensures Search(LoneInterface().routes, ip).Some? <==> ip / 256 == 0x0A00_00
  {
    var routes := LoneInterface().routes;
    assert Pow2(32 - 24) == 256;
    assert routes[1..] == [];
    assert Matching(routes, ip) == if Contains(routes[0].net, ip) then [routes[0]] else [];
  }

  /** As written, an unroutable packet with no source address starts an endless chain of errors aimed at 0.0.0.0. */
  lemma {:induction false} UnsourcedChainNeverSettles(pkt: IpFrame, fuel: nat)
    requires pkt.ip.src == ZeroIp && pkt.ip.dst / 256 != 0x0A00_00
    ensures !SettlesAsWritten(LoneInterface(), pkt, fuel)
    decreases fuel
  {
    LoneInterfaceRoutes(pkt.ip.dst);
    LoneInterfaceRoutes(ZeroIp);
    if fuel > 0 {
      var error := SendStepAsWritten(LoneInterface(), pkt).error;
      UnsourcedChainNeverSettles(error, fuel - 1);
    }
  }

  /**
   * As written, a ping from 8.8.8.8 to 9.9.9.9 through that router never
   * finishes `send_ip`: the Net Unreachable error for 8.8.8.8 is unroutable
   * too, and so is every error after it, each aimed at 0.0.0.0.
   */
  lemma UnroutablePingNeverSettlesAsWritten(fuel: nat)
    ensures var ping: IpFrame := IpPacket(EthHeader(0, 0), Ipv4Header(0x0808_0808, 0x0909_0909, 64), IcmpPayload(Icmp(IcmpEchoRequest, 0, 1, 1, [])));
      !SettlesAsWritten(LoneInterface(), ping, fuel)
  {
    var ping: IpFrame := IpPacket(EthHeader(0, 0), Ipv4Header(0x0808_0808, 0x0909_0909, 64), IcmpPayload(Icmp(IcmpEchoRequest, 0, 1, 1, [])));
    LoneInterfaceRoutes(0x0909_0909);
    LoneInterfaceRoutes(0x0808_0808);
    if fuel > 0 {
      UnsourcedChainNeverSettles(SendStepAsWritten(LoneInterface(), ping).error, fuel - 1);
    }
  }

  /** The same ping under the correction: the unroutable error is dropped and nothing changes. */
  lemma UnroutablePingSettles(st: State)
    ensures var ping: IpFrame := IpPacket(EthHeader(0, 0), Ipv4Header(0x0808_0808, 0x0909_0909, 64), IcmpPayload(Icmp(IcmpEchoRequest, 0, 1, 1, [])));
      SendEffect(LoneInterface(), st, ping) == st
  {
    LoneInterfaceRoutes(0x0909_0909);
    LoneInterfaceRoutes(0x0808_0808);
  }

  // ---------------------------------------------------------------------------
  // Properties of `handle_ip` and `handle_packet`.

  /**
   * `handle_ip`: an Echo Request to a router address is answered with its Echo
   * Reply; any other packet to a router address with Destination Unreachable
   * code 3; a packet for anyone else is sent on unchanged.
   */
  lemma HandleIpAnswers(cfg: Config, st: State, pkt: IpFrame)
    ensures IsIpInRouter(cfg.interfaces, pkt.ip.dst) && IsEchoRequest(pkt) ==>
      HandleIpEffect(cfg, st, pkt) == SendEffect(cfg, st, EchoReply(pkt))
    ensures IsIpInRouter(cfg.interfaces, pkt.ip.dst) && !IsEchoRequest(pkt) ==>
      HandleIpEffect(cfg, st, pkt) == SendEffect(cfg, st, MakeIcmpError(cfg.encode, pkt, IcmpDestinationUnreachable, CodePortUnreachable))
    ensures !IsIpInRouter(cfg.interfaces, pkt.ip.dst) ==> HandleIpEffect(cfg, st, pkt) == SendEffect(cfg, st, pkt)
  {
  }

  /** A frame that is neither ARP nor IPv4 changes nothing and sends nothing. */
  lemma OtherFramesIgnored(cfg: Config, st: State, port: PortName, eth: EthHeader)
    ensures HandlePacketEffect(cfg, st, port, OtherPacket(eth)) == st
  {
  }

  // ---------------------------------------------------------------------------
  // Properties of `resend_arp`.

  /** When `resend_arp` returns, the oldest entry (if any) is not due. */
  lemma {:induction false} ResendLeavesNoDueHead(cfg: Config, st: State, now: int)
    ensures var st' := ResendEffect(cfg, st, now);
      st'.queue == [] || !Due(st'.queue[0].1, now, false)
    decreases Weight(st.queue, now, true), Weight(st.queue, now, false)
  {
    if st.queue != [] && Due(st.queue[0].1, now, false) {
      ResendStepShrinks(cfg, st, now);
      ResendLeavesNoDueHead(cfg, ResendStep(cfg, st, now), now);
    }
  }

  /**
   * A due entry with requests left gets one ARP request, broadcast from its
   * interface for its next hop, and moves to the newest end with the timer
   * restarted at `now` and one request fewer; its packets stay queued.
   */
  lemma RetrySendsRequest(cfg: Config, st: State, now: int)
    requires st.queue != [] && st.queue[0].1.remainTimes > 0
    ensures var (key, info) := st.queue[0];
      var st' := ResendStep(cfg, st, now);
      && st'.arpTable == st.arpTable
      && st'.queue == st.queue[1..] + [(key, ArpSendInfo(now, info.remainTimes - 1, info.waitPacks, info.intf))]
      && st'.sent == st.sent + [Tx(info.intf.name, ArpPacket(EthHeader(info.intf.mac, BroadcastMac),
                                   ArpHeader(ArpRequest, info.intf.mac, info.intf.ip, BroadcastMac, key)))]
  {
  }

  /**
   * A due entry with no requests left leaves the queue, and each of its
   * packets, in order, is answered with Destination Unreachable code 1.
   */
  lemma GiveUpReportsHostUnreachable(cfg: Config, st: State, now: int)
    requires st.queue != [] && st.queue[0].1.remainTimes <= 0
    ensures var errs := HostUnreachables(cfg.encode, st.queue[0].1.waitPacks);
      && ResendStep(cfg, st, now) == SendAll(cfg, st.(queue := st.queue[1..]), errs)
      && |errs| == |st.queue[0].1.waitPacks|
      && forall i :: 0 <= i < |errs| ==>
           errs[i].ip.dst == st.queue[0].1.waitPacks[i].ip.src && errs[i].payload.IcmpPayload? &&
           errs[i].payload.icmp.icmpType == IcmpDestinationUnreachable && errs[i].payload.icmp.code == CodeHostUnreachable
  {
  }

  /**
   * An entry alone in the queue with budget left: a `resend_arp` call at
   * least a second after its last request sends exactly one request and uses
   * up one unit of budget. `RetrySchedule` and `RetryGivesUp` chain these
   * calls.
   */
  lemma LoneEntryRetry(cfg: Config, st: State, key: Ip, info: ArpSendInfo, now: int)
    requires st.queue == [(key, info)] && info.remainTimes > 0 && Due(info, now, false)
    ensures ResendEffect(cfg, st, now) ==
      State(st.arpTable, [(key, info.(sendTime := now, remainTimes := info.remainTimes - 1))],
            st.sent + [Tx(info.intf.name, ArpRequestPacket(info.intf.mac, info.intf.ip, key))])
  {
    var st1 := ResendStep(cfg, st, now);
    assert st1.queue == [(key, info.(sendTime := now, remainTimes := info.remainTimes - 1))];
    assert ResendEffect(cfg, st1, now) == st1;
  }

  /** `resend_arp` called at each of the times `ts`, in order, starting from `st`. */
  function RunResends(cfg: Config, st: State, ts: seq<int>): State {
    if ts == [] then st else ResendEffect(cfg, RunResends(cfg, st, ts[..|ts| - 1]), ts[|ts| - 1])
  }

  /** Each of the times `ts` is at least a second after the one before it, the first at least a second after `start`. */
  predicate Spaced(start: int, ts: seq<int>) {
    forall k :: 0 <= k < |ts| ==> Gap(start, ts, k) >= 1
  }

  /** The time between call `k` and the one before it (or `start`). */
  function Gap(start: int, ts: seq<int>, k: nat): int
    requires k < |ts|
  {
    ts[k] - (if k == 0 then start else ts[k - 1])
  }

  /** The last of the times `ts`, or `start` when there are none. */
  function LastTime(start: int, ts: seq<int>): int {
    if ts == [] then start else ts[|ts| - 1]
  }

  /** `n` ARP requests for `key` from `intf`. */
  function Requests(intf: Interface, key: Ip, n: nat): seq<Tx> {
    seq(n, _ => Tx(intf.name, ArpRequestPacket(intf.mac, intf.ip, key)))
  }

  /** Every prefix of well spaced times is well spaced. */
  lemma SpacedPrefix(start: int, ts: seq<int>, n: nat)
    requires Spaced(start, ts) && n <= |ts|
    ensures Spaced(start, ts[..n])
  {
    forall k | 0 <= k < n
      ensures Gap(start, ts[..n], k) >= 1
    {
      assert Gap(start, ts, k) >= 1;
    }
  }

  /** The last of well spaced times is at least a second after the ones before it. */
  lemma SpacedLast(start: int, ts: seq<int>)
    requires Spaced(start, ts) && ts != []
    ensures ts[|ts| - 1] - LastTime(start, ts[..|ts| - 1]) >= 1
  {
    var n := |ts| - 1;
    assert Gap(start, ts, n) >= 1;
    assert n > 0 ==> ts[..n][n - 1] == ts[n - 1];
  }

  lemma RunResendsLast(cfg: Config, st: State, ts: seq<int>)
    requires ts != []
    ensures RunResends(cfg, st, ts) == ResendEffect(cfg, RunResends(cfg, st, ts[..|ts| - 1]), ts[|ts| - 1])
  {
  }

  /** An exhausted entry alone in the queue and due: the call drops it and sends Host Unreachable about its packets. */
  lemma LoneEntryGivesUp(cfg: Config, st: State, key: Ip, info: ArpSendInfo, now: int)
    requires st.queue == [(key, info)] && info.remainTimes <= 0 && Due(info, now, false)
    ensures ResendEffect(cfg, st, now) ==
      ResendEffect(cfg, SendAll(cfg, State(st.arpTable, [], st.sent), HostUnreachables(cfg.encode, info.waitPacks)), now)
  {
    assert st.queue[1..] == [];
    assert st.(queue := st.queue[1..]) == State(st.arpTable, [], st.sent);
  }

  /**
   * An entry alone in the queue, called on at least a second apart no more
   * often than it has budget: every call sends one request, so after `|ts|`
   * calls exactly `|ts|` requests have gone out, the entry is stamped with the
   * last call's time, and its budget is down by `|ts|`.
   */
  lemma {:induction false} RetrySchedule(cfg: Config, st: State, key: Ip, info: ArpSendInfo, ts: seq<int>)
    requires st.queue == [(key, info)] && |ts| <= info.remainTimes && Spaced(info.sendTime, ts)
    ensures RunResends(cfg, st, ts) ==
      State(st.arpTable, [(key, info.(sendTime := LastTime(info.sendTime, ts), remainTimes := info.remainTimes - |ts|))],
            st.sent + Requests(info.intf, key, |ts|))
  {
    if ts == [] {
      assert st.sent + Requests(info.intf, key, 0) == st.sent;
    } else {
      var n := |ts| - 1;
      var init := ts[..n];
      SpacedPrefix(info.sendTime, ts, n);
      RetrySchedule(cfg, st, key, info, init);
      var prev := RunResends(cfg, st, init);
      var info' := info.(sendTime := LastTime(info.sendTime, init), remainTimes := info.remainTimes - n);
      SpacedLast(info.sendTime, ts);
      assert Due(info', ts[n], false);
      LoneEntryRetry(cfg, prev, key, info', ts[n]);
      RunResendsLast(cfg, st, ts);
      assert Requests(info.intf, key, n) + [Tx(info.intf.name, ArpRequestPacket(info.intf.mac, info.intf.ip, key))]
          == Requests(info.intf, key, n + 1);
    }
  }

  /**
   * The call after the budget is spent gives up: with one call more than the
   * budget, the last call finds the entry exhausted, drops it, and sends Host
   * Unreachable about each packet that waited on it (then goes on with
   * whatever that sending queued, as `resend_arp` does). No request beyond
   * the budget goes out.
   */
  lemma RetryGivesUp(cfg: Config, st: State, key: Ip, info: ArpSendInfo, ts: seq<int>)
    requires st.queue == [(key, info)] && info.remainTimes >= 0 && |ts| == info.remainTimes + 1
    requires Spaced(info.sendTime, ts)
    ensures RunResends(cfg, st, ts) ==
      ResendEffect(cfg,
                   SendAll(cfg, State(st.arpTable, [], st.sent + Requests(info.intf, key, info.remainTimes)),
                           HostUnreachables(cfg.encode, info.waitPacks)),
                   ts[|ts| - 1])
  {
    var n := |ts| - 1;
    var init := ts[..n];
    SpacedPrefix(info.sendTime, ts, n);
    RetrySchedule(cfg, st, key, info, init);
    var prev := RunResends(cfg, st, init);
    var info' := info.(sendTime := LastTime(info.sendTime, init), remainTimes := 0);
    assert prev == State(st.arpTable, [(key, info')], st.sent + Requests(info.intf, key, info.remainTimes));
    SpacedLast(info.sendTime, ts);
    LoneEntryGivesUp(cfg, prev, key, info', ts[n]);
    RunResendsLast(cfg, st, ts);
  }

  /**
   * A fresh entry (`send_ip` queues it with budget five and timestamp 0)
   * that nothing answers: on calls at least a second apart, the first five
   * each send one request and the sixth sends Host Unreachable instead.
   */
  lemma FreshEntryRetriesFiveTimes(cfg: Config, st: State, key: Ip, packs: seq<IpFrame>, intf: Interface, ts: seq<int>)
    requires st.queue == [(key, ArpSendInfo(0, RetryBudget, packs, intf))] && |ts| == 6 && Spaced(0, ts)
    ensures RunResends(cfg, st, ts[..5]).queue == [(key, ArpSendInfo(ts[4], 0, packs, intf))]
    ensures RunResends(cfg, st, ts[..5]).sent == st.sent + Requests(intf, key, 5)
    ensures RunResends(cfg, st, ts) ==
      ResendEffect(cfg, SendAll(cfg, State(st.arpTable, [], st.sent + Requests(intf, key, 5)), HostUnreachables(cfg.encode, packs)), ts[5])
  {
    var info := ArpSendInfo(0, RetryBudget, packs, intf);
    var first := ts[..5];
    SpacedPrefix(0, ts, 5);
    RetrySchedule(cfg, st, key, info, first);
    assert LastTime(0, first) == ts[4];
    assert info.(sendTime := ts[4], remainTimes := 0) == ArpSendInfo(ts[4], 0, packs, intf);
    RetryGivesUp(cfg, st, key, info, ts);
  }

  /** The router: its configuration and the ARP state it updates in place. */
  class Router {
    const cfg: Config
    const tables: ArpState

    ghost predicate Valid()
      reads tables, tables.arpSend
    {
      tables.Valid()
    }

    function Snapshot(): State
      reads tables, tables.arpSend
    {
      tables.Snapshot()
    }

    /** `__init__` with `build_forward_table`; the routes of the configuration file are given as `staticRoutes`. */
    constructor (interfaces: seq<Interface>, staticRoutes: seq<Route>, encode: (Ipv4Header, IpPayload) -> seq<byte>)
      ensures Valid() && Snapshot() == State(map[], [], [])
      ensures cfg.interfaces == interfaces
      ensures |cfg.routes| == |interfaces| + |staticRoutes|
      ensures forall i :: 0 <= i < |interfaces| ==> cfg.routes[i] == ConnectedRoute(interfaces[i])
      ensures cfg.routes[|interfaces|..] == staticRoutes
    {
      var table := BuildForwardTable(interfaces, staticRoutes);
      cfg := Config(interfaces, table, encode);
      tables := new ArpState();
    }

    /** `send_ip`. */
    method SendIp(pkt: IpFrame)
      requires Valid()
      modifies tables, tables.arpSend
      ensures Valid()
      ensures Snapshot() == SendEffect(cfg, old(Snapshot()), pkt)
      decreases Rank(pkt)
    {
      var forward := Search(cfg.routes, pkt.ip.dst);
      if forward.Some? {
        var route := forward.value;
        var ttl := pkt.ip.ttl - 1;
        if ttl == 0 {
          SendIp(MakeIcmpError(cfg.encode, pkt.(ip := pkt.ip.(ttl := ttl)), IcmpTimeExceeded, 0));
        } else {
          var nextHop := if route.nextHop == ZeroIp then pkt.ip.dst else route.nextHop;
          var src := if pkt.ip.src == ZeroIp then route.intf.ip else pkt.ip.src;
          tables.Deliver(nextHop, IpPacket(EthHeader(route.intf.mac, pkt.eth.dst), pkt.ip.(ttl := ttl, src := src), pkt.payload), route.intf);
        }
      } else if pkt.ip.src != ZeroIp {
        SendIp(MakeIcmpError(cfg.encode, pkt, IcmpDestinationUnreachable, CodeNetUnreachable));
      }
    }

    /** `handle_ip`. */
    method HandleIp(pkt: IpFrame)
      requires Valid()
      modifies tables, tables.arpSend
      ensures Valid()
      ensures Snapshot() == HandleIpEffect(cfg, old(Snapshot()), pkt)
    {
      if IsIpInRouter(cfg.interfaces, pkt.ip.dst) {
        if IsEchoRequest(pkt) {
          SendIp(EchoReply(pkt));
        } else {
          SendIp(MakeIcmpError(cfg.encode, pkt, IcmpDestinationUnreachable, CodePortUnreachable));
        }
      } else {
        SendIp(pkt);
      }
    }

    /** `handle_packet` for a frame received on `port`. */
    method HandlePacket(port: PortName, pkt: Packet)
      requires Valid()
      modifies tables, tables.arpSend
      ensures Valid()
      ensures Snapshot() == HandlePacketEffect(cfg, old(Snapshot()), port, pkt)
    {
      match pkt
      case ArpPacket(_, arp) => tables.HandleArp(cfg.interfaces, arp, port);
      case IpPacket(_, _, _) => HandleIp(pkt);
      case OtherPacket(_) =>
    }

    /** `resend_arp` at time `now`. */
    method ResendArp(now: int)
      requires Valid()
      modifies tables, tables.arpSend
      ensures Valid()
      ensures Snapshot() == ResendEffect(cfg, old(Snapshot()), now)
    {
      while true
        invariant Valid()
        invariant ResendEffect(cfg, Snapshot(), now) == ResendEffect(cfg, old(Snapshot()), now)
        decreases Weight(tables.arpSend.items, now, true), Weight(tables.arpSend.items, now, false)
      {
        var head := tables.arpSend.Peek();
        if head.None? || now - head.value.1.sendTime < 1 {
          break;
        }
        ghost var before := Snapshot();
        ResendOldest(now);
        ResendStepShrinks(cfg, before, now);
      }
    }

    /** One iteration of the `resend_arp` loop. */
    method ResendOldest(now: int)
      requires Valid() && tables.arpSend.items != []
      modifies tables, tables.arpSend
      ensures Valid()
      ensures Snapshot() == ResendStep(cfg, old(Snapshot()), now)
    {
      HeadNotInTail(tables.arpSend.items);
      var node := tables.arpSend.Pop();
      var (key, info) := node.value;
      if info.remainTimes > 0 {
        tables.Retry(key, info, now);
      } else {
        GiveUp(info.waitPacks);
      }
    }

    /** The give-up loop of `resend_arp`: Host Unreachable about each waiting packet. */
    method GiveUp(packs: seq<IpFrame>)
      requires Valid()
      modifies tables, tables.arpSend
      ensures Valid()
      ensures Snapshot() == SendAll(cfg, old(Snapshot()), HostUnreachables(cfg.encode, packs))
    {
      ghost var errs := HostUnreachables(cfg.encode, packs);
      for i := 0 to |packs|
        invariant Valid()
        invariant Snapshot() == SendAll(cfg, old(Snapshot()), errs[..i])
      {
        SendIp(MakeIcmpError(cfg.encode, packs[i], IcmpDestinationUnreachable, CodeHostUnreachable));
        assert errs[..i + 1][..i] == errs[..i];
      }
      assert errs[..|packs|] == errs;
    }
  }
}
