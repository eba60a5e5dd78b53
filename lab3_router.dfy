/**
 * The first router (lab3/myrouter.py): it only keeps an ARP table and
 * answers ARP Requests for its own addresses (RFC 826).
 */
module Lab3Router {
  import opened Packets
  import opened RouterCore

  /** The ARP table and every packet handed to `send_packet`, in order. */
  datatype ArpResponder = ArpResponder(arpTable: map<Ip, Mac>, sent: seq<Tx>)

  /**
   * `handle_packet`: a frame without ARP is ignored; otherwise the sender's
   * binding is upserted and a Request is answered on the arrival port when an
   * interface owns the target address (`interface_by_ipaddr` raises KeyError,
   * which is swallowed, when none does).
   */
  function HandlePacketEffect(interfaces: seq<Interface>, st: ArpResponder, port: PortName, pkt: Packet): ArpResponder {
    match pkt
    case ArpPacket(_, arp) =>
      var learned := st.arpTable[arp.senderIp := arp.senderHw];
      if arp.operation == ArpRequest && IsIpInRouter(interfaces, arp.targetIp) then
        var intf := InterfaceByIp(interfaces, arp.targetIp);
        ArpResponder(learned, st.sent + [Tx(port, ArpReplyPacket(intf.mac, arp.senderHw, intf.ip, arp.senderIp))])
      else
        ArpResponder(learned, st.sent)
    case _ => st
  }

  /** Frames without an ARP header change nothing and send nothing. */
  lemma NonArpIgnored(interfaces: seq<Interface>, st: ArpResponder, port: PortName, pkt: Packet)
    requires !pkt.ArpPacket?
    ensures HandlePacketEffect(interfaces, st, port, pkt) == st
  {
  }

  /**
   * After an ARP packet the table binds the sender's address to its hardware
   * address, every other binding is unchanged, and at most one packet is sent:
   * exactly one, on the arrival port, for a Request whose target an interface
   * owns, from that interface's (MAC, IP) to the requester's (MAC, IP); none
   * for a Reply or for a Request about someone else.
   */
  lemma ArpPacketHandled(interfaces: seq<Interface>, st: ArpResponder, port: PortName, eth: EthHeader, arp: ArpHeader)
    ensures var st' := HandlePacketEffect(interfaces, st, port, ArpPacket(eth, arp));
      && arp.senderIp in st'.arpTable && st'.arpTable[arp.senderIp] == arp.senderHw
      && st'.arpTable.Keys == st.arpTable.Keys + {arp.senderIp}
      && (forall ip :: ip in st.arpTable && ip != arp.senderIp ==> st'.arpTable[ip] == st.arpTable[ip])
      && (arp.operation != ArpRequest || !IsIpInRouter(interfaces, arp.targetIp) ==> st'.sent == st.sent)
      && (arp.operation == ArpRequest && IsIpInRouter(interfaces, arp.targetIp) ==>
            exists intf :: intf in interfaces && intf.ip == arp.targetIp &&
              st'.sent == st.sent + [Tx(port, ArpPacket(EthHeader(intf.mac, arp.senderHw),
                                                       ArpHeader(ArpReply, intf.mac, intf.ip, arp.senderHw, arp.senderIp)))])
  {
    if arp.operation == ArpRequest && IsIpInRouter(interfaces, arp.targetIp) {
      var intf := InterfaceByIp(interfaces, arp.targetIp);
      assert intf in interfaces && intf.ip == arp.targetIp;
    }
  }

  /** The router object: interfaces fixed, ARP table and output updated in place. */
  class Router {
    const interfaces: seq<Interface>
    var arpTable: map<Ip, Mac>
    var sent: seq<Tx>

    function Snapshot(): ArpResponder
      reads this
    {
      ArpResponder(arpTable, sent)
    }

    constructor (interfaces: seq<Interface>)
      ensures this.interfaces == interfaces && Snapshot() == ArpResponder(map[], [])
    {
      this.interfaces := interfaces;
      arpTable := map[];
      sent := [];
    }

    /** `handle_packet` for a frame received on `port`. */
    method HandlePacket(port: PortName, pkt: Packet)
      modifies this
      ensures Snapshot() == HandlePacketEffect(interfaces, old(Snapshot()), port, pkt)
    {
      if !pkt.ArpPacket? {
        return;
      }
      var arp := pkt.arp;
      arpTable := arpTable[arp.senderIp := arp.senderHw];
      if arp.operation == ArpRequest && IsIpInRouter(interfaces, arp.targetIp) {
        var intf := InterfaceByIp(interfaces, arp.targetIp);
        sent := sent + [Tx(port, ArpReplyPacket(intf.mac, arp.senderHw, intf.ip, arp.senderIp))];
      }
    }
  }
}
