/**
 * Addresses, networks and the packet headers the routers read and write.
 * The switchyard packet objects are modelled as plain records holding only
 * the fields the router code touches; serialisation is not modelled here
 * (the routers receive it as a parameter).
 */
module Packets {

  type byte = x: int | 0 <= x < 256

  /** An IPv4 address as its 32-bit unsigned value. */
  type Ip = x: int | 0 <= x < 0x1_0000_0000

  /** An Ethernet address as its 48-bit unsigned value. */
  type Mac = x: int | 0 <= x < 0x1_0000_0000_0000

  /** The name of a port, as switchyard gives it (`eth0`, ...). */
  type PortName = string

  /** `IPv4Address('0.0.0.0')`: the next-hop sentinel and the unset source. */
  const ZeroIp: Ip := 0
  /** The address a fresh `Ethernet()` header carries in both fields. */
  const ZeroMac: Mac := 0
  /** `ff:ff:ff:ff:ff:ff` */
  const BroadcastMac: Mac := 0xffff_ffff_ffff

  /** ARP operation codes (RFC 826). */
  const ArpRequest: nat := 1
  const ArpReply: nat := 2

  /** ICMP message types and codes (RFC 792). */
  const IcmpEchoReply: nat := 0
  const IcmpDestinationUnreachable: nat := 3
  const IcmpEchoRequest: nat := 8
  const IcmpTimeExceeded: nat := 11
  const CodeNetUnreachable: nat := 0
  const CodeHostUnreachable: nat := 1
  const CodePortUnreachable: nat := 3

  /** The TTL the router puts on every IPv4 packet it originates. */
  const OriginTtl: int := 65

  type PrefixLen = x: int | 0 <= x <= 32

  /** An `IPv4Network`: a base address and a prefix length. */
  datatype Network = Network(address: Ip, prefixLen: PrefixLen)

  function Pow2(n: nat): (r: nat)
    ensures r >= 1
  {
    if n == 0 then 1 else 2 * Pow2(n - 1)
  }

  /** `ip in network`: the two addresses agree on the first prefixLen bits. */
  predicate Contains(net: Network, ip: Ip) {
    ip / Pow2(32 - net.prefixLen) == net.address / Pow2(32 - net.prefixLen)
  }

  /** A router or switch port: name, hardware address, IPv4 address and the network attached to it. */
  datatype Interface = Interface(name: PortName, mac: Mac, ip: Ip, network: Network)

  datatype EthHeader = EthHeader(src: Mac, dst: Mac)

  datatype ArpHeader = ArpHeader(operation: nat, senderHw: Mac, senderIp: Ip, targetHw: Mac, targetIp: Ip)

  /** An ICMP header with the echo fields and the data block (errors carry 0 in the echo fields). */
  datatype Icmp = Icmp(icmpType: nat, code: nat, identifier: nat, sequence: nat, data: seq<byte>)

  /** What follows the IPv4 header: ICMP, or anything else the router passes through untouched. */
  datatype IpPayload = IcmpPayload(icmp: Icmp) | OtherPayload(protocol: nat, bytes: seq<byte>)

  /** The IPv4 header fields the routers read and write. The TTL is kept unbounded (see README). */
  datatype Ipv4Header = Ipv4Header(src: Ip, dst: Ip, ttl: int)

  /** A received or transmitted frame, classified by the header after Ethernet. */
  datatype Packet =
    | ArpPacket(eth: EthHeader, arp: ArpHeader)
    | IpPacket(eth: EthHeader, ip: Ipv4Header, payload: IpPayload)
    | OtherPacket(eth: EthHeader)

  /** One `send_packet(port, packet)` call. */
  datatype Tx = Tx(port: PortName, packet: Packet)

  /** The same packet with its Ethernet destination replaced. */
  function WithEthDst(p: Packet, dst: Mac): (r: Packet)
    ensures r.eth == p.eth.(dst := dst)
  {
    p.(eth := p.eth.(dst := dst))
  }

  /** switchyard's `create_ip_arp_reply(senderhw, targethw, senderip, targetip)`. */
  function ArpReplyPacket(senderHw: Mac, targetHw: Mac, senderIp: Ip, targetIp: Ip): Packet {
    ArpPacket(EthHeader(senderHw, targetHw), ArpHeader(ArpReply, senderHw, senderIp, targetHw, targetIp))
  }

  /** switchyard's `create_ip_arp_request(senderhw, senderip, targetip)`: broadcast, target hardware unknown. */
  function ArpRequestPacket(senderHw: Mac, senderIp: Ip, targetIp: Ip): Packet {
    ArpPacket(EthHeader(senderHw, BroadcastMac), ArpHeader(ArpRequest, senderHw, senderIp, BroadcastMac, targetIp))
  }
}
