/** The decoded header chain that the capture library hands to the packet
    listener. Each layer carries the header fields the decoders read and the
    layer it encapsulates; `Nil` stands for a null payload. */
module Pcap {
  import opened JavaLang

  type Port = p: int | 0 <= p < 0x1_0000

  /** The four TCP control bits the decoders look at (section 3.1 of RFC 9293). */
  datatype TcpFlags = TcpFlags(syn: bool, ack: bool, fin: bool, rst: bool)

  datatype Packet =
    | Ethernet(srcMac: string, dstMac: string, etherType: string, payload: Packet)
    | LinuxSll(payload: Packet)
    | IPv4(srcAddr: string, dstAddr: string, protocol: string, payload: Packet)
    | IPv6(srcAddr: string, dstAddr: string, nextHeader: string, payload: Packet)
      /** The sender and target protocol address fields of RFC 826. */
    | Arp(srcProtocolAddr: string, dstProtocolAddr: string)
    | Tcp(srcPort: Port, dstPort: Port, flags: TcpFlags, payload: Packet)
    | Udp(srcPort: Port, dstPort: Port, payload: Packet)
      /** Bytes the library did not recognise as any of the headers above. */
    | Unknown
    | Nil

  /** The header classes a caller can ask a chain for. */
  datatype Kind = EthernetKind | SllKind | IPv4Kind | IPv6Kind | ArpKind | TcpKind | UdpKind

  function KindOf(p: Packet): Option<Kind> {
    match p
    case Ethernet(_, _, _, _) => Some(EthernetKind)
    case LinuxSll(_) => Some(SllKind)
    case IPv4(_, _, _, _) => Some(IPv4Kind)
    case IPv6(_, _, _, _) => Some(IPv6Kind)
    case Arp(_, _) => Some(ArpKind)
    case Tcp(_, _, _, _) => Some(TcpKind)
    case Udp(_, _, _) => Some(UdpKind)
    case Unknown => None
    case Nil => None
  }

  predicate HasPayload(p: Packet) {
    p.Ethernet? || p.LinuxSll? || p.IPv4? || p.IPv6? || p.Tcp? || p.Udp?
  }

  /** The layers of a chain, outermost first. */
  function Layers(p: Packet): (r: seq<Packet>)
    ensures p.Nil? <==> r == []
    ensures r != [] ==> r[0] == p
  {
    if p.Nil? then []
    else if HasPayload(p) then [p] + Layers(p.payload)
    else [p]
  }

  /** Packet.get(class): the outermost layer of the given class, or null. */
  function Get(p: Packet, k: Kind): (r: Option<Packet>)
    ensures r.Some? ==> r.value in Layers(p) && KindOf(r.value) == Some(k)
    ensures r.None? ==> forall q :: q in Layers(p) ==> KindOf(q) != Some(k)
  {
    if KindOf(p) == Some(k) then Some(p)
    else if HasPayload(p) then Get(p.payload, k)
    else None
  }

  /** Packet.contains(class) */
  predicate Contains(p: Packet, k: Kind) {
    Get(p, k).Some?
  }

  /** Searching a link layer for a header it does not itself provide is the
      same as searching its payload: peeling a leading link header never changes
      which network or transport header a search finds. */
  lemma GetThroughLinkLayer(p: Packet, k: Kind)
    requires p.Ethernet? || p.LinuxSll?
    requires k != EthernetKind && k != SllKind
    ensures Get(p, k) == Get(p.payload, k)
  {
  }
}
