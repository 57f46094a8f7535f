/** The decoder of wirecat/core-capture: peels the link layer (Ethernet, or a
    Linux cooked-capture header), classifies the payload as IPv4, IPv6 or ARP,
    and renders the whole raw frame as hex and ASCII dumps. */
module PeelingDecoder {
  import opened JavaLang
  import opened Pcap
  import opened HexDump

  const UnknownText: string := "Unknown"

  datatype PacketModel = PacketModel(
    no: int, time: string, src: string, dst: string, proto: string,
    len: nat, hexDump: string, asciiDump: string)

  /** Source address, destination address and protocol label of a payload. */
  datatype Addressing = Addressing(src: string, dst: string, proto: string)

  /** Step 1: an Ethernet layer anywhere in the chain wins; a Linux cooked
      header is used only when there is none; otherwise the frame itself. */
  function Peel(raw: Packet): Packet {
    match Get(raw, EthernetKind)
    case Some(eth) => eth.payload
    case None =>
      match Get(raw, SllKind)
      case Some(sll) => sll.payload
      case None => raw
  }

  /** Step 2: IPv4 before IPv6 before ARP; "Unknown" everywhere otherwise. */
  function Classify(payload: Packet): Addressing {
    match Get(payload, IPv4Kind)
    case Some(ip4) =>
      Addressing(ip4.srcAddr, ip4.dstAddr,
        if Contains(payload, TcpKind) then "TCP"
        else if Contains(payload, UdpKind) then "UDP"
        else ip4.protocol)
    case None =>
      match Get(payload, IPv6Kind)
      case Some(ip6) => Addressing(ip6.srcAddr, ip6.dstAddr, ip6.nextHeader)
      case None =>
        match Get(payload, ArpKind)
        case Some(arp) => Addressing(arp.srcProtocolAddr, arp.dstProtocolAddr, "ARP")
        case None => Addressing(UnknownText, UnknownText, UnknownText)
  }

  /** The dump loop: one "%02X " token and one character per byte, the hex text trimmed. */
  method Dump(data: seq<Byte>) returns (hex: string, ascii: string)
    ensures hex == Hex(data)
    ensures ascii == Ascii(data)
  {
    var hb, ab := "", "";
    for i := 0 to |data|
      invariant hb == HexSpaced(data[..i])
      invariant ab == Ascii(data[..i])
    {
      var b := data[i];
      hb := hb + HexToken(b) + " ";
      var c := CharCodeOfByte(SignedByte(b));
      SignedTestsArePrintable(b);
      ab := ab + [if 32 <= c <= 126 then c as char else '.'];
      assert data[..i + 1][..i] == data[..i];
    }
    assert data[..|data|] == data;
    TrimmedSpacedIsHex(data);
    hex := Trim(hb);
    ascii := ab;
  }

  /** fromRaw. A link layer without a payload makes the search for the network
      header dereference null, which the model reports as a Failure. */
  method FromRaw(raw: Packet, data: seq<Byte>, index: int, time: string) returns (r: Result<PacketModel>)
    ensures r.Failure? <==> Peel(raw).Nil?
    ensures r.Success? ==>
      var a := Classify(Peel(raw));
      r.value == PacketModel(index, time, a.src, a.dst, a.proto, |data|, Hex(data), Ascii(data))
  {
    var payload := Peel(raw);
    if payload.Nil? {
      return Failure("NullPointerException");
    }
    var a := Classify(payload);
    var hex, ascii := Dump(data);
    r := Success(PacketModel(index, time, a.src, a.dst, a.proto, |data|, hex, ascii));
  }

  /* ---------------- properties of the classification ---------------- */

  /** With no IPv4, IPv6 or ARP header, all three fields stay "Unknown". */
  lemma UnrecognisedStaysUnknown(payload: Packet)
    requires !Contains(payload, IPv4Kind) && !Contains(payload, IPv6Kind) && !Contains(payload, ArpKind)
    ensures Classify(payload) == Addressing(UnknownText, UnknownText, UnknownText)
  {
  }

  /** IPv4 wins over IPv6 and ARP, whatever else the chain holds; over IPv4 the
      label is TCP, else UDP, else the IPv4 protocol name. */
  lemma IPv4Precedence(payload: Packet)
    requires Contains(payload, IPv4Kind)
    ensures var ip4 := Get(payload, IPv4Kind).value;
      && Classify(payload).src == ip4.srcAddr
      && Classify(payload).dst == ip4.dstAddr
      && (Contains(payload, TcpKind) ==> Classify(payload).proto == "TCP")
      && (!Contains(payload, TcpKind) && Contains(payload, UdpKind) ==> Classify(payload).proto == "UDP")
      && (!Contains(payload, TcpKind) && !Contains(payload, UdpKind) ==> Classify(payload).proto == ip4.protocol)
  {
  }

  /** Over IPv6 the label is the next-header name, even when a TCP or UDP header follows. */
  lemma IPv6UsesNextHeader(payload: Packet)
    requires !Contains(payload, IPv4Kind) && Contains(payload, IPv6Kind)
    ensures var ip6 := Get(payload, IPv6Kind).value;
      Classify(payload) == Addressing(ip6.srcAddr, ip6.dstAddr, ip6.nextHeader)
  {
  }

  /** ARP is reported only without an IP header, with the RFC 826 protocol addresses. */
  lemma ArpUsesProtocolAddresses(payload: Packet)
    requires !Contains(payload, IPv4Kind) && !Contains(payload, IPv6Kind) && Contains(payload, ArpKind)
    ensures var arp := Get(payload, ArpKind).value;
      Classify(payload) == Addressing(arp.srcProtocolAddr, arp.dstProtocolAddr, "ARP")
  {
  }

  /** The peel takes off exactly a leading link header: for a frame whose only
      link header is its outermost one, peeling leaves its payload, and the
      classification of the peeled payload equals that of the whole frame. */
  lemma PeelOfLinkFrame(raw: Packet)
    requires raw.Ethernet? || (raw.LinuxSll? && !Contains(raw, EthernetKind))
    ensures Peel(raw) == raw.payload
    ensures Classify(Peel(raw)) == Classify(raw)
  {
    GetThroughLinkLayer(raw, IPv4Kind);
    GetThroughLinkLayer(raw, IPv6Kind);
    GetThroughLinkLayer(raw, ArpKind);
    GetThroughLinkLayer(raw, TcpKind);
    GetThroughLinkLayer(raw, UdpKind);
  }

  /** An Ethernet header below a Linux cooked header is peeled instead of
      the cooked header: the peel starts at the Ethernet payload. */
  lemma EthernetBelowSllWins(raw: Packet)
    requires raw.LinuxSll? && Contains(raw, EthernetKind)
    ensures Get(raw, EthernetKind).Some?
    ensures Peel(raw) == Get(raw, EthernetKind).value.payload
    ensures Peel(raw) != raw.payload
  {
    var eth := Get(raw.payload, EthernetKind).value;
    LayerBelow(raw.payload, eth);
    assert eth.payload < eth;
  }

  /** A layer of a chain is the chain itself or lies strictly inside it. */
  lemma {:induction false} LayerBelow(p: Packet, q: Packet)
    requires q in Layers(p)
    ensures q == p || q < p
  {
    if q != p && HasPayload(p) {
      LayerBelow(p.payload, q);
    }
  }

  /** A frame with no link header is classified whole. */
  lemma NoLinkFrameIsPayload(raw: Packet)
    requires !Contains(raw, EthernetKind) && !Contains(raw, SllKind)
    ensures Peel(raw) == raw
  {
  }
}
