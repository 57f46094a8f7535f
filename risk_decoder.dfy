/** The decoder of core-capture: Ethernet addresses, IPv4 addresses, TCP/UDP
    ports and labels, a risk score for a TCP SYN without ACK, the two dumps of
    the raw frame, and the conversion into the record the tables display. */
module RiskDecoder {
  import opened JavaLang
  import opened Pcap
  import opened HexDump
  import Peeling = PeelingDecoder

  const NoMac: string := "—"
  const NoAddress: string := "—"
  const NoProtocol: string := "N/A"
  const NoPort: int := -1

  /** Risk in tenths: 0.0, 0.1 or 0.7. */
  const RiskNone: nat := 0
  const RiskLow: nat := 1
  const RiskSynScan: nat := 7

  datatype PacketModel = PacketModel(
    no: int, time: string, src: string, dst: string, proto: string,
    srcPort: int, dstPort: int, len: nat, hexDump: string, asciiDump: string,
    risk: nat, srcMac: string, dstMac: string, raw: Packet)

  /** Everything fromRaw reads from the header chain. */
  datatype Header = Header(
    srcMac: string, dstMac: string, src: string, dst: string, proto: string,
    srcPort: int, dstPort: int, risk: nat)

  /** The detail record handed to the inspector. */
  datatype PacketDetail = PacketDetail(
    srcMac: string, dstMac: string, etherType: string,
    srcIp: string, dstIp: string, protocol: string, transport: string,
    transportInfo: map<string, string>)

  /** The record shown in the tables; deltaTime is the only field set later. */
  datatype CapturedPacket = CapturedPacket(
    number: int, timestamp: string, timestampMs: int, deltaTime: int,
    srcMac: string, dstMac: string, srcIp: string, dstIp: string, protocol: string,
    srcPort: int, dstPort: int, length: nat, hexDump: string, asciiDump: string,
    risk: nat, detail: PacketDetail)

  /* ---------------- fromRaw ---------------- */

  /** With an Ethernet layer its payload is classified, otherwise the whole frame. */
  function NetworkPayload(raw: Packet): Packet {
    match Get(raw, EthernetKind)
    case Some(eth) => eth.payload
    case None => raw
  }

  /** SYN without ACK scores 0.7, any other TCP segment 0.1. */
  function TcpRisk(f: TcpFlags): (r: nat)
    ensures r == RiskSynScan <==> f.syn && !f.ack
    ensures r == RiskSynScan || r == RiskLow
  {
    if f.syn && !f.ack then RiskSynScan else RiskLow
  }

  /** The source and destination MAC of the Ethernet layer, "—" without one. */
  function Macs(raw: Packet): (string, string) {
    match Get(raw, EthernetKind)
    case Some(eth) => (eth.srcMac, eth.dstMac)
    case None => (NoMac, NoMac)
  }

  /** The IPv4 header fromRaw reads: none when the payload is null or carries none. */
  function IPv4Of(raw: Packet): (r: Option<Packet>)
    ensures r.Some? ==> r.value.IPv4?
  {
    var payload := NetworkPayload(raw);
    if payload.Nil? then None else Get(payload, IPv4Kind)
  }

  /** The IPv4 branch of fromRaw: TCP before UDP, otherwise the protocol-number name. */
  function IPv4Header(macs: (string, string), ip4: Packet): (h: Header)
    requires ip4.IPv4?
    ensures h.srcMac == macs.0 && h.dstMac == macs.1 && h.src == ip4.srcAddr && h.dst == ip4.dstAddr
    ensures h.srcPort == NoPort <==> h.dstPort == NoPort
    ensures h.risk != RiskNone ==> h.proto == "TCP" && h.srcPort != NoPort
  {
    var l4 := ip4.payload;
    if !l4.Nil? && Contains(l4, TcpKind) then
      var tcp := Get(l4, TcpKind).value;
      Header(macs.0, macs.1, ip4.srcAddr, ip4.dstAddr, "TCP", tcp.srcPort, tcp.dstPort, TcpRisk(tcp.flags))
    else if !l4.Nil? && Contains(l4, UdpKind) then
      var udp := Get(l4, UdpKind).value;
      Header(macs.0, macs.1, ip4.srcAddr, ip4.dstAddr, "UDP", udp.srcPort, udp.dstPort, RiskNone)
    else
      Header(macs.0, macs.1, ip4.srcAddr, ip4.dstAddr, ip4.protocol, NoPort, NoPort, RiskNone)
  }

  /** The header part of fromRaw; searching a null payload throws. */
  function Classify(raw: Packet): (r: Result<Header>)
    ensures r.Failure? <==> NetworkPayload(raw).Nil?
    ensures r.Success? ==> (r.value.srcPort == NoPort <==> r.value.dstPort == NoPort)
    ensures r.Success? && r.value.risk != RiskNone ==> r.value.proto == "TCP" && r.value.srcPort != NoPort
  {
    var macs := Macs(raw);
    if NetworkPayload(raw).Nil? then Failure("NullPointerException")
    else
      match IPv4Of(raw)
      case None => Success(Header(macs.0, macs.1, NoAddress, NoAddress, NoProtocol, NoPort, NoPort, RiskNone))
      case Some(ip4) => Success(IPv4Header(macs, ip4))
  }

  /** The record fromRaw builds from a classified header and the frame bytes. */
  function Model(h: Header, raw: Packet, data: seq<Byte>, idx: int, time: string): PacketModel {
    PacketModel(idx, time, h.src, h.dst, h.proto, h.srcPort, h.dstPort, |data|,
                Hex(data), Ascii(data), h.risk, h.srcMac, h.dstMac, raw)
  }

  /** fromRaw as a value: the record, or the exception it throws. */
  function Decode(raw: Packet, data: seq<Byte>, idx: int, time: string): (r: Result<PacketModel>)
    ensures r.Failure? <==> NetworkPayload(raw).Nil?
    ensures r.Success? ==> r.value.no == idx && r.value.len == |data| && r.value.raw == raw
    ensures r.Success? ==> r.value.hexDump == Hex(data) && r.value.asciiDump == Ascii(data)
  {
    match Classify(raw)
    case Failure(e) => Failure(e)
    case Success(h) => Success(Model(h, raw, data, idx, time))
  }

  /** The dump loop; the ASCII test is on the signed Java byte. */
  method Dump(data: seq<Byte>) returns (hex: string, ascii: string)
    ensures hex == Hex(data)
    ensures ascii == Ascii(data)
  {
    var hb, ab := "", "";
    for i := 0 to |data|
      invariant hb == HexSpaced(data[..i])
      invariant ab == Ascii(data[..i])
    {
      var b := data[i];
      hb := hb + HexToken(b) + " ";
      var sb := SignedByte(b);
      SignedTestsArePrintable(b);
      ab := ab + [if sb >= 32 && sb < 127 then sb as char else '.'];
      assert data[..i + 1][..i] == data[..i];
    }
    assert data[..|data|] == data;
    TrimmedSpacedIsHex(data);
    hex := Trim(hb);
    ascii := ab;
  }

  /** fromRaw: the supplied index becomes the packet number and the length is the byte count. */
  method FromRaw(raw: Packet, data: seq<Byte>, idx: int, time: string) returns (r: Result<PacketModel>)
    ensures r == Decode(raw, data, idx, time)
    ensures r.Success? ==> r.value == Model(Classify(raw).value, raw, data, idx, time)
  {
    var h := Classify(raw);
    if h.Failure? {
      return Failure(h.exception);
    }
    var hex, ascii := Dump(data);
    r := Success(PacketModel(idx, time, h.value.src, h.value.dst, h.value.proto,
      h.value.srcPort, h.value.dstPort, |data|, hex, ascii, h.value.risk,
      h.value.srcMac, h.value.dstMac, raw));
  }

  /* ---------------- properties of the classification ---------------- */

  /** Without Ethernet both MAC addresses stay "—" and the whole frame is the payload. */
  lemma NoEthernetKeepsDefaults(raw: Packet)
    requires !Contains(raw, EthernetKind) && !raw.Nil?
    ensures NetworkPayload(raw) == raw
    ensures Classify(raw).Success?
    ensures Classify(raw).value.srcMac == NoMac && Classify(raw).value.dstMac == NoMac
  {
  }

  /** Without IPv4 nothing but the MACs is filled in; IPv6 and ARP are not looked at. */
  lemma NoIPv4KeepsDefaults(raw: Packet)
    requires !NetworkPayload(raw).Nil? && !Contains(NetworkPayload(raw), IPv4Kind)
    ensures var h := Classify(raw).value;
      h.src == NoAddress && h.dst == NoAddress && h.proto == NoProtocol
      && h.srcPort == NoPort && h.dstPort == NoPort && h.risk == RiskNone
  {
  }

  /** TCP over IPv4: label "TCP", the header's ports, and a risk of 0.7 exactly for SYN without ACK. */
  lemma TcpOverIPv4(raw: Packet)
    requires IPv4Of(raw).Some? && Contains(IPv4Of(raw).value.payload, TcpKind)
    ensures var tcp := Get(IPv4Of(raw).value.payload, TcpKind).value;
      var h := Classify(raw).value;
      h.proto == "TCP" && h.srcPort == tcp.srcPort && h.dstPort == tcp.dstPort
      && (h.risk == RiskSynScan <==> tcp.flags.syn && !tcp.flags.ack)
      && (h.risk == RiskSynScan || h.risk == RiskLow)
  {
  }

  /** UDP over IPv4 (and no TCP): label "UDP", the header's ports, risk 0. */
  lemma UdpOverIPv4(raw: Packet)
    requires IPv4Of(raw).Some?
    requires !Contains(IPv4Of(raw).value.payload, TcpKind) && Contains(IPv4Of(raw).value.payload, UdpKind)
    ensures var udp := Get(IPv4Of(raw).value.payload, UdpKind).value;
      var h := Classify(raw).value;
      h.proto == "UDP" && h.srcPort == udp.srcPort && h.dstPort == udp.dstPort && h.risk == RiskNone
  {
  }

  /** Any other IPv4 payload: the protocol-number name, no ports, risk 0. */
  lemma OtherOverIPv4(raw: Packet)
    requires IPv4Of(raw).Some?
    requires !Contains(IPv4Of(raw).value.payload, TcpKind) && !Contains(IPv4Of(raw).value.payload, UdpKind)
    ensures var h := Classify(raw).value;
      h.proto == IPv4Of(raw).value.protocol && h.srcPort == NoPort && h.dstPort == NoPort && h.risk == RiskNone
  {
  }

  /** Both decoders report the same addresses and label for an Ethernet or
      Linux cooked frame that carries IPv4 directly; they differ only in what
      they do for IPv6, ARP and unrecognised payloads. */
  lemma DecodersAgreeOnIPv4Frames(raw: Packet)
    requires raw.Ethernet? || (raw.LinuxSll? && !Contains(raw, EthernetKind))
    requires raw.payload.IPv4?
    ensures Classify(raw).Success?
    ensures var h := Classify(raw).value;
      var a := Peeling.Classify(Peeling.Peel(raw));
      h.src == a.src && h.dst == a.dst && h.proto == a.proto
  {
    Peeling.PeelOfLinkFrame(raw);
    if raw.LinuxSll? {
      GetThroughLinkLayer(raw, IPv4Kind);
    }
  }

  /* ---------------- toPacket ---------------- */

  /** The names of the set flags, in the order SYN, ACK, FIN, RST. */
  function FlagWords(f: TcpFlags): seq<string> {
    (if f.syn then ["SYN"] else []) + (if f.ack then ["ACK"] else [])
    + (if f.fin then ["FIN"] else []) + (if f.rst then ["RST"] else [])
  }

  /** The text a flags builder holds after appending each word and a space. */
  function Spaced(ws: seq<string>): string {
    if ws == [] then "" else ws[0] + " " + Spaced(ws[1..])
  }

  predicate IsWord(w: string) {
    w != [] && forall i :: 0 <= i < |w| ==> w[i] > ' '
  }

  lemma {:induction false} SpacedIsJoinPlusSpace(ws: seq<string>)
    requires ws != []
    ensures Spaced(ws) == Join(ws, " ") + " "
  {
    if |ws| > 1 {
      SpacedIsJoinPlusSpace(ws[1..]);
      assert Spaced(ws) == ws[0] + " " + (Join(ws[1..], " ") + " ");
    }
  }

  lemma {:induction false} JoinOfWordsIsTrimmed(ws: seq<string>)
    requires ws != [] && forall i :: 0 <= i < |ws| ==> IsWord(ws[i])
    ensures var j := Join(ws, " "); j != [] && j[0] > ' ' && j[|j| - 1] > ' '
  {
    if |ws| > 1 {
      JoinOfWordsIsTrimmed(ws[1..]);
      var rest := Join(ws[1..], " ");
      assert Join(ws, " ") == ws[0] + " " + rest;
      assert Join(ws, " ")[0] == ws[0][0];
    }
  }

  /** Trimming the builder gives the words joined by single spaces, with no trailing space. */
  lemma TrimSpacedWords(ws: seq<string>)
    requires forall i :: 0 <= i < |ws| ==> IsWord(ws[i])
    ensures Trim(Spaced(ws)) == Join(ws, " ")
  {
    if ws != [] {
      SpacedIsJoinPlusSpace(ws);
      JoinOfWordsIsTrimmed(ws);
      var j := Join(ws, " ");
      assert (j + " ")[0] == j[0];
      assert TrimStart(j + " ") == j + " ";
      TrimEndDropsOneSpace(j);
    }
  }

  /** The Flags entry: the set flags, in order, single-space separated. */
  function FlagsText(f: TcpFlags): string {
    Join(FlagWords(f), " ")
  }

  /** The Flags entry is empty exactly when no flag is set. */
  lemma FlagsTextEmpty(f: TcpFlags)
    ensures FlagsText(f) == "" <==> !f.syn && !f.ack && !f.fin && !f.rst
  {
    var ws := FlagWords(f);
    if ws != [] {
      assert forall i :: 0 <= i < |ws| ==> IsWord(ws[i]);
      JoinOfWordsIsTrimmed(ws);
    }
  }

  /** A SYN-ACK segment reads "SYN ACK", with no trailing space. */
  lemma SynAckText()
    ensures FlagsText(TcpFlags(true, true, false, false)) == "SYN ACK"
  {
    var ws := FlagWords(TcpFlags(true, true, false, false));
    assert ws == ["SYN", "ACK"];
    assert ws[1..] == ["ACK"];
  }

  /** The transport-info map; the ports are always present. */
  function PortsInfo(pm: PacketModel): (m: map<string, string>)
    ensures m.Keys == {"SrcPort", "DstPort"}
  {
    map["SrcPort" := IntToString(pm.srcPort), "DstPort" := IntToString(pm.dstPort)]
  }

  function EtherTypeName(raw: Packet): string {
    match Get(raw, EthernetKind)
    case Some(eth) => eth.etherType
    case None => NoProtocol
  }

  /** The record built from a model and a transport-info map. */
  function Captured(pm: PacketModel, tsMs: int, info: map<string, string>): CapturedPacket {
    CapturedPacket(pm.no, pm.time, tsMs, 0, pm.srcMac, pm.dstMac, pm.src, pm.dst, pm.proto,
      pm.srcPort, pm.dstPort, pm.len, pm.hexDump, pm.asciiDump, pm.risk,
      PacketDetail(pm.srcMac, pm.dstMac, EtherTypeName(pm.raw), pm.src, pm.dst, pm.proto, pm.proto, info))
  }

  /** toPacket as written: the label alone decides whether the TCP header is read,
      so a "TCP" label without a TCP layer dereferences null. */
  function ToPacketAsWritten(pm: PacketModel, tsMs: int): (r: Result<CapturedPacket>)
    ensures r.Failure? <==> pm.proto == "TCP" && !Contains(pm.raw, TcpKind)
    ensures r.Success? ==>
      r.value.detail.transportInfo.Keys == (if pm.proto == "TCP" then {"Flags", "SrcPort", "DstPort"} else {"SrcPort", "DstPort"})
  {
    if pm.proto == "TCP" then
      match Get(pm.raw, TcpKind)
      case None => Failure("NullPointerException")
      case Some(tcp) => Success(Captured(pm, tsMs, PortsInfo(pm)["Flags" := FlagsText(tcp.flags)]))
    else Success(Captured(pm, tsMs, PortsInfo(pm)))
  }

  /** toPacket with the TCP header read only when there is one. */
  function ToPacketGuarded(pm: PacketModel, tsMs: int): (c: CapturedPacket)
    ensures "Flags" in c.detail.transportInfo <==> pm.proto == "TCP" && Contains(pm.raw, TcpKind)
    ensures c.detail.transportInfo.Keys >= {"SrcPort", "DstPort"}
  {
    if pm.proto == "TCP" && Contains(pm.raw, TcpKind) then
      Captured(pm, tsMs, PortsInfo(pm)["Flags" := FlagsText(Get(pm.raw, TcpKind).value.flags)])
    else Captured(pm, tsMs, PortsInfo(pm))
  }

  lemma TrimmedFlags(f: TcpFlags)
    ensures Trim(Spaced(FlagWords(f))) == FlagsText(f)
  {
    var ws := FlagWords(f);
    assert forall i :: 0 <= i < |ws| ==> IsWord(ws[i]);
    TrimSpacedWords(ws);
  }

  /** One `if (flag) flags.append(word + " ")` step of the flags builder. */
  method AppendFlag(flags: string, ghost ws: seq<string>, isSet: bool, w: string)
      returns (flags': string, ghost ws': seq<string>)
    requires flags == Spaced(ws)
    ensures flags' == flags + (if isSet then w + " " else "")
    ensures ws' == ws + (if isSet then [w] else [])
    ensures flags' == Spaced(ws')
  {
    flags', ws' := flags, ws;
    if isSet {
      SpacedSnoc(ws, w);
      flags', ws' := flags + w + " ", ws + [w];
    } else {
      assert ws + [] == ws;
    }
  }

  /** The flags builder: a word and a space per set flag, trimmed. */
  method BuildFlags(tcp: TcpFlags) returns (text: string)
    ensures text == FlagsText(tcp)
  {
    var flags := "";
    ghost var ws: seq<string> := [];
    assert flags == Spaced(ws);
    flags, ws := AppendFlag(flags, ws, tcp.syn, "SYN");
    flags, ws := AppendFlag(flags, ws, tcp.ack, "ACK");
    flags, ws := AppendFlag(flags, ws, tcp.fin, "FIN");
    flags, ws := AppendFlag(flags, ws, tcp.rst, "RST");
    assert ws == FlagWords(tcp);
    TrimmedFlags(tcp);
    text := Trim(flags);
  }

  /** The imperative toPacket: the transport-info map filled entry by entry. */
  method ToPacket(pm: PacketModel, tsMs: int) returns (c: CapturedPacket)
    ensures c == ToPacketGuarded(pm, tsMs)
    ensures c.detail.transportInfo["SrcPort"] == IntToString(pm.srcPort)
    ensures c.detail.transportInfo["DstPort"] == IntToString(pm.dstPort)
    ensures "Flags" in c.detail.transportInfo ==>
      c.detail.transportInfo["Flags"] == FlagsText(Get(pm.raw, TcpKind).value.flags)
  {
    var tinfo: map<string, string> := map[];
    if pm.proto == "TCP" && Contains(pm.raw, TcpKind) {
      var flags := BuildFlags(Get(pm.raw, TcpKind).value.flags);
      tinfo := tinfo["Flags" := flags];
    }
    tinfo := tinfo["SrcPort" := IntToString(pm.srcPort)];
    tinfo := tinfo["DstPort" := IntToString(pm.dstPort)];
    c := Captured(pm, tsMs, tinfo);
  }

  lemma {:induction false} SpacedSnoc(ws: seq<string>, w: string)
    ensures Spaced(ws + [w]) == Spaced(ws) + w + " "
  {
    if ws != [] {
      SpacedSnoc(ws[1..], w);
      assert (ws + [w])[1..] == ws[1..] + [w];
    } else {
      assert Spaced([w][1..]) == "";
    }
  }

  /** Wherever the TCP label came from a decoded TCP header, the guarded
      conversion is exactly the one written. */
  lemma GuardedAgreesWithWritten(pm: PacketModel, tsMs: int)
    requires ToPacketAsWritten(pm, tsMs).Success?
    ensures ToPacketGuarded(pm, tsMs) == ToPacketAsWritten(pm, tsMs).value
  {
  }

  /** Frames classified through fromRaw with a TCP header never hit the null read. */
  lemma DecodedTcpConverts(raw: Packet, data: seq<Byte>, idx: int, time: string, tsMs: int)
    requires Classify(raw).Success?
    requires var p := NetworkPayload(raw); Contains(p, IPv4Kind) && Contains(Get(p, IPv4Kind).value.payload, TcpKind)
    ensures ToPacketAsWritten(Model(Classify(raw).value, raw, data, idx, time), tsMs).Success?
  {
    var p := NetworkPayload(raw);
    var ip4 := Get(p, IPv4Kind).value;
    var tcp := Get(ip4.payload, TcpKind).value;
    LayersTransitive(raw, p, ip4, tcp);
    GetFindsAnyLayer(raw, tcp);
  }

  /** A non-first IPv4 fragment of a TCP segment: the protocol field names TCP
      but the library decodes no TCP header, so the label is "TCP" and the
      conversion as written fails. */
  lemma FragmentBreaksToPacket()
    ensures var raw := Ethernet("aa:bb:cc:dd:ee:ff", "11:22:33:44:55:66", "IPv4",
                                IPv4("10.0.0.1", "10.0.0.2", "TCP", Unknown));
      var h := Classify(raw);
      && h.Success? && h.value.proto == "TCP"
      && ToPacketAsWritten(Model(h.value, raw, [0x45], 1, "00:00:00.000"), 0).Failure?
      && "Flags" !in ToPacketGuarded(Model(h.value, raw, [0x45], 1, "00:00:00.000"), 0).detail.transportInfo
  {
    var ip4 := IPv4("10.0.0.1", "10.0.0.2", "TCP", Unknown);
    var raw := Ethernet("aa:bb:cc:dd:ee:ff", "11:22:33:44:55:66", "IPv4", ip4);
    assert IPv4Of(raw) == Some(ip4);
    assert !Contains(raw, TcpKind) by { assert Get(ip4, TcpKind) == None; }
    assert Classify(raw).value.proto == "TCP";
  }

  /* ---------------- layer bookkeeping ---------------- */

  lemma {:induction false} LayersOfLayer(p: Packet, q: Packet)
    requires q in Layers(p)
    ensures forall x :: x in Layers(q) ==> x in Layers(p)
  {
    if p != q && HasPayload(p) {
      LayersOfLayer(p.payload, q);
    }
  }

  lemma LayersTransitive(raw: Packet, p: Packet, ip4: Packet, tcp: Packet)
    requires p == NetworkPayload(raw)
    requires ip4 in Layers(p) && ip4.IPv4? && tcp in Layers(ip4.payload)
    ensures tcp in Layers(raw)
  {
    assert tcp in Layers(ip4);
    LayersOfLayer(p, ip4);
    match Get(raw, EthernetKind)
    case Some(eth) =>
      assert p in Layers(eth) by { assert Layers(eth) == [eth] + Layers(eth.payload); }
      LayersOfLayer(eth, p);
      LayersOfLayer(raw, eth);
    case None =>
  }

  lemma {:induction false} GetFindsAnyLayer(p: Packet, q: Packet)
    requires q in Layers(p) && KindOf(q).Some?
    ensures Get(p, KindOf(q).value).Some?
  {
    if p != q && KindOf(p) != KindOf(q) && HasPayload(p) {
      GetFindsAnyLayer(p.payload, q);
    }
  }
}
