# WireCat capture core in Dafny

WireCat is a JavaFX packet sniffer built on pcap4j. This project models the
part of it that turns captured frames into records and then aggregates them.
Each model file follows the Java class it comes from.

- **Frame decoders** (`peeling_decoder.dfy`, `risk_decoder.dfy`, `hex_dump.dfy`):
  - The two `PacketModel.fromRaw` versions turn a decoded header chain (`pcap.dfy`) into a record. The chain holds an optional Ethernet or Linux-cooked header, then IPv4, IPv6 or ARP, then TCP or UDP.
  - The first version peels the link layer and classifies IPv4, IPv6 and ARP.
  - The second version extracts MAC addresses, ports, the TCP/UDP label and a SYN-scan risk score. The risk is 0.0, 0.1 or 0.7, modelled in tenths.
  - Both build a hex dump and an ASCII dump of the raw frame in a loop.
  - `toPacket` builds the transport-info map and the TCP flags text.
- **Flow bookkeeping**:
  - `tcp_streams.dfy`: the direction-free stream key and the per-key stream lists of `TcpStreamReassembler`.
  - `conversations.dfy`: the mutable `Conversation` aggregate.
  - `conversation_key.dfy`: `ConversationKey` equality and hash code.
- **Aggregates and filters in the views**:
  - `statistics.dfy`: the statistics panel's counts, rate, average and top talker.
  - `protocol_bars.dfy`: the protocol bar chart, a list of (label, count) bars.
  - `panel_view.dfy` and `upstream_view.dfy`: the table predicates, the delta-time drain and the 500-record timer drain of the two main windows.
  - `hex_inspector.dfy`: the inspector's 16-bytes-per-line hex formatter and protocol colours.
  - `mac_vendors.dfy` and `vendor_names.dfy`: the two MAC-vendor lookups.
  - `filters.dfy`: `FilterEngine.byProtocol`.
- **Capture services**:
  - `capture_session.dfy`: the service of the panel UI, with numbering, list and queue appends, the limit rule, replace-by-id and clearing.
  - `legacy_capture.dfy`: both unmerged versions of the top-level service, with the per-label counters, both limit rules, `stopCapture` and the 1-based lookup.
  - `pcap_handles.dfy`: the pcap handle, reduced to Null, Open or Closed.
  - A capture loop is a method that takes the sequence of frames the library delivers.

`java_lang.dfy` defines the `String` operations the code relies on with
their Java meaning: `trim`, `isBlank`, `split`, `toUpperCase`, `toLowerCase`,
`equalsIgnoreCase`, `contains`, `indexOf`, `hashCode` and `compareTo`.
`Integer.parseInt(s, 16)` is `Inspector.ParseHexInt` in `hex_inspector.dfy`,
and `Objects.equals`, `Objects.hashCode` and `Objects.hash` are
`ObjectsEquals`, `NullableHash` and `ArraysHash` in `conversation_key.dfy`.

Some members are specification functions without a contract of their own.
They are described in the rows of the lemmas and methods that characterise
them, named in back-quotes in the third column.

Source paths in the table are relative to the repository root.

## Model

| member | source | states |
|---|---|---|
| Pcap.Get | core-capture/src/main/java/com/wirecat/core_capture/PacketModel.java:63-83 | `Packet.get(class)` returns a layer of the chain of that class, and null only when no layer has that class |
| Pcap.GetThroughLinkLayer | wirecat/core-capture/src/main/java/com/wirecat/core_capture/PacketModel.java:70-79 | looking for a network or transport header through an Ethernet or SLL layer is the same as looking in its payload |
| PcapHandles.CloseIfOpen | core-capture/src/main/java/com/wirecat/core_capture/service/CaptureService.java:81 | the `finally` leaves no handle open, and a handle that was not open stays as it was |
| PeelingDecoder.Dump | wirecat/core-capture/src/main/java/com/wirecat/core_capture/PacketModel.java:114-121 | the dump loop yields the space-joined hex tokens of every byte and the ASCII rendering of every byte |
| PeelingDecoder.FromRaw | wirecat/core-capture/src/main/java/com/wirecat/core_capture/PacketModel.java:68-133 | fails exactly when the peeled payload is null. Otherwise the record holds the given index and time, the classified addresses and label, the byte count as length, and the dumps of the whole raw frame |
| PeelingDecoder.UnrecognisedStaysUnknown | wirecat/core-capture/src/main/java/com/wirecat/core_capture/PacketModel.java:82-84 | without IPv4, IPv6 or ARP, source, destination and protocol all stay "Unknown". This and the next three rows characterise `Classify` |
| PeelingDecoder.IPv4Precedence | wirecat/core-capture/src/main/java/com/wirecat/core_capture/PacketModel.java:86-92 | with IPv4 present, its addresses are used whatever else is in the chain. The label is TCP if a TCP header exists, else UDP if a UDP header exists, else the protocol-number name |
| PeelingDecoder.IPv6UsesNextHeader | wirecat/core-capture/src/main/java/com/wirecat/core_capture/PacketModel.java:94-98 | without IPv4, IPv6 gives its addresses and its next-header name, with no TCP/UDP relabelling |
| PeelingDecoder.ArpUsesProtocolAddresses | wirecat/core-capture/src/main/java/com/wirecat/core_capture/PacketModel.java:100-105 | without IPv4 or IPv6, ARP gives the sender and target protocol addresses and the label "ARP" |
| PeelingDecoder.PeelOfLinkFrame | wirecat/core-capture/src/main/java/com/wirecat/core_capture/PacketModel.java:70-79 | an Ethernet frame, or an SLL frame without Ethernet, is peeled to its payload, and classifying the payload is classifying the frame. `Peel` is the link-layer peeling and `Classify` the classification of lines 82-105 |
| PeelingDecoder.EthernetBelowSllWins | wirecat/core-capture/src/main/java/com/wirecat/core_capture/PacketModel.java:70-79 | in an SLL frame that holds an Ethernet header further down, the Ethernet header is peeled rather than the SLL header: the peel is the Ethernet payload, not the SLL payload |
| PeelingDecoder.NoLinkFrameIsPayload | wirecat/core-capture/src/main/java/com/wirecat/core_capture/PacketModel.java:70-79 | a chain with neither link layer is classified whole |
| HexDump.HexToken | wirecat/core-capture/src/main/java/com/wirecat/core_capture/PacketModel.java:118 | `%02X` gives two characters, neither a space |
| HexDump.Ascii | wirecat/core-capture/src/main/java/com/wirecat/core_capture/PacketModel.java:119-120 | the ASCII dump has one character per byte: the byte itself if it is printable, '.' otherwise |
| HexDump.SignedTestsArePrintable | core-capture/src/main/java/com/wirecat/core_capture/PacketModel.java:104-107 | both Java tests on a signed byte select exactly the bytes 32..126: `(char) b` in 32..126, and `b` in 32..126 |
| HexDump.HexLength | wirecat/core-capture/src/main/java/com/wirecat/core_capture/PacketModel.java:130 | the hex dump of n bytes is empty for n = 0 and has length 3n-1 otherwise |
| HexDump.HexLayout | wirecat/core-capture/src/main/java/com/wirecat/core_capture/PacketModel.java:114-121 | byte i is written at characters 3i and 3i+1, and a single space follows every token but the last. `Hex` is the joined dump and `HexSpaced` the loop buffer with its trailing space |
| HexDump.TrimmedSpacedIsHex | wirecat/core-capture/src/main/java/com/wirecat/core_capture/PacketModel.java:130 | trimming the loop's "token + space" buffer gives the tokens joined by single spaces |
| HexDump.ParseHexToken | wirecat/core-capture/src/main/java/com/wirecat/core_capture/PacketModel.java:118 | reading a `%02X` token back gives the byte |
| HexDump.SplitOfHex | wirecat/core-capture/src/main/java/com/wirecat/core_capture/PacketModel.java:130 | `split(" ")` of a non-empty dump gives exactly one two-digit token per byte |
| HexDump.HexRoundTrip | wirecat/core-capture/src/main/java/com/wirecat/core_capture/PacketModel.java:114-131 | splitting the hex dump on spaces and parsing each token gives back the exact frame bytes |
| RiskDecoder.TcpRisk | core-capture/src/main/java/com/wirecat/core_capture/PacketModel.java:89 | the risk is 0.7 iff SYN is set and ACK is clear, and 0.1 otherwise |
| RiskDecoder.IPv4Header | core-capture/src/main/java/com/wirecat/core_capture/PacketModel.java:78-98 | the IPv4 branch keeps the MACs and takes the IPv4 addresses. Both ports are set or neither is, and a non-zero risk only comes with a TCP label and ports. `Macs` reads the Ethernet addresses and `IPv4Of` finds the IPv4 header in the payload |
| RiskDecoder.Classify | core-capture/src/main/java/com/wirecat/core_capture/PacketModel.java:57-98 | fails exactly when the payload searched is null. Both ports are set or neither is, and a risk only comes with TCP. `NetworkPayload` is the Ethernet payload, or the whole packet without Ethernet |
| RiskDecoder.Decode | core-capture/src/main/java/com/wirecat/core_capture/PacketModel.java:57-117 | fails exactly when the payload is null. Otherwise the number is the supplied index, the length is the byte count, the raw chain is kept, and the dumps cover the frame |
| RiskDecoder.Dump | core-capture/src/main/java/com/wirecat/core_capture/PacketModel.java:100-107 | the dump loop, with the ASCII test on the signed byte, gives the shared hex and ASCII dumps |
| RiskDecoder.FromRaw | core-capture/src/main/java/com/wirecat/core_capture/PacketModel.java:57-117 | the imperative `fromRaw` agrees with `Decode`, and builds its record from the classified header |
| RiskDecoder.NoEthernetKeepsDefaults | core-capture/src/main/java/com/wirecat/core_capture/PacketModel.java:63-70 | without Ethernet both MACs stay "—" and the whole packet is the payload |
| RiskDecoder.NoIPv4KeepsDefaults | core-capture/src/main/java/com/wirecat/core_capture/PacketModel.java:73-78 | without IPv4 the IPs stay "—", the label "N/A", the ports -1 and the risk 0, even over IPv6 or ARP |
| RiskDecoder.TcpOverIPv4 | core-capture/src/main/java/com/wirecat/core_capture/PacketModel.java:83-89 | TCP over IPv4 gives the label "TCP", the header's ports, and the SYN-scan risk of its flags |
| RiskDecoder.UdpOverIPv4 | core-capture/src/main/java/com/wirecat/core_capture/PacketModel.java:90-94 | UDP over IPv4, without TCP, gives the label "UDP", the header's ports and risk 0 |
| RiskDecoder.OtherOverIPv4 | core-capture/src/main/java/com/wirecat/core_capture/PacketModel.java:95-97 | any other IPv4 payload gives the protocol-number name, ports -1 and risk 0 |
| RiskDecoder.DecodersAgreeOnIPv4Frames | core-capture/src/main/java/com/wirecat/core_capture/PacketModel.java:78-98 | for a link frame carrying IPv4, both decoders report the same addresses and the same label |
| RiskDecoder.TrimSpacedWords | core-capture/src/main/java/com/wirecat/core_capture/PacketModel.java:126-131 | trimming the flags buffer leaves the set words joined by single spaces, with no trailing space |
| RiskDecoder.TrimmedFlags | core-capture/src/main/java/com/wirecat/core_capture/PacketModel.java:126-131 | the trimmed buffer is the Flags text: the set flags in the order SYN, ACK, FIN, RST. `FlagsText` is that text |
| RiskDecoder.FlagsTextEmpty | core-capture/src/main/java/com/wirecat/core_capture/PacketModel.java:126-131 | the Flags text is empty exactly when no flag is set |
| RiskDecoder.SynAckText | core-capture/src/main/java/com/wirecat/core_capture/PacketModel.java:126-131 | a SYN-ACK segment reads "SYN ACK" |
| RiskDecoder.AppendFlag | core-capture/src/main/java/com/wirecat/core_capture/PacketModel.java:127 | one conditional append adds the word and a space exactly when its flag is set |
| RiskDecoder.BuildFlags | core-capture/src/main/java/com/wirecat/core_capture/PacketModel.java:126-131 | the flags builder yields the Flags text |
| RiskDecoder.PortsInfo | core-capture/src/main/java/com/wirecat/core_capture/PacketModel.java:133-134 | the transport-info map always holds SrcPort and DstPort |
| RiskDecoder.ToPacketAsWritten | core-capture/src/main/java/com/wirecat/core_capture/PacketModel.java:119-154 | `toPacket` as written fails exactly for a "TCP" label whose chain has no TCP header. Otherwise Flags is present iff the label is TCP |
| RiskDecoder.ToPacketGuarded | core-capture/src/main/java/com/wirecat/core_capture/PacketModel.java:119-154 | the corrected `toPacket` never fails. Flags is present iff the label is TCP and a TCP header exists, and both ports are always present |
| RiskDecoder.ToPacket | core-capture/src/main/java/com/wirecat/core_capture/PacketModel.java:119-154 | the imperative map filling gives the corrected record. The ports are in decimal, and Flags, when present, is the flag text of the chain's TCP header |
| RiskDecoder.GuardedAgreesWithWritten | core-capture/src/main/java/com/wirecat/core_capture/PacketModel.java:119-154 | wherever the code as written succeeds, the corrected version gives the same record |
| RiskDecoder.DecodedTcpConverts | core-capture/src/main/java/com/wirecat/core_capture/PacketModel.java:124-125 | a record whose TCP label came from a TCP header over IPv4 converts without failure |
| RiskDecoder.FragmentBreaksToPacket | core-capture/src/main/java/com/wirecat/core_capture/PacketModel.java:124-125 | a concrete non-first fragment of a TCP segment is labelled "TCP" by `fromRaw` and then makes `toPacket` as written fail |
| TcpStreams.PairKeyOrdered | core-capture/src/main/java/com/wirecat/core_capture/TcpStreamReassembler.java:29-31 | the key is "lesser-greater" under `compareTo`, naming both endpoints. `PairKey` builds this key |
| TcpStreams.PairKeySymmetric | core-capture/src/main/java/com/wirecat/core_capture/TcpStreamReassembler.java:28-32 | swapping the two endpoints gives the same key |
| TcpStreams.StreamKeyDirectionFree | core-capture/src/main/java/com/wirecat/core_capture/TcpStreamReassembler.java:28-32 | a reply with swapped addresses and ports has the key of the request. `StreamKey` pairs "ip:port" of both ends |
| TcpStreams.LabelNotInKey | core-capture/src/main/java/com/wirecat/core_capture/TcpStreamReassembler.java:29-31 | the label is not part of the key, so TCP and TCPv6 packets between the same endpoints share a stream |
| TcpStreams.StreamOf | core-capture/src/main/java/com/wirecat/core_capture/TcpStreamReassembler.java:15-16 | a stream holds only packets of its key, and no more than were added |
| TcpStreams.StreamOfAbsent | core-capture/src/main/java/com/wirecat/core_capture/TcpStreamReassembler.java:19-21 | a key no packet has owns the empty stream |
| TcpStreams.StreamOfContains | core-capture/src/main/java/com/wirecat/core_capture/TcpStreamReassembler.java:15-16 | every accepted packet is in the stream of its own key |
| TcpStreams.GroupedLookup | core-capture/src/main/java/com/wirecat/core_capture/TcpStreamReassembler.java:19-21 | the list under a key, or the empty list, is the accepted packets with that key in arrival order |
| TcpStreams.AddedStreams | core-capture/src/main/java/com/wirecat/core_capture/TcpStreamReassembler.java:15-16 | appending a packet to its key's list, or starting a singleton list, keeps every list equal to the packets with its key |
| TcpStreams.AddedTotal | core-capture/src/main/java/com/wirecat/core_capture/TcpStreamReassembler.java:16 | each accepted packet adds one to the number stored, and lists each key once |
| TcpStreams.AddedGrouped | core-capture/src/main/java/com/wirecat/core_capture/TcpStreamReassembler.java:13-17 | one accepted packet preserves the whole grouping invariant |
| TcpStreams.GroupedNonEmpty | core-capture/src/main/java/com/wirecat/core_capture/TcpStreamReassembler.java:15-16 | no list is ever stored empty |
| TcpStreams.TcpStreamReassembler.constructor | core-capture/src/main/java/com/wirecat/core_capture/TcpStreamReassembler.java:11 | a new reassembler has no streams |
| TcpStreams.TcpStreamReassembler.GetStream | core-capture/src/main/java/com/wirecat/core_capture/TcpStreamReassembler.java:19-21 | `getStream` is the accepted packets of that key, in order, and empty for an unknown key |
| TcpStreams.TcpStreamReassembler.GetAllStreamKeys | core-capture/src/main/java/com/wirecat/core_capture/TcpStreamReassembler.java:23-25 | the key set is the keys of the accepted packets, exactly those with a non-empty stream |
| TcpStreams.TcpStreamReassembler.AddPacket | core-capture/src/main/java/com/wirecat/core_capture/TcpStreamReassembler.java:13-17 | only "TCP" and "TCPv6" packets are accepted. An accepted one is appended to its key's list, and nothing else changes |
| Conversations.Conversation.constructor | core-capture/src/main/java/com/wirecat/core_capture/model/Conversation.java:18-32 | a new conversation holds the given fields, count 1, the first length as its total, and equal first and last timestamps |
| Conversations.Conversation.AddPacket | core-capture/src/main/java/com/wirecat/core_capture/model/Conversation.java:34-38 | the count goes up by exactly 1, the total by the length. The last timestamp becomes the argument even if earlier, and the first timestamp is kept. The invariant holds: count 1 + k, total = first length + the sum of the k lengths |
| Conversations.SumLengthsAppend | core-capture/src/main/java/com/wirecat/core_capture/model/Conversation.java:35-36 | the byte total over two runs of calls is the sum of their totals |
| Conversations.SumLengthsNonNegative | core-capture/src/main/java/com/wirecat/core_capture/model/Conversation.java:36 | with non-negative lengths the total never falls below the first length |
| ConversationKeys.NullableHash | core-capture/src/main/java/com/wirecat/core_capture/model/ConversationKey.java:22-24 | a field's hash is a 32-bit int |
| ConversationKeys.ArraysHash | core-capture/src/main/java/com/wirecat/core_capture/model/ConversationKey.java:22-24 | `Objects.hash` stays within int range |
| ConversationKeys.HashCode | core-capture/src/main/java/com/wirecat/core_capture/model/ConversationKey.java:22-24 | the key's hash code is a 32-bit int |
| ConversationKeys.ObjectsEqualsIsEquality | core-capture/src/main/java/com/wirecat/core_capture/model/ConversationKey.java:18-20 | null-safe string comparison is equality of the nullable values. `ObjectsEquals` is `Objects.equals` |
| ConversationKeys.EqualsIffSameFields | core-capture/src/main/java/com/wirecat/core_capture/model/ConversationKey.java:15-21 | two keys are equal iff all five fields are. `Equals` is the class check followed by the field comparisons |
| ConversationKeys.EqualsReflexive | core-capture/src/main/java/com/wirecat/core_capture/model/ConversationKey.java:16-17 | a key equals itself and no object of another class |
| ConversationKeys.EqualsIsEquivalence | core-capture/src/main/java/com/wirecat/core_capture/model/ConversationKey.java:15-21 | equals is symmetric and transitive |
| ConversationKeys.HashConsistentWithEquals | core-capture/src/main/java/com/wirecat/core_capture/model/ConversationKey.java:15-24 | equal keys have equal hash codes |
| ConversationKeys.ReversedEqualIffSymmetric | core-capture/src/main/java/com/wirecat/core_capture/model/ConversationKey.java:18-20 | the key is directional: swapping endpoints gives an equal key only when both IPs and both ports coincide. `Reversed` swaps source and destination |
| Filters.ByProtocol | core-capture/src/main/java/com/wirecat/core_capture/filter/FilterEngine.java:7-10 | the filter accepts exactly the packets whose label equals p ignoring case, looking at no other field |
| Filters.FilterCaseIrrelevant | core-capture/src/main/java/com/wirecat/core_capture/filter/FilterEngine.java:8 | a filter built from the lower-cased label accepts the same packets |
| Filters.HttpRejectsHttps | core-capture/src/main/java/com/wirecat/core_capture/filter/FilterEngine.java:9 | whole-label equality: an "HTTP" filter rejects "HTTPS" and accepts only four-letter labels reading HTTP |
| MacVendors.SplitFirstComma | core-capture/src/main/java/com/wirecat/core_capture/util/MacVendorLookup.java:14 | `split(",", 2)` cuts at the first comma only. The second piece keeps later commas, and a line without a comma stays whole |
| MacVendors.Entry | core-capture/src/main/java/com/wirecat/core_capture/util/MacVendorLookup.java:14-16 | a line yields an entry exactly when it has a comma |
| MacVendors.LoadOui | core-capture/src/main/java/com/wirecat/core_capture/util/MacVendorLookup.java:9-22 | the loader loop puts every line's entry in order. A missing resource leaves the table empty |
| MacVendors.KeysAreDefined | core-capture/src/main/java/com/wirecat/core_capture/util/MacVendorLookup.java:13-18 | a key is in the table iff some line defines it. `OuiMap` is the table the loader builds |
| MacVendors.LastLineWins | core-capture/src/main/java/com/wirecat/core_capture/util/MacVendorLookup.java:16 | a key's value is that of the last line defining it |
| MacVendors.SkipsLineWithoutComma | core-capture/src/main/java/com/wirecat/core_capture/util/MacVendorLookup.java:15 | a line without a comma changes nothing |
| MacVendors.LineEntry | core-capture/src/main/java/com/wirecat/core_capture/util/MacVendorLookup.java:14-16 | "prefix,rest" puts the upper-cased prefix with all of the rest, commas included |
| MacVendors.KeyOf | core-capture/src/main/java/com/wirecat/core_capture/util/MacVendorLookup.java:26-29 | the lookup key, when there are three parts, is already upper-case |
| MacVendors.Lookup | core-capture/src/main/java/com/wirecat/core_capture/util/MacVendorLookup.java:24-30 | the result is "Unknown" or a value of the table, and "Unknown" for null or a MAC shorter than 8 characters |
| MacVendors.NoColonUnknown | core-capture/src/main/java/com/wirecat/core_capture/util/MacVendorLookup.java:26-27 | a MAC without ':' is one part, so it is always "Unknown" |
| MacVendors.FewPartsUnknown | core-capture/src/main/java/com/wirecat/core_capture/util/MacVendorLookup.java:26-27 | a MAC that splits on ':' into fewer than three parts, such as "AA:BBCCDDEE", is "Unknown" whatever its length and the table |
| MacVendors.UndefinedKeyUnknown | core-capture/src/main/java/com/wirecat/core_capture/util/MacVendorLookup.java:9-29 | after loading, a MAC whose three-part key no line of the resource defines is "Unknown" (the `getOrDefault` default) |
| MacVendors.LookupAfterLoad | core-capture/src/main/java/com/wirecat/core_capture/util/MacVendorLookup.java:9-30 | loading and looking up together: a MAC's vendor is the value of the last line defining its key |
| MacVendors.KeyIgnoresCase | core-capture/src/main/java/com/wirecat/core_capture/util/MacVendorLookup.java:26-29 | lower-casing the MAC does not change its key |
| MacVendors.LookupIgnoresCase | core-capture/src/main/java/com/wirecat/core_capture/util/MacVendorLookup.java:24-30 | the lookup ignores the case of the hex digits |
| VendorNames.OuiLabel | core-capture/src/main/java/com/wirecat/core_capture/ui/panel/ConversationPanel.java:62-176 | a case label is six characters |
| VendorNames.VendorIn | core-capture/src/main/java/com/wirecat/core_capture/ui/panel/ConversationPanel.java:62-176 | the switch finds a vendor iff some arm lists the OUI, and it names an arm that lists it. `VendorOf` is the switch |
| VendorNames.OuiOf | core-capture/src/main/java/com/wirecat/core_capture/ui/panel/ConversationPanel.java:61 | taking the OUI fails exactly when fewer than six characters remain once the colons are removed. Otherwise it is six characters |
| VendorNames.MacWithVendor | core-capture/src/main/java/com/wirecat/core_capture/ui/panel/ConversationPanel.java:59-177 | null and MACs shorter than 8 are returned unchanged. It fails exactly when `substring` throws, and otherwise the MAC is a prefix of the result |
| VendorNames.LabelsHaveNoHyphen | core-capture/src/main/java/com/wirecat/core_capture/ui/panel/ConversationPanel.java:62-176 | no case label holds a hyphen |
| VendorNames.UnknownOuiUnchanged | core-capture/src/main/java/com/wirecat/core_capture/ui/panel/ConversationPanel.java:175 | an OUI listed in no arm returns the MAC unchanged |
| VendorNames.KnownOuiNamed | core-capture/src/main/java/com/wirecat/core_capture/ui/panel/ConversationPanel.java:62-176 | the first arm listing the OUI appends " (vendor)" |
| VendorNames.FirstArmWins | core-capture/src/main/java/com/wirecat/core_capture/ui/panel/ConversationPanel.java:62-176 | the switch picks the first arm listing the OUI |
| VendorNames.MatchIgnoresCase | core-capture/src/main/java/com/wirecat/core_capture/ui/panel/ConversationPanel.java:61 | a lower-case MAC gives the same OUI as its upper-case form |
| VendorNames.HyphenMacUnchanged | core-capture/src/main/java/com/wirecat/core_capture/ui/panel/ConversationPanel.java:61 | only ':' is removed, so a hyphen-separated MAC never matches and is returned unchanged |
| VendorNames.ColonsOnlyFails | core-capture/src/main/java/com/wirecat/core_capture/ui/panel/ConversationPanel.java:61 | "::::::::" leaves nothing to take six characters from, so `substring` throws |
| Statistics.CountingMapIsOccurrences | core-capture/src/main/java/com/wirecat/core_capture/ui/panel/StatisticsPanel.java:127-131 | the grouping map holds exactly the occurring labels, each with its number of occurrences. `CountingMap` is the map built element by element |
| Statistics.BadgeCounts | core-capture/src/main/java/com/wirecat/core_capture/ui/panel/StatisticsPanel.java:127-131 | exactly the six labels TCP, UDP, ICMP, ARP, HTTP and HTTPS have badges |
| Statistics.BadgeIsLabelCount | core-capture/src/main/java/com/wirecat/core_capture/ui/panel/StatisticsPanel.java:127-131 | each badge counts the packets carrying exactly its label, 0 when there are none |
| Statistics.CountSince | core-capture/src/main/java/com/wirecat/core_capture/ui/panel/StatisticsPanel.java:135-138 | the window never counts more packets than the list holds |
| Statistics.Rate | core-capture/src/main/java/com/wirecat/core_capture/ui/panel/StatisticsPanel.java:134-141 | the rate is 0 below two packets. Otherwise it is the number of packets stamped no more than 10 s before the last element, divided by 10 and rounded down, so never more than a tenth of the list |
| Statistics.RateAnchoredAtLast | core-capture/src/main/java/com/wirecat/core_capture/ui/panel/StatisticsPanel.java:135 | the window ends at the last element's timestamp, not the latest one, as a concrete list shows |
| Statistics.AverageSize | core-capture/src/main/java/com/wirecat/core_capture/ui/panel/StatisticsPanel.java:144-146 | the average is total / size rounded down, and 0 for an empty list. `TotalBytes` is the sum of the lengths |
| Statistics.BestFrom | core-capture/src/main/java/com/wirecat/core_capture/ui/panel/StatisticsPanel.java:149-152 | the chosen source occurs in the list and no source occurs more often |
| Statistics.TopTalker | core-capture/src/main/java/com/wirecat/core_capture/ui/panel/StatisticsPanel.java:149-152 | the top talker is a source with maximal count, shown with that count; "N/A" and 0 for an empty list |
| Statistics.TopTalkerCountBounds | core-capture/src/main/java/com/wirecat/core_capture/ui/panel/StatisticsPanel.java:149-152 | with packets, the count shown is positive and at most the list length |
| ProtocolBars.IndexOfLabel | core-capture/src/main/java/com/wirecat/core_capture/ui/panel/MainView.java:306-307 | the scan finds the first bar with the label, or reports that none has it |
| ProtocolBars.IncrementBar | core-capture/src/main/java/com/wirecat/core_capture/ui/panel/MainView.java:305-313 | the loop increments the first matching bar or appends (label, 1) |
| ProtocolBars.BumpAllAppend | core-capture/src/main/java/com/wirecat/core_capture/ui/panel/MainView.java:305-313 | counting two runs of packets is counting the first, then the second |
| ProtocolBars.BumpKeepsUnique | core-capture/src/main/java/com/wirecat/core_capture/ui/panel/MainView.java:305-313 | labels stay unique |
| ProtocolBars.BumpCountOf | core-capture/src/main/java/com/wirecat/core_capture/ui/panel/MainView.java:305-313 | the packet's label goes up by one and every other label's value is unchanged. `Bump` is one update of the chart |
| ProtocolBars.BumpTotal | core-capture/src/main/java/com/wirecat/core_capture/ui/panel/MainView.java:305-313 | each update adds exactly one to the sum of the bars |
| ProtocolBars.ChartCountsLabels | core-capture/src/main/java/com/wirecat/core_capture/ui/panel/MainView.java:305-313 | from no bars, the labels are unique, the bars sum to the number of packets, and each bar is its label's count. `BumpAll` is one update per packet, in order |
| PanelView.InitialChips | core-capture/src/main/java/com/wirecat/core_capture/ui/panel/MainView.java:121-125 | one ticked chip per label, in order TCP, UDP, ICMP, ARP, HTTP, HTTPS |
| PanelView.OtherLabelsNeverPass | core-capture/src/main/java/com/wirecat/core_capture/ui/panel/MainView.java:51-54 | whatever is ticked, a label outside the six chips never passes. `ProtocolPasses` is the chip predicate of lines 51-54 |
| PanelView.AllTickedPassesKnownLabels | core-capture/src/main/java/com/wirecat/core_capture/ui/panel/MainView.java:51-54 | with all chips ticked, a packet passes iff its label is one of the six, ignoring case |
| PanelView.EmptySearchShowsByChips | core-capture/src/main/java/com/wirecat/core_capture/ui/panel/MainView.java:56-62 | an empty search hides nothing, so the chips alone decide the conjunction. `SearchPasses` is the search predicate and `Shown` their conjunction |
| PanelView.RenderedAppendsBatch | core-capture/src/main/java/com/wirecat/core_capture/ui/panel/MainView.java:264-271 | existing rows are kept and the batch follows in drain order. Each new row's delta is measured from the row before it, which may be from the same batch. `WithDelta` sets one delta and `Rendered` renders a batch |
| PanelView.RenderedProtocols | core-capture/src/main/java/com/wirecat/core_capture/ui/panel/MainView.java:264-271 | only deltas change: the labels are those of the old rows followed by the batch |
| PanelView.DrainStep | core-capture/src/main/java/com/wirecat/core_capture/ui/panel/MainView.java:264-271 | one more drained packet adds one row with its delta and one bump of its label |
| PanelView.MainView.constructor | core-capture/src/main/java/com/wirecat/core_capture/ui/panel/MainView.java:33-34 | a new view has no rows, no bars, all chips ticked (lines 121-125), an empty search, and no predicate installed yet. The table applies `MainView.Visible`, which passes every row until the predicate is installed and is `Shown` on the current chips and search text afterwards |
| PanelView.MainView.ToggleChip | core-capture/src/main/java/com/wirecat/core_capture/ui/panel/MainView.java:50-63 | a chip's onAction (line 124) flips that chip, keeps the others and the search text, and from then on the table shows exactly the rows `Shown` on the chips and text |
| PanelView.MainView.SetSearch | core-capture/src/main/java/com/wirecat/core_capture/ui/panel/MainView.java:50-63 | the field takes the text and keeps the chips. Its change listener (line 130) runs only when the text differs from the old text: then the table shows exactly the rows `Shown` on the chips and new text. Setting the same text leaves what the table shows unchanged |
| PanelView.FreshViewShowsEverything | core-capture/src/main/java/com/wirecat/core_capture/ui/panel/MainView.java:34 | a fresh view lists a drained row whose label no chip passes (such as "N/A"). Setting the search field to its current "" keeps it listed, and a real change of the text ("1") hides it |
| PanelView.MainView.DrainAndRender | core-capture/src/main/java/com/wirecat/core_capture/ui/panel/MainView.java:258-275 | the table becomes the old rows plus the batch with deltas, and the chart counts the batch's labels. The chart keeps counting the table |
| PanelView.ChartMatchesTable | core-capture/src/main/java/com/wirecat/core_capture/ui/panel/MainView.java:305-313 | each bar's value is the number of rows with its label |
| UpstreamView.SearchTextOf | core-capture/src/main/java/com/wirecat/core_capture/MainView.java:79 | the stored search text is trimmed and lower-case |
| UpstreamView.SearchTextIdempotent | core-capture/src/main/java/com/wirecat/core_capture/MainView.java:79 | normalising the text twice is normalising it once |
| UpstreamView.TypedTextFinds | core-capture/src/main/java/com/wirecat/core_capture/MainView.java:270-272 | typed text that occurs in the key finds the packet, whatever its case or surrounding blanks |
| UpstreamView.ProtoChoiceRule | core-capture/src/main/java/com/wirecat/core_capture/MainView.java:267-268 | "All" passes every packet; any other choice requires exact, case-sensitive label equality. `ProtoPasses` is the choice predicate and `Shown` its conjunction with the search |
| UpstreamView.SearchStraddlesFields | core-capture/src/main/java/com/wirecat/core_capture/MainView.java:270-272 | the key runs the fields together: "110" finds 10.0.0.1 → 10.0.0.2 though neither address holds it. `SearchKey` is the concatenated key and `SearchPasses` the contains test on it |
| UpstreamView.Polled | core-capture/src/main/java/com/wirecat/core_capture/MainView.java:232 | a frame takes the whole queue or 500 records, whichever is fewer |
| UpstreamView.UpstreamMainView.constructor | core-capture/src/main/java/com/wirecat/core_capture/MainView.java:41-48 | a new view has no rows, no bars, "All" selected and an empty search. The table applies `UpstreamMainView.Visible`, which is `Shown` on the current choice and search text |
| UpstreamView.UpstreamMainView.SetSearch | core-capture/src/main/java/com/wirecat/core_capture/MainView.java:78-81 | the listener stores the normalised text |
| UpstreamView.UpstreamMainView.SetProto | core-capture/src/main/java/com/wirecat/core_capture/MainView.java:71-74 | the listener stores the choice |
| UpstreamView.UpstreamMainView.TakeOne | core-capture/src/main/java/com/wirecat/core_capture/MainView.java:233-235 | the oldest record leaves the queue and is appended converted, and its label is bumped |
| UpstreamView.UpstreamMainView.Tick | core-capture/src/main/java/com/wirecat/core_capture/MainView.java:229-240 | a frame removes the first min(500, queue) records in FIFO order and appends them converted. The chart counts their labels and keeps matching the table. Row k is record k converted at the k-th clock reading |
| UpstreamView.ChartMatchesTable | core-capture/src/main/java/com/wirecat/core_capture/MainView.java:277-285 | each bar's value is the number of rows with its label |
| Inspector.KeepHex | core-capture/src/main/java/com/wirecat/core_capture/ui/panel/InspectorPanel.java:112 | cleaning leaves only hex digits and spaces |
| Inspector.KeepHexOfClean | core-capture/src/main/java/com/wirecat/core_capture/ui/panel/InspectorPanel.java:112 | cleaning changes nothing in a string of only hex digits and spaces |
| Inspector.SplitSpaceRuns | core-capture/src/main/java/com/wirecat/core_capture/ui/panel/InspectorPanel.java:112 | `split(" +")` gives pieces without spaces, and only the first may be empty |
| Inspector.FieldsOfHex | core-capture/src/main/java/com/wirecat/core_capture/ui/panel/InspectorPanel.java:112 | cleaning and splitting a decoder's dump gives exactly its two-digit tokens |
| Inspector.ParseHexInt | core-capture/src/main/java/com/wirecat/core_capture/ui/panel/InspectorPanel.java:126 | `parseInt(s, 16)` gives an int or throws, and throws on the empty string |
| Inspector.ParseHexIntOfToken | core-capture/src/main/java/com/wirecat/core_capture/ui/panel/InspectorPanel.java:126 | a decoder's token reads back as its byte |
| Inspector.ParseHexIntRange | core-capture/src/main/java/com/wirecat/core_capture/ui/panel/InspectorPanel.java:126 | up to 7 digits always parse to their value. 8 digits with a leading digit of 8 or more overflow and throw |
| Inspector.OffsetRoundTrip | core-capture/src/main/java/com/wirecat/core_capture/ui/panel/InspectorPanel.java:115 | the `%04X` offset column reads back as the offset. `Offset` is the `%04X` text |
| Inspector.LineCount | core-capture/src/main/java/com/wirecat/core_capture/ui/panel/InspectorPanel.java:113 | the number of lines is ceil(n/16) |
| Inspector.AppendHexColumn | core-capture/src/main/java/com/wirecat/core_capture/ui/panel/InspectorPanel.java:117-122 | the inner loop appends 16 hex slots: a token padded to two digits plus a space, or three spaces |
| Inspector.AppendAsciiColumn | core-capture/src/main/java/com/wirecat/core_capture/ui/panel/InspectorPanel.java:124-132 | the inner loop appends 16 ASCII slots, or throws as soon as a token does not parse |
| Inspector.FormatLine | core-capture/src/main/java/com/wirecat/core_capture/ui/panel/InspectorPanel.java:114-134 | one line is the offset, the hex slots, " \|", the ASCII slots and "\|\n", or the parse failure. `Line` is that text for the line starting at token i |
| Inspector.FormatTokens | core-capture/src/main/java/com/wirecat/core_capture/ui/panel/InspectorPanel.java:113-135 | the outer loop gives every line in order, or the failure of the first bad token |
| Inspector.FormatHexDump | core-capture/src/main/java/com/wirecat/core_capture/ui/panel/InspectorPanel.java:110-137 | `formatHexDump` cleans, splits and lays out its input as specified. `Formatted` is the specification it meets |
| Inspector.EmptyDumpFails | core-capture/src/main/java/com/wirecat/core_capture/ui/panel/InspectorPanel.java:112 | an empty dump splits into one empty token, which `parseInt` rejects |
| Inspector.BlankDumpIsEmpty | core-capture/src/main/java/com/wirecat/core_capture/ui/panel/InspectorPanel.java:112 | a dump of spaces has no tokens and formats to nothing |
| Inspector.FormatsFrameDump | core-capture/src/main/java/com/wirecat/core_capture/ui/panel/InspectorPanel.java:110-137 | the dump of a non-empty frame always formats, to ceil(n/16) lines |
| Inspector.FrameDumpSlots | core-capture/src/main/java/com/wirecat/core_capture/ui/panel/InspectorPanel.java:117-132 | slot k shows byte k: its two hex digits, and its printable character or '.'. `HexSlot` and `AsciiSlot` are the two columns of slot k |
| Inspector.LineHasOneNewline | core-capture/src/main/java/com/wirecat/core_capture/ui/panel/InspectorPanel.java:133 | each line holds exactly one line break, at its end |
| Inspector.FormattedLineCount | core-capture/src/main/java/com/wirecat/core_capture/ui/panel/InspectorPanel.java:113-135 | a successful format of n tokens has ceil(n/16) lines |
| Inspector.ProtoColor | core-capture/src/main/java/com/wirecat/core_capture/ui/panel/InspectorPanel.java:98-108 | the six known labels get their own colour and every other label gets "#bbbbbb" |
| Inspector.ProtoColorsDistinct | core-capture/src/main/java/com/wirecat/core_capture/ui/panel/InspectorPanel.java:98-108 | the six colours are pairwise different |
| CaptureSessions.Consumed | core-capture/src/main/java/com/wirecat/core_capture/service/CaptureService.java:70-73 | the loop consumes frames up to the first whose number satisfies the stop rule `StopsAfter` (`limit > 0 && idx >= limit`): no earlier frame asks to stop, and it ends before the last frame only because the n-th one asked |
| CaptureSessions.Numbered | core-capture/src/main/java/com/wirecat/core_capture/service/CaptureService.java:47-51 | the k-th frame of a session is decoded with number k + 1 |
| CaptureSessions.FirstWithId | core-capture/src/main/java/com/wirecat/core_capture/service/CaptureService.java:61-66 | finds the first element with the analysed record's id, or reports that there is none |
| CaptureSessions.ReplaceFirst | core-capture/src/main/java/com/wirecat/core_capture/service/CaptureService.java:61-66 | only the first element with the id is replaced. The length and every other element are unchanged, and with no match the list is unchanged |
| CaptureSessions.CaptureService.constructor | core-capture/src/main/java/com/wirecat/core_capture/service/CaptureService.java:15-26 | a new service has no handle, no packets, an empty queue, no thread, counter and limit 0 and no break requested |
| CaptureSessions.CaptureService.GetCapturedPackets | core-capture/src/main/java/com/wirecat/core_capture/service/CaptureService.java:30 | the copy equals the stored list |
| CaptureSessions.CaptureService.StartCapture | core-capture/src/main/java/com/wirecat/core_capture/service/CaptureService.java:32-92 | a missing interface, a failed open or a failed filter all end in "Initialization failed" with no thread, and the counter, limit and break flag keep their values. Otherwise the thread starts with a fresh counter, and nothing stored changes |
| CaptureSessions.CaptureService.OnPacket | core-capture/src/main/java/com/wirecat/core_capture/service/CaptureService.java:49-74 | the listener numbers the frame with the next count and appends the record to both the list and the queue. It asks for a break once a positive limit is reached |
| CaptureSessions.CaptureService.CaptureLoop | core-capture/src/main/java/com/wirecat/core_capture/service/CaptureService.java:76-83 | the list and the queue gain the consumed frames numbered 1..n in order. The handle is then closed and the status reads "stopped" |
| CaptureSessions.CaptureService.ReplaceById | core-capture/src/main/java/com/wirecat/core_capture/service/CaptureService.java:59-68 | the analysis callback replaces the first record with the id. The queue, handle, thread state, status, counter, limit and break flag are unchanged |
| CaptureSessions.CaptureService.ClearPackets | core-capture/src/main/java/com/wirecat/core_capture/service/CaptureService.java:123-127 | both the list and the queue are emptied and the status reads "cleared". The handle, thread state, counter, limit and break flag are unchanged |
| CaptureSessions.CaptureService.StopCapture | core-capture/src/main/java/com/wirecat/core_capture/service/CaptureService.java:94-107 | a break is requested iff the handle was open (or one already was), and an open handle is closed. The stored packets, queue, thread state, status, counter and limit are unchanged |
| CaptureSessions.RestartRepeatsNumbers | core-capture/src/main/java/com/wirecat/core_capture/service/CaptureService.java:47 | two one-frame sessions without clearing store two packets both numbered 1 |
| LegacyCapture.StoredIffPayload | core-capture/src/main/java/com/wirecat/core_capture/CaptureService.java:59 | the listener gets a record exactly for frames with a network payload, and it is the decoder's record. `Stored` is what the listener keeps of one frame |
| LegacyCapture.Taken | core-capture/src/main/java/com/wirecat/core_capture/CaptureService.java:64-67 | a loop never takes more records than it is offered |
| LegacyCapture.RunWhenAllDecode | core-capture/src/main/java/com/wirecat/core_capture/CaptureService.java:57-67 | when every frame decodes, the stored records are the outcomes in order, with no gap. `Run` is the records a loop keeps from the outcomes, the k-th frame being numbered k + 1 |
| LegacyCapture.NumbersWithoutGap | core-capture/src/main/java/com/wirecat/core_capture/CaptureService.java:57-59 | when every frame decodes, record k carries number k + 1 |
| LegacyCapture.FailedFrameUsesNumber | core-capture/src/main/java/com/wirecat/core_capture/CaptureService.java:59 | a frame that fails to decode still uses up its number, so the next record is numbered 2 |
| LegacyCapture.LimitRules | core-capture/src/main/java/com/wirecat/core_capture/CaptureService.java:64-67 | the two rules agree for a positive limit. With limit ≤ 0 the upstream rule never stops, while the stashed rule (lines 131-134) stops at once. `Stops` is the limit rule of either version |
| LegacyCapture.Labels | core-capture/src/main/java/com/wirecat/core_capture/CaptureService.java:61 | one label per record, in order: label i is record i's label |
| LegacyCapture.UpstreamCaptureService.constructor | core-capture/src/main/java/com/wirecat/core_capture/CaptureService.java:37-42 | a new service has no handle, an empty queue and no counters |
| LegacyCapture.UpstreamCaptureService.OnPacket | core-capture/src/main/java/com/wirecat/core_capture/CaptureService.java:58-68 | the index goes up by one. A decoded record is queued and counted, and a break is requested only for limit > 0 and index ≥ limit |
| LegacyCapture.UpstreamCaptureService.Offer | core-capture/src/main/java/com/wirecat/core_capture/CaptureService.java:60-62 | the record is queued and its label's counter is created or incremented by exactly one |
| LegacyCapture.UpstreamCaptureService.Loop | core-capture/src/main/java/com/wirecat/core_capture/CaptureService.java:58-68 | the queue gains the run of records the upstream limit rule lets through, and the counters keep counting every record. A break is requested exactly when the run ends by the limit rule (`RunBreaks`) |
| LegacyCapture.BreaksIffLimitReached | core-capture/src/main/java/com/wirecat/core_capture/CaptureService.java:64-67 | when every frame decodes, the upstream loop is broken exactly when a positive limit is reached within the frames. `RunBreaks` says whether a loop ends by breakLoop |
| LegacyCapture.UpstreamCaptureService.Start | core-capture/src/main/java/com/wirecat/core_capture/CaptureService.java:51-79 | the status shows "Capturing on", then the open or filter error if there is one, or "❌ null" when the loop ended by breakLoop (pcap4j's `loop` then throws an InterruptedException without a message, caught at line 71), then "Capture stopped". Records are queued only when the open and the filter succeed, and the handle ends closed |
| LegacyCapture.UpstreamCaptureService.OpenAndLoop | core-capture/src/main/java/com/wirecat/core_capture/CaptureService.java:56-68 | after the open, a failed filter is reported and skips the loop; otherwise the loop runs over the frames, and a loop ended by breakLoop is reported as "❌ null" |
| LegacyCapture.UpstreamCaptureService.Poll | core-capture/src/main/java/com/wirecat/core_capture/MainView.java:233 | `poll` removes and returns the oldest record, or null when the queue is empty |
| LegacyCapture.UpstreamCaptureService.Stop | core-capture/src/main/java/com/wirecat/core_capture/CaptureService.java:81-84 | a break is requested iff the handle is open (or one already was). The handle, queue, counters, offered records, status messages, index and limit are unchanged, so the counters keep counting the offered records |
| LegacyCapture.StatsCountLabels | core-capture/src/main/java/com/wirecat/core_capture/CaptureService.java:61-62 | each label's counter exists iff the label was seen, and equals the number of records with that label |
| LegacyCapture.UnlimitedKeepsEverything | core-capture/src/main/java/com/wirecat/core_capture/CaptureService.java:64 | with limit ≤ 0 the upstream loop keeps every record |
| LegacyCapture.ZeroLimitKeepsOne | core-capture/src/main/java/com/wirecat/core_capture/CaptureService.java:131-134 | with limit ≤ 0 the stashed loop stops after the first record |
| LegacyCapture.ReleaseIfOpen | core-capture/src/main/java/com/wirecat/core_capture/CaptureService.java:147-153 | after stopping, no handle is open, and a handle that was not open is left as it was |
| LegacyCapture.ReleaseIdempotent | core-capture/src/main/java/com/wirecat/core_capture/CaptureService.java:147-153 | stopping twice is stopping once |
| LegacyCapture.StashedCaptureService.constructor | core-capture/src/main/java/com/wirecat/core_capture/CaptureService.java:100-102 | a new service has no handle and no stored records |
| LegacyCapture.StashedCaptureService.OnPacket | core-capture/src/main/java/com/wirecat/core_capture/CaptureService.java:126-135 | the count goes up by one and a decoded record is stored. A break is requested once index ≥ limit, with no guard |
| LegacyCapture.StashedCaptureService.Loop | core-capture/src/main/java/com/wirecat/core_capture/CaptureService.java:126-135 | the list gains the run of records the stashed limit rule lets through |
| LegacyCapture.StashedCaptureService.StartCapture | core-capture/src/main/java/com/wirecat/core_capture/CaptureService.java:108-145 | records are stored only when the interface exists, the open succeeds and the filter is accepted. Every exit closes the handle if it is open |
| LegacyCapture.StashedCaptureService.StopCapture | core-capture/src/main/java/com/wirecat/core_capture/CaptureService.java:147-154 | an open handle is asked to break and is released; the stored records are kept |
| LegacyCapture.StashedCaptureService.GetRawPacketByIndex | core-capture/src/main/java/com/wirecat/core_capture/CaptureService.java:162-165 | gives the (i-1)-th record for 1 ≤ i ≤ size, and null otherwise |
| LegacyCapture.RowIsPacketNumber | core-capture/src/main/java/com/wirecat/core_capture/CaptureService.java:125-135 | in one session where every frame decodes, table row i holds the record numbered i |

## Left out

- The top-level `CaptureService.java` and the top-level `MainView.java` carry unmerged conflict markers; `service/CaptureService.java` has none. The model keeps both halves of `CaptureService.java` as two classes. It keeps only the "upstream" half of `MainView.java`, because the stashed half uses fields that are never declared.
- pcap4j itself is left out: `openLive`, `loop`, `breakLoop`, `setFilter`, `findAllDevs` and file writing. The handle is Null, Open or Closed. An open or filter error is a parameter. The frames the loop delivers are a sequence, and the listener is a method called once per frame.
- Threads, daemon flags, `interrupt`, `Platform.runLater` and the concurrent queue and list types are left out. A queue is a first-in-first-out sequence.
- Clock reads are parameters, and the arrival time is part of each frame. `UpstreamView.UpstreamMainView.Tick` takes one clock reading per record it converts.
- `save`/`saveCapture`, the status callbacks other than the messages modelled, `printStackTrace`, chart colours, autoscroll and all layout code are left out.
- The per-packet UI callbacks registered with `setOnPacketCaptured` are left out: `packetListener.accept` on each new record and on each analysed copy (`service/CaptureService.java` lines 56 and 67), and on each record of the stashed service (top-level `CaptureService.java` line 130). They hand the record to UI code outside this model and change no state of the service.
- The AI analysis callback is left out. Its id getter is a function parameter of `ReplaceById`, and the HTTP client is not part of this model.
- `model.PacketModel` and `model.CapturedPacket`, used by the panel UI and by `service/CaptureService.java`, are not part of this model. That service is generic in its record type, and `DrainAndRender` receives already converted records.
- The OUI resource is a sequence of lines. A read error partway through the file, which would leave a partial table, is not modelled.
- The `macWithVendor` case labels are written as 24-bit numbers and rendered as six upper-case hex digits.
- Case mapping and `Character.isWhitespace` are modelled for ASCII only. `Integer.parseInt` accepts only ASCII digits and letters here.
- Strings are sequences of Unicode scalar values. `String.compareTo` (`LexLe`) and `String.hashCode` (`StringHash`) are computed on those, while Java computes them on UTF-16 code units, so they differ for characters above U+FFFF.
- LegacyCapture.UpstreamCaptureService.Start: pcap4j's `loop` is taken to throw an InterruptedException without a message when `breakLoop` ended it; pcap4j is not part of this model. A `stop()` from another thread while the loop runs is not modelled, so only a break by the limit rule produces the "❌ null" line.
- Null strings are `None`. An exception is a `Failure` value.
- LegacyCapture.StoredIffPayload: a decoding exception is taken to end that one callback, so the loop goes on with the next frame. How pcap4j handles an exception thrown by a listener is not visible.
- Conversations.Conversation.AddPacket: `packetCount` and `totalBytes` are unbounded integers, so Java `int`/`long` wrap-around is not modelled.
- Statistics.TopTalker: the source chosen among equally frequent ones depends on `HashMap` order. The model states only that the chosen source has the maximal count.
- The `String.format` text of the statistics labels is left out; only the numbers are modelled.
- Floating-point risk, the inspector's risk badge and CSV formatting are left out. The risk is integer tenths.
- UpstreamView.UpstreamMainView.Tick: the timer converts with the corrected `toPacket`. As written it can throw (see Findings).

## Findings

| source | as written | input that shows it | evidently intended | confidence | as-written member | corrected member |
|---|---|---|---|---|---|---|
| core-capture/src/main/java/com/wirecat/core_capture/PacketModel.java:124-125 | `toPacket` reads the TCP header whenever the label is "TCP", and `fromRaw` gives that label from the IPv4 protocol field alone | a non-first IPv4 fragment of a TCP segment: protocol field TCP, payload not decoded as TCP. Then `raw.get(TcpPacket.class)` is null and `getHeader()` throws | read Flags only when a TCP header is present | not executed | RiskDecoder.FragmentBreaksToPacket | RiskDecoder.ToPacketGuarded |
