/** The main window at the top of the package ("upstream" half): a protocol
    combo box and a search field filter the table, and an animation timer
    moves up to 500 queued records per frame from the capture service into
    the table and the protocol chart. */
module UpstreamView {
  import opened JavaLang
  import opened RiskDecoder
  import opened ProtocolBars
  import Statistics
  import LegacyCapture

  const AllProtocols: string := "All"
  /** The entries of the protocol combo box. */
  const ProtoChoices: seq<string> := ["All", "TCP", "UDP", "ICMP", "ARP"]
  /** The most records one timer frame takes from the queue. */
  const Burst: nat := 500

  /* ---------------- the table predicate ---------------- */

  /** "All" lets every packet through; any other choice needs that exact label. */
  predicate ProtoPasses(selected: string, p: CapturedPacket) {
    selected == AllProtocols || p.protocol == selected
  }

  /** The text the search looks in: addresses, MACs and ports run together. */
  function SearchKey(p: CapturedPacket): string {
    p.srcIp + p.dstIp + p.srcMac + p.dstMac + IntToString(p.srcPort) + IntToString(p.dstPort)
  }

  /** An empty search passes everything; otherwise the lower-cased key must contain it. */
  predicate SearchPasses(text: string, p: CapturedPacket) {
    text == [] || ContainsSubstring(ToLower(SearchKey(p)), text)
  }

  predicate Shown(selected: string, text: string, p: CapturedPacket) {
    ProtoPasses(selected, p) && SearchPasses(text, p)
  }

  /** The search listener's normalisation of the typed text. */
  function SearchTextOf(v: string): (r: string)
    ensures Trimmed(r)
    ensures ToLower(r) == r
  {
    TrimIsTrimmed(v);
    LowerKeepsTrimmed(Trim(v));
    LowerIdempotent(Trim(v));
    ToLower(Trim(v))
  }

  /** Typing the normalised text again leaves the search as it is. */
  lemma SearchTextIdempotent(v: string)
    ensures SearchTextOf(SearchTextOf(v)) == SearchTextOf(v)
  {
    TrimOfTrimmed(SearchTextOf(v));
  }

  /** Whatever the case or the blanks around it, typed text that occurs in the
      key finds the packet. */
  lemma TypedTextFinds(v: string, p: CapturedPacket)
    requires ContainsSubstring(SearchKey(p), Trim(v))
    ensures SearchPasses(SearchTextOf(v), p)
  {
    ContainsLower(SearchKey(p), Trim(v));
  }

  /** "All" leaves the search alone to decide; a label choice shows exactly that label. */
  lemma ProtoChoiceRule(selected: string, p: CapturedPacket)
    ensures selected == AllProtocols ==> (Shown(selected, "", p) && (Shown(selected, SearchTextOf(""), p)))
    ensures selected != AllProtocols ==> (ProtoPasses(selected, p) <==> p.protocol == selected)
  {
    assert SearchTextOf("") == "";
  }

  /** The key runs the fields together, so text can match across the border
      of two fields that do not contain it: "110" finds a packet from
      10.0.0.1 to 10.0.0.2. */
  lemma SearchStraddlesFields(p: CapturedPacket)
    requires p.srcIp == "10.0.0.1" && p.dstIp == "10.0.0.2"
    ensures !ContainsSubstring(p.srcIp, "110") && !ContainsSubstring(p.dstIp, "110")
    ensures SearchPasses("110", p)
  {
    var key := ToLower(SearchKey(p));
    assert key[7..10] == "110";
    assert OccursAt(key, "110", 7);
    ContainsIffOccurs(key, "110");
    NoOneOneZero(p.srcIp);
    NoOneOneZero(p.dstIp);
  }

  lemma NoOneOneZero(ip: string)
    requires ip == "10.0.0.1" || ip == "10.0.0.2"
    ensures !ContainsSubstring(ip, "110")
  {
    ContainsIffOccurs(ip, "110");
    forall k: nat
      ensures !OccursAt(ip, "110", k)
    {
      if k + 3 <= 8 {
        assert ip[k..k + 3][0] == ip[k] && ip[k..k + 3][1] == ip[k + 1];
      }
    }
  }

  /* ---------------- the timer ---------------- */

  /** How many records one timer frame takes from a queue of `queued`. */
  function Polled(queued: nat): (n: nat)
    ensures n <= queued && n <= Burst
    ensures n == queued || n == Burst
  {
    if queued < Burst then queued else Burst
  }

  /** The records converted for the table, the k-th of a frame stamped with
      the k-th clock reading. */
  function Converted(pms: seq<PacketModel>, clock: seq<int>): (r: seq<CapturedPacket>)
    requires |pms| <= |clock|
    ensures |r| == |pms|
    ensures forall k :: 0 <= k < |pms| ==> r[k] == ToPacketGuarded(pms[k], clock[k])
  {
    seq(|pms|, k requires 0 <= k < |pms| => ToPacketGuarded(pms[k], clock[k]))
  }

  lemma ConvertedStep(pms: seq<PacketModel>, clock: seq<int>, k: nat)
    requires k < |pms| && k < |clock|
    ensures Converted(pms[..k + 1], clock) == Converted(pms[..k], clock) + [ToPacketGuarded(pms[k], clock[k])]
  {
  }

  lemma ProtocolsAppend(ps: seq<CapturedPacket>, qs: seq<CapturedPacket>)
    ensures Statistics.Protocols(ps + qs) == Statistics.Protocols(ps) + Statistics.Protocols(qs)
  {
  }

  class UpstreamMainView {
    var packets: seq<CapturedPacket>
    var protoSeries: seq<Bar>
    var selectedProto: string
    var searchText: string

    /** The chart holds one bar per label of the table, counted. */
    ghost predicate Valid()
      reads this`packets, this`protoSeries
    {
      protoSeries == BumpAll([], Statistics.Protocols(packets))
    }

    constructor()
      ensures Valid()
      ensures packets == [] && protoSeries == [] && selectedProto == AllProtocols && searchText == ""
    {
      packets := [];
      protoSeries := [];
      selectedProto := AllProtocols;
      searchText := "";
    }

    /** The search field's listener. */
    method SetSearch(v: string)
      modifies this`searchText
      ensures searchText == SearchTextOf(v)
    {
      searchText := ToLower(Trim(v));
    }

    /** The combo box's listener. */
    method SetProto(v: string)
      modifies this`selectedProto
      ensures selectedProto == v
    {
      selectedProto := v;
    }

    /** The predicate the table currently applies. */
    predicate Visible(p: CapturedPacket)
      reads this
    {
      Shown(selectedProto, searchText, p)
    }

    /** One turn of the frame loop: poll the oldest record, convert it,
        append it to the table and bump its label. */
    method TakeOne(svc: LegacyCapture.UpstreamCaptureService, stamp: int)
      requires svc.queue != []
      modifies this`packets, this`protoSeries, svc`queue
      ensures svc.queue == old(svc.queue)[1..]
      ensures packets == old(packets) + [ToPacketGuarded(old(svc.queue)[0], stamp)]
      ensures protoSeries == Bump(old(protoSeries), ToPacketGuarded(old(svc.queue)[0], stamp).protocol)
    {
      var polled := svc.Poll();
      var cp := ToPacket(polled.value, stamp);
      packets := packets + [cp];
      protoSeries := IncrementBar(protoSeries, cp.protocol);
    }

    /** One animation frame: poll at most Burst records in queue order,
        convert each, append it to the table and bump its label on the chart. */
    method Tick(svc: LegacyCapture.UpstreamCaptureService, clock: seq<int>)
      requires Valid()
      requires Polled(|svc.queue|) <= |clock|
      modifies this`packets, this`protoSeries, svc`queue
      ensures Valid()
      ensures var n := Polled(|old(svc.queue)|);
        && svc.queue == old(svc.queue)[n..]
        && packets == old(packets) + Converted(old(svc.queue)[..n], clock)
        && protoSeries == BumpAll(old(protoSeries), Statistics.Protocols(Converted(old(svc.queue)[..n], clock)))
    {
      ghost var q0, p0, s0 := svc.queue, packets, protoSeries;
      ghost var rows: seq<CapturedPacket> := [];
      var burst := 0;
      while burst < Burst && svc.queue != []
        invariant 0 <= burst <= Burst && burst <= |q0| && Polled(|q0|) <= |clock|
        invariant svc.queue == q0[burst..]
        invariant rows == Converted(q0[..burst], clock)
        invariant packets == p0 + rows
        invariant protoSeries == BumpAll(s0, Statistics.Protocols(rows))
        decreases Burst - burst
      {
        TakeOne(svc, clock[burst]);
        TickStep(q0, clock, burst, s0);
        rows := rows + [ToPacketGuarded(q0[burst], clock[burst])];
        burst := burst + 1;
      }
      TickDone(q0, clock, burst, p0);
    }
  }

  /** One record more converted: one row appended, its label bumped. */
  lemma TickStep(q0: seq<PacketModel>, clock: seq<int>, k: nat, s0: seq<Bar>)
    requires k < |q0| && k < |clock|
    ensures var cp := ToPacketGuarded(q0[k], clock[k]);
      && Converted(q0[..k + 1], clock) == Converted(q0[..k], clock) + [cp]
      && BumpAll(s0, Statistics.Protocols(Converted(q0[..k + 1], clock)))
         == Bump(BumpAll(s0, Statistics.Protocols(Converted(q0[..k], clock))), cp.protocol)
  {
    var cp := ToPacketGuarded(q0[k], clock[k]);
    ConvertedStep(q0, clock, k);
    ProtocolsAppend(Converted(q0[..k], clock), [cp]);
    var ls := Statistics.Protocols(Converted(q0[..k + 1], clock));
    assert ls[..|ls| - 1] == Statistics.Protocols(Converted(q0[..k], clock));
  }

  /** The frame's rows counted onto a chart that already counted the old rows. */
  lemma TickDone(q0: seq<PacketModel>, clock: seq<int>, n: nat, p0: seq<CapturedPacket>)
    requires n <= |q0| && n <= |clock| && n <= Burst && (n == Burst || n == |q0|)
    ensures n == Polled(|q0|)
    ensures BumpAll([], Statistics.Protocols(p0 + Converted(q0[..n], clock)))
         == BumpAll(BumpAll([], Statistics.Protocols(p0)), Statistics.Protocols(Converted(q0[..n], clock)))
  {
    ProtocolsAppend(p0, Converted(q0[..n], clock));
    BumpAllAppend([], Statistics.Protocols(p0), Statistics.Protocols(Converted(q0[..n], clock)));
  }

  /** The chart of the view agrees with its table: each bar's value is the
      number of rows with that label. */
  lemma ChartMatchesTable(v: UpstreamMainView, x: string)
    requires v.Valid()
    ensures CountOf(v.protoSeries, x) == Statistics.Occurrences(Statistics.Protocols(v.packets), x)
  {
    ChartCountsLabels(Statistics.Protocols(v.packets));
  }
}
