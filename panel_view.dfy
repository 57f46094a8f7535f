/** The main window of the panel-based UI: the protocol chips and the search
    field that filter the table, and the periodic drain that appends decoded
    packets with their inter-arrival times and bumps the protocol chart. */
module PanelView {
  import opened JavaLang
  import opened RiskDecoder
  import opened ProtocolBars
  import Statistics

  /** One protocol check box: its text and whether it is ticked. */
  datatype Chip = Chip(text: string, selected: bool)

  const ChipLabels: seq<string> := ["TCP", "UDP", "ICMP", "ARP", "HTTP", "HTTPS"]

  /** The chips as created: one per label, all ticked. */
  function InitialChips(): (cs: seq<Chip>)
    ensures |cs| == |ChipLabels|
    ensures forall i :: 0 <= i < |cs| ==> cs[i] == Chip(ChipLabels[i], true)
  {
    [Chip("TCP", true), Chip("UDP", true), Chip("ICMP", true),
     Chip("ARP", true), Chip("HTTP", true), Chip("HTTPS", true)]
  }

  /* ---------------- filter predicates ---------------- */

  /** Some ticked chip's text equals the protocol, ignoring case. */
  predicate ProtocolPasses(chips: seq<Chip>, p: CapturedPacket) {
    exists i :: 0 <= i < |chips| && chips[i].selected && EqualsIgnoreCase(chips[i].text, p.protocol)
  }

  /** The text occurs, case-sensitively, in an address or in a port written in decimal. */
  predicate SearchPasses(text: string, p: CapturedPacket) {
    || ContainsSubstring(p.srcIp, text)
    || ContainsSubstring(p.dstIp, text)
    || ContainsSubstring(IntToString(p.srcPort), text)
    || ContainsSubstring(IntToString(p.dstPort), text)
  }

  /** The table predicate: both filters. */
  predicate Shown(chips: seq<Chip>, text: string, p: CapturedPacket) {
    ProtocolPasses(chips, p) && SearchPasses(text, p)
  }

  lemma ChipLabelsAreUpper()
    ensures forall i :: 0 <= i < |ChipLabels| ==> ToUpper(ChipLabels[i]) == ChipLabels[i]
  {
    forall i | 0 <= i < |ChipLabels|
      ensures ToUpper(ChipLabels[i]) == ChipLabels[i]
    {
      UpperOfUpper(ChipLabels[i]);
    }
  }

  /** Whatever is ticked, a label that is none of the six (ignoring case) never passes. */
  lemma OtherLabelsNeverPass(chips: seq<Chip>, p: CapturedPacket)
    requires forall i :: 0 <= i < |chips| ==> chips[i].text in ChipLabels
    requires ToUpper(p.protocol) !in ChipLabels
    ensures !ProtocolPasses(chips, p)
  {
    ChipLabelsAreUpper();
    forall i | 0 <= i < |chips|
      ensures !EqualsIgnoreCase(chips[i].text, p.protocol)
    {
      EqualsIgnoreCaseIsUpperEquality(chips[i].text, p.protocol);
      var k :| 0 <= k < |ChipLabels| && ChipLabels[k] == chips[i].text;
      assert ToUpper(chips[i].text) == chips[i].text;
    }
  }

  /** With every chip ticked, a packet passes exactly when its label is one of
      the six, in any mix of case. */
  lemma AllTickedPassesKnownLabels(p: CapturedPacket)
    ensures ProtocolPasses(InitialChips(), p) <==> ToUpper(p.protocol) in ChipLabels
  {
    ChipLabelsAreUpper();
    var cs := InitialChips();
    if ToUpper(p.protocol) in ChipLabels {
      var k :| 0 <= k < |ChipLabels| && ChipLabels[k] == ToUpper(p.protocol);
      EqualsIgnoreCaseIsUpperEquality(cs[k].text, p.protocol);
    } else {
      OtherLabelsNeverPass(cs, p);
    }
  }

  /** An empty search field hides nothing: only the chips decide. */
  lemma EmptySearchShowsByChips(chips: seq<Chip>, p: CapturedPacket)
    ensures Shown(chips, "", p) <==> ProtocolPasses(chips, p)
  {
  }

  /* ---------------- the drain ---------------- */

  /** The packet as appended: with a table that is not empty, its delta is the
      gap to the current last row; the very first row keeps its own delta. */
  function WithDelta(ps: seq<CapturedPacket>, cp: CapturedPacket): CapturedPacket {
    if ps == [] then cp else cp.(deltaTime := cp.timestampMs - ps[|ps| - 1].timestampMs)
  }

  /** The table after appending a batch, in drain order. */
  function Rendered(ps: seq<CapturedPacket>, batch: seq<CapturedPacket>): seq<CapturedPacket> {
    if batch == [] then ps
    else
      var r := Rendered(ps, batch[..|batch| - 1]);
      r + [WithDelta(r, batch[|batch| - 1])]
  }

  /** The rows already shown are kept; the j-th new row is the j-th drained
      packet with its delta measured against the row just before it, which may
      be a row of the same batch. */
  lemma {:induction false} RenderedAppendsBatch(ps: seq<CapturedPacket>, batch: seq<CapturedPacket>)
    ensures |Rendered(ps, batch)| == |ps| + |batch|
    ensures Rendered(ps, batch)[..|ps|] == ps
    ensures forall j :: 0 <= j < |batch| ==>
      Rendered(ps, batch)[|ps| + j] == WithDelta(Rendered(ps, batch)[..|ps| + j], batch[j])
  {
    if batch != [] {
      var init := batch[..|batch| - 1];
      RenderedAppendsBatch(ps, init);
      var r := Rendered(ps, init);
      var r' := Rendered(ps, batch);
      assert r' == r + [WithDelta(r, batch[|batch| - 1])];
      assert r'[..|r|] == r;
      forall j | 0 <= j < |batch|
        ensures r'[|ps| + j] == WithDelta(r'[..|ps| + j], batch[j])
      {
        if j < |batch| - 1 {
          assert r'[..|ps| + j] == r[..|ps| + j];
          assert batch[j] == init[j];
        }
      }
    }
  }

  /** Only deltas change: the labels of the table are those of the rows and of the batch. */
  lemma {:induction false} RenderedProtocols(ps: seq<CapturedPacket>, batch: seq<CapturedPacket>)
    ensures Statistics.Protocols(Rendered(ps, batch)) == Statistics.Protocols(ps) + Statistics.Protocols(batch)
  {
    if batch != [] {
      RenderedProtocols(ps, batch[..|batch| - 1]);
    }
  }

  /** What one more drained packet adds to the table and to the chart. */
  lemma DrainStep(ps: seq<CapturedPacket>, bars: seq<Bar>, batch: seq<CapturedPacket>, i: nat)
    requires i < |batch|
    ensures Rendered(ps, batch[..i + 1]) == Rendered(ps, batch[..i]) + [WithDelta(Rendered(ps, batch[..i]), batch[i])]
    ensures BumpAll(bars, Statistics.Protocols(batch[..i + 1]))
         == Bump(BumpAll(bars, Statistics.Protocols(batch[..i])), batch[i].protocol)
  {
    assert batch[..i + 1][..i] == batch[..i];
    assert Statistics.Protocols(batch[..i + 1])[..i] == Statistics.Protocols(batch[..i]);
  }

  class MainView {
    var packets: seq<CapturedPacket>
    var protoSeries: seq<Bar>
    var chips: seq<Chip>
    var searchText: string
    /** Whether the chip and search predicate has been installed; until a
        chip or the search field first changes, the table shows every row. */
    var filtered: bool

    /** The chart always holds one bar per label of the table, counted. */
    ghost predicate Valid()
      reads this
    {
      protoSeries == BumpAll([], Statistics.Protocols(packets))
    }

    constructor()
      ensures Valid()
      ensures packets == [] && protoSeries == [] && chips == InitialChips() && searchText == ""
      ensures !filtered
    {
      packets := [];
      protoSeries := [];
      chips := InitialChips();
      searchText := "";
      filtered := false;
    }

    /** The predicate the table currently applies: `p -> true` as created,
        the chips and the search once refreshPredicate has run. */
    predicate Visible(p: CapturedPacket)
      reads this
    {
      !filtered || Shown(chips, searchText, p)
    }

    /** A chip's onAction: the click flips the box, then the predicate is
        refreshed from all chips and the search text. */
    method ToggleChip(i: nat)
      requires i < |chips|
      modifies this
      ensures chips == old(chips)[i := Chip(old(chips)[i].text, !old(chips)[i].selected)]
      ensures filtered && searchText == old(searchText)
      ensures packets == old(packets) && protoSeries == old(protoSeries)
      ensures forall p :: Visible(p) <==> Shown(chips, searchText, p)
    {
      chips := chips[i := Chip(chips[i].text, !chips[i].selected)];
      filtered := true;
    }

    /** The search field receives `text`. Its change listener runs, and
        refreshes the predicate, only when the text differs from the old one;
        setting the same text changes nothing. */
    method SetSearch(text: string)
      modifies this
      ensures searchText == text && chips == old(chips)
      ensures filtered == (old(filtered) || text != old(searchText))
      ensures packets == old(packets) && protoSeries == old(protoSeries)
      ensures text != old(searchText) ==> forall p :: Visible(p) <==> Shown(chips, text, p)
      ensures text == old(searchText) ==> forall p :: Visible(p) == old(Visible(p))
    {
      if text != searchText {
        searchText := text;
        filtered := true;
      }
    }

    /** drainAndRender: every drained packet is appended with its delta and
        counted on the chart; an empty batch changes nothing. */
    method DrainAndRender(batch: seq<CapturedPacket>)
      requires Valid()
      modifies this
      ensures Valid()
      ensures packets == Rendered(old(packets), batch)
      ensures protoSeries == BumpAll(old(protoSeries), Statistics.Protocols(batch))
      ensures chips == old(chips) && searchText == old(searchText) && filtered == old(filtered)
    {
      if batch == [] {
        return;
      }
      ghost var before := packets;
      for i := 0 to |batch|
        invariant packets == Rendered(before, batch[..i])
        invariant protoSeries == BumpAll(old(protoSeries), Statistics.Protocols(batch[..i]))
        invariant chips == old(chips) && searchText == old(searchText) && filtered == old(filtered)
      {
        var cp := batch[i];
        if packets != [] {
          cp := cp.(deltaTime := cp.timestampMs - packets[|packets| - 1].timestampMs);
        }
        assert cp == WithDelta(packets, batch[i]);
        DrainStep(before, old(protoSeries), batch, i);
        packets := packets + [cp];
        protoSeries := IncrementBar(protoSeries, cp.protocol);
      }
      assert batch[..|batch|] == batch;
      RenderedProtocols(before, batch);
      BumpAllAppend([], Statistics.Protocols(before), Statistics.Protocols(batch));
    }
  }

  /** The chart of a view agrees with the statistics badges: each bar's value
      is the number of table rows with that label. */
  lemma ChartMatchesTable(v: MainView, x: string)
    requires v.Valid()
    ensures CountOf(v.protoSeries, x) == Statistics.Occurrences(Statistics.Protocols(v.packets), x)
  {
    ChartCountsLabels(Statistics.Protocols(v.packets));
  }

  /** A view as created shows every drained row, whatever its label: a
      packet labelled "N/A", which no chip passes, is listed until a chip or
      the search text first changes, and hidden afterwards. Setting the
      search field to the text it already holds is no change and leaves the
      row listed. */
  method FreshViewShowsEverything(p: CapturedPacket) returns (before: bool, same: bool, after: bool)
    requires ToUpper(p.protocol) !in ChipLabels
    ensures before && same && !after
  {
    var v := new MainView();
    v.DrainAndRender([p]);
    before := v.Visible(p);
    v.SetSearch("");
    same := v.Visible(p);
    v.SetSearch("1");
    assert forall i :: 0 <= i < |v.chips| ==> v.chips[i].text in ChipLabels;
    OtherLabelsNeverPass(v.chips, p);
    after := v.Visible(p);
  }
}
