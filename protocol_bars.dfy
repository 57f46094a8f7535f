/** The protocol bar chart both main views keep: an ordered list of
    (label, count) bars that each displayed packet bumps. */
module ProtocolBars {
  import opened JavaLang
  import Statistics

  datatype Bar = Bar(name: string, count: int)

  /** The first bar carrying label l, if any. */
  function IndexOfLabel(bars: seq<Bar>, l: string): (r: Option<nat>)
    ensures r.Some? ==> r.value < |bars| && bars[r.value].name == l
    ensures r.Some? ==> forall j :: 0 <= j < r.value ==> bars[j].name != l
    ensures r.None? ==> forall j :: 0 <= j < |bars| ==> bars[j].name != l
  {
    if bars == [] then None
    else if bars[0].name == l then Some(0)
    else match IndexOfLabel(bars[1..], l)
      case None => None
      case Some(j) => Some(j + 1)
  }

  /** updateStats: add one to the first bar of the packet's label, or append a
      new bar with count 1 at the end. */
  function Bump(bars: seq<Bar>, l: string): seq<Bar> {
    match IndexOfLabel(bars, l)
    case Some(j) => bars[j := Bar(l, bars[j].count + 1)]
    case None => bars + [Bar(l, 1)]
  }

  /** The bars after bumping once per label, in order. */
  function BumpAll(bars: seq<Bar>, labels: seq<string>): seq<Bar> {
    if labels == [] then bars else Bump(BumpAll(bars, labels[..|labels| - 1]), labels[|labels| - 1])
  }

  /** The loop of updateStats: scan the bars, increment and return on the
      first equal label, append when none matches. */
  method IncrementBar(bars: seq<Bar>, l: string) returns (r: seq<Bar>)
    ensures r == Bump(bars, l)
  {
    for i := 0 to |bars|
      invariant forall j :: 0 <= j < i ==> bars[j].name != l
    {
      if bars[i].name == l {
        return bars[i := Bar(l, bars[i].count + 1)];
      }
    }
    r := bars + [Bar(l, 1)];
  }

  /** Bumping for two runs of labels is bumping for the first, then the second. */
  lemma {:induction false} BumpAllAppend(bars: seq<Bar>, xs: seq<string>, ys: seq<string>)
    ensures BumpAll(bars, xs + ys) == BumpAll(BumpAll(bars, xs), ys)
  {
    if ys != [] {
      BumpAllAppend(bars, xs, ys[..|ys| - 1]);
      assert (xs + ys)[..|xs + ys| - 1] == xs + ys[..|ys| - 1];
    } else {
      assert xs + ys == xs;
    }
  }

  predicate UniqueLabels(bars: seq<Bar>) {
    forall i, j :: 0 <= i < j < |bars| ==> bars[i].name != bars[j].name
  }

  /** The value shown for label l; 0 when it has no bar. */
  function CountOf(bars: seq<Bar>, l: string): int {
    match IndexOfLabel(bars, l)
    case Some(j) => bars[j].count
    case None => 0
  }

  function Total(bars: seq<Bar>): int {
    if bars == [] then 0 else bars[0].count + Total(bars[1..])
  }

  /** Bumping keeps one bar per label. */
  lemma BumpKeepsUnique(bars: seq<Bar>, l: string)
    requires UniqueLabels(bars)
    ensures UniqueLabels(Bump(bars, l))
  {
  }

  /** With one bar per label, the value of a bar's label is that bar's count. */
  lemma CountOfAt(bars: seq<Bar>, i: nat)
    requires UniqueLabels(bars) && i < |bars|
    ensures CountOf(bars, bars[i].name) == bars[i].count
  {
  }

  /** Bumping adds one to the bumped label and leaves every other label's value alone. */
  lemma BumpCountOf(bars: seq<Bar>, l: string, x: string)
    requires UniqueLabels(bars)
    ensures CountOf(Bump(bars, l), x) == CountOf(bars, x) + (if x == l then 1 else 0)
  {
    BumpKeepsUnique(bars, l);
    var b := Bump(bars, l);
    var j := match IndexOfLabel(bars, l) case Some(j) => j case None => |bars|;
    assert b[j].name == l;
    assert forall i :: 0 <= i < |bars| && i != j ==> b[i] == bars[i];
    if x == l {
      CountOfAt(b, j);
      if j < |bars| {
        CountOfAt(bars, j);
      }
    } else if i :| 0 <= i < |bars| && bars[i].name == x {
      CountOfAt(b, i);
      CountOfAt(bars, i);
    } else {
      assert forall i :: 0 <= i < |b| ==> b[i].name != x;
    }
  }

  lemma {:induction false} TotalUpdate(bars: seq<Bar>, j: nat, b: Bar)
    requires j < |bars|
    ensures Total(bars[j := b]) == Total(bars) - bars[j].count + b.count
  {
    if j > 0 {
      TotalUpdate(bars[1..], j - 1, b);
      assert bars[j := b][1..] == bars[1..][j - 1 := b];
    }
  }

  lemma {:induction false} TotalAppend(bars: seq<Bar>, b: Bar)
    ensures Total(bars + [b]) == Total(bars) + b.count
  {
    if bars != [] {
      TotalAppend(bars[1..], b);
      assert (bars + [b])[1..] == bars[1..] + [b];
    }
  }

  /** Every bump adds exactly one to the total of the bars. */
  lemma BumpTotal(bars: seq<Bar>, l: string)
    ensures Total(Bump(bars, l)) == Total(bars) + 1
  {
    match IndexOfLabel(bars, l)
    case Some(j) => TotalUpdate(bars, j, Bar(l, bars[j].count + 1));
    case None => TotalAppend(bars, Bar(l, 1));
  }

  /** Starting from no bars, the chart has one bar per label seen, each bar's
      value is the number of packets with that label, and the values add up
      to the number of packets displayed. */
  lemma {:induction false} ChartCountsLabels(labels: seq<string>)
    ensures UniqueLabels(BumpAll([], labels))
    ensures Total(BumpAll([], labels)) == |labels|
    ensures forall x :: CountOf(BumpAll([], labels), x) == Statistics.Occurrences(labels, x)
  {
    if labels != [] {
      var init := labels[..|labels| - 1];
      var l := labels[|labels| - 1];
      ChartCountsLabels(init);
      BumpKeepsUnique(BumpAll([], init), l);
      BumpTotal(BumpAll([], init), l);
      forall x
        ensures CountOf(BumpAll([], labels), x) == Statistics.Occurrences(labels, x)
      {
        BumpCountOf(BumpAll([], init), l, x);
      }
    }
  }
}
