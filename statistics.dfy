/** The figures the statistics panel recomputes from the whole packet list on
    every change: per-label counts for six labels, the ten-second rate, the
    byte total and average, and the top talker. */
module Statistics {
  import opened RiskDecoder

  /** The labels that have a counter badge, in display order. */
  const ShownLabels: seq<string> := ["TCP", "UDP", "ICMP", "ARP", "HTTP", "HTTPS"]
  const RateWindowMs: int := 10000
  const NoTalker: string := "N/A"

  /* ---------------- counting by key ---------------- */

  /** How many times x occurs in xs. */
  function Occurrences(xs: seq<string>, x: string): nat {
    if xs == [] then 0
    else Occurrences(xs[..|xs| - 1], x) + (if xs[|xs| - 1] == x then 1 else 0)
  }

  /** groupingBy(..., counting()): the map built one element at a time. */
  function CountingMap(xs: seq<string>): map<string, nat> {
    if xs == [] then map[]
    else
      var m := CountingMap(xs[..|xs| - 1]);
      var x := xs[|xs| - 1];
      m[x := (if x in m then m[x] else 0) + 1]
  }

  function GetOrDefault(m: map<string, nat>, k: string, d: nat): nat {
    if k in m then m[k] else d
  }

  /** The grouping map holds exactly the occurring keys, each with its number of occurrences. */
  lemma {:induction false} CountingMapIsOccurrences(xs: seq<string>, x: string)
    ensures x in CountingMap(xs) <==> Occurrences(xs, x) > 0
    ensures GetOrDefault(CountingMap(xs), x, 0) == Occurrences(xs, x)
  {
    if xs != [] {
      CountingMapIsOccurrences(xs[..|xs| - 1], x);
    }
  }

  lemma {:induction false} OccursAt(xs: seq<string>, j: int)
    requires 0 <= j < |xs|
    ensures Occurrences(xs, xs[j]) > 0
  {
    if j < |xs| - 1 {
      OccursAt(xs[..|xs| - 1], j);
    }
  }

  lemma {:induction false} OccurrencesBounded(xs: seq<string>, x: string)
    ensures Occurrences(xs, x) <= |xs|
  {
    if xs != [] {
      OccurrencesBounded(xs[..|xs| - 1], x);
    }
  }

  function Protocols(ps: seq<CapturedPacket>): (r: seq<string>)
    ensures |r| == |ps| && forall i :: 0 <= i < |ps| ==> r[i] == ps[i].protocol
  {
    seq(|ps|, i requires 0 <= i < |ps| => ps[i].protocol)
  }

  function Sources(ps: seq<CapturedPacket>): (r: seq<string>)
    ensures |r| == |ps| && forall i :: 0 <= i < |ps| ==> r[i] == ps[i].srcIp
  {
    seq(|ps|, i requires 0 <= i < |ps| => ps[i].srcIp)
  }

  /* ---------------- protocol badges ---------------- */

  /** Each badge shows the grouped count of its label, or 0. */
  function BadgeCounts(ps: seq<CapturedPacket>): (m: map<string, nat>)
    ensures m.Keys == set l | l in ShownLabels
  {
    var groups := CountingMap(Protocols(ps));
    map l | l in ShownLabels :: GetOrDefault(groups, l, 0)
  }

  /** A badge's count is the number of packets carrying exactly its label. */
  lemma BadgeIsLabelCount(ps: seq<CapturedPacket>, l: string)
    requires l in ShownLabels
    ensures BadgeCounts(ps)[l] == Occurrences(Protocols(ps), l)
  {
    CountingMapIsOccurrences(Protocols(ps), l);
  }

  /* ---------------- rate ---------------- */

  /** The number of packets stamped at or after `from`. */
  function CountSince(ps: seq<CapturedPacket>, from: int): (n: nat)
    ensures n <= |ps|
  {
    if ps == [] then 0
    else CountSince(ps[..|ps| - 1], from) + (if ps[|ps| - 1].timestampMs >= from then 1 else 0)
  }

  /** Packets per second over the ten seconds before the last list element's
      timestamp; 0 for fewer than two packets. */
  function Rate(ps: seq<CapturedPacket>): (r: nat)
    ensures |ps| < 2 ==> r == 0
    ensures |ps| >= 2 ==> var n := CountSince(ps, ps[|ps| - 1].timestampMs - RateWindowMs); r * 10 <= n < r * 10 + 10
    ensures r * 10 <= |ps|
  {
    if |ps| > 1 then CountSince(ps, ps[|ps| - 1].timestampMs - RateWindowMs) / 10 else 0
  }

  /** A packet with only a timestamp set. */
  function StampedAt(ts: int): CapturedPacket {
    CapturedPacket(0, "", ts, 0, "", "", "", "", "", NoPort, NoPort, 0, "", "", RiskNone,
      PacketDetail("", "", "", "", "", "", "", map[]))
  }

  /** The window is anchored at the last element, not at the latest timestamp:
      nine packets at 0 s, one at 20 s, then one at 5 s give a rate of 1,
      where a window ending at 20 s would hold a single packet and give 0. */
  lemma RateAnchoredAtLast()
    ensures var ps := seq(9, _ => StampedAt(0)) + [StampedAt(20000), StampedAt(5000)];
      Rate(ps) == 1 && CountSince(ps, 20000 - RateWindowMs) / 10 == 0
  {
    var ps := seq(9, _ => StampedAt(0)) + [StampedAt(20000), StampedAt(5000)];
    var zeros := seq(9, _ => StampedAt(0));
    var prefix := zeros + [StampedAt(20000)];
    assert ps[..|ps| - 1] == prefix;
    assert prefix[..9] == zeros;
    ZerosSince(9, -5000);
    ZerosSince(9, 10000);
    assert CountSince(prefix, -5000) == 10;
    assert CountSince(prefix, 10000) == 1;
    assert CountSince(ps, -5000) == 11;
  }

  lemma {:induction false} ZerosSince(n: nat, from: int)
    ensures CountSince(seq(n, _ => StampedAt(0)), from) == if 0 >= from then n else 0
  {
    if n > 0 {
      assert seq(n, _ => StampedAt(0))[..n - 1] == seq(n - 1, _ => StampedAt(0));
      ZerosSince(n - 1, from);
    }
  }

  /* ---------------- bytes ---------------- */

  function TotalBytes(ps: seq<CapturedPacket>): nat {
    if ps == [] then 0 else TotalBytes(ps[..|ps| - 1]) + ps[|ps| - 1].length
  }

  /** Integer average packet size; 0 for an empty list. */
  function AverageSize(ps: seq<CapturedPacket>): (a: nat)
    ensures ps == [] ==> a == 0
    ensures ps != [] ==> a * |ps| <= TotalBytes(ps) < (a + 1) * |ps|
  {
    if ps == [] then 0 else TotalBytes(ps) / |ps|
  }

  /* ---------------- top talker ---------------- */

  /** The source with the most packets among those at positions i and later;
      the earliest such position wins a tie. */
  function BestFrom(xs: seq<string>, i: nat): (b: string)
    requires i < |xs|
    ensures exists j :: i <= j < |xs| && xs[j] == b
    ensures forall j :: i <= j < |xs| ==> Occurrences(xs, xs[j]) <= Occurrences(xs, b)
    decreases |xs| - i
  {
    if i == |xs| - 1 then xs[i]
    else
      var b := BestFrom(xs, i + 1);
      if Occurrences(xs, xs[i]) >= Occurrences(xs, b) then xs[i] else b
  }

  /** The top talker and its count, or ("N/A", 0) for an empty list. */
  function TopTalker(ps: seq<CapturedPacket>): (t: (string, nat))
    ensures ps == [] ==> t == (NoTalker, 0)
    ensures ps != [] ==> exists i :: 0 <= i < |ps| && ps[i].srcIp == t.0
    ensures forall i :: 0 <= i < |ps| ==> Occurrences(Sources(ps), ps[i].srcIp) <= t.1
    ensures t.1 == Occurrences(Sources(ps), t.0)
  {
    var srcs := Sources(ps);
    var top := if ps == [] then NoTalker else BestFrom(srcs, 0);
    CountingMapIsOccurrences(srcs, top);
    (top, GetOrDefault(CountingMap(srcs), top, 0))
  }

  /** The shown count is positive and at most the list length whenever there are packets. */
  lemma TopTalkerCountBounds(ps: seq<CapturedPacket>)
    requires ps != []
    ensures 0 < TopTalker(ps).1 <= |ps|
  {
    var t := TopTalker(ps);
    var i :| 0 <= i < |ps| && ps[i].srcIp == t.0;
    OccursAt(Sources(ps), i);
    OccurrencesBounded(Sources(ps), t.0);
  }
}
