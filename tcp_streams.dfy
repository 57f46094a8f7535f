/** Follow-stream bookkeeping: TCP packets grouped under a key that names both
    endpoints in a fixed order, so that the two directions share one stream. */
module TcpStreams {
  import opened JavaLang
  import opened RiskDecoder

  /** "ip:port" */
  function Endpoint(ip: string, port: int): string {
    ip + ":" + IntToString(port)
  }

  /** The two endpoints in compareTo order, joined by "-"; a tie keeps the first. */
  function PairKey(a: string, b: string): string {
    if LexLe(a, b) then a + "-" + b else b + "-" + a
  }

  function StreamKey(pm: PacketModel): string {
    PairKey(Endpoint(pm.src, pm.srcPort), Endpoint(pm.dst, pm.dstPort))
  }

  /** The key names the lesser endpoint first, and both endpoints appear in it. */
  lemma PairKeyOrdered(a: string, b: string)
    ensures exists lo, hi :: (LexLe(lo, hi) && PairKey(a, b) == lo + "-" + hi
      && ((lo == a && hi == b) || (lo == b && hi == a)))
  {
    LexTotal(a, b);
    if LexLe(a, b) {
      assert LexLe(a, b) && PairKey(a, b) == a + "-" + b;
    } else {
      assert LexLe(b, a) && PairKey(a, b) == b + "-" + a;
    }
  }

  /** The key does not depend on the direction. */
  lemma PairKeySymmetric(a: string, b: string)
    ensures PairKey(a, b) == PairKey(b, a)
  {
    LexTotal(a, b);
    if LexLe(a, b) && LexLe(b, a) {
      LexAntisymmetric(a, b);
    }
  }

  /** A reply (endpoints swapped) lands in the same stream as the request. */
  lemma StreamKeyDirectionFree(p: PacketModel, q: PacketModel)
    requires q.src == p.dst && q.srcPort == p.dstPort && q.dst == p.src && q.dstPort == p.srcPort
    ensures StreamKey(p) == StreamKey(q)
  {
    PairKeySymmetric(Endpoint(p.src, p.srcPort), Endpoint(p.dst, p.dstPort));
  }

  /** Only these two labels are followed. */
  predicate IsTcp(pm: PacketModel) {
    pm.proto == "TCP" || pm.proto == "TCPv6"
  }

  /** The key leaves out the label: a TCP and a TCPv6 packet between the same endpoints share a stream. */
  lemma LabelNotInKey(p: PacketModel, newLabel: string)
    ensures StreamKey(p.(proto := newLabel)) == StreamKey(p)
  {
  }

  /* ---------------- the specification of the grouping ---------------- */

  /* The grouping is stated for any key function (the reassembler uses
     StreamKey), so that proofs about it never look inside the key. */

  type KeyFn = PacketModel -> string

  /** The packets of ps under key k, in arrival order. */
  function StreamOf(ps: seq<PacketModel>, k: string, keyOf: KeyFn): (r: seq<PacketModel>)
    ensures |r| <= |ps|
    ensures forall i :: 0 <= i < |r| ==> keyOf(r[i]) == k
  {
    if ps == [] then []
    else StreamOf(ps[..|ps| - 1], k, keyOf) + (if keyOf(ps[|ps| - 1]) == k then [ps[|ps| - 1]] else [])
  }

  function KeysOf(ps: seq<PacketModel>, keyOf: KeyFn): set<string> {
    set i | 0 <= i < |ps| :: keyOf(ps[i])
  }

  lemma StreamOfSnoc(ps: seq<PacketModel>, x: PacketModel, k: string, keyOf: KeyFn)
    ensures StreamOf(ps + [x], k, keyOf) == StreamOf(ps, k, keyOf) + (if keyOf(x) == k then [x] else [])
  {
    assert (ps + [x])[..|ps|] == ps;
  }

  lemma KeysOfSnoc(ps: seq<PacketModel>, x: PacketModel, keyOf: KeyFn)
    ensures KeysOf(ps + [x], keyOf) == KeysOf(ps, keyOf) + {keyOf(x)}
  {
    var qs := ps + [x];
    assert keyOf(qs[|ps|]) == keyOf(x);
    forall k | k in KeysOf(ps, keyOf)
      ensures k in KeysOf(qs, keyOf)
    {
      var i :| 0 <= i < |ps| && keyOf(ps[i]) == k;
      assert qs[i] == ps[i];
    }
  }

  /** A key no packet has owns the empty stream. */
  lemma {:induction false} StreamOfAbsent(ps: seq<PacketModel>, k: string, keyOf: KeyFn)
    requires k !in KeysOf(ps, keyOf)
    ensures StreamOf(ps, k, keyOf) == []
  {
    if ps != [] {
      var front := ps[..|ps| - 1];
      assert ps == front + [ps[|ps| - 1]];
      KeysOfSnoc(front, ps[|ps| - 1], keyOf);
      StreamOfAbsent(front, k, keyOf);
    }
  }

  /** Every packet is in the stream of its own key. */
  lemma {:induction false} StreamOfContains(ps: seq<PacketModel>, i: nat, keyOf: KeyFn)
    requires i < |ps|
    ensures ps[i] in StreamOf(ps, keyOf(ps[i]), keyOf)
  {
    var front := ps[..|ps| - 1];
    assert ps == front + [ps[|ps| - 1]];
    StreamOfSnoc(front, ps[|ps| - 1], keyOf(ps[i]), keyOf);
    if i < |ps| - 1 {
      StreamOfContains(front, i, keyOf);
    }
  }

  /* ---------------- totals over a list of keys ---------------- */

  predicate Distinct(keys: seq<string>) {
    forall i, j :: 0 <= i < j < |keys| ==> keys[i] != keys[j]
  }

  /** The number of packets stored under the given keys. */
  function TotalOver(keys: seq<string>, m: map<string, seq<PacketModel>>): nat {
    if keys == [] then 0
    else (if keys[0] in m then |m[keys[0]]| else 0) + TotalOver(keys[1..], m)
  }

  lemma {:induction false} TotalOverOther(keys: seq<string>, m: map<string, seq<PacketModel>>, k: string, v: seq<PacketModel>)
    requires k !in keys
    ensures TotalOver(keys, m[k := v]) == TotalOver(keys, m)
  {
    if keys != [] {
      TotalOverOther(keys[1..], m, k, v);
    }
  }

  lemma {:induction false} TotalOverGrow(keys: seq<string>, m: map<string, seq<PacketModel>>, k: string, x: PacketModel)
    requires Distinct(keys) && k in keys && k in m
    ensures TotalOver(keys, m[k := m[k] + [x]]) == TotalOver(keys, m) + 1
  {
    if keys[0] == k {
      assert k !in keys[1..];
      TotalOverOther(keys[1..], m, k, m[k] + [x]);
    } else {
      TotalOverGrow(keys[1..], m, k, x);
    }
  }

  lemma {:induction false} TotalOverSnoc(keys: seq<string>, m: map<string, seq<PacketModel>>, k: string)
    requires k in m
    ensures TotalOver(keys + [k], m) == TotalOver(keys, m) + |m[k]|
  {
    if keys == [] {
      assert [k][1..] == [];
    } else {
      assert (keys + [k])[1..] == keys[1..] + [k];
      TotalOverSnoc(keys[1..], m, k);
    }
  }

  /* ---------------- the grouping invariant ---------------- */

  /** Every stream is exactly the accepted packets with its key, the key set
      is exactly the keys of accepted packets, and the streams together hold
      each accepted packet once. */
  ghost predicate Grouped(streams: map<string, seq<PacketModel>>, accepted: seq<PacketModel>, keyOrder: seq<string>, keyOf: KeyFn) {
    && Indexed(streams, accepted, keyOf)
    && (forall i :: 0 <= i < |accepted| ==> IsTcp(accepted[i]))
    && Counted(streams, keyOrder, |accepted|)
  }

  ghost predicate Indexed(streams: map<string, seq<PacketModel>>, accepted: seq<PacketModel>, keyOf: KeyFn) {
    && streams.Keys == KeysOf(accepted, keyOf)
    && (forall k :: k in streams ==> streams[k] == StreamOf(accepted, k, keyOf))
  }

  /** keyOrder lists each stored key once, and the lists hold n packets in all. */
  ghost predicate Counted(streams: map<string, seq<PacketModel>>, keyOrder: seq<string>, n: nat) {
    && Distinct(keyOrder)
    && (forall k :: k in keyOrder <==> k in streams)
    && TotalOver(keyOrder, streams) == n
  }

  /** The list under a key, or the empty list. */
  function StreamOrEmpty(streams: map<string, seq<PacketModel>>, k: string): seq<PacketModel> {
    if k in streams then streams[k] else []
  }

  /** The map after one accepted packet under key k. */
  function Added(streams: map<string, seq<PacketModel>>, k: string, pm: PacketModel): map<string, seq<PacketModel>> {
    streams[k := StreamOrEmpty(streams, k) + [pm]]
  }

  function AddedOrder(streams: map<string, seq<PacketModel>>, keyOrder: seq<string>, k: string): seq<string> {
    if k in streams then keyOrder else keyOrder + [k]
  }

  lemma GroupedLookup(streams: map<string, seq<PacketModel>>, accepted: seq<PacketModel>, k: string, keyOf: KeyFn)
    requires Indexed(streams, accepted, keyOf)
    ensures StreamOrEmpty(streams, k) == StreamOf(accepted, k, keyOf)
  {
    if k !in streams {
      StreamOfAbsent(accepted, k, keyOf);
    }
  }

  lemma AddedStreams(streams: map<string, seq<PacketModel>>, accepted: seq<PacketModel>, pm: PacketModel, keyOf: KeyFn)
    requires Indexed(streams, accepted, keyOf)
    ensures Indexed(Added(streams, keyOf(pm), pm), accepted + [pm], keyOf)
  {
    var s' := Added(streams, keyOf(pm), pm);
    KeysOfSnoc(accepted, pm, keyOf);
    forall k | k in s'
      ensures s'[k] == StreamOf(accepted + [pm], k, keyOf)
    {
      StreamOfSnoc(accepted, pm, k, keyOf);
      GroupedLookup(streams, accepted, k, keyOf);
    }
  }

  lemma AddedTotal(streams: map<string, seq<PacketModel>>, keyOrder: seq<string>, n: nat, k: string, pm: PacketModel)
    requires Counted(streams, keyOrder, n)
    ensures Counted(Added(streams, k, pm), AddedOrder(streams, keyOrder, k), n + 1)
  {
    if k in streams {
      TotalOverGrow(keyOrder, streams, k, pm);
    } else {
      assert StreamOrEmpty(streams, k) + [pm] == [pm];
      TotalOverOther(keyOrder, streams, k, [pm]);
      TotalOverSnoc(keyOrder, streams[k := [pm]], k);
    }
  }

  lemma AddedGrouped(streams: map<string, seq<PacketModel>>, accepted: seq<PacketModel>, keyOrder: seq<string>, pm: PacketModel, keyOf: KeyFn)
    requires Grouped(streams, accepted, keyOrder, keyOf) && IsTcp(pm)
    ensures Grouped(Added(streams, keyOf(pm), pm), accepted + [pm], AddedOrder(streams, keyOrder, keyOf(pm)), keyOf)
  {
    AddedStreams(streams, accepted, pm, keyOf);
    AddedTotal(streams, keyOrder, |accepted|, keyOf(pm), pm);
    AllTcpSnoc(accepted, pm);
  }

  lemma AllTcpSnoc(accepted: seq<PacketModel>, pm: PacketModel)
    requires (forall i :: 0 <= i < |accepted| ==> IsTcp(accepted[i])) && IsTcp(pm)
    ensures forall i :: 0 <= i < |accepted + [pm]| ==> IsTcp((accepted + [pm])[i])
  {
    var acc' := accepted + [pm];
    forall i | 0 <= i < |acc'|
      ensures IsTcp(acc'[i])
    {
      if i < |accepted| {
        assert acc'[i] == accepted[i];
      }
    }
  }

  /** A stream is never stored empty. */
  lemma GroupedNonEmpty(streams: map<string, seq<PacketModel>>, accepted: seq<PacketModel>, k: string, keyOf: KeyFn)
    requires Indexed(streams, accepted, keyOf) && k in streams
    ensures streams[k] != []
  {
    var i :| 0 <= i < |accepted| && keyOf(accepted[i]) == k;
    StreamOfContains(accepted, i, keyOf);
  }

  /* ---------------- the reassembler ---------------- */

  class TcpStreamReassembler {
    var streams: map<string, seq<PacketModel>>
    /** The TCP packets added so far, in order. */
    ghost var accepted: seq<PacketModel>
    /** The keys in the order they were first seen. */
    ghost var keyOrder: seq<string>

    ghost predicate Valid()
      reads this
    {
      Grouped(streams, accepted, keyOrder, StreamKey)
    }

    constructor()
      ensures Valid() && accepted == [] && streams == map[]
    {
      streams := map[];
      accepted := [];
      keyOrder := [];
    }

    /** getStream: the list under the key, or the empty list. */
    function GetStream(k: string): (r: seq<PacketModel>)
      reads this
      requires Valid()
      ensures r == StreamOf(accepted, k, StreamKey)
    {
      GroupedLookup(streams, accepted, k, StreamKey);
      if k in streams then streams[k] else []
    }

    /** getAllStreamKeys */
    function GetAllStreamKeys(): (r: set<string>)
      reads this
      requires Valid()
      ensures r == KeysOf(accepted, StreamKey)
      ensures forall k :: k in r <==> GetStream(k) != []
    {
      assert forall k :: k in streams ==> streams[k] != [] by {
        forall k | k in streams
          ensures streams[k] != []
        {
          GroupedNonEmpty(streams, accepted, k, StreamKey);
        }
      }
      streams.Keys
    }

    /** addPacket: a TCP or TCPv6 packet goes to the end of its stream, creating
        the stream on first sight; any other label is ignored. */
    method AddPacket(pm: PacketModel)
      requires Valid()
      modifies this
      ensures Valid()
      ensures IsTcp(pm) ==> accepted == old(accepted) + [pm]
      ensures IsTcp(pm) ==> streams == Added(old(streams), StreamKey(pm), pm)
      ensures !IsTcp(pm) ==> accepted == old(accepted) && streams == old(streams)
    {
      if !IsTcp(pm) {
        return;
      }
      var key := StreamKey(pm);
      AddedGrouped(streams, accepted, keyOrder, pm, StreamKey);
      keyOrder := AddedOrder(streams, keyOrder, key);
      var list := StreamOrEmpty(streams, key);
      streams := streams[key := list + [pm]];
      accepted := accepted + [pm];
    }
  }
}
