/** A conversation: the endpoints, label and MAC addresses fixed at creation,
    and the packet count, byte total and timestamps it accumulates. */
module Conversations {

  /** The lengths and timestamps handed to addPacket, in order. */
  datatype Added = Added(len: int, timestamp: int)

  function SumLengths(xs: seq<Added>): int {
    if xs == [] then 0 else SumLengths(xs[..|xs| - 1]) + xs[|xs| - 1].len
  }

  class Conversation {
    const srcIP: string
    const srcPort: int
    const dstIP: string
    const dstPort: int
    const proto: string
    const srcMAC: string
    const dstMAC: string

    var firstTimestamp: int
    var lastTimestamp: int
    var packetCount: int
    var totalBytes: int

    /** The length of the first packet and every later call, kept for the invariant. */
    ghost const firstLen: int
    ghost var added: seq<Added>

    /** After k calls the count is 1 + k, the total is the first length plus
        the added lengths, and the last timestamp is the last one given. */
    ghost predicate Valid()
      reads this
    {
      && packetCount == 1 + |added|
      && totalBytes == firstLen + SumLengths(added)
      && lastTimestamp == (if added == [] then firstTimestamp else added[|added| - 1].timestamp)
    }

    constructor(srcIP: string, srcPort: int, dstIP: string, dstPort: int, proto: string,
                firstTimestamp: int, firstLen: int, sourceMAC: string, destinationMAC: string)
      ensures Valid() && added == []
      ensures this.srcIP == srcIP && this.srcPort == srcPort && this.dstIP == dstIP
      ensures this.dstPort == dstPort && this.proto == proto
      ensures this.srcMAC == sourceMAC && this.dstMAC == destinationMAC
      ensures this.firstTimestamp == firstTimestamp && this.lastTimestamp == firstTimestamp
      ensures this.packetCount == 1 && this.totalBytes == firstLen && this.firstLen == firstLen
    {
      this.srcIP := srcIP;
      this.srcPort := srcPort;
      this.dstIP := dstIP;
      this.dstPort := dstPort;
      this.proto := proto;
      this.srcMAC := sourceMAC;
      this.dstMAC := destinationMAC;
      this.firstTimestamp := firstTimestamp;
      this.lastTimestamp := firstTimestamp;
      this.packetCount := 1;
      this.totalBytes := firstLen;
      this.firstLen := firstLen;
      this.added := [];
    }

    /** addPacket: one more packet, len more bytes, and the given timestamp as
        the last one, even when it is earlier than the current one. */
    method AddPacket(len: int, timestamp: int)
      requires Valid()
      modifies this
      ensures Valid()
      ensures added == old(added) + [Added(len, timestamp)]
      ensures packetCount == old(packetCount) + 1
      ensures totalBytes == old(totalBytes) + len
      ensures lastTimestamp == timestamp
      ensures firstTimestamp == old(firstTimestamp)
    {
      packetCount := packetCount + 1;
      totalBytes := totalBytes + len;
      lastTimestamp := timestamp;
      added := added + [Added(len, timestamp)];
      assert added[..|added| - 1] == old(added);
    }
  }

  /** Summing is additive over a split of the calls, so the total does not
      depend on how the calls are batched. */
  lemma {:induction false} SumLengthsAppend(xs: seq<Added>, ys: seq<Added>)
    ensures SumLengths(xs + ys) == SumLengths(xs) + SumLengths(ys)
  {
    if ys != [] {
      SumLengthsAppend(xs, ys[..|ys| - 1]);
      assert (xs + ys)[..|xs + ys| - 1] == xs + ys[..|ys| - 1];
    } else {
      assert xs + ys == xs;
    }
  }

  /** With non-negative lengths the byte total never falls below the first length. */
  lemma {:induction false} SumLengthsNonNegative(xs: seq<Added>)
    requires forall i :: 0 <= i < |xs| ==> xs[i].len >= 0
    ensures SumLengths(xs) >= 0
  {
    if xs != [] {
      SumLengthsNonNegative(xs[..|xs| - 1]);
    }
  }
}
