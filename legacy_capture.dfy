/** The capture service at the top of the package, whose file holds two
    unmerged versions. The "upstream" version queues every record and counts
    the records per label; the "stashed" version keeps a list for lookup by
    table row. Both number the frames from a counter that is incremented before
    the frame is decoded, and both close the handle in `finally`. */
module LegacyCapture {
  import opened JavaLang
  import opened Pcap
  import opened HexDump
  import opened PcapHandles
  import opened RiskDecoder
  import Statistics

  const CapturingPrefix: string := "▶ Capturing on "
  const ErrorPrefix: string := "❌ "
  const StoppedText: string := "■ Capture stopped"
  /** The message of the InterruptedException a broken loop throws, as
      string concatenation writes a null message. */
  const NullMessage: string := "null"

  /** A frame as the library delivers it: the decoded header chain, the raw
      bytes, and the wall-clock time of its arrival. */
  datatype Frame = Frame(packet: Packet, data: seq<Byte>, time: string)

  /** The limit rule after packet idx: the upstream version (guarded) stops
      only for a positive limit, the stashed version stops once idx >= limit. */
  predicate Stops(guarded: bool, limit: int, idx: int) {
    (!guarded || limit > 0) && idx >= limit
  }

  /** What the listener stores for frame f numbered idx: the record, or nothing
      when decoding throws (the exception ends that callback only). */
  function Stored(f: Frame, idx: int): Option<PacketModel> {
    match Decode(f.packet, f.data, idx, f.time)
    case Success(pm) => Some(pm)
    case Failure(_) => None
  }

  /** Stored has a record exactly for the frames with a network payload. */
  lemma StoredIffPayload(f: Frame, idx: int)
    ensures Stored(f, idx).Some? <==> !NetworkPayload(f.packet).Nil?
    ensures Stored(f, idx).Some? ==> Stored(f, idx).value == Decode(f.packet, f.data, idx, f.time).value
  {
  }

  /** The listener's decoding step: a frame and its number to the record stored, if any. */
  type Decoder = (Frame, int) -> Option<PacketModel>

  /** What the listener makes of each frame, the k-th frame being numbered k + 1. */
  function Outcomes(frames: seq<Frame>, decode: Decoder): (r: seq<Option<PacketModel>>)
    ensures |r| == |frames|
    ensures forall k :: 0 <= k < |frames| ==> r[k] == decode(frames[k], k + 1)
  {
    seq(|frames|, k requires 0 <= k < |frames| => decode(frames[k], k + 1))
  }

  function OptionSeq(o: Option<PacketModel>): seq<PacketModel> {
    match o
    case Some(pm) => [pm]
    case None => []
  }

  /** The records a capture loop stores from the listener's outcomes, the
      counter having reached `start`: each outcome takes the next number; a
      stored record whose number satisfies the limit rule ends the loop. */
  function Run(outs: seq<Option<PacketModel>>, start: int, guarded: bool, limit: int): seq<PacketModel>
    decreases |outs|
  {
    if outs == [] then []
    else
      var idx := start + 1;
      match outs[0]
      case None => Run(outs[1..], idx, guarded, limit)
      case Some(pm) => [pm] + (if Stops(guarded, limit, idx) then [] else Run(outs[1..], idx, guarded, limit))
  }

  /** Whether the loop over the outcomes ends through breakLoop: some record
      is taken whose number satisfies the limit rule. */
  predicate RunBreaks(outs: seq<Option<PacketModel>>, start: int, guarded: bool, limit: int)
    decreases |outs|
  {
    if outs == [] then false
    else (outs[0].Some? && Stops(guarded, limit, start + 1)) || RunBreaks(outs[1..], start + 1, guarded, limit)
  }

  /** With every frame decoding, the upstream loop is broken exactly when a
      positive limit is reached within the frames. */
  lemma {:induction false} BreaksIffLimitReached(outs: seq<Option<PacketModel>>, start: int, limit: int)
    requires forall k :: 0 <= k < |outs| ==> outs[k].Some?
    requires start < limit || limit <= 0
    ensures RunBreaks(outs, start, true, limit) <==> 0 < limit <= start + |outs|
  {
    if outs != [] && !Stops(true, limit, start + 1) {
      BreaksIffLimitReached(outs[1..], start + 1, limit);
    }
  }

  /** How many outcomes a loop starting after `start` takes when all are records. */
  function Taken(count: nat, start: int, guarded: bool, limit: int): (n: nat)
    ensures n <= count
  {
    if (!guarded || limit > 0) && limit - start < count then
      if limit - start < 1 then (if count == 0 then 0 else 1) else limit - start
    else count
  }

  /** When every frame decodes, the records are the outcomes without a gap,
      and the loop takes exactly Taken of them. */
  lemma {:induction false} RunWhenAllDecode(outs: seq<Option<PacketModel>>, start: int, guarded: bool, limit: int)
    requires forall k :: 0 <= k < |outs| ==> outs[k].Some?
    ensures |Run(outs, start, guarded, limit)| == Taken(|outs|, start, guarded, limit)
    ensures forall k :: 0 <= k < |Run(outs, start, guarded, limit)| ==> Run(outs, start, guarded, limit)[k] == outs[k].value
  {
    if outs != [] {
      var idx := start + 1;
      if !Stops(guarded, limit, idx) {
        RunWhenAllDecode(outs[1..], idx, guarded, limit);
        var rest := Run(outs[1..], idx, guarded, limit);
        forall k | 1 <= k < 1 + |rest|
          ensures ([outs[0].value] + rest)[k] == outs[k].value
        {
          assert outs[1..][k - 1] == outs[k];
        }
      }
    }
  }

  /** With every frame decoding, record k carries number start + k + 1: the
      numbers run on without a gap. */
  lemma NumbersWithoutGap(frames: seq<Frame>, guarded: bool, limit: int)
    requires forall k :: 0 <= k < |frames| ==> !NetworkPayload(frames[k].packet).Nil?
    ensures |Run(Outcomes(frames, Stored), 0, guarded, limit)| == Taken(|frames|, 0, guarded, limit)
    ensures forall k :: 0 <= k < |Run(Outcomes(frames, Stored), 0, guarded, limit)| ==>
      Run(Outcomes(frames, Stored), 0, guarded, limit)[k].no == k + 1
  {
    var outs := Outcomes(frames, Stored);
    forall k | 0 <= k < |outs| ensures outs[k].Some? && outs[k].value.no == k + 1 {
      StoredIffPayload(frames[k], k + 1);
    }
    RunWhenAllDecode(outs, 0, guarded, limit);
  }

  /** A frame that does not decode still uses up its number, so the next
      record is numbered two past the previous one. */
  lemma FailedFrameUsesNumber(frames: seq<Frame>, guarded: bool, limit: int)
    requires |frames| >= 2 && NetworkPayload(frames[0].packet).Nil? && !NetworkPayload(frames[1].packet).Nil?
    ensures Run(Outcomes(frames, Stored), 0, guarded, limit) != []
    ensures Run(Outcomes(frames, Stored), 0, guarded, limit)[0].no == 2
  {
    var outs := Outcomes(frames, Stored);
    StoredIffPayload(frames[0], 1);
    StoredIffPayload(frames[1], 2);
    assert outs[1..][0] == outs[1];
  }

  /** The two limit rules: the same for a positive limit, but with a limit of
      0 or less the upstream version never stops and the stashed one stops
      after the first record. */
  lemma LimitRules(limit: int, idx: int)
    ensures limit > 0 ==> (Stops(true, limit, idx) <==> Stops(false, limit, idx))
    ensures limit <= 0 ==> !Stops(true, limit, idx)
    ensures limit <= 0 && idx >= 1 ==> Stops(false, limit, idx)
  {
  }

  /** The labels of the records, in order. */
  function Labels(ps: seq<PacketModel>): (r: seq<string>)
    ensures |r| == |ps|
    ensures forall i :: 0 <= i < |ps| ==> r[i] == ps[i].proto
  {
    if ps == [] then [] else Labels(ps[..|ps| - 1]) + [ps[|ps| - 1].proto]
  }

  /* ---------------- the "upstream" version ---------------- */

  class UpstreamCaptureService {
    var handle: Handle
    var queue: seq<PacketModel>
    var stats: map<string, nat>
    /** The messages passed to the status consumer, oldest first. */
    var emitted: seq<string>
    var index: nat
    var limit: int
    var breakRequested: bool
    /** Every record offered to the queue since construction. */
    ghost var offered: seq<PacketModel>
    /** The listener's decoding step, PacketModel.fromRaw: Stored. */
    const decode: Decoder

    /** The per-label counters count every record offered, by label. */
    ghost predicate Valid()
      reads this`stats, this`offered
    {
      stats == Statistics.CountingMap(Labels(offered))
    }

    constructor()
      ensures Valid() && handle == Null && queue == [] && stats == map[] && offered == []
      ensures decode == Stored
    {
      decode := Stored;
      handle := Null;
      queue := [];
      stats := map[];
      emitted := [];
      index := 0;
      limit := 0;
      breakRequested := false;
      offered := [];
    }

    /** The listener: decode with the next number; a record is queued and
        counted under its label (a counter is created on first sight). */
    method OnPacket(f: Frame)
      requires Valid()
      modifies this
      ensures Valid()
      ensures index == old(index) + 1
      ensures queue == old(queue) + OptionSeq(decode(f, index))
      ensures offered == old(offered) + OptionSeq(decode(f, index))
      ensures breakRequested == (old(breakRequested) || (decode(f, index).Some? && Stops(true, limit, index)))
      ensures handle == old(handle) && limit == old(limit) && emitted == old(emitted)
    {
      index := index + 1;
      var r := decode(f, index);
      if r.None? {
        return;
      }
      Offer(r.value);
      if limit > 0 && index >= limit {
        breakRequested := true;
      }
    }

    /** The queueing and counting half of the listener: the record is queued
        and its label's counter goes up by one. */
    method Offer(pm: PacketModel)
      requires Valid()
      modifies this
      ensures Valid()
      ensures queue == old(queue) + [pm] && offered == old(offered) + [pm]
      ensures stats == old(stats)[pm.proto := Statistics.GetOrDefault(old(stats), pm.proto, 0) + 1]
      ensures handle == old(handle) && index == old(index) && limit == old(limit)
      ensures emitted == old(emitted) && breakRequested == old(breakRequested)
    {
      queue := queue + [pm];
      var count := if pm.proto in stats then stats[pm.proto] else 0;
      stats := stats[pm.proto := count + 1];
      CountingSnoc(offered, pm);
      offered := offered + [pm];
    }

    /** The capture loop: frames until the limit rule fires. */
    method Loop(frames: seq<Frame>)
      requires Valid() && index == 0 && !breakRequested
      modifies this
      ensures Valid()
      ensures queue == old(queue) + Run(Outcomes(frames, decode), 0, true, limit)
      ensures offered == old(offered) + Run(Outcomes(frames, decode), 0, true, limit)
      ensures breakRequested == RunBreaks(Outcomes(frames, decode), 0, true, limit)
      ensures handle == old(handle) && limit == old(limit) && emitted == old(emitted)
    {
      ghost var q0, o0 := queue, offered;
      ghost var outs := Outcomes(frames, decode);
      ghost var taken: seq<PacketModel> := [];
      assert outs[0..] == outs;
      var i := 0;
      while i < |frames| && !breakRequested
        invariant 0 <= i <= |frames|
        invariant Valid()
        invariant index == i && limit == old(limit) && handle == old(handle) && emitted == old(emitted)
        invariant queue == q0 + taken && offered == o0 + taken
        invariant taken + (if breakRequested then [] else Run(outs[i..], i, true, limit)) == Run(outs, 0, true, limit)
        invariant RunBreaks(outs, 0, true, limit) == (breakRequested || RunBreaks(outs[i..], i, true, limit))
      {
        ghost var step := OptionSeq(outs[i]);
        OnPacket(frames[i]);
        RunStep(outs, i, true, limit, taken);
        BreakStep(outs, i, true, limit);
        Regroup(q0, taken, step);
        Regroup(o0, taken, step);
        taken := taken + step;
        i := i + 1;
      }
      RunDone(outs, i, true, limit, taken, breakRequested);
      assert !breakRequested ==> outs[i..] == [];
    }

    /** start: the capture thread. The open and the filter happen inside it;
        a failure is reported with its message and ends in `finally`, which
        closes the handle if it is open (also a handle left from a previous
        start) and reports the stop. A loop ended by breakLoop throws an
        InterruptedException without a message, reported as "❌ null". */
    method Start(devName: string, openError: Option<string>, bpf: Option<string>,
                 filterError: Option<string>, limit: int, frames: seq<Frame>)
      requires Valid()
      modifies this
      ensures Valid()
      ensures handle == (if openError.Some? then CloseIfOpen(old(handle)) else Closed)
      ensures var filtered := bpf.Some? && !IsBlank(bpf.value) && filterError.Some?;
        emitted == old(emitted) + [CapturingPrefix + devName]
          + (if openError.Some? then [ErrorPrefix + openError.value]
             else if filtered then [ErrorPrefix + filterError.value]
             else if RunBreaks(Outcomes(frames, decode), 0, true, limit) then [ErrorPrefix + NullMessage]
             else [])
          + [StoppedText]
      ensures var filtered := bpf.Some? && !IsBlank(bpf.value) && filterError.Some?;
        if openError.Some? || filtered then queue == old(queue) && offered == old(offered)
        else (queue == old(queue) + Run(Outcomes(frames, decode), 0, true, limit)
              && offered == old(offered) + Run(Outcomes(frames, decode), 0, true, limit))
    {
      emitted := emitted + [CapturingPrefix + devName];
      if openError.Some? {
        emitted := emitted + [ErrorPrefix + openError.value];
      } else {
        OpenAndLoop(bpf, filterError, limit, frames);
      }
      handle := CloseIfOpen(handle);
      emitted := emitted + [StoppedText];
    }

    /** The body of the capture thread after a successful open: install the
        filter, or report its failure, then run the loop. */
    method OpenAndLoop(bpf: Option<string>, filterError: Option<string>, limit: int, frames: seq<Frame>)
      requires Valid()
      modifies this
      ensures Valid() && handle == Open
      ensures var filtered := bpf.Some? && !IsBlank(bpf.value) && filterError.Some?;
        emitted == old(emitted) + (if filtered then [ErrorPrefix + filterError.value]
          else if RunBreaks(Outcomes(frames, decode), 0, true, limit) then [ErrorPrefix + NullMessage]
          else [])
      ensures var filtered := bpf.Some? && !IsBlank(bpf.value) && filterError.Some?;
        if filtered then queue == old(queue) && offered == old(offered)
        else (queue == old(queue) + Run(Outcomes(frames, decode), 0, true, limit)
              && offered == old(offered) + Run(Outcomes(frames, decode), 0, true, limit))
    {
      handle := Open;
      if bpf.Some? && !IsBlank(bpf.value) && filterError.Some? {
        emitted := emitted + [ErrorPrefix + filterError.value];
      } else {
        index := 0;
        this.limit := limit;
        breakRequested := false;
        Loop(frames);
        if breakRequested {
          emitted := emitted + [ErrorPrefix + NullMessage];
        }
      }
    }

    /** poll: the oldest queued record, or null when the queue is empty. */
    method Poll() returns (r: Option<PacketModel>)
      modifies this`queue
      ensures old(queue) == [] ==> r.None? && queue == []
      ensures old(queue) != [] ==> r == Some(old(queue)[0]) && queue == old(queue)[1..]
    {
      if queue == [] {
        return None;
      }
      r := Some(queue[0]);
      queue := queue[1..];
    }

    /** stop: an open handle is asked to break its loop. */
    method Stop()
      requires Valid()
      modifies this
      ensures Valid()
      ensures breakRequested == (old(breakRequested) || old(handle) == Open)
      ensures handle == old(handle) && queue == old(queue) && stats == old(stats)
      ensures offered == old(offered) && emitted == old(emitted)
      ensures index == old(index) && limit == old(limit)
    {
      if handle == Open {
        breakRequested := true;
      }
    }
  }

  /** The loop invariant across one outcome: the records taken so far followed
      by what the remaining outcomes yield is the whole run. */
  lemma RunStep(outs: seq<Option<PacketModel>>, i: nat, guarded: bool, limit: int, taken: seq<PacketModel>)
    requires i < |outs|
    requires taken + Run(outs[i..], i, guarded, limit) == Run(outs, 0, guarded, limit)
    ensures var stops := outs[i].Some? && Stops(guarded, limit, i + 1);
      (taken + OptionSeq(outs[i])) + (if stops then [] else Run(outs[i + 1..], i + 1, guarded, limit))
      == Run(outs, 0, guarded, limit)
  {
    assert outs[i..][0] == outs[i];
    assert outs[i..][1..] == outs[i + 1..];
  }

  /** Whether the rest of the run breaks, across one outcome. */
  lemma BreakStep(outs: seq<Option<PacketModel>>, i: nat, guarded: bool, limit: int)
    requires i < |outs|
    ensures RunBreaks(outs[i..], i, guarded, limit)
      == ((outs[i].Some? && Stops(guarded, limit, i + 1)) || RunBreaks(outs[i + 1..], i + 1, guarded, limit))
  {
    assert outs[i..][0] == outs[i];
    assert outs[i..][1..] == outs[i + 1..];
  }

  lemma Regroup(s0: seq<PacketModel>, taken: seq<PacketModel>, step: seq<PacketModel>)
    ensures (s0 + taken) + step == s0 + (taken + step)
  {
  }

  /** When the loop ends, by the limit or for want of frames, it has taken the whole run. */
  lemma RunDone(outs: seq<Option<PacketModel>>, i: nat, guarded: bool, limit: int,
                taken: seq<PacketModel>, stopped: bool)
    requires i <= |outs| && (i == |outs| || stopped)
    requires taken + (if stopped then [] else Run(outs[i..], i, guarded, limit)) == Run(outs, 0, guarded, limit)
    ensures taken == Run(outs, 0, guarded, limit)
  {
    if !stopped {
      assert outs[i..] == [];
    }
  }

  /** What one more record does to the per-label counters. */
  lemma CountingSnoc(ps: seq<PacketModel>, pm: PacketModel)
    ensures var m := Statistics.CountingMap(Labels(ps));
      Statistics.CountingMap(Labels(ps + [pm])) == m[pm.proto := (if pm.proto in m then m[pm.proto] else 0) + 1]
  {
    assert Labels(ps + [pm])[..|ps|] == Labels(ps);
  }

  /** Each label's counter is the number of records with that label offered so far. */
  lemma StatsCountLabels(s: UpstreamCaptureService, l: string)
    requires s.Valid()
    ensures (l in s.stats) <==> Statistics.Occurrences(Labels(s.offered), l) > 0
    ensures Statistics.GetOrDefault(s.stats, l, 0) == Statistics.Occurrences(Labels(s.offered), l)
  {
    Statistics.CountingMapIsOccurrences(Labels(s.offered), l);
  }

  /** The records among the outcomes, in order. */
  function Present(outs: seq<Option<PacketModel>>): seq<PacketModel> {
    if outs == [] then [] else OptionSeq(outs[0]) + Present(outs[1..])
  }

  /** The upstream rule with a limit of 0 or less never stops: every record is kept. */
  lemma {:induction false} UnlimitedKeepsEverything(outs: seq<Option<PacketModel>>, start: int, limit: int)
    requires limit <= 0
    ensures Run(outs, start, true, limit) == Present(outs)
  {
    if outs != [] {
      UnlimitedKeepsEverything(outs[1..], start + 1, limit);
    }
  }

  /** The stashed rule with a limit of 0 or less stops after the first record. */
  lemma {:induction false} ZeroLimitKeepsOne(outs: seq<Option<PacketModel>>, start: int, limit: int)
    requires limit <= 0 && start >= 0
    ensures |Run(outs, start, false, limit)| <= 1
  {
    if outs != [] && outs[0].None? {
      ZeroLimitKeepsOne(outs[1..], start + 1, limit);
    }
  }

  /** stopCapture of the stashed version: an open handle is closed and the
      field set to null; any other handle is left as it is. */
  function ReleaseIfOpen(h: Handle): (r: Handle)
    ensures r != Open
    ensures h != Open ==> r == h
  {
    if h == Open then Null else h
  }

  /** Stopping twice is stopping once. */
  lemma ReleaseIdempotent(h: Handle)
    ensures ReleaseIfOpen(ReleaseIfOpen(h)) == ReleaseIfOpen(h)
  {
  }

  /* ---------------- the "stashed" version ---------------- */

  class StashedCaptureService {
    var handle: Handle
    var capturedPackets: seq<PacketModel>
    /** The per-start counter and the limit the listener closes over. */
    var count: nat
    var limit: int
    var breakRequested: bool
    /** The listener's decoding step, PacketModel.fromRaw: Stored. */
    const decode: Decoder

    constructor()
      ensures handle == Null && capturedPackets == [] && decode == Stored
    {
      decode := Stored;
      handle := Null;
      capturedPackets := [];
      count := 0;
      limit := 0;
      breakRequested := false;
    }

    /** The listener: number the frame, store its record, and ask the loop to
        stop once the number reaches the limit, whatever the limit's sign. */
    method OnPacket(f: Frame)
      modifies this
      ensures count == old(count) + 1
      ensures capturedPackets == old(capturedPackets) + OptionSeq(decode(f, count))
      ensures breakRequested == (old(breakRequested) || (decode(f, count).Some? && Stops(false, limit, count)))
      ensures handle == old(handle) && limit == old(limit)
    {
      count := count + 1;
      var r := decode(f, count);
      if r.None? {
        return;
      }
      capturedPackets := capturedPackets + [r.value];
      if count >= limit {
        breakRequested := true;
      }
    }

    /** The capture loop: frames until the limit rule fires. */
    method Loop(frames: seq<Frame>)
      requires count == 0 && !breakRequested
      modifies this
      ensures capturedPackets == old(capturedPackets) + Run(Outcomes(frames, decode), 0, false, limit)
      ensures handle == old(handle) && limit == old(limit)
    {
      ghost var c0 := capturedPackets;
      ghost var outs := Outcomes(frames, decode);
      ghost var taken: seq<PacketModel> := [];
      assert outs[0..] == outs;
      var i := 0;
      while i < |frames| && !breakRequested
        invariant 0 <= i <= |frames|
        invariant count == i && limit == old(limit) && handle == old(handle)
        invariant capturedPackets == c0 + taken
        invariant taken + (if breakRequested then [] else Run(outs[i..], i, false, limit)) == Run(outs, 0, false, limit)
      {
        ghost var step := OptionSeq(outs[i]);
        OnPacket(frames[i]);
        RunStep(outs, i, false, limit, taken);
        Regroup(c0, taken, step);
        taken := taken + step;
        i := i + 1;
      }
      RunDone(outs, i, false, limit, taken, breakRequested);
    }

    /** startCapture: the capture thread. Every failure (no interface of that
        name, a failing open, a failing filter) is caught and printed, and the
        `finally` closes the handle if it is open, which after a failing
        lookup or open is the handle of an earlier start. */
    method StartCapture(ifaceName: string, devices: seq<string>, openError: Option<string>,
                        filter: Option<string>, filterError: Option<string>, limit: int, frames: seq<Frame>)
      modifies this
      ensures var started := ifaceName in devices && openError.None?;
        handle == if started then Closed else CloseIfOpen(old(handle))
      ensures var ok := ifaceName in devices && openError.None?
                        && !(filter.Some? && !IsBlank(filter.value) && filterError.Some?);
        capturedPackets == old(capturedPackets) + (if ok then Run(Outcomes(frames, decode), 0, false, limit) else [])
    {
      if ifaceName in devices && openError.None? {
        handle := Open;
        if !(filter.Some? && !IsBlank(filter.value) && filterError.Some?) {
          count := 0;
          this.limit := limit;
          breakRequested := false;
          Loop(frames);
        }
      }
      handle := CloseIfOpen(handle);
    }

    /** stopCapture: an open handle is asked to break its loop, closed, and
        the field cleared; calling it again changes nothing. */
    method StopCapture()
      modifies this
      ensures handle == ReleaseIfOpen(old(handle))
      ensures breakRequested == (old(breakRequested) || old(handle) == Open)
      ensures capturedPackets == old(capturedPackets) && limit == old(limit)
    {
      if handle == Open {
        breakRequested := true;
        handle := Null;
      }
    }

    /** getRawPacketByIndex: the record in 1-based table row `index`, or
        null outside the list. */
    function GetRawPacketByIndex(index: int): (r: Option<PacketModel>)
      reads this
      ensures r.Some? <==> 1 <= index <= |capturedPackets|
      ensures r.Some? ==> r.value == capturedPackets[index - 1]
    {
      if index <= 0 || index > |capturedPackets| then None else Some(capturedPackets[index - 1])
    }
  }

  /** When the list holds one session that started empty and every frame
      decoded, table row i holds the packet numbered i. */
  lemma RowIsPacketNumber(s: StashedCaptureService, frames: seq<Frame>, limit: int, i: int)
    requires forall k :: 0 <= k < |frames| ==> !NetworkPayload(frames[k].packet).Nil?
    requires s.capturedPackets == Run(Outcomes(frames, Stored), 0, false, limit)
    requires s.GetRawPacketByIndex(i).Some?
    ensures s.GetRawPacketByIndex(i).value.no == i
  {
    NumbersWithoutGap(frames, false, limit);
  }
}
