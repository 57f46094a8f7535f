/** The capture service of the panel-based UI: start-up checks, the packet
    listener that numbers, stores and queues each frame, the limit stop, the
    replacement of a packet by its analysed copy, and clearing.

    The record type it stores is a parameter M: the frame decoder producing it
    and the id it is matched by are passed in as functions. */
module CaptureSessions {
  import opened JavaLang
  import opened Pcap
  import opened PcapHandles

  const CapturingPrefix: string := "▶ Capturing on "
  const InitFailedPrefix: string := "❌ Initialization failed: "
  const InterfaceNotFound: string := "Interface not found"
  const StoppedText: string := "■ Capture stopped"
  const ClearedText: string := "🧹 Packets cleared"

  /** The limit rule: with a positive limit, stop once the packet number reaches it. */
  predicate StopsAfter(limit: int, idx: int) {
    limit > 0 && idx >= limit
  }

  /** How many frames a loop over `count` frames consumes under the limit
      rule: no frame before the n-th asks to stop, and the loop ends early
      only because the n-th one does. */
  function Consumed(count: nat, limit: int): (n: nat)
    ensures n <= count
    ensures forall i :: 1 <= i < n ==> !StopsAfter(limit, i)
    ensures n < count ==> StopsAfter(limit, n)
  {
    if limit > 0 && limit < count then limit else count
  }

  /** The frames decoded in order and numbered 1, 2, 3, ... */
  function Numbered<M>(frames: seq<Packet>, decode: (Packet, nat) -> M): (r: seq<M>)
    ensures |r| == |frames|
    ensures forall i :: 0 <= i < |frames| ==> r[i] == decode(frames[i], i + 1)
  {
    if frames == [] then []
    else Numbered(frames[..|frames| - 1], decode) + [decode(frames[|frames| - 1], |frames|)]
  }

  /** The position of the first element whose id is that of x. */
  function FirstWithId<M>(s: seq<M>, x: M, id: M -> int): (r: Option<nat>)
    ensures r.Some? ==> r.value < |s| && id(s[r.value]) == id(x)
    ensures r.Some? ==> forall j :: 0 <= j < r.value ==> id(s[j]) != id(x)
    ensures r.None? ==> forall j :: 0 <= j < |s| ==> id(s[j]) != id(x)
  {
    if s == [] then None
    else if id(s[0]) == id(x) then Some(0)
    else match FirstWithId(s[1..], x, id)
      case None => None
      case Some(k) => Some(k + 1)
  }

  /** The list after the analysed copy x replaces the first element with its id. */
  function ReplaceFirst<M>(s: seq<M>, x: M, id: M -> int): (r: seq<M>)
    ensures |r| == |s|
    ensures FirstWithId(s, x, id).None? ==> r == s
    ensures forall j :: 0 <= j < |s| ==> r[j] == if FirstWithId(s, x, id) == Some(j) then x else s[j]
  {
    match FirstWithId(s, x, id)
    case None => s
    case Some(k) => s[k := x]
  }

  class CaptureService<M> {
    var handle: Handle
    /** Whether the most recent start attempt launched a capture loop. */
    var running: bool
    var capturedPackets: seq<M>
    var queue: seq<M>
    var status: string
    /** The per-start AtomicInteger and the limit the listener closes over. */
    var counter: nat
    var limit: int
    var breakRequested: bool

    constructor()
      ensures handle == Null && !running && capturedPackets == [] && queue == [] && status == ""
      ensures counter == 0 && limit == 0 && !breakRequested
    {
      handle := Null;
      running := false;
      capturedPackets := [];
      queue := [];
      status := "";
      counter := 0;
      limit := 0;
      breakRequested := false;
    }

    /** getCapturedPackets: a copy of the stored list. */
    method GetCapturedPackets() returns (r: seq<M>)
      ensures r == capturedPackets
    {
      r := capturedPackets;
    }

    /** startCapture up to the start of the thread. `devices` are the names of
        the interfaces found; `openError` and `filterError` are the messages of
        a failing open or filter installation. Every failure ends with one
        "Initialization failed" status and no thread; a failing filter leaves
        the freshly opened handle open. The stored list is kept and the
        numbering starts again at 1. */
    method StartCapture(ifaceName: string, devices: seq<string>, openError: Option<string>,
                        bpfFilter: Option<string>, filterError: Option<string>, limit: int)
      modifies this
      ensures capturedPackets == old(capturedPackets) && queue == old(queue)
      ensures !running ==> counter == old(counter) && this.limit == old(this.limit)
                           && breakRequested == old(breakRequested)
      ensures ifaceName !in devices ==>
        handle == old(handle) && !running && status == InitFailedPrefix + InterfaceNotFound
      ensures ifaceName in devices && openError.Some? ==>
        handle == old(handle) && !running && status == InitFailedPrefix + openError.value
      ensures ifaceName in devices && openError.None? && bpfFilter.Some? && !IsBlank(bpfFilter.value)
              && filterError.Some? ==>
        handle == Open && !running && status == InitFailedPrefix + filterError.value
      ensures ifaceName in devices && openError.None?
              && (bpfFilter.None? || IsBlank(bpfFilter.value) || filterError.None?) ==>
        && handle == Open && running && status == CapturingPrefix + ifaceName
        && counter == 0 && this.limit == limit && !breakRequested
    {
      if ifaceName !in devices {
        running := false;
        status := InitFailedPrefix + InterfaceNotFound;
        return;
      }
      if openError.Some? {
        running := false;
        status := InitFailedPrefix + openError.value;
        return;
      }
      handle := Open;
      if bpfFilter.Some? && !IsBlank(bpfFilter.value) && filterError.Some? {
        running := false;
        status := InitFailedPrefix + filterError.value;
        return;
      }
      running := true;
      status := CapturingPrefix + ifaceName;
      counter := 0;
      this.limit := limit;
      breakRequested := false;
    }

    /** The packet listener: number the frame, store and queue its record,
        and ask the loop to stop once the limit is reached. */
    method OnPacket(raw: Packet, decode: (Packet, nat) -> M)
      modifies this
      ensures counter == old(counter) + 1
      ensures capturedPackets == old(capturedPackets) + [decode(raw, counter)]
      ensures queue == old(queue) + [decode(raw, counter)]
      ensures breakRequested == (old(breakRequested) || StopsAfter(limit, counter))
      ensures handle == old(handle) && running == old(running) && limit == old(limit)
      ensures status == old(status)
    {
      counter := counter + 1;
      var pm := decode(raw, counter);
      capturedPackets := capturedPackets + [pm];
      queue := queue + [pm];
      if limit > 0 && counter >= limit {
        breakRequested := true;
      }
    }

    /** The capture thread after a successful start: the loop over the frames
        until the limit stops it, then the `finally` that closes the handle. */
    method CaptureLoop(frames: seq<Packet>, decode: (Packet, nat) -> M)
      requires running && counter == 0 && !breakRequested
      modifies this
      ensures var n := Consumed(|frames|, limit);
        && capturedPackets == old(capturedPackets) + Numbered(frames[..n], decode)
        && queue == old(queue) + Numbered(frames[..n], decode)
        && counter == n
      ensures handle == CloseIfOpen(old(handle)) && !running && status == StoppedText
    {
      ghost var stored0, queued0 := capturedPackets, queue;
      var i := 0;
      while i < |frames| && !breakRequested
        invariant 0 <= i <= |frames|
        invariant counter == i && limit == old(limit) && handle == old(handle)
        invariant breakRequested <==> StopsAfter(limit, i)
        invariant limit > 0 ==> i <= limit
        invariant capturedPackets == stored0 + Numbered(frames[..i], decode)
        invariant queue == queued0 + Numbered(frames[..i], decode)
      {
        OnPacket(frames[i], decode);
        assert frames[..i + 1][..i] == frames[..i];
        i := i + 1;
      }
      handle := CloseIfOpen(handle);
      running := false;
      status := StoppedText;
    }

    /** The analysis callback: the first stored element with the analysed
        copy's id is replaced by it; the queue is not touched. */
    method ReplaceById(analyzed: M, id: M -> int)
      modifies this
      ensures capturedPackets == ReplaceFirst(old(capturedPackets), analyzed, id)
      ensures queue == old(queue) && handle == old(handle) && counter == old(counter)
      ensures running == old(running) && status == old(status)
      ensures limit == old(limit) && breakRequested == old(breakRequested)
    {
      for i := 0 to |capturedPackets|
        invariant capturedPackets == old(capturedPackets)
        invariant forall j :: 0 <= j < i ==> id(capturedPackets[j]) != id(analyzed)
      {
        if id(capturedPackets[i]) == id(analyzed) {
          capturedPackets := capturedPackets[i := analyzed];
          return;
        }
      }
    }

    /** clearPackets: the stored list and the queue are emptied. */
    method ClearPackets()
      modifies this
      ensures capturedPackets == [] && queue == [] && status == ClearedText
      ensures handle == old(handle) && running == old(running) && counter == old(counter)
      ensures limit == old(limit) && breakRequested == old(breakRequested)
    {
      capturedPackets := [];
      queue := [];
      status := ClearedText;
    }

    /** stopCapture: an open handle is asked to break its loop and is closed. */
    method StopCapture()
      modifies this
      ensures handle == CloseIfOpen(old(handle))
      ensures breakRequested == (old(breakRequested) || old(handle) == Open)
      ensures capturedPackets == old(capturedPackets) && queue == old(queue)
      ensures running == old(running) && status == old(status)
      ensures counter == old(counter) && limit == old(limit)
    {
      if handle == Open {
        breakRequested := true;
        handle := Closed;
      }
    }
  }

  /** Two sessions of one frame each, without clearing in between: the stored
      list holds two records both numbered 1. */
  method RestartRepeatsNumbers(frame: Packet) returns (numbers: seq<nat>)
    ensures numbers == [1, 1]
  {
    var svc := new CaptureService<nat>();
    var decode := (p: Packet, n: nat) => n;
    svc.StartCapture("eth0", ["eth0"], None, None, None, 0);
    svc.CaptureLoop([frame], decode);
    assert [frame][..1] == [frame];
    svc.StartCapture("eth0", ["eth0"], None, None, None, 0);
    svc.CaptureLoop([frame], decode);
    numbers := svc.capturedPackets;
  }
}
