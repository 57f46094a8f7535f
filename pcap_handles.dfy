/** A live-capture handle reduced to the only thing the services test: whether
    the field is null, and whether the handle it holds is still open. */
module PcapHandles {

  datatype Handle = Null | Open | Closed

  /** The `finally` of a capture thread: a handle that is still open is closed. */
  function CloseIfOpen(h: Handle): (r: Handle)
    ensures r != Open
    ensures h != Open ==> r == h
  {
    if h == Open then Closed else h
  }
}
