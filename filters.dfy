/** The reusable table filter: a predicate that keeps the packets of one
    protocol, whatever the case of the label. */
module Filters {
  import opened JavaLang
  import opened RiskDecoder

  /** byProtocol(p): the filter upper-cases p once and then compares each
      packet's label with it ignoring case. */
  function ByProtocol(p: string): (accepts: CapturedPacket -> bool)
    ensures forall c :: accepts(c) <==> ToUpper(c.protocol) == ToUpper(p)
  {
    var u := ToUpper(p);
    UpperIdempotent(p);
    assert forall c: CapturedPacket :: EqualsIgnoreCase(c.protocol, u) <==> ToUpper(c.protocol) == ToUpper(u) by {
      forall c: CapturedPacket
        ensures EqualsIgnoreCase(c.protocol, u) <==> ToUpper(c.protocol) == ToUpper(u)
      {
        EqualsIgnoreCaseIsUpperEquality(c.protocol, u);
      }
    }
    (c: CapturedPacket) => EqualsIgnoreCase(c.protocol, u)
  }

  /** A filter built from the lower-cased label accepts the same packets:
      byProtocol("tcp") and byProtocol("TCP") agree. */
  lemma FilterCaseIrrelevant(p: string, c: CapturedPacket)
    ensures ByProtocol(ToLower(p))(c) == ByProtocol(p)(c)
  {
    UpperOfLower(p);
  }

  /** Whole-label equality, not a prefix test: an "HTTP" filter rejects HTTPS
      packets, and accepts a label exactly when it is "http" in some case. */
  lemma HttpRejectsHttps(c: CapturedPacket)
    ensures c.protocol == "HTTPS" ==> !ByProtocol("HTTP")(c)
    ensures ByProtocol("HTTP")(c) <==> |c.protocol| == 4 && ToUpper(c.protocol) == "HTTP"
  {
    assert ToUpper("HTTP") == "HTTP";
  }
}
