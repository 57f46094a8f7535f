/** The OUI table loaded from a "prefix,vendor" resource and the vendor
    lookup by the first three octets of a MAC. The resource's lines are a
    parameter; a missing resource is None. */
module MacVendors {
  import opened JavaLang

  const UnknownVendor: string := "Unknown"

  /* ---------------- the loader ---------------- */

  /** line.split(",", 2): split at the first comma only; the second piece
      keeps any further commas, and a line without a comma is one piece. */
  function SplitFirstComma(line: string): (r: seq<string>)
    ensures |r| == 1 || |r| == 2
    ensures |r| == 2 <==> ',' in line
    ensures |r| == 1 ==> r[0] == line
    ensures |r| == 2 ==> line == r[0] + "," + r[1] && ',' !in r[0]
  {
    match IndexOf(line, ',')
    case None => [line]
    case Some(k) =>
      assert line == line[..k] + "," + line[k + 1..];
      [line[..k], line[k + 1..]]
  }

  /** The entry a line puts: its upper-cased key and its value, when it has a comma. */
  function Entry(line: string): (e: Option<(string, string)>)
    ensures e.Some? <==> ',' in line
  {
    var arr := SplitFirstComma(line);
    if |arr| == 2 then Some((ToUpper(arr[0]), arr[1])) else None
  }

  /** One turn of the loader loop: put the line's entry, if it has one. */
  function Put(m: map<string, string>, e: Option<(string, string)>): map<string, string> {
    match e
    case None => m
    case Some((k, v)) => m[k := v]
  }

  /** The puts of a sequence of entries, in order, into an empty map. */
  function PutAll(es: seq<Option<(string, string)>>): map<string, string> {
    if es == [] then map[] else Put(PutAll(es[..|es| - 1]), es[|es| - 1])
  }

  function Entries(lines: seq<string>): (es: seq<Option<(string, string)>>)
    ensures |es| == |lines| && forall i :: 0 <= i < |lines| ==> es[i] == Entry(lines[i])
  {
    seq(|lines|, i requires 0 <= i < |lines| => Entry(lines[i]))
  }

  /** The table after the lines, in order. */
  function OuiMap(lines: seq<string>): map<string, string> {
    PutAll(Entries(lines))
  }

  /** Line `line` puts an entry for key k. */
  predicate Defines(line: string, k: string) {
    Entry(line).Some? && Entry(line).value.0 == k
  }

  /** The value a comma line puts: everything after its first comma. */
  function ValueOf(line: string): string {
    if Entry(line).Some? then Entry(line).value.1 else ""
  }

  /** The static initializer: read the resource line by line into the table.
      A missing resource throws before the first line and leaves it empty. */
  method LoadOui(resource: Option<seq<string>>) returns (ouiMap: map<string, string>)
    ensures resource.None? ==> ouiMap == map[]
    ensures resource.Some? ==> ouiMap == OuiMap(resource.value)
  {
    ouiMap := map[];
    if resource.None? {
      return;
    }
    var lines := resource.value;
    var i := 0;
    while i < |lines|
      invariant 0 <= i <= |lines|
      invariant ouiMap == OuiMap(lines[..i])
    {
      var line := lines[i];
      var arr := SplitFirstComma(line);
      if |arr| == 2 {
        ouiMap := ouiMap[ToUpper(arr[0]) := arr[1]];
      }
      assert Entries(lines[..i + 1])[..i] == Entries(lines[..i]);
      i := i + 1;
    }
    assert lines[..i] == lines;
  }

  /* The table as a fold of entries: which keys it has and which value wins. */

  lemma {:induction false} PutAllKeys(es: seq<Option<(string, string)>>, k: string)
    ensures k in PutAll(es) <==> exists i :: 0 <= i < |es| && es[i].Some? && es[i].value.0 == k
  {
    if es != [] {
      var n := |es| - 1;
      PutAllKeys(es[..n], k);
      assert forall i :: 0 <= i < n ==> es[..n][i] == es[i];
    }
  }

  lemma {:induction false} PutAllLast(es: seq<Option<(string, string)>>, k: string, i: nat)
    requires i < |es| && es[i].Some? && es[i].value.0 == k
    requires forall j :: i < j < |es| ==> es[j].None? || es[j].value.0 != k
    ensures k in PutAll(es) && PutAll(es)[k] == es[i].value.1
  {
    var n := |es| - 1;
    if i < n {
      assert forall j :: i < j < n ==> es[..n][j] == es[j];
      PutAllLast(es[..n], k, i);
    }
  }

  /** A key is in the table exactly when some line defines it. */
  lemma KeysAreDefined(lines: seq<string>, k: string)
    ensures k in OuiMap(lines) <==> exists i :: 0 <= i < |lines| && Defines(lines[i], k)
  {
    PutAllKeys(Entries(lines), k);
  }

  /** Line i defines k and no later line does. */
  predicate LastDefinition(lines: seq<string>, k: string, i: nat) {
    i < |lines| && Defines(lines[i], k) && forall j :: i < j < |lines| ==> !Defines(lines[j], k)
  }

  /** The value of a key is that of the last line defining it: a later line
      with the same upper-cased key overwrites an earlier one. */
  lemma LastLineWins(lines: seq<string>, k: string, i: nat)
    requires LastDefinition(lines, k, i)
    ensures k in OuiMap(lines) && OuiMap(lines)[k] == ValueOf(lines[i])
  {
    PutAllLast(Entries(lines), k, i);
  }

  /** A line without a comma changes nothing. */
  lemma SkipsLineWithoutComma(lines: seq<string>, line: string)
    requires ',' !in line
    ensures OuiMap(lines + [line]) == OuiMap(lines)
  {
    assert Entries(lines + [line])[..|lines|] == Entries(lines);
  }

  /** "prefix,rest": the key is the upper-cased prefix and the value is all of
      the rest, commas included. */
  lemma LineEntry(key: string, value: string, lines: seq<string>)
    requires ',' !in key
    ensures OuiMap(lines + [key + "," + value]) == OuiMap(lines)[ToUpper(key) := value]
  {
    EntryOfLine(key, value);
    OuiMapSnoc(lines, key + "," + value);
  }

  lemma EntryOfLine(key: string, value: string)
    requires ',' !in key
    ensures Entry(key + "," + value) == Some((ToUpper(key), value))
  {
    var line := key + "," + value;
    assert line[|key|] == ',';
    var arr := SplitFirstComma(line);
    assert |arr[0]| == |key|;
    assert arr[0] == line[..|key|] == key;
    assert arr[1] == line[|key| + 1..] == value;
  }

  /** Appending a line puts its entry into the table of the earlier lines. */
  lemma OuiMapSnoc(lines: seq<string>, line: string)
    ensures OuiMap(lines + [line]) == Put(OuiMap(lines), Entry(line))
  {
    assert Entries(lines + [line])[..|lines|] == Entries(lines);
  }

  /* ---------------- the lookup ---------------- */

  /** The table key of a MAC: the first three ':'-separated parts joined by
      ':' and upper-cased, when there are three parts. */
  function KeyOf(mac: string): (r: Option<string>)
    ensures r.Some? ==> ToUpper(r.value) == r.value
  {
    var parts := Split(mac, ':');
    if |parts| < 3 then None
    else
      UpperIdempotent(parts[0] + ":" + parts[1] + ":" + parts[2]);
      Some(ToUpper(parts[0] + ":" + parts[1] + ":" + parts[2]))
  }

  /** lookup(mac); a null MAC is None. */
  function Lookup(ouiMap: map<string, string>, mac: Option<string>): (r: string)
    ensures r == UnknownVendor || r in ouiMap.Values
    ensures mac.None? || |mac.value| < 8 ==> r == UnknownVendor
  {
    if mac.None? || |mac.value| < 8 then UnknownVendor
    else match KeyOf(mac.value)
      case None => UnknownVendor
      case Some(oui) => if oui in ouiMap then ouiMap[oui] else UnknownVendor
  }

  /** A MAC without ':' is one part: always unknown, whatever the table. */
  lemma NoColonUnknown(ouiMap: map<string, string>, mac: string)
    requires ':' !in mac
    ensures Lookup(ouiMap, Some(mac)) == UnknownVendor
  {
  }

  /** A MAC that splits on ':' into fewer than three parts is unknown,
      whatever its length and the table. */
  lemma FewPartsUnknown(ouiMap: map<string, string>, mac: string)
    requires |Split(mac, ':')| < 3
    ensures Lookup(ouiMap, Some(mac)) == UnknownVendor
  {
  }

  /** A MAC whose key no line of the resource defines is unknown. */
  lemma UndefinedKeyUnknown(lines: seq<string>, mac: string)
    requires KeyOf(mac).Some?
    requires forall i :: 0 <= i < |lines| ==> !Defines(lines[i], KeyOf(mac).value)
    ensures Lookup(OuiMap(lines), Some(mac)) == UnknownVendor
  {
    KeysAreDefined(lines, KeyOf(mac).value);
  }

  /** Loading and looking up together: the vendor of a MAC is the value of
      the last line that defines its key. */
  lemma LookupAfterLoad(lines: seq<string>, mac: string, i: nat)
    requires |mac| >= 8 && KeyOf(mac).Some?
    requires LastDefinition(lines, KeyOf(mac).value, i)
    ensures Lookup(OuiMap(lines), Some(mac)) == ValueOf(lines[i])
  {
    LastLineWins(lines, KeyOf(mac).value, i);
  }

  /* ---------------- case of the MAC ---------------- */

  function LowerAll(ps: seq<string>): (r: seq<string>)
    ensures |r| == |ps| && forall i :: 0 <= i < |ps| ==> r[i] == ToLower(ps[i])
  {
    seq(|ps|, i requires 0 <= i < |ps| => ToLower(ps[i]))
  }

  lemma LowerAppend(a: string, b: string)
    ensures ToLower(a + b) == ToLower(a) + ToLower(b)
  {
    assert forall i :: 0 <= i < |a + b| ==> ToLower(a + b)[i] == (ToLower(a) + ToLower(b))[i];
  }

  lemma {:induction false} PiecesLower(s: string)
    ensures Pieces(ToLower(s), ':') == LowerAll(Pieces(s, ':'))
  {
    if s != [] {
      PiecesLower(s[1..]);
      var rest := Pieces(s[1..], ':');
      assert ToLower(s)[1..] == ToLower(s[1..]);
      assert ToLower(s)[0] == LowerChar(s[0]);
      assert LowerChar(s[0]) == ':' <==> s[0] == ':';
      if s[0] != ':' {
        LowerAppend([s[0]], rest[0]);
        assert ToLower([s[0]]) == [LowerChar(s[0])];
      }
    }
  }

  lemma {:induction false} DropTrailingLower(ps: seq<string>)
    ensures DropTrailingEmpty(LowerAll(ps)) == LowerAll(DropTrailingEmpty(ps))
  {
    if |ps| > 0 {
      var front := ps[..|ps| - 1];
      assert LowerAll(ps)[..|ps| - 1] == LowerAll(front);
      if ps[|ps| - 1] == "" {
        DropTrailingLower(front);
      }
    }
  }

  /** Lower-casing the MAC does not change its key. */
  lemma KeyIgnoresCase(mac: string)
    ensures KeyOf(ToLower(mac)) == KeyOf(mac)
  {
    var parts := Split(mac, ':');
    assert ':' in ToLower(mac) <==> ':' in mac by {
      assert forall i :: 0 <= i < |mac| ==> (ToLower(mac)[i] == ':' <==> mac[i] == ':');
    }
    if ':' in mac {
      PiecesLower(mac);
      DropTrailingLower(Pieces(mac, ':'));
    }
    var lparts := Split(ToLower(mac), ':');
    assert lparts == LowerAll(parts);
    if |parts| >= 3 {
      var joined := parts[0] + ":" + parts[1] + ":" + parts[2];
      LowerAppend(parts[0], ":");
      LowerAppend(parts[0] + ":", parts[1]);
      LowerAppend(parts[0] + ":" + parts[1], ":");
      LowerAppend(parts[0] + ":" + parts[1] + ":", parts[2]);
      assert ToLower(":") == ":";
      assert lparts[0] + ":" + lparts[1] + ":" + lparts[2] == ToLower(joined);
      UpperOfLower(joined);
    }
  }

  /** The lookup ignores the case of the MAC's hex digits. */
  lemma LookupIgnoresCase(ouiMap: map<string, string>, mac: string)
    ensures Lookup(ouiMap, Some(ToLower(mac))) == Lookup(ouiMap, Some(mac))
  {
    KeyIgnoresCase(mac);
  }
}
