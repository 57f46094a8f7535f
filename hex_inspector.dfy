/** The packet inspector's hex view: a dump string is cleaned, cut into
    tokens, and laid out 16 tokens per line with an offset column, a hex
    column and an ASCII column; and the colour of a protocol badge. */
module Inspector {
  import opened JavaLang
  import opened HexDump

  const NumberFormat: string := "NumberFormatException"
  const DefaultColor: string := "#bbbbbb"
  /** Tokens per line. */
  const Width: nat := 16

  /* ---------------- cleaning and splitting ---------------- */

  /** The characters the cleaning keeps: [0-9A-Fa-f ]. */
  predicate Kept(c: char) {
    HexValue(c).Some? || c == ' '
  }

  /** replaceAll("[^0-9A-Fa-f ]", ""): every other character is deleted. */
  function KeepHex(s: string): (r: string)
    ensures forall i :: 0 <= i < |r| ==> Kept(r[i])
    ensures |r| <= |s|
  {
    if s == [] then [] else (if Kept(s[0]) then [s[0]] else []) + KeepHex(s[1..])
  }

  /** A string of kept characters only is left as it is. */
  lemma {:induction false} KeepHexOfClean(s: string)
    requires forall i :: 0 <= i < |s| ==> Kept(s[i])
    ensures KeepHex(s) == s
  {
    if s != [] {
      KeepHexOfClean(s[1..]);
      assert Kept(s[0]);
      assert KeepHex(s) == [s[0]] + KeepHex(s[1..]);
      assert s == [s[0]] + s[1..];
    }
  }

  function NonEmpty(ps: seq<string>): (r: seq<string>)
    ensures forall i :: 0 <= i < |r| ==> r[i] != "" && r[i] in ps
  {
    if ps == [] then []
    else (if ps[0] == "" then [] else [ps[0]]) + NonEmpty(ps[1..])
  }

  /** split(" +"): runs of spaces separate; a leading run leaves one empty
      first token; trailing empty tokens are removed; a string without a
      space is returned whole (so "" gives [""]). */
  function SplitSpaceRuns(s: string): (r: seq<string>)
    ensures forall i :: 0 <= i < |r| ==> ' ' !in r[i]
    ensures forall i :: 1 <= i < |r| ==> r[i] != ""
  {
    if ' ' !in s then [s]
    else
      var ps := Pieces(s, ' ');
      var r := DropTrailingEmpty([ps[0]] + NonEmpty(ps[1..]));
      assert forall i :: 0 <= i < |r| ==> r[i] == ([ps[0]] + NonEmpty(ps[1..]))[i];
      r
  }

  /** The tokens the formatter works on. */
  function Fields(hexDump: string): seq<string> {
    SplitSpaceRuns(KeepHex(hexDump))
  }

  lemma {:induction false} NonEmptyOfNonEmpty(ps: seq<string>)
    requires forall i :: 0 <= i < |ps| ==> ps[i] != ""
    ensures NonEmpty(ps) == ps
  {
    if ps != [] {
      var rest := ps[1..];
      forall i | 0 <= i < |rest|
        ensures rest[i] != ""
      {
        assert rest[i] == ps[i + 1];
      }
      NonEmptyOfNonEmpty(rest);
      assert ps[0] != "";
      assert NonEmpty(ps) == [ps[0]] + rest;
      assert ps == [ps[0]] + rest;
    }
  }

  /** Every character of a piece is a character of the string. */
  lemma {:induction false} PiecesWithin(s: string, c: char)
    ensures forall i, x :: 0 <= i < |Pieces(s, c)| && x in Pieces(s, c)[i] ==> x in s
  {
    if s != [] {
      PiecesWithin(s[1..], c);
      var rest := Pieces(s[1..], c);
      assert s == [s[0]] + s[1..];
      forall i, x | 0 <= i < |Pieces(s, c)| && x in Pieces(s, c)[i]
        ensures x in s
      {
        if s[0] == c {
          if i > 0 {
            assert Pieces(s, c)[i] == rest[i - 1];
          }
        } else if i == 0 {
          assert Pieces(s, c)[0] == [s[0]] + rest[0];
        } else {
          assert Pieces(s, c)[i] == rest[i];
        }
      }
    }
  }

  /** Splitting the dump the decoder writes on runs of spaces gives its tokens. */
  lemma SplitRunsOfHex(data: seq<Byte>)
    requires |data| > 0
    ensures SplitSpaceRuns(Hex(data)) == Tokens(data)
  {
    var ts := Tokens(data);
    PiecesOfHex(data);
    if ' ' in Hex(data) {
      NonEmptyOfNonEmpty(ts[1..]);
      assert [ts[0]] + ts[1..] == ts;
      assert ts[|ts| - 1] != "";
    } else {
      PiecesWithoutSep(Hex(data), ' ');
    }
  }

  /** The dump the decoder writes is cut back into exactly its two-digit tokens. */
  lemma FieldsOfHex(data: seq<Byte>)
    requires |data| > 0
    ensures Fields(Hex(data)) == Tokens(data)
  {
    HexCharsKept(data);
    KeepHexOfClean(Hex(data));
    SplitRunsOfHex(data);
  }

  lemma {:induction false} HexCharsKept(data: seq<Byte>)
    ensures forall i :: 0 <= i < |Hex(data)| ==> Kept(Hex(data)[i])
  {
    if |data| > 1 {
      HexCharsKept(data[..|data| - 1]);
      var b := data[|data| - 1];
      assert HexValue(HexDigit(b / 16)).Some? && HexValue(HexDigit(b % 16)).Some?;
    } else if |data| == 1 {
      var b := data[0];
      assert HexValue(HexDigit(b / 16)).Some? && HexValue(HexDigit(b % 16)).Some?;
    }
  }

  /* ---------------- Integer.parseInt(s, 16) ---------------- */

  predicate AllHexDigits(s: string) {
    forall i :: 0 <= i < |s| ==> HexValue(s[i]).Some?
  }

  /** The value of a string of hex digits, most significant first. */
  function DigitsValue(s: string): nat
    requires AllHexDigits(s)
  {
    if s == [] then 0 else DigitsValue(s[..|s| - 1]) * 16 + HexValue(s[|s| - 1]).value
  }

  /** Integer.parseInt(s, 16): an optional sign, then at least one hex digit,
      and the value must fit in a Java int. */
  function ParseHexInt(s: string): (r: Result<int>)
    ensures r.Success? ==> -TwoTo31 <= r.value < TwoTo31
    ensures s == [] ==> r.Failure?
  {
    var signed := |s| > 0 && (s[0] == '-' || s[0] == '+');
    var digits := if signed then s[1..] else s;
    if digits == [] || !AllHexDigits(digits) then Failure(NumberFormat)
    else
      var v: int := if s[0] == '-' then -(DigitsValue(digits) as int) else DigitsValue(digits);
      if -TwoTo31 <= v < TwoTo31 then Success(v) else Failure(NumberFormat)
  }

  /** One more digit on the right: sixteen times the value, plus the digit. */
  lemma DigitsSnoc(s: string, c: char)
    requires AllHexDigits(s) && HexValue(c).Some?
    ensures AllHexDigits(s + [c]) && DigitsValue(s + [c]) == DigitsValue(s) * 16 + HexValue(c).value
  {
    assert (s + [c])[..|s|] == s;
  }

  /** A token the decoder wrote reads back as its byte. */
  lemma ParseHexIntOfToken(b: Byte)
    ensures ParseHexInt(HexToken(b)) == Success(b)
  {
    var h, l := HexDigit(b / 16), HexDigit(b % 16);
    assert HexValue(h) == Some(b / 16);
    assert HexValue(l) == Some(b % 16);
    DigitsSnoc([], h);
    DigitsSnoc([h], l);
    assert [] + [h] == [h] && [h] + [l] == HexToken(b);
  }

  function Pow16(e: nat): (r: nat)
    ensures r >= 1
  {
    if e == 0 then 1 else 16 * Pow16(e - 1)
  }

  /** e digits hold less than 16^e. */
  lemma {:induction false} DigitsBelow(s: string)
    requires AllHexDigits(s)
    ensures DigitsValue(s) < Pow16(|s|)
  {
    if s != [] {
      var front := s[..|s| - 1];
      DigitsBelow(front);
      assert DigitsValue(front) * 16 <= (Pow16(|front|) - 1) * 16;
    }
  }

  /** A leading digit of 8 or more alone weighs at least 8 * 16^(e - 1). */
  lemma {:induction false} HighLeadAtLeast(s: string)
    requires AllHexDigits(s) && |s| >= 1 && HexValue(s[0]).value >= 8
    ensures DigitsValue(s) >= 8 * Pow16(|s| - 1)
  {
    var front := s[..|s| - 1];
    if |s| > 1 {
      assert front[0] == s[0];
      HighLeadAtLeast(front);
      assert Pow16(|s| - 1) == 16 * Pow16(|front| - 1);
    } else {
      assert front == [];
      assert DigitsValue(s) == HexValue(s[0]).value;
    }
  }

  /** A token of hex digits only (no sign) parses to its value when it has at
      most seven digits; eight digits beginning with 8 or more overflow a Java
      int and throw. */
  lemma ParseHexIntRange(s: string)
    requires s != [] && AllHexDigits(s)
    ensures |s| <= 7 ==> ParseHexInt(s) == Success(DigitsValue(s))
    ensures |s| == 8 && HexValue(s[0]).value >= 8 ==> ParseHexInt(s).Failure?
  {
    ParseUnsigned(s);
    if |s| <= 7 {
      DigitsBelow(s);
      PowMonotone(|s|, 7);
      Pow16Seven(7);
    } else if |s| == 8 && HexValue(s[0]).value >= 8 {
      HighLeadAtLeast(s);
      Pow16Seven(|s| - 1);
    }
  }

  /** Without a sign the value is the digits' value, if it fits. */
  lemma ParseUnsigned(s: string)
    requires s != [] && AllHexDigits(s)
    ensures ParseHexInt(s) == if DigitsValue(s) < TwoTo31 then Success(DigitsValue(s)) else Failure(NumberFormat)
  {
    assert HexValue(s[0]).Some?;
    assert s[0] != '-' && s[0] != '+';
  }

  lemma Pow16Seven(e: nat)
    requires e == 7
    ensures Pow16(e) == 0x1000_0000
  {
    assert Pow16(2) == 0x100;
    assert Pow16(4) == 0x1_0000;
  }

  lemma {:induction false} PowMonotone(a: nat, b: nat)
    requires a <= b
    ensures Pow16(a) <= Pow16(b)
    decreases b - a
  {
    if a < b {
      PowMonotone(a, b - 1);
    }
  }

  /* ---------------- the offset column ---------------- */

  /** n in upper-case hex without leading zeros. */
  function HexNat(n: nat): (r: string)
    ensures |r| >= 1
    decreases n
  {
    if n < 16 then [HexDigit(n)] else HexNat(n / 16) + [HexDigit(n % 16)]
  }

  function Zeros(k: nat): (r: string)
    ensures |r| == k
  {
    if k == 0 then [] else Zeros(k - 1) + ['0']
  }

  /** String.format("%04X", n) for n >= 0. */
  function Offset(n: nat): (r: string)
    ensures |r| >= 4
  {
    var d := HexNat(n);
    if |d| < 4 then Zeros(4 - |d|) + d else d
  }

  lemma {:induction false} HexNatValue(n: nat)
    ensures AllHexDigits(HexNat(n)) && DigitsValue(HexNat(n)) == n
    decreases n
  {
    assert HexValue(HexDigit(n % 16)) == Some(n % 16);
    if n >= 16 {
      HexNatValue(n / 16);
      DigitsSnoc(HexNat(n / 16), HexDigit(n % 16));
    } else {
      DigitsSnoc([], HexDigit(n));
      assert [] + [HexDigit(n)] == HexNat(n);
    }
  }

  lemma {:induction false} LeadingZerosValue(k: nat, s: string)
    requires AllHexDigits(s)
    ensures AllHexDigits(Zeros(k) + s) && DigitsValue(Zeros(k) + s) == DigitsValue(s)
    decreases |s|
  {
    ZerosValue(k);
    if s == [] {
      assert Zeros(k) + s == Zeros(k);
    } else {
      var front, c := s[..|s| - 1], s[|s| - 1];
      LeadingZerosValue(k, front);
      DigitsSnoc(front, c);
      DigitsSnoc(Zeros(k) + front, c);
      assert Zeros(k) + s == (Zeros(k) + front) + [c];
      assert front + [c] == s;
    }
  }

  lemma {:induction false} ZerosValue(k: nat)
    ensures AllHexDigits(Zeros(k)) && DigitsValue(Zeros(k)) == 0
  {
    if k > 0 {
      ZerosValue(k - 1);
      assert HexValue('0') == Some(0);
      DigitsSnoc(Zeros(k - 1), '0');
    }
  }

  /** The offset column reads back as the offset, for every offset an int can hold. */
  lemma OffsetRoundTrip(n: nat)
    requires n < TwoTo31
    ensures ParseHexInt(Offset(n)) == Success(n)
  {
    HexNatValue(n);
    var d := HexNat(n);
    if |d| < 4 {
      LeadingZerosValue(4 - |d|, d);
    }
  }

  /* ---------------- the layout ---------------- */

  /** The character the ASCII column shows for a parsed value. */
  function CharOf(v: int): char {
    if 32 <= v < 127 then v as char else '.'
  }

  /** Hex slot k: the token, a one-character token padded with "0", then a
      space; three spaces past the last token. */
  function HexSlot(tokens: seq<string>, k: nat): string {
    if k < |tokens| then (if |tokens[k]| == 1 then "0" else "") + tokens[k] + " " else "   "
  }

  /** ASCII slot k: the character of the token's value, or a space past the
      last token. (A token that does not parse never reaches the output.) */
  function AsciiSlot(tokens: seq<string>, k: nat): char {
    if k < |tokens| then
      match ParseHexInt(tokens[k])
      case Success(v) => CharOf(v)
      case Failure(_) => '.'
    else ' '
  }

  /** The hex slots i .. m - 1, in order. */
  function HexColumn(tokens: seq<string>, i: nat, m: nat): string
    decreases m - i
  {
    if m <= i then "" else HexColumn(tokens, i, m - 1) + HexSlot(tokens, m - 1)
  }

  /** The ASCII slots i .. m - 1, in order. */
  function AsciiColumn(tokens: seq<string>, i: nat, m: nat): string
    decreases m - i
  {
    if m <= i then "" else AsciiColumn(tokens, i, m - 1) + [AsciiSlot(tokens, m - 1)]
  }

  /** The line for tokens i .. i + 15. */
  function Line(tokens: seq<string>, i: nat): string {
    Offset(i) + ": " + HexColumn(tokens, i, i + Width) + " |" + AsciiColumn(tokens, i, i + Width) + "|\n"
  }

  /** The lines, one per group of Width tokens: line j starts at token 16 * j. */
  function LineList(tokens: seq<string>, count: nat): (r: seq<string>)
    ensures |r| == count
  {
    seq(count, j requires 0 <= j < count => Line(tokens, 16 * j))
  }

  /** The strings of ls, one after the other. */
  function Concat(ls: seq<string>): string {
    if ls == [] then "" else Concat(ls[..|ls| - 1]) + ls[|ls| - 1]
  }

  /** The first k lines. */
  function Lines(tokens: seq<string>, k: nat): string {
    Concat(LineList(tokens, k))
  }

  /** ceil(n / 16) */
  function LineCount(n: nat): (k: nat)
    ensures 16 * k >= n && (k == 0 || 16 * (k - 1) < n)
  {
    (n + 15) / 16
  }

  ghost predicate AllParse(tokens: seq<string>) {
    forall k :: 0 <= k < |tokens| ==> ParseHexInt(tokens[k]).Success?
  }

  /** Every token of the line from i parses. */
  ghost predicate LineParses(tokens: seq<string>, i: nat) {
    forall k :: i <= k < i + Width && k < |tokens| ==> ParseHexInt(tokens[k]).Success?
  }

  /** The lines for a list of tokens, or the exception of the first that does not parse. */
  ghost function FormattedTokens(tokens: seq<string>): Result<string> {
    if AllParse(tokens) then Success(Lines(tokens, LineCount(|tokens|))) else Failure(NumberFormat)
  }

  /** What formatHexDump returns, or the exception it throws. */
  ghost function Formatted(hexDump: string): Result<string> {
    FormattedTokens(Fields(hexDump))
  }

  lemma ConcatAssoc(a: string, b: string, c: string)
    ensures (a + b) + c == a + (b + c)
  {
  }

  /** The hex slots of the line from i, appended to out. */
  method AppendHexColumn(bytes: seq<string>, i: nat, out: string) returns (res: string)
    ensures res == out + HexColumn(bytes, i, i + Width)
  {
    res := out;
    for j := 0 to Width
      invariant res == out + HexColumn(bytes, i, i + j)
    {
      var slot := if i + j < |bytes| then (if |bytes[i + j]| == 1 then "0" else "") + bytes[i + j] + " " else "   ";
      assert slot == HexSlot(bytes, i + j);
      assert HexColumn(bytes, i, i + j + 1) == HexColumn(bytes, i, i + j) + slot;
      ConcatAssoc(out, HexColumn(bytes, i, i + j), slot);
      res := res + slot;
    }
  }

  /** The ASCII slots of the line from i, appended to out, each token parsed
      on the way; the first that does not parse aborts. */
  method AppendAsciiColumn(bytes: seq<string>, i: nat, out: string) returns (res: Result<string>)
    ensures LineParses(bytes, i) ==> res == Success(out + AsciiColumn(bytes, i, i + Width))
    ensures !LineParses(bytes, i) ==> res == Failure(NumberFormat)
  {
    var acc := out;
    for j := 0 to Width
      invariant acc == out + AsciiColumn(bytes, i, i + j)
      invariant forall m :: i <= m < i + j && m < |bytes| ==> ParseHexInt(bytes[m]).Success?
    {
      var c := ' ';
      if i + j < |bytes| {
        var v := ParseHexInt(bytes[i + j]);
        if v.Failure? {
          return Failure(NumberFormat);
        }
        c := CharOf(v.value);
      }
      assert c == AsciiSlot(bytes, i + j);
      assert AsciiColumn(bytes, i, i + j + 1) == AsciiColumn(bytes, i, i + j) + [c];
      ConcatAssoc(out, AsciiColumn(bytes, i, i + j), [c]);
      acc := acc + [c];
    }
    res := Success(acc);
  }

  /** One line: the offset, the hex slots, the ASCII slots and the closing bar. */
  method FormatLine(bytes: seq<string>, i: nat) returns (r: Result<string>)
    ensures LineParses(bytes, i) ==> r == Success(Line(bytes, i))
    ensures !LineParses(bytes, i) ==> r == Failure(NumberFormat)
  {
    var withHex := AppendHexColumn(bytes, i, Offset(i) + ": ");
    var withAscii := AppendAsciiColumn(bytes, i, withHex + " |");
    if withAscii.Failure? {
      return withAscii;
    }
    assert withAscii.value == withHex + " |" + AsciiColumn(bytes, i, i + Width);
    r := Success(withAscii.value + "|\n");
  }

  /** Every token before i parses. */
  ghost predicate ParsedBelow(tokens: seq<string>, i: nat) {
    forall k :: 0 <= k < i && k < |tokens| ==> ParseHexInt(tokens[k]).Success?
  }

  lemma ParsedStep(tokens: seq<string>, i: nat)
    requires ParsedBelow(tokens, i) && LineParses(tokens, i)
    ensures ParsedBelow(tokens, i + Width)
  {
  }

  lemma ParseFailureStops(tokens: seq<string>, i: nat)
    requires !LineParses(tokens, i)
    ensures FormattedTokens(tokens) == Failure(NumberFormat)
  {
  }

  lemma ParsedAll(tokens: seq<string>, i: nat, k: nat)
    requires ParsedBelow(tokens, i) && i >= |tokens| && k == LineCount(|tokens|)
    ensures FormattedTokens(tokens) == Success(Lines(tokens, k))
  {
  }

  lemma LinesStep(tokens: seq<string>, k: nat)
    ensures Lines(tokens, k + 1) == Lines(tokens, k) + Line(tokens, 16 * k)
  {
    var ls := LineList(tokens, k + 1);
    assert ls[..k] == LineList(tokens, k);
  }

  /** The loop of formatHexDump over the tokens: for each group of 16, the
      offset, the hex slots and the ASCII slots. */
  method FormatTokens(bytes: seq<string>) returns (r: Result<string>)
    ensures r == FormattedTokens(bytes)
  {
    var n := |bytes|;
    var out := "";
    var offset := 0;
    var i := 0;
    ghost var k := 0;
    while i < n
      invariant i == 16 * k && offset == i
      invariant k == 0 || 16 * (k - 1) < n
      invariant out == Lines(bytes, k)
      invariant ParsedBelow(bytes, i)
      decreases n - i
    {
      var line := FormatLine(bytes, offset);
      if line.Failure? {
        ParseFailureStops(bytes, i);
        return line;
      }
      ParsedStep(bytes, i);
      LinesStep(bytes, k);
      out := out + line.value;
      offset := offset + 16;
      i := i + 16;
      k := k + 1;
    }
    ParsedAll(bytes, i, k);
    r := Success(out);
  }

  /** formatHexDump: clean the dump, cut it into tokens, lay them out. */
  method FormatHexDump(hexDump: string) returns (r: Result<string>)
    ensures r == Formatted(hexDump)
  {
    var bytes := SplitSpaceRuns(KeepHex(hexDump));
    r := FormatTokens(bytes);
  }

  /** The empty dump of an empty frame is one empty token, which parseInt rejects. */
  lemma EmptyDumpFails()
    ensures Formatted("").Failure?
  {
    assert KeepHex("") == "";
    assert SplitSpaceRuns("") == [""];
    assert ParseHexInt(Fields("")[0]).Failure?;
  }

  /** A dump of only spaces has no tokens at all and formats to nothing. */
  lemma BlankDumpIsEmpty()
    ensures Formatted("  ") == Success("")
  {
    assert KeepHex("  ") == "  ";
    assert Pieces("  ", ' ') == ["", "", ""];
    assert Fields("  ") == [];
  }

  /** The dump of a non-empty frame formats, one line per 16 bytes. */
  lemma FormatsFrameDump(data: seq<Byte>)
    requires |data| > 0
    ensures Formatted(Hex(data)) == Success(Lines(Tokens(data), LineCount(|data|)))
  {
    FieldsOfHex(data);
    var ts := Tokens(data);
    forall k | 0 <= k < |ts|
      ensures ParseHexInt(ts[k]).Success?
    {
      ParseHexIntOfToken(data[k]);
    }
  }

  /** In the dump of a frame, slot k shows byte k: its two digits in the hex
      column, its character (AsciiChar) in the ASCII column. */
  lemma FrameDumpSlots(data: seq<Byte>, k: nat)
    requires k < |data|
    ensures HexSlot(Tokens(data), k) == HexToken(data[k]) + " "
    ensures AsciiSlot(Tokens(data), k) == AsciiChar(data[k])
  {
    var tokens := Tokens(data);
    var t := HexToken(data[k]);
    assert tokens[k] == t;
    assert HexSlot(tokens, k) == "" + t + " ";
    ParseHexIntOfToken(data[k]);
    assert AsciiSlot(tokens, k) == CharOf(data[k] as int);
  }

  /* ---------------- line count ---------------- */

  /** The number of line breaks in s. */
  function NewlineCount(s: string): nat
    decreases |s|
  {
    if s == [] then 0 else NewlineCount(s[..|s| - 1]) + (if s[|s| - 1] == '\n' then 1 else 0)
  }

  lemma {:induction false} CountAppend(a: string, b: string)
    ensures NewlineCount(a + b) == NewlineCount(a) + NewlineCount(b)
    decreases |b|
  {
    if b == [] {
      assert a + b == a;
    } else {
      CountAppend(a, b[..|b| - 1]);
      assert (a + b)[..|a + b| - 1] == a + b[..|b| - 1];
    }
  }

  lemma {:induction false} CountAbsent(s: string)
    requires '\n' !in s
    ensures NewlineCount(s) == 0
    decreases |s|
  {
    if s != [] {
      CountAbsent(s[..|s| - 1]);
    }
  }

  /** No token holds a line break. */
  ghost predicate NoNewlines(tokens: seq<string>) {
    forall k :: 0 <= k < |tokens| ==> NewlineCount(tokens[k]) == 0
  }

  lemma HexSlotCount(tokens: seq<string>, k: nat)
    requires NoNewlines(tokens)
    ensures NewlineCount(HexSlot(tokens, k)) == 0
  {
    if k < |tokens| {
      var pad, t := if |tokens[k]| == 1 then "0" else "", tokens[k];
      CountAbsent(pad);
      CountAbsent(" ");
      CountAppend(pad, t);
      CountAppend(pad + t, " ");
    } else {
      CountAbsent("   ");
    }
  }

  lemma {:induction false} HexColumnCount(tokens: seq<string>, i: nat, m: nat)
    requires forall k :: i <= k < m ==> NewlineCount(HexSlot(tokens, k)) == 0
    ensures NewlineCount(HexColumn(tokens, i, m)) == 0
    decreases m - i
  {
    if m > i {
      var prefix, slot := HexColumn(tokens, i, m - 1), HexSlot(tokens, m - 1);
      assert HexColumn(tokens, i, m) == prefix + slot;
      HexColumnCount(tokens, i, m - 1);
      CountAppend(prefix, slot);
    }
  }

  lemma {:induction false} AsciiColumnCount(tokens: seq<string>, i: nat, m: nat)
    ensures NewlineCount(AsciiColumn(tokens, i, m)) == 0
    decreases m - i
  {
    if m > i {
      var prefix, c := AsciiColumn(tokens, i, m - 1), AsciiSlot(tokens, m - 1);
      assert AsciiColumn(tokens, i, m) == prefix + [c];
      AsciiColumnCount(tokens, i, m - 1);
      assert c != '\n';
      CountAbsent([c]);
      CountAppend(prefix, [c]);
    }
  }

  lemma OffsetCount(n: nat)
    ensures NewlineCount(Offset(n)) == 0
  {
    var d := HexNat(n);
    HexNatValue(n);
    if |d| < 4 {
      LeadingZerosValue(4 - |d|, d);
    }
    var o := Offset(n);
    assert AllHexDigits(o);
    forall x | x in o
      ensures x != '\n'
    {
    }
    CountAbsent(o);
  }

  /** Every line holds exactly one line break. */
  lemma LineHasOneNewline(tokens: seq<string>, i: nat)
    requires NoNewlines(tokens)
    ensures NewlineCount(Line(tokens, i)) == 1
  {
    var o, h, a := Offset(i), HexColumn(tokens, i, i + Width), AsciiColumn(tokens, i, i + Width);
    assert Line(tokens, i) == o + ": " + h + " |" + a + "|\n";
    OffsetCount(i);
    HexSlotsCount(tokens, i);
    AsciiColumnCount(tokens, i, i + Width);
    LiteralCounts();
    CountAppend(o, ": ");
    CountAppend(o + ": ", h);
    CountAppend(o + ": " + h, " |");
    CountAppend(o + ": " + h + " |", a);
    CountAppend(o + ": " + h + " |" + a, "|\n");
  }

  lemma HexSlotsCount(tokens: seq<string>, i: nat)
    requires NoNewlines(tokens)
    ensures NewlineCount(HexColumn(tokens, i, i + Width)) == 0
  {
    forall k | i <= k < i + Width
      ensures NewlineCount(HexSlot(tokens, k)) == 0
    {
      HexSlotCount(tokens, k);
    }
    HexColumnCount(tokens, i, i + Width);
  }

  /** The separators of a line: only the closing one breaks the line. */
  lemma LiteralCounts()
    ensures NewlineCount(": ") == 0 && NewlineCount(" |") == 0 && NewlineCount("|\n") == 1
  {
    CountAbsent(": ");
    CountAbsent(" |");
    CountAbsent("|");
    CountAppend("|", "\n");
    assert "|" + "\n" == "|\n";
  }

  lemma {:induction false} ConcatCount(ls: seq<string>)
    requires forall j :: 0 <= j < |ls| ==> NewlineCount(ls[j]) == 1
    ensures NewlineCount(Concat(ls)) == |ls|
  {
    if ls != [] {
      ConcatCount(ls[..|ls| - 1]);
      CountAppend(Concat(ls[..|ls| - 1]), ls[|ls| - 1]);
    }
  }

  /** k lines hold k line breaks. */
  lemma LinesCount(tokens: seq<string>, k: nat)
    requires NoNewlines(tokens)
    ensures NewlineCount(Lines(tokens, k)) == k
  {
    var ls := LineList(tokens, k);
    forall j | 0 <= j < k
      ensures NewlineCount(ls[j]) == 1
    {
      LineHasOneNewline(tokens, 16 * j);
    }
    ConcatCount(ls);
  }

  /** A successful format has ceil(n / 16) lines for n tokens. */
  lemma FormattedLineCount(hexDump: string)
    requires Formatted(hexDump).Success?
    ensures NewlineCount(Formatted(hexDump).value) == LineCount(|Fields(hexDump)|)
  {
    FieldsNoNewlines(hexDump);
    LinesCount(Fields(hexDump), LineCount(|Fields(hexDump)|));
  }

  /** Every character of a token is a character of the split string. */
  lemma SplitRunsWithin(s: string)
    ensures forall i, x :: 0 <= i < |SplitSpaceRuns(s)| && x in SplitSpaceRuns(s)[i] ==> x in s
  {
    if ' ' in s {
      PiecesWithin(s, ' ');
      var ps := Pieces(s, ' ');
      var r := SplitSpaceRuns(s);
      forall i | 0 <= i < |r|
        ensures r[i] in ps
      {
        assert r[i] in [ps[0]] + NonEmpty(ps[1..]);
      }
    }
  }

  lemma FieldsNoNewlines(hexDump: string)
    ensures NoNewlines(Fields(hexDump))
  {
    var cleaned := KeepHex(hexDump);
    var tokens := Fields(hexDump);
    forall x | x in cleaned
      ensures Kept(x)
    {
    }
    SplitRunsWithin(cleaned);
    forall m | 0 <= m < |tokens|
      ensures NewlineCount(tokens[m]) == 0
    {
      assert '\n' !in tokens[m];
      CountAbsent(tokens[m]);
    }
  }

  /* ---------------- protocol badge colour ---------------- */

  /** protoColor: one fixed colour per known label, grey for the rest. */
  function ProtoColor(proto: string): (r: string)
    ensures proto !in {"TCP", "UDP", "ICMP", "ARP", "HTTP", "HTTPS"} <==> r == DefaultColor
  {
    match proto
    case "TCP" => "#0094ff"
    case "UDP" => "#32c8ff"
    case "ICMP" => "#e4ff23"
    case "ARP" => "#ffaa00"
    case "HTTP" => "#4caf50"
    case "HTTPS" => "#2027e5"
    case _ => DefaultColor
  }

  /** The six known labels get six different colours. */
  lemma ProtoColorsDistinct(a: string, b: string)
    requires a in {"TCP", "UDP", "ICMP", "ARP", "HTTP", "HTTPS"}
    requires b in {"TCP", "UDP", "ICMP", "ARP", "HTTP", "HTTPS"}
    ensures ProtoColor(a) == ProtoColor(b) <==> a == b
  {
  }
}
