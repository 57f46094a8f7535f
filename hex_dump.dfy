/** The textual renderings of a raw frame shared by both decoders: every byte
    as two upper-case hex digits separated by single spaces, and every byte as
    its character when printable, otherwise '.'. */
module HexDump {
  import opened JavaLang

  type Byte = b: int | 0 <= b < 256

  function HexDigit(d: int): char
    requires 0 <= d < 16
  {
    if d < 10 then ('0' as int + d) as char else ('A' as int + d - 10) as char
  }

  /** String.format("%02X", b) */
  function HexToken(b: Byte): (r: string)
    ensures |r| == 2 && ' ' !in r
  {
    [HexDigit(b / 16), HexDigit(b % 16)]
  }

  /** The whole dump: n tokens joined by single spaces. */
  function Hex(data: seq<Byte>): string {
    if |data| == 0 then ""
    else if |data| == 1 then HexToken(data[0])
    else Hex(data[..|data| - 1]) + " " + HexToken(data[|data| - 1])
  }

  /** What the dump loop has appended after i bytes: each token followed by a space. */
  function HexSpaced(data: seq<Byte>): string {
    if data == [] then "" else HexSpaced(data[..|data| - 1]) + HexToken(data[|data| - 1]) + " "
  }

  predicate Printable(b: int) {
    32 <= b <= 126
  }

  function AsciiChar(b: Byte): char {
    if Printable(b) then b as char else '.'
  }

  function Ascii(data: seq<Byte>): (r: string)
    ensures |r| == |data|
    ensures forall i :: 0 <= i < |data| ==> r[i] == AsciiChar(data[i])
  {
    if data == [] then "" else Ascii(data[..|data| - 1]) + [AsciiChar(data[|data| - 1])]
  }

  /* ---------------- the Java byte view ---------------- */

  /** The value of a Java byte holding b. */
  function SignedByte(b: Byte): int {
    if b < 128 then b else b - 256
  }

  /** (char) applied to a Java byte: sign extension, then the low 16 bits. */
  function CharCodeOfByte(sb: int): int
    requires -128 <= sb < 128
  {
    if sb < 0 then sb + 0x1_0000 else sb
  }

  /** The two ASCII tests written in the decoders agree with Printable:
      `(char) b` in 32..126 and signed `b` in 32..126 both reject bytes >= 0x80. */
  lemma SignedTestsArePrintable(b: Byte)
    ensures (32 <= CharCodeOfByte(SignedByte(b)) <= 126) <==> Printable(b)
    ensures (32 <= SignedByte(b) < 127) <==> Printable(b)
  {
  }

  /* ---------------- shape of the dump ---------------- */

  lemma {:induction false} HexLength(data: seq<Byte>)
    ensures |data| == 0 ==> Hex(data) == ""
    ensures |data| > 0 ==> |Hex(data)| == 3 * |data| - 1
  {
    if |data| > 1 {
      HexLength(data[..|data| - 1]);
    }
  }

  /** Byte i sits at characters 3i and 3i+1; a single space follows every token but the last. */
  lemma {:induction false} HexLayout(data: seq<Byte>, i: nat)
    requires i < |data|
    ensures |Hex(data)| == 3 * |data| - 1
    ensures Hex(data)[3 * i .. 3 * i + 2] == HexToken(data[i])
    ensures i + 1 < |data| ==> Hex(data)[3 * i + 2] == ' '
  {
    HexLength(data);
    var n := |data|;
    if n > 1 {
      var front := data[..n - 1];
      HexLength(front);
      assert Hex(data) == Hex(front) + " " + HexToken(data[n - 1]);
      if i < n - 1 {
        HexLayout(front, i);
        assert Hex(data)[3 * i .. 3 * i + 2] == Hex(front)[3 * i .. 3 * i + 2];
        if i + 1 < n - 1 {
          assert Hex(data)[3 * i + 2] == Hex(front)[3 * i + 2];
        }
      }
    }
  }

  lemma {:induction false} SpacedIsHexPlusSpace(data: seq<Byte>)
    requires |data| > 0
    ensures HexSpaced(data) == Hex(data) + " "
  {
    if |data| > 1 {
      SpacedIsHexPlusSpace(data[..|data| - 1]);
    } else {
      assert HexSpaced(data[..0]) == "";
    }
  }

  lemma {:induction false} HexStartsAndEndsWithDigit(data: seq<Byte>)
    requires |data| > 0
    ensures Hex(data) != [] && Hex(data)[0] > ' ' && Hex(data)[|Hex(data)| - 1] > ' '
  {
    HexLayout(data, 0);
    HexLayout(data, |data| - 1);
  }

  lemma TrimEndDropsOneSpace(s: string)
    requires s != [] && s[|s| - 1] > ' '
    ensures TrimEnd(s + " ") == s
  {
    assert (s + " ")[..|s + " "| - 1] == s;
  }

  /** What a dump loop produces, trimmed, is exactly the joined dump. */
  lemma TrimmedSpacedIsHex(data: seq<Byte>)
    ensures Trim(HexSpaced(data)) == Hex(data)
  {
    if |data| > 0 {
      SpacedIsHexPlusSpace(data);
      HexStartsAndEndsWithDigit(data);
      TrimEndDropsOneSpace(Hex(data));
    }
  }

  /* ---------------- reading the dump back ---------------- */

  function HexValue(c: char): Option<int> {
    if '0' <= c <= '9' then Some(c as int - '0' as int)
    else if 'A' <= c <= 'F' then Some(c as int - 'A' as int + 10)
    else if 'a' <= c <= 'f' then Some(c as int - 'a' as int + 10)
    else None
  }

  /** A two-digit token back to its byte. */
  function ParseToken(t: string): (r: Option<Byte>)
    ensures r.Some? ==> |t| == 2
  {
    if |t| != 2 then None
    else match (HexValue(t[0]), HexValue(t[1]))
      case (Some(h), Some(l)) => Some(16 * h + l)
      case _ => None
  }

  function ParseTokens(ts: seq<string>): Option<seq<Byte>> {
    if ts == [] then Some([])
    else match (ParseTokens(ts[..|ts| - 1]), ParseToken(ts[|ts| - 1]))
      case (Some(front), Some(b)) => Some(front + [b])
      case _ => None
  }

  /** Reads a dump back into bytes: split on single spaces, parse every token. */
  function Unhex(s: string): Option<seq<Byte>> {
    if s == "" then Some([]) else ParseTokens(Split(s, ' '))
  }

  function Tokens(data: seq<Byte>): (r: seq<string>)
    ensures |r| == |data|
    ensures forall i :: 0 <= i < |data| ==> r[i] == HexToken(data[i])
  {
    if data == [] then [] else Tokens(data[..|data| - 1]) + [HexToken(data[|data| - 1])]
  }

  lemma {:induction false} PiecesOfJoin(a: string, b: string, c: char)
    requires c !in b
    ensures Pieces(a + [c] + b, c) == Pieces(a, c) + [b]
  {
    PiecesWithoutSep(b, c);
    if a == [] {
      assert a + [c] + b == [c] + b;
      assert ([c] + b)[1..] == b;
    } else {
      PiecesOfJoin(a[1..], b, c);
      assert (a + [c] + b)[1..] == a[1..] + [c] + b;
    }
  }

  lemma {:induction false} PiecesWithoutSep(s: string, c: char)
    requires c !in s
    ensures Pieces(s, c) == [s]
  {
    if s != [] {
      PiecesWithoutSep(s[1..], c);
      assert s == [s[0]] + s[1..];
    }
  }

  lemma {:induction false} PiecesOfHex(data: seq<Byte>)
    requires |data| > 0
    ensures Pieces(Hex(data), ' ') == Tokens(data)
  {
    var n := |data|;
    if n == 1 {
      PiecesWithoutSep(HexToken(data[0]), ' ');
    } else {
      PiecesOfHex(data[..n - 1]);
      PiecesOfJoin(Hex(data[..n - 1]), HexToken(data[n - 1]), ' ');
      assert Hex(data) == Hex(data[..n - 1]) + [' '] + HexToken(data[n - 1]);
    }
  }

  lemma ParseHexToken(b: Byte)
    ensures ParseToken(HexToken(b)) == Some(b)
  {
    var h, l := b / 16, b % 16;
    assert HexValue(HexDigit(h)) == Some(h);
    assert HexValue(HexDigit(l)) == Some(l);
  }

  lemma {:induction false} ParseTokensOfHex(data: seq<Byte>)
    ensures ParseTokens(Tokens(data)) == Some(data)
  {
    if data != [] {
      var n := |data|;
      var front, b := data[..n - 1], data[n - 1];
      ParseTokensOfHex(front);
      ParseHexToken(b);
      var t := Tokens(data);
      assert t == Tokens(front) + [HexToken(b)];
      assert t[..n - 1] == Tokens(front);
      assert front + [b] == data;
    }
  }

  /** Splitting a dump on spaces gives one two-digit token per byte. */
  lemma SplitOfHex(data: seq<Byte>)
    requires |data| > 0
    ensures Split(Hex(data), ' ') == Tokens(data)
  {
    PiecesOfHex(data);
    if ' ' !in Hex(data) {
      PiecesWithoutSep(Hex(data), ' ');
    } else {
      assert Tokens(data)[|data| - 1] != "";
    }
  }

  /** Parsing the dump back reproduces the frame exactly. */
  lemma HexRoundTrip(data: seq<Byte>)
    ensures Unhex(Hex(data)) == Some(data)
  {
    if data != [] {
      HexLength(data);
      SplitOfHex(data);
      ParseTokensOfHex(data);
    }
  }
}
