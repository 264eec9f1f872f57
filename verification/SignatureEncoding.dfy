/**
 Hexadecimal and base64 (sections 8 and 4 of RFC 4648) as the Go library decodes
 them, and the signature comparison that accepts three encodings of one MAC.
 */
module SignatureEncoding {
  import opened Wrappers
  import opened Strings

  type Byte = x: int | 0 <= x < 256

  // ---------- hexadecimal ----------

  function HexDigit(n: int): char
    requires 0 <= n < 16
  {
    if n < 10 then '0' + n as char else 'a' + (n - 10) as char
  }

  function HexValue(c: char): Option<int> {
    if '0' <= c <= '9' then Some(c as int - '0' as int)
    else if 'a' <= c <= 'f' then Some(c as int - 'a' as int + 10)
    else if 'A' <= c <= 'F' then Some(c as int - 'A' as int + 10)
    else None
  }

  function HexEncode(b: seq<Byte>): string {
    if b == [] then "" else [HexDigit(b[0] / 16), HexDigit(b[0] % 16)] + HexEncode(b[1..])
  }

  function HexDecode(s: string): Option<seq<Byte>> {
    if s == "" then Some([])
    else if |s| == 1 || HexValue(s[0]).None? || HexValue(s[1]).None? then None
    else
      match HexDecode(s[2..])
      case None => None
      case Some(rest) =>
        var v: Byte := HexValue(s[0]).value * 16 + HexValue(s[1]).value;
        Some([v] + rest)
  }

  lemma HexDigitValue(n: int)
    requires 0 <= n < 16
    ensures HexValue(HexDigit(n)) == Some(n) && !IsSpace(HexDigit(n))
  {}

  lemma {:induction false} HexRoundTrip(b: seq<Byte>)
    ensures HexDecode(HexEncode(b)) == Some(b)
    ensures |HexEncode(b)| == 2 * |b|
    ensures forall i :: 0 <= i < |HexEncode(b)| ==> HexValue(HexEncode(b)[i]).Some? && !IsSpace(HexEncode(b)[i])
  {
    if b != [] {
      HexRoundTrip(b[1..]);
      HexDigitValue(b[0] / 16);
      HexDigitValue(b[0] % 16);
      assert HexEncode(b)[2..] == HexEncode(b[1..]);
      assert b == [b[0]] + b[1..];
    }
  }

  /** Only an even number of hexadecimal digits decodes. */
  lemma {:induction false} HexDecodable(s: string)
    requires HexDecode(s).Some?
    ensures |s| % 2 == 0 && forall i :: 0 <= i < |s| ==> HexValue(s[i]).Some?
  {
    if s != "" {
      HexDecodable(s[2..]);
      assert forall i :: 2 <= i < |s| ==> s[i] == s[2..][i - 2];
    }
  }

  // ---------- base64 ----------

  function B64Char(n: int): char
    requires 0 <= n < 64
  {
    if n < 26 then 'A' + n as char
    else if n < 52 then 'a' + (n - 26) as char
    else if n < 62 then '0' + (n - 52) as char
    else if n == 62 then '+' else '/'
  }

  function B64Value(c: char): Option<int> {
    if 'A' <= c <= 'Z' then Some(c as int - 'A' as int)
    else if 'a' <= c <= 'z' then Some(c as int - 'a' as int + 26)
    else if '0' <= c <= '9' then Some(c as int - '0' as int + 52)
    else if c == '+' then Some(62)
    else if c == '/' then Some(63)
    else None
  }

  lemma B64CharValue(n: int)
    requires 0 <= n < 64
    ensures B64Value(B64Char(n)) == Some(n)
  {}

  /** `padded` selects the standard encoding, otherwise the raw one. */
  function B64Encode(b: seq<Byte>, padded: bool): string {
    if b == [] then ""
    else if |b| == 1 then
      [B64Char(b[0] / 4), B64Char(b[0] % 4 * 16)] + (if padded then "==" else "")
    else if |b| == 2 then
      [B64Char(b[0] / 4), B64Char(b[0] % 4 * 16 + b[1] / 16), B64Char(b[1] % 16 * 4)] + (if padded then "=" else "")
    else
      [B64Char(b[0] / 4), B64Char(b[0] % 4 * 16 + b[1] / 16), B64Char(b[1] % 16 * 4 + b[2] / 64), B64Char(b[2] % 64)]
      + B64Encode(b[3..], padded)
  }

  function OneByte(v0: int, v1: int): Byte
    requires 0 <= v0 < 64 && 0 <= v1 < 64
  {
    v0 * 4 + v1 / 16
  }

  function TwoBytes(v0: int, v1: int, v2: int): seq<Byte>
    requires 0 <= v0 < 64 && 0 <= v1 < 64 && 0 <= v2 < 64
  {
    [OneByte(v0, v1), v1 % 16 * 16 + v2 / 4]
  }

  function ThreeBytes(v0: int, v1: int, v2: int, v3: int): seq<Byte>
    requires 0 <= v0 < 64 && 0 <= v1 < 64 && 0 <= v2 < 64 && 0 <= v3 < 64
  {
    TwoBytes(v0, v1, v2) + [v2 % 4 * 64 + v3]
  }

  predicate Sextets(s: string, n: nat)
    requires n <= |s|
  {
    forall i :: 0 <= i < n ==> B64Value(s[i]).Some?
  }

  /** Go drops carriage returns and newlines before it looks at the alphabet, and
      does not require the unused low bits of the last digit to be zero. */
  function B64Decode(s: string, padded: bool): Option<seq<Byte>> {
    DecodeQuads(WithoutLineBreaks(s), padded)
  }

  function WithoutLineBreaks(s: string): string {
    if s == "" then ""
    else (if s[0] == '\r' || s[0] == '\n' then "" else [s[0]]) + WithoutLineBreaks(s[1..])
  }

  function DecodeQuads(s: string, padded: bool): Option<seq<Byte>> {
    if s == "" then Some([])
    else if |s| >= 4 && Sextets(s, 4) then
      match DecodeQuads(s[4..], padded)
      case None => None
      case Some(rest) => Some(FullDigits(s) + rest)
    else DecodeEnd(s, padded)
  }

  function FullDigits(s: string): seq<Byte>
    requires |s| >= 4 && Sextets(s, 4)
  {
    ThreeBytes(B64Value(s[0]).value, B64Value(s[1]).value, B64Value(s[2]).value, B64Value(s[3]).value)
  }

  /** The last one or two bytes, written in two or three digits; the padded form
      is filled up to four characters with '='. */
  function DecodeEnd(s: string, padded: bool): Option<seq<Byte>> {
    var digits := if padded then (if |s| == 4 && s[3] == '=' then (if s[2] == '=' then 2 else 3) else 0) else |s|;
    if digits == 2 && Sextets(s, 2) then
      Some([OneByte(B64Value(s[0]).value, B64Value(s[1]).value)])
    else if digits == 3 && Sextets(s, 3) then
      Some(TwoBytes(B64Value(s[0]).value, B64Value(s[1]).value, B64Value(s[2]).value))
    else None
  }

  lemma {:induction false} WithoutLineBreaksKeeps(s: string)
    requires InAlphabet(s, true)
    ensures WithoutLineBreaks(s) == s
  {
    if s != "" {
      assert s[0] in s && s == [s[0]] + s[1..];
      WithoutLineBreaksKeeps(s[1..]);
    }
  }

  /** Decoding undoes encoding, for all byte strings and both variants. */
  lemma {:induction false} B64RoundTrip(b: seq<Byte>, padded: bool)
    ensures B64Decode(B64Encode(b, padded), padded) == Some(b)
  {
    B64Characters(b, padded);
    WithoutLineBreaksKeeps(B64Encode(b, padded));
    QuadsRoundTrip(b, padded);
  }

  lemma OneByteQuad(b: seq<Byte>, padded: bool)
    requires |b| == 1
    ensures DecodeQuads(B64Encode(b, padded), padded) == Some(b)
  {
    var s := B64Encode(b, padded);
    B64CharValue(b[0] / 4);
    B64CharValue(b[0] % 4 * 16);
    assert b == [b[0]];
    assert padded ==> |s| == 4 && s[3] == '=' && s[2] == '=';
    assert B64Value('=').None?;
    assert OneByte(b[0] / 4, b[0] % 4 * 16) == b[0];
  }

  lemma TwoByteDigits(x: Byte, y: Byte)
    ensures TwoBytes(x / 4, x % 4 * 16 + y / 16, y % 16 * 4) == [x, y]
  {
    var v1 := x % 4 * 16 + y / 16;
    assert v1 / 16 == x % 4;
    assert v1 % 16 == y / 16;
    assert y % 16 * 4 / 4 == y % 16;
  }

  lemma TwoByteQuad(b: seq<Byte>, padded: bool)
    requires |b| == 2
    ensures DecodeQuads(B64Encode(b, padded), padded) == Some(b)
  {
    var v0, v1, v2 := b[0] / 4, b[0] % 4 * 16 + b[1] / 16, b[1] % 16 * 4;
    var s := B64Encode(b, padded);
    B64CharValue(v0);
    B64CharValue(v1);
    B64CharValue(v2);
    assert padded ==> |s| == 4 && s[3] == '=' && s[2] != '=';
    assert Sextets(s, 3) && (padded ==> B64Value(s[3]).None?);
    assert DecodeQuads(s, padded) == Some(TwoBytes(v0, v1, v2));
    TwoByteDigits(b[0], b[1]);
    assert b == [b[0], b[1]];
  }

  lemma ThreeByteQuad(x: Byte, y: Byte, z: Byte)
    ensures ThreeBytes(x / 4, x % 4 * 16 + y / 16, y % 16 * 4 + z / 64, z % 64) == [x, y, z]
  {}

  lemma {:induction false} QuadsRoundTrip(b: seq<Byte>, padded: bool)
    ensures DecodeQuads(B64Encode(b, padded), padded) == Some(b)
  {
    if |b| == 1 {
      OneByteQuad(b, padded);
    } else if |b| == 2 {
      TwoByteQuad(b, padded);
    } else if |b| > 2 {
      QuadsRoundTrip(b[3..], padded);
      FullQuad(b, padded);
    }
  }

  lemma FullQuad(b: seq<Byte>, padded: bool)
    requires |b| > 2 && DecodeQuads(B64Encode(b[3..], padded), padded) == Some(b[3..])
    ensures DecodeQuads(B64Encode(b, padded), padded) == Some(b)
  {
    var x, y, z := b[0], b[1], b[2];
    var v0, v1, v2, v3 := x / 4, x % 4 * 16 + y / 16, y % 16 * 4 + z / 64, z % 64;
    B64CharValue(v0);
    B64CharValue(v1);
    B64CharValue(v2);
    B64CharValue(v3);
    var s, rest := B64Encode(b, padded), B64Encode(b[3..], padded);
    assert s == [B64Char(v0), B64Char(v1), B64Char(v2), B64Char(v3)] + rest;
    assert s[4..] == rest;
    assert DecodeQuads(s, padded) == Some(ThreeBytes(v0, v1, v2, v3) + b[3..]);
    ThreeByteQuad(x, y, z);
    assert b == [x, y, z] + b[3..];
  }

  predicate InAlphabet(s: string, padded: bool) {
    forall c :: c in s ==> B64Value(c).Some? || (padded && c == '=')
  }

  /** Alphabet of the two encodings. */
  lemma {:induction false} B64Characters(b: seq<Byte>, padded: bool)
    ensures InAlphabet(B64Encode(b, padded), padded)
  {
    forall n | 0 <= n < 64 ensures B64Value(B64Char(n)) == Some(n) { B64CharValue(n); }
    if |b| > 2 {
      var head, rest := B64Encode(b, padded)[..4], B64Encode(b[3..], padded);
      B64Characters(b[3..], padded);
      assert B64Encode(b, padded) == head + rest && InAlphabet(head, padded);
    }
  }

  function EncodedLength(n: nat, padded: bool): nat {
    if padded then (n + 2) / 3 * 4 else (4 * n + 2) / 3
  }

  /** Length of the two encodings. */
  lemma {:induction false} B64Length(b: seq<Byte>, padded: bool)
    ensures |B64Encode(b, padded)| == EncodedLength(|b|, padded)
  {
    if |b| > 2 {
      var n := |b[3..]|;
      assert (n + 3 + 2) / 3 == (n + 2) / 3 + 1 && (4 * (n + 3) + 2) / 3 == (4 * n + 2) / 3 + 4;
      B64Length(b[3..], padded);
    }
  }

  /** Unless the bytes come in threes, the padded encoding ends in '='. */
  lemma {:induction false} PaddedEnd(b: seq<Byte>)
    requires |b| % 3 != 0
    ensures B64Encode(b, true) != "" && B64Encode(b, true)[|B64Encode(b, true)| - 1] == '='
  {
    if |b| > 2 {
      PaddedEnd(b[3..]);
    }
  }

  lemma {:induction false} PaddedLength(s: string)
    requires DecodeQuads(s, true).Some?
    ensures |s| % 4 == 0
  {
    if |s| >= 4 && Sextets(s, 4) {
      PaddedLength(s[4..]);
      assert |s| == 4 + |s[4..]|;
    }
  }

  // ---------- the encodings are those of RFC 4648 ----------

  /** The alphabets of tables 1 and 5 of RFC 4648; hexadecimal is written in lower case
      and read in both. */
  lemma AlphabetsAreStandard(n: nat)
    requires n < 16
    ensures B64Char(n) == "ABCDEFGHIJKLMNOP"[n] && B64Char(16 + n) == "QRSTUVWXYZabcdef"[n]
    ensures B64Char(32 + n) == "ghijklmnopqrstuv"[n] && B64Char(48 + n) == "wxyz0123456789+/"[n]
    ensures HexDigit(n) == "0123456789abcdef"[n] && HexValue("0123456789ABCDEF"[n]) == Some(n as int)
  {}

  /** Section 4: three bytes, taken as one 24-bit number, are written as its four
      sextets, the most significant first. */
  lemma QuadIsNumber(x: Byte, y: Byte, z: Byte, padded: bool)
    ensures var s := B64Encode([x, y, z], padded);
      && |s| == 4 && (forall i :: 0 <= i < 4 ==> B64Value(s[i]).Some?)
      && 0x40000 * B64Value(s[0]).value + 0x1000 * B64Value(s[1]).value + 0x40 * B64Value(s[2]).value + B64Value(s[3]).value
         == 0x10000 * x + 0x100 * y + z
  {
    var b: seq<Byte> := [x, y, z];
    assert b[3..] == [];
    B64CharValue(x / 4);
    B64CharValue(x % 4 * 16 + y / 16);
    B64CharValue(y % 16 * 4 + z / 64);
    B64CharValue(z % 64);
  }

  /** Section 4: one or two last bytes are filled up with zero bits; the padded form
      ends in two equals signs or one, the raw form in none. */
  lemma LastQuadIsFilledUp(x: Byte, y: Byte, padded: bool)
    ensures B64Encode([x], padded) == B64Encode([x, 0, 0], padded)[..2] + (if padded then "==" else "")
    ensures B64Encode([x, y], padded) == B64Encode([x, y, 0], padded)[..3] + (if padded then "=" else "")
  {
    var b, c: seq<Byte> := [x, 0, 0], [x, y, 0];
    assert b[3..] == [] && c[3..] == [];
  }

  /** Longer texts are written three bytes at a time. */
  lemma ThreeByThree(x: Byte, y: Byte, z: Byte, rest: seq<Byte>, padded: bool)
    ensures B64Encode([x, y, z] + rest, padded) == B64Encode([x, y, z], padded) + B64Encode(rest, padded)
  {
    var b, all: seq<Byte> := [x, y, z], [x, y, z] + rest;
    assert b[3..] == [] && all[3..] == rest;
  }

  /** Section 8: a byte is written as two digits, the high one first. */
  lemma HexIsNumber(x: Byte, rest: seq<Byte>)
    ensures var s := HexEncode([x] + rest);
      |s| >= 2 && s[2..] == HexEncode(rest) && HexValue(s[0]).Some? && HexValue(s[1]).Some?
      && 16 * HexValue(s[0]).value + HexValue(s[1]).value == x
  {
    assert ([x] + rest)[1..] == rest;
    HexDigitValue(x / 16);
    HexDigitValue(x % 16);
  }

  // ---------- signatures ----------

  /** Hexadecimal first, then padded base64, then raw base64. */
  function DecodeSignature(sign: string): Option<seq<Byte>> {
    var trimmed := TrimSpace(sign);
    if trimmed == "" then None
    else if HexDecode(trimmed).Some? then HexDecode(trimmed)
    else if B64Decode(trimmed, true).Some? then B64Decode(trimmed, true)
    else B64Decode(trimmed, false)
  }

  predicate IsSignatureEqual(got: string, expectedHex: string) {
    && DecodeSignature(got).Some?
    && HexDecode(expectedHex).Some?
    && DecodeSignature(got).value == HexDecode(expectedHex).value
  }

  /** The comparison is true of exactly the texts that decode to the MAC. */
  lemma SignatureEqualIff(got: string, mac: seq<Byte>)
    ensures IsSignatureEqual(got, HexEncode(mac)) <==> DecodeSignature(got) == Some(mac)
  {
    HexRoundTrip(mac);
  }

  /** The three encodings a client may choose from. */
  predicate IsEncodingOf(sign: string, mac: seq<Byte>) {
    sign == HexEncode(mac) || sign == B64Encode(mac, true) || sign == B64Encode(mac, false)
  }

  lemma NoSpaceMeansTrimmed(s: string)
    requires forall c :: c in s ==> !IsSpace(c)
    ensures TrimSpace(s) == s
  {
    TrimSpaceTrims(s);
  }

  lemma B64HasNoSpace(b: seq<Byte>, padded: bool)
    ensures TrimSpace(B64Encode(b, padded)) == B64Encode(b, padded)
  {
    B64Characters(b, padded);
    NoSpaceMeansTrimmed(B64Encode(b, padded));
  }

  /** The text is not hexadecimal: it ends in '=', or its length is odd. */
  lemma B64IsNotHex(mac: seq<Byte>, padded: bool)
    requires |mac| == 32
    ensures HexDecode(B64Encode(mac, padded)).None?
  {
    var s := B64Encode(mac, padded);
    B64Length(mac, padded);
    PaddedEnd(mac);
    if HexDecode(s).Some? {
      HexDecodable(s);
    }
  }

  lemma OddIsNotPadded(s: string)
    requires |s| % 4 != 0 && InAlphabet(s, false)
    ensures B64Decode(s, true).None?
  {
    WithoutLineBreaksKeeps(s);
    if DecodeQuads(s, true).Some? {
      PaddedLength(s);
    }
  }

  /** The raw text is not padded base64: its length is not a multiple of four. */
  lemma RawIsNotPadded(mac: seq<Byte>)
    requires |mac| == 32
    ensures B64Decode(B64Encode(mac, false), true).None?
  {
    B64Length(mac, false);
    B64Characters(mac, false);
    OddIsNotPadded(B64Encode(mac, false));
  }

  /** Every encoding of a 32-byte MAC is accepted, although the decoder tries
      another alphabet first: neither base64 form can pass for hexadecimal, nor
      the raw form for the padded one. */
  lemma AllEncodingsAccepted(sign: string, mac: seq<Byte>)
    requires |mac| == 32 && IsEncodingOf(sign, mac)
    ensures TrimSpace(sign) == sign && sign != ""
    ensures IsSignatureEqual(sign, HexEncode(mac))
  {
    SignatureEqualIff(sign, mac);
    HexRoundTrip(mac);
    if sign == HexEncode(mac) {
      NoSpaceMeansTrimmed(sign);
    } else {
      var padded := sign == B64Encode(mac, true);
      B64Length(mac, padded);
      B64HasNoSpace(mac, padded);
      B64IsNotHex(mac, padded);
      B64RoundTrip(mac, padded);
      if !padded { RawIsNotPadded(mac); }
    }
  }
}
