/**
 The text that is signed, and what its parts must look like to be accepted.
 */
module SignaturePayload {
  import opened Wrappers
  import opened Strings

  const MAX_INT64: int := 0x7FFF_FFFF_FFFF_FFFF

  /** METHOD, request target, timestamp, nonce and body hash, one to a line. */
  function Payload(verb: string, target: string, timestamp: string, nonce: string, bodyHash: string): string {
    ToUpper(verb) + "\n" + target + "\n" + timestamp + "\n" + nonce + "\n" + bodyHash
  }

  predicate IsDigit(c: char) { '0' <= c <= '9' }

  predicate IsLetter(c: char) { 'a' <= c <= 'z' || 'A' <= c <= 'Z' }

  /** A character of a token, section 5.6.2 of RFC 9110. */
  predicate IsTokenChar(c: char) {
    IsLetter(c) || IsDigit(c) || c in "!#$%&'*+-.^_`|~"
  }

  predicate IsToken(s: string) {
    s != "" && forall i :: 0 <= i < |s| ==> IsTokenChar(s[i])
  }

  predicate NonceMatches(nonce: string) {
    8 <= |nonce| <= 128
    && forall i :: 0 <= i < |nonce| ==> IsLetter(nonce[i]) || IsDigit(nonce[i]) || nonce[i] in "-_:."
  }

  predicate IsHexText(s: string) {
    forall i :: 0 <= i < |s| ==> IsDigit(s[i]) || 'a' <= s[i] <= 'f'
  }

  // ---------- timestamps ----------

  predicate Digits(s: string) {
    s != "" && forall i :: 0 <= i < |s| ==> IsDigit(s[i])
  }

  function DigitsValue(s: string): nat
    requires forall i :: 0 <= i < |s| ==> IsDigit(s[i])
  {
    if s == "" then 0
    else
      var last := s[|s| - 1];
      assert IsDigit(last);
      10 * DigitsValue(s[..|s| - 1]) + (last as int - '0' as int)
  }

  /** strconv.ParseInt(s, 10, 64): an optional sign, digits, and a value in range. */
  function ParseInt64(s: string): Option<int> {
    var negative := s != "" && s[0] == '-';
    var digits := if s != "" && (s[0] == '-' || s[0] == '+') then s[1..] else s;
    if !Digits(digits) then None
    else
      var n: int := DigitsValue(digits);
      if negative then (if n <= MAX_INT64 + 1 then Some(-n) else None)
      else if n <= MAX_INT64 then Some(n) else None
  }

  /** Seconds since the epoch; a value above 10^12 is taken as milliseconds. */
  function ParseUnixTimestamp(s: string): Option<int> {
    match ParseInt64(s)
    case None => None
    case Some(n) => Some(if n > 1_000_000_000_000 then n / 1000 else n)
  }

  // ---------- the payload determines its parts ----------

  predicate OneLine(s: string) {
    '\n' !in s
  }

  lemma PartsAreOneLine(verb: string, timestamp: string, nonce: string, bodyHash: string)
    ensures IsToken(verb) ==> OneLine(ToUpper(verb))
    ensures ParseUnixTimestamp(timestamp).Some? ==> OneLine(timestamp)
    ensures NonceMatches(nonce) ==> OneLine(nonce)
    ensures IsHexText(bodyHash) ==> OneLine(bodyHash)
  {
    if ParseUnixTimestamp(timestamp).Some? {
      forall i | 0 <= i < |timestamp| ensures timestamp[i] != '\n' {
        if i > 0 { assert timestamp[1..][i - 1] == timestamp[i]; }
      }
    }
  }

  /** A text is cut in one way before its last line ... */
  lemma LastLineCut(a: string, x: string, b: string, y: string)
    requires a + "\n" + x == b + "\n" + y && OneLine(x) && OneLine(y)
    ensures a == b && x == y
  {
    var s, t := a + "\n" + x, b + "\n" + y;
    assert s[|a|] == '\n' && t[|b|] == '\n';
    assert s[..|a|] == a && t[..|b|] == b && s[|a| + 1..] == x && t[|b| + 1..] == y;
  }

  /** ... and in one way after its first. */
  lemma FirstLineCut(a: string, x: string, b: string, y: string)
    requires a + "\n" + x == b + "\n" + y && OneLine(a) && OneLine(b)
    ensures a == b && x == y
  {
    var s, t := a + "\n" + x, b + "\n" + y;
    assert s[|a|] == '\n' && t[|b|] == '\n';
    assert s[..|a|] == a && t[..|b|] == b && s[|a| + 1..] == x && t[|b| + 1..] == y;
  }

  /** Two accepted requests with the same payload agree in every signed part. The
      target may hold any characters, newlines included. */
  lemma PayloadInjective(verb1: string, target1: string, timestamp1: string, nonce1: string, hash1: string,
                         verb2: string, target2: string, timestamp2: string, nonce2: string, hash2: string)
    requires IsToken(verb1) && ParseUnixTimestamp(timestamp1).Some? && NonceMatches(nonce1) && IsHexText(hash1)
    requires IsToken(verb2) && ParseUnixTimestamp(timestamp2).Some? && NonceMatches(nonce2) && IsHexText(hash2)
    requires Payload(verb1, target1, timestamp1, nonce1, hash1) == Payload(verb2, target2, timestamp2, nonce2, hash2)
    ensures ToUpper(verb1) == ToUpper(verb2) && target1 == target2 && timestamp1 == timestamp2
    ensures nonce1 == nonce2 && hash1 == hash2
  {
    PartsAreOneLine(verb1, timestamp1, nonce1, hash1);
    PartsAreOneLine(verb2, timestamp2, nonce2, hash2);
    var p1 := ToUpper(verb1) + "\n" + target1;
    var p2 := ToUpper(verb2) + "\n" + target2;
    LastLineCut(p1 + "\n" + timestamp1 + "\n" + nonce1, hash1, p2 + "\n" + timestamp2 + "\n" + nonce2, hash2);
    LastLineCut(p1 + "\n" + timestamp1, nonce1, p2 + "\n" + timestamp2, nonce2);
    LastLineCut(p1, timestamp1, p2, timestamp2);
    FirstLineCut(ToUpper(verb1), target1, ToUpper(verb2), target2);
  }

  // ---------- the payload, line by line ----------

  /** The lines of a text. */
  function Lines(s: string): (lines: seq<string>)
    ensures lines != []
  {
    if s == "" then [""]
    else
      var rest := Lines(s[1..]);
      if s[0] == '\n' then [""] + rest else [[s[0]] + rest[0]] + rest[1..]
  }

  lemma {:induction false} FirstLine(line: string, rest: string)
    requires OneLine(line)
    ensures Lines(line + "\n" + rest) == [line] + Lines(rest)
  {
    var s := line + "\n" + rest;
    if line == "" {
      assert s[1..] == rest;
    } else {
      assert s[1..] == line[1..] + "\n" + rest;
      assert [line[0]] + line[1..] == line;
      FirstLine(line[1..], rest);
    }
  }

  lemma {:induction false} OnlyLine(line: string)
    requires OneLine(line)
    ensures Lines(line) == [line]
  {
    if line != "" {
      OnlyLine(line[1..]);
      assert [line[0]] + line[1..] == line;
    }
  }

  /** Splitting the payload at its newlines gives back the five parts in order. */
  lemma PayloadLines(verb: string, target: string, timestamp: string, nonce: string, bodyHash: string)
    requires OneLine(ToUpper(verb)) && OneLine(target) && OneLine(timestamp) && OneLine(nonce) && OneLine(bodyHash)
    ensures Lines(Payload(verb, target, timestamp, nonce, bodyHash)) == [ToUpper(verb), target, timestamp, nonce, bodyHash]
  {
    var last2 := nonce + "\n" + bodyHash;
    var last3 := timestamp + "\n" + last2;
    var last4 := target + "\n" + last3;
    assert Payload(verb, target, timestamp, nonce, bodyHash) == ToUpper(verb) + "\n" + last4;
    FirstLine(ToUpper(verb), last4);
    FirstLine(target, last3);
    FirstLine(timestamp, last2);
    FirstLine(nonce, bodyHash);
    OnlyLine(bodyHash);
  }

  // ---------- numbers ----------

  function Digit(n: int): char
    requires 0 <= n < 10
  {
    '0' + n as char
  }

  /** The decimal text of a number. */
  function Decimal(n: nat): string {
    if n < 10 then [Digit(n)] else Decimal(n / 10) + [Digit(n % 10)]
  }

  lemma {:induction false} DecimalValue(n: nat)
    ensures Digits(Decimal(n)) && DigitsValue(Decimal(n)) == n
  {
    var s := Decimal(n);
    if n >= 10 {
      DecimalValue(n / 10);
      assert s[..|s| - 1] == Decimal(n / 10);
    } else {
      assert s[..0] == "";
    }
  }

  /** Every 64-bit number is read back from its decimal text, with or without a
      sign; larger ones are refused. */
  lemma NumberIsRead(n: int)
    requires n >= 0
    ensures ParseInt64(Decimal(n)) == if n <= MAX_INT64 then Some(n) else None
    ensures ParseInt64("+" + Decimal(n)) == ParseInt64(Decimal(n))
    ensures ParseInt64("-" + Decimal(n)) == if n <= MAX_INT64 + 1 then Some(-n) else None
  {
    DecimalValue(n);
    var d := Decimal(n);
    assert IsDigit(d[0]);
    assert ("+" + d)[1..] == d && ("-" + d)[1..] == d;
  }

  /** A number above 10^12 is taken as milliseconds. */
  lemma TimestampIsRead(n: int)
    requires 0 <= n <= MAX_INT64
    ensures ParseUnixTimestamp(Decimal(n)) == Some(if n > 1_000_000_000_000 then n / 1000 else n)
  {
    NumberIsRead(n);
  }

  /** Seconds and milliseconds mean one time: a timestamp in seconds after September
      2001 is read the same with three more digits. */
  lemma SecondsOrMilliseconds(seconds: int, millis: int)
    requires 1_000_000_000 < seconds <= 1_000_000_000_000 && millis / 1000 == seconds
    ensures ParseUnixTimestamp(Decimal(seconds)) == ParseUnixTimestamp(Decimal(millis)) == Some(seconds)
  {
    TimestampIsRead(seconds);
    TimestampIsRead(millis);
  }
}
