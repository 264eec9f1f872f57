/**
 The string functions of the Go standard library that the gateway relies on.
 Letter case is mapped for ASCII letters only.
 */
module Strings {

  predicate HasPrefix(s: string, prefix: string) {
    prefix <= s
  }

  predicate HasSuffix(s: string, suffix: string) {
    |suffix| <= |s| && s[|s| - |suffix|..] == suffix
  }

  predicate Contains(s: string, part: string) {
    exists i :: 0 <= i <= |s| && HasPrefix(s[i..], part)
  }

  predicate IsSpace(c: char) {
    '\t' <= c <= '\r' || c == ' ' || c == '\U{0085}' || c == '\U{00A0}' || c == '\U{1680}'
    || '\U{2000}' <= c <= '\U{200A}' || c == '\U{2028}' || c == '\U{2029}'
    || c == '\U{202F}' || c == '\U{205F}' || c == '\U{3000}'
  }

  function TrimLeft(s: string): string {
    if s != "" && IsSpace(s[0]) then TrimLeft(s[1..]) else s
  }

  function TrimRight(s: string): string {
    if s != "" && IsSpace(s[|s| - 1]) then TrimRight(s[..|s| - 1]) else s
  }

  function TrimSpace(s: string): string {
    TrimRight(TrimLeft(s))
  }

  predicate Trimmed(s: string) {
    s == "" || (!IsSpace(s[0]) && !IsSpace(s[|s| - 1]))
  }

  function LowerChar(c: char): char {
    if 'A' <= c <= 'Z' then c - 'A' + 'a' else c
  }

  function UpperChar(c: char): char {
    if 'a' <= c <= 'z' then c - 'a' + 'A' else c
  }

  function ToLower(s: string): string {
    seq(|s|, i requires 0 <= i < |s| => LowerChar(s[i]))
  }

  function ToUpper(s: string): string {
    seq(|s|, i requires 0 <= i < |s| => UpperChar(s[i]))
  }

  /** Trimming yields a trimmed string, and leaves trimmed strings alone. */
  lemma TrimSpaceTrims(s: string)
    ensures Trimmed(TrimSpace(s))
    ensures Trimmed(s) ==> TrimSpace(s) == s
  {
    TrimLeftTrims(s);
    TrimRightTrims(TrimLeft(s));
  }

  lemma TrimLeftTrims(s: string)
    ensures TrimLeft(s) == "" || !IsSpace(TrimLeft(s)[0])
  {}

  lemma TrimRightTrims(s: string)
    ensures TrimRight(s) == "" || !IsSpace(TrimRight(s)[|TrimRight(s)| - 1])
    ensures TrimRight(s) <= s
  {}

  /** Trimming takes away exactly the spaces at both ends. */
  lemma TrimSpaceIs(before: string, s: string, after: string)
    requires Trimmed(s) && (forall c :: c in before + after ==> IsSpace(c))
    ensures TrimSpace(before + s + after) == s
  {
    forall c | c in before || c in after ensures IsSpace(c) { assert c in before + after; }
    SkipsLeft(before, s + after);
    assert before + s + after == before + (s + after);
    if s == "" {
      SkipsLeft(after, "");
      assert after + "" == after && s + after == after;
    } else {
      assert (s + after)[0] == s[0];
      SkipsRight(s, after);
    }
  }

  lemma {:induction false} SkipsLeft(before: string, rest: string)
    requires forall c :: c in before ==> IsSpace(c)
    ensures TrimLeft(before + rest) == TrimLeft(rest)
  {
    if before == "" {
      assert before + rest == rest;
    } else {
      assert before[0] in before && (before + rest)[1..] == before[1..] + rest;
      SkipsLeft(before[1..], rest);
    }
  }

  lemma {:induction false} SkipsRight(s: string, after: string)
    requires s != "" && !IsSpace(s[|s| - 1]) && (forall c :: c in after ==> IsSpace(c))
    ensures TrimRight(s + after) == s
  {
    if after == "" {
      assert s + after == s;
    } else {
      var last := |after| - 1;
      assert after[last] in after && (s + after)[..|s + after| - 1] == s + after[..last];
      SkipsRight(s, after[..last]);
    }
  }

  /** The spaces of ASCII, and a few characters that are none. */
  lemma AsciiSpaces(c: char)
    requires c < 127 as char
    ensures IsSpace(c) <==> c in "\t\n\r \U{000B}\U{000C}"
  {}
}
