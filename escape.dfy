/** The percent-escaping of file names in the Assuan `FILE` request lines
    (percent_escape and escape in src/client.cc). A colon becomes "%3a", a
    percent sign "%25", and each character of the caller's EXTRA set a
    percent sign followed by two lower-case hex digits; every other
    character is copied. */
module PercentEscape {

  /** The EXTRA set escape() passes to percent_escape. */
  const Extra: string := "+= "

  /** The tohex_lower macro: a nibble as a lower-case hex digit. */
  function HexDigit(n: int): (c: char)
    requires 0 <= n < 16
    ensures HexValue(c) == n
    ensures c !in Extra && c != '%'
  {
    if n < 10 then ('0' as int + n) as char else ('a' as int + n - 10) as char
  }

  /** The value of a hexadecimal digit of either case, or -1 for any
      other character. */
  function HexValue(c: char): int
  {
    if '0' <= c <= '9' then c as int - '0' as int
    else if 'a' <= c <= 'f' then c as int - 'a' as int + 10
    else if 'A' <= c <= 'F' then c as int - 'A' as int + 10
    else -1
  }

  predicate NeedsEscape(c: char, extra: string)
  {
    c == ':' || c == '%' || c in extra
  }

  /** What percent_escape writes for one input character. */
  function EscapeChar(c: char, extra: string): string
  {
    if c == ':' then "%3a"
    else if c == '%' then "%25"
    else if c in extra then ['%', HexDigit(c as int / 16 % 16), HexDigit(c as int % 16)]
    else [c]
  }

  /** The escaped form of a whole string, character by character in order. */
  function Escaped(s: string, extra: string): string
  {
    if s == [] then [] else EscapeChar(s[0], extra) + Escaped(s[1..], extra)
  }

  /** The number of characters the first pass of percent_escape counts. */
  function EscapeCount(s: string, extra: string): nat
  {
    if s == [] then 0
    else (if NeedsEscape(s[0], extra) then 1 else 0) + EscapeCount(s[1..], extra)
  }

  /** The output grows by two characters per escaped input character, so
      the buffer of i + 2*j + 1 bytes holds it and its terminator exactly. */
  lemma {:induction false} EscapedLength(s: string, extra: string)
    ensures |Escaped(s, extra)| == |s| + 2 * EscapeCount(s, extra)
  {
    if s != [] {
      EscapedLength(s[1..], extra);
    }
  }

  /** A string is its own escaped form exactly when none of its characters
      needs escaping. */
  lemma {:induction false} EscapedUnchanged(s: string, extra: string)
    ensures Escaped(s, extra) == s <==> forall i | 0 <= i < |s| :: !NeedsEscape(s[i], extra)
  {
    EscapedLength(s, extra);
    CountZero(s, extra);
    if forall i | 0 <= i < |s| :: !NeedsEscape(s[i], extra) {
      NoEscapeIdentity(s, extra);
    }
  }

  lemma {:induction false} CountZero(s: string, extra: string)
    ensures EscapeCount(s, extra) == 0 <==> forall i | 0 <= i < |s| :: !NeedsEscape(s[i], extra)
  {
    if s != [] {
      CountZero(s[1..], extra);
      assert forall i | 1 <= i < |s| :: s[i] == s[1..][i - 1];
    }
  }

  lemma {:induction false} NoEscapeIdentity(s: string, extra: string)
    requires forall i | 0 <= i < |s| :: !NeedsEscape(s[i], extra)
    ensures Escaped(s, extra) == s
  {
    if s != [] {
      assert forall i | 0 <= i < |s[1..]| :: s[1..][i] == s[i + 1];
      NoEscapeIdentity(s[1..], extra);
      assert s == [s[0]] + s[1..];
    }
  }

  /** The decoding a peer applies to a `FILE` argument: each "%XX" triple
      with two hex digits becomes the character with that code. */
  function Unescaped(t: string): string
  {
    if t == [] then []
    else if |t| >= 3 && t[0] == '%' && HexValue(t[1]) >= 0 && HexValue(t[2]) >= 0 then
      [(HexValue(t[1]) * 16 + HexValue(t[2])) as char] + Unescaped(t[3..])
    else [t[0]] + Unescaped(t[1..])
  }

  lemma UnescapeChar(c: char, extra: string, rest: string)
    requires forall x | x in extra :: x as int < 256
    ensures Unescaped(EscapeChar(c, extra) + rest) == [c] + Unescaped(rest)
  {
    var e := EscapeChar(c, extra);
    if NeedsEscape(c, extra) {
      assert (e + rest)[3..] == rest;
      if c != ':' && c != '%' {
        assert c as int < 256;
        assert (c as int / 16 % 16) * 16 + c as int % 16 == c as int;
      }
    } else {
      assert (e + rest)[1..] == rest;
    }
  }

  /** Escaping is injective: decoding recovers the original file name,
      provided the EXTRA characters are single bytes. */
  lemma {:induction false} RoundTrip(s: string, extra: string)
    requires forall x | x in extra :: x as int < 256
    ensures Unescaped(Escaped(s, extra)) == s
  {
    if s != [] {
      UnescapeChar(s[0], extra, Escaped(s[1..], extra));
      RoundTrip(s[1..], extra);
    }
  }

  /** The escaped name never holds a space, so a `FILE` line has exactly
      one space, after the keyword. */
  lemma {:induction false} EscapedHasNoSpace(s: string)
    ensures ' ' !in Escaped(s, Extra)
  {
    if s != [] {
      EscapedHasNoSpace(s[1..]);
      assert ' ' !in EscapeChar(s[0], Extra);
    }
  }

  /** One character of the second pass moves from the unwritten rest to
      the written part. */
  lemma EscapedStep(s: string, k: nat, extra: string, done: string)
    requires k < |s|
    ensures done + Escaped(s[k..], extra) == (done + EscapeChar(s[k], extra)) + Escaped(s[k + 1..], extra)
  {
    assert s[k..][1..] == s[k + 1..];
  }

  /** One step of the second pass: the characters written for `c` at
      index `i` of the buffer. */
  method PutEscaped(ptr: array<char>, i: nat, c: char, extra: string) returns (next: nat)
    requires i + |EscapeChar(c, extra)| <= ptr.Length
    modifies ptr
    ensures next == i + |EscapeChar(c, extra)|
    ensures ptr[..next] == old(ptr[..i]) + EscapeChar(c, extra)
  {
    if c == ':' {
      ptr[i], ptr[i + 1], ptr[i + 2] := '%', '3', 'a';
      next := i + 3;
    } else if c == '%' {
      ptr[i], ptr[i + 1], ptr[i + 2] := '%', '2', '5';
      next := i + 3;
    } else if c in extra {
      ptr[i], ptr[i + 1], ptr[i + 2] := '%', HexDigit(c as int / 16 % 16), HexDigit(c as int % 16);
      next := i + 3;
    } else {
      ptr[i] := c;
      next := i + 1;
    }
  }

  /** percent_escape: a first pass counts the characters to escape, a
      buffer of i + 2*j + 1 bytes is allocated, and a second pass writes
      the escaped characters and the terminating NUL into it. */
  method PercentEscapeInto(str: string, extra: string) returns (r: string)
    ensures r == Escaped(str, extra)
  {
    var i, j := 0, 0;
    while i < |str|
      invariant 0 <= i <= |str|
      invariant j + EscapeCount(str[i..], extra) == EscapeCount(str, extra)
    {
      assert str[i..][1..] == str[i + 1..];
      if NeedsEscape(str[i], extra) {
        j := j + 1;
      }
      i := i + 1;
    }
    EscapedLength(str, extra);
    var ptr := new char[i + 2 * j + 1];
    var k := 0;
    i := 0;
    while k < |str|
      invariant 0 <= k <= |str|
      invariant ptr.Length == |Escaped(str, extra)| + 1
      invariant 0 <= i && i + |Escaped(str[k..], extra)| == |Escaped(str, extra)|
      invariant ptr[..i] + Escaped(str[k..], extra) == Escaped(str, extra)
    {
      EscapedStep(str, k, extra, ptr[..i]);
      i := PutEscaped(ptr, i, str[k], extra);
      k := k + 1;
    }
    ptr[i] := '\0';
    r := ptr[..i];
  }

  /** escape(): the `FILE` argument for one file name, which the peer
      decodes back to the name. */
  method Escape(s: string) returns (r: string)
    ensures r == Escaped(s, Extra)
    ensures Unescaped(r) == s
    ensures |r| == |s| + 2 * EscapeCount(s, Extra)
  {
    r := PercentEscapeInto(s, Extra);
    RoundTrip(s, Extra);
    EscapedLength(s, Extra);
  }
}
