/** The `$`-template expansion of the UI server command line
    (replace_dollar_s in src/client.cc): "$s" becomes the socket name in
    double quotes, "$c" for any other character c becomes c (so "$$" is a
    literal dollar), a lone `$` at the very end is dropped, and every other
    character is copied. */
module DollarTemplate {
  import opened Common

  /** The expanded text, read from the front of the template. */
  function Expanded(s: string, socket: string): string
  {
    if s == [] then []
    else if s[0] != '$' then [s[0]] + Expanded(s[1..], socket)
    else if |s| == 1 then []
    else if s[1] == 's' then ['"'] + socket + ['"'] + Expanded(s[2..], socket)
    else [s[1]] + Expanded(s[2..], socket)
  }

  /** The byte count of the first pass, before the terminator is added. */
  function SizeNeeded(s: string, socketLen: nat): nat
  {
    if s == [] then 0
    else if s[0] != '$' then 1 + SizeNeeded(s[1..], socketLen)
    else if |s| == 1 then 0
    else if s[1] == 's' then socketLen + 2 + SizeNeeded(s[2..], socketLen)
    else 1 + SizeNeeded(s[2..], socketLen)
  }

  /** The first pass counts exactly the bytes the second pass writes, so the
      buffer of SizeNeeded + 1 bytes holds the text and its terminator and
      is never overrun. */
  lemma {:induction false} SizeMatches(s: string, socket: string)
    ensures |Expanded(s, socket)| == SizeNeeded(s, |socket|)
  {
    if s != [] {
      if s[0] != '$' {
        SizeMatches(s[1..], socket);
      } else if |s| > 1 {
        SizeMatches(s[2..], socket);
      }
    }
  }

  /** Unfolding both definitions at position k of the template. */
  lemma StepAt(s: string, k: nat, socket: string)
    requires k < |s|
    ensures s[k] != '$' ==>
      Expanded(s[k..], socket) == [s[k]] + Expanded(s[k + 1..], socket) &&
      SizeNeeded(s[k..], |socket|) == 1 + SizeNeeded(s[k + 1..], |socket|)
    ensures s[k] == '$' && k + 1 == |s| ==>
      Expanded(s[k..], socket) == [] && SizeNeeded(s[k..], |socket|) == 0
    ensures s[k] == '$' && k + 1 < |s| && s[k + 1] == 's' ==>
      Expanded(s[k..], socket) == ['"'] + socket + ['"'] + Expanded(s[k + 2..], socket) &&
      SizeNeeded(s[k..], |socket|) == |socket| + 2 + SizeNeeded(s[k + 2..], |socket|)
    ensures s[k] == '$' && k + 1 < |s| && s[k + 1] != 's' ==>
      Expanded(s[k..], socket) == [s[k + 1]] + Expanded(s[k + 2..], socket) &&
      SizeNeeded(s[k..], |socket|) == 1 + SizeNeeded(s[k + 2..], |socket|)
  {
    assert s[k..][1..] == s[k + 1..];
    if k + 1 < |s| {
      assert s[k..][2..] == s[k + 2..];
    }
  }

  /** One step of the second pass: the bytes for the template at index k
      move from the unwritten rest to the written part. */
  lemma ExpandStep(s: string, k: nat, socket: string, done: string)
    requires k < |s|
    ensures s[k] != '$' ==>
      done + Expanded(s[k..], socket) == (done + [s[k]]) + Expanded(s[k + 1..], socket)
    ensures s[k] == '$' && k + 1 == |s| ==>
      done + Expanded(s[k..], socket) == done
    ensures s[k] == '$' && k + 1 < |s| && s[k + 1] == 's' ==>
      done + Expanded(s[k..], socket) == (done + ['"'] + socket + ['"']) + Expanded(s[k + 2..], socket)
    ensures s[k] == '$' && k + 1 < |s| && s[k + 1] != 's' ==>
      done + Expanded(s[k..], socket) == (done + [s[k + 1]]) + Expanded(s[k + 2..], socket)
  {
    StepAt(s, k, socket);
  }

  /** A text with every `$` doubled: the template that stands for the
      text itself. */
  function Quoted(t: string): (q: string)
    ensures |q| >= |t|
  {
    if t == [] then []
    else if t[0] == '$' then "$$" + Quoted(t[1..])
    else [t[0]] + Quoted(t[1..])
  }

  /** A doubled-dollar prefix expands back to the literal text, whatever
      follows it. */
  lemma {:induction false} ExpandQuotedPrefix(a: string, rest: string, socket: string)
    ensures Expanded(Quoted(a) + rest, socket) == a + Expanded(rest, socket)
  {
    if a != [] {
      ExpandQuotedPrefix(a[1..], rest, socket);
      var q := Quoted(a) + rest;
      if a[0] == '$' {
        assert q[0] == '$' && q[1] == '$';
        assert q[2..] == Quoted(a[1..]) + rest;
        assert Expanded(q, socket) == ['$'] + (a[1..] + Expanded(rest, socket));
      } else {
        assert q[0] == a[0];
        assert q[1..] == Quoted(a[1..]) + rest;
        assert Expanded(q, socket) == [a[0]] + (a[1..] + Expanded(rest, socket));
      }
      assert a == [a[0]] + a[1..];
    } else {
      assert Quoted(a) + rest == rest;
    }
  }

  /** A text without `$` is its own template. */
  lemma {:induction false} NoDollarQuoted(t: string)
    requires '$' !in t
    ensures Quoted(t) == t
  {
    if t != [] {
      NoDollarQuoted(t[1..]);
      assert t == [t[0]] + t[1..];
    }
  }

  /** A prefix without `$` is copied as it stands. */
  lemma ExpandNoDollarPrefix(a: string, rest: string, socket: string)
    requires '$' !in a
    ensures Expanded(a + rest, socket) == a + Expanded(rest, socket)
  {
    NoDollarQuoted(a);
    ExpandQuotedPrefix(a, rest, socket);
  }

  /** "$s" followed by any template expands to the quoted socket name
      followed by the expansion of that template. */
  lemma SocketExpands(rest: string, socket: string)
    ensures Expanded("$s" + rest, socket) == ['"'] + socket + ['"'] + Expanded(rest, socket)
  {
    assert ("$s" + rest)[2..] == rest;
  }

  /** A text without `$` followed by "$s" expands to the text and the
      quoted socket name. */
  lemma LiteralThenSocket(a: string, socket: string)
    requires '$' !in a
    ensures Expanded(a + "$s", socket) == a + ['"'] + socket + ['"']
  {
    ExpandNoDollarPrefix(a, "$s", socket);
    SocketExpands([], socket);
    assert "$s" + [] == "$s";
  }

  /** Writes one byte at index d of the buffer. */
  method Put(buf: array<char>, d: nat, c: char)
    requires d < buf.Length
    modifies buf
    ensures buf[..d + 1] == old(buf[..d]) + [c]
  {
    buf[d] := c;
  }

  /** The memcpy of the socket name into the buffer at index d. */
  method CopyAt(buf: array<char>, d: nat, src: string)
    requires d + |src| <= buf.Length
    modifies buf
    ensures buf[..d + |src|] == old(buf[..d]) + src
  {
    forall j | 0 <= j < |src| {
      buf[d + j] := src[j];
    }
  }

  /** The socket name between double quotes, written at index d. */
  method PutQuoted(buf: array<char>, d: nat, socket: string)
    requires d + |socket| + 2 <= buf.Length
    modifies buf
    ensures buf[..d + |socket| + 2] == old(buf[..d]) + ['"'] + socket + ['"']
  {
    Put(buf, d, '"');
    CopyAt(buf, d + 1, socket);
    Put(buf, d + 1 + |socket|, '"');
  }

  /** The first pass of replace_dollar_s: the buffer size it computes,
      terminator included. */
  method MeasureTemplate(str: string, socket: string) returns (n: nat)
    ensures n == |Expanded(str, socket)| + 1
  {
    n := 0;
    var p := 0;
    while p < |str|
      invariant 0 <= p <= |str|
      invariant n + SizeNeeded(str[p..], |socket|) == SizeNeeded(str, |socket|)
    {
      StepAt(str, p, socket);
      if str[p] == '$' {
        p := p + 1;
        if p == |str| {
          break;
        } else if str[p] == 's' {
          n := n + |socket| + 2;
        } else {
          n := n + 1;
        }
      } else {
        n := n + 1;
      }
      p := p + 1;
    }
    n := n + 1;
    SizeMatches(str, socket);
  }

  /** The second pass of replace_dollar_s: the expansion and its
      terminator written into a buffer of the measured size. */
  method WriteExpansion(str: string, socket: string, buf: array<char>) returns (d: nat)
    requires buf.Length == |Expanded(str, socket)| + 1
    modifies buf
    ensures d == |Expanded(str, socket)|
    ensures buf[..d] == Expanded(str, socket) && buf[d] == '\0'
  {
    var p := 0;
    d := 0;
    while p < |str|
      invariant 0 <= p <= |str|
      invariant d + |Expanded(str[p..], socket)| == |Expanded(str, socket)|
      invariant buf[..d] + Expanded(str[p..], socket) == Expanded(str, socket)
    {
      ExpandStep(str, p, socket, buf[..d]);
      if str[p] == '$' {
        p := p + 1;
        if p == |str| {
          break;
        } else if str[p] == 's' {
          PutQuoted(buf, d, socket);
          d := d + |socket| + 2;
        } else {
          Put(buf, d, str[p]);
          d := d + 1;
        }
      } else {
        Put(buf, d, str[p]);
        d := d + 1;
      }
      p := p + 1;
    }
    buf[d] := '\0';
  }

  /** replace_dollar_s: the first pass sizes the buffer, the allocation may
      fail (NULL), and the second pass writes the expansion and its
      terminator. `canAlloc` tells whether malloc succeeds for a size. */
  method ReplaceDollarS(str: string, socket: string, canAlloc: nat -> bool) returns (r: Option<string>)
    ensures canAlloc(|Expanded(str, socket)| + 1) ==> r == Some(Expanded(str, socket))
    ensures !canAlloc(|Expanded(str, socket)| + 1) ==> r == None
  {
    var n := MeasureTemplate(str, socket);
    if !canAlloc(n) {
      return None;
    }
    var buf := new char[n];
    var d := WriteExpansion(str, socket, buf);
    r := Some(buf[..d]);
  }
}
