/** Percent-encoding, query parsing and the variable list of a request
    (libhttpd/protocol.c:259-372 and 616-666, libhttpd/api.c:83-95 and 163-194). */
module Query {
  import opened Base
  import opened CStrings

  /** The text is made of C characters. */
  predicate Octets(s: string) {
    forall i :: 0 <= i < |s| ==> s[i] as int < 256
  }

  function Octet(n: int): (c: char)
    ensures c as int < 256
  {
    (n % 256) as char
  }

  // ----- Escaping -----

  /** The characters whose table entry has the mask bit set, less the ampersand. */
  predicate Acceptable(c: char) {
    c in "!\"$'()*+,-.@_" || '0' <= c <= '9' || 'A' <= c <= 'Z' || 'a' <= c <= 'z'
  }

  function HexDigit(n: nat): char
    requires n < 16
  {
    if n < 10 then ('0' as int + n) as char else ('A' as int + n - 10) as char
  }

  function EscapeChar(c: char): string
    requires c as int < 256
  {
    if Acceptable(c) then [c] else ['%', HexDigit(c as int / 16), HexDigit(c as int % 16)]
  }

  function Escape(s: string): string
    requires Octets(s)
  {
    if s == "" then "" else EscapeChar(s[0]) + Escape(s[1..])
  }

  /** Two more characters for each one that must be written in hex. */
  function Unacceptable(s: string): nat {
    if s == "" then 0 else (if Acceptable(s[0]) then 0 else 2) + Unacceptable(s[1..])
  }

  lemma {:induction false} EscapeLength(s: string)
    requires Octets(s)
    ensures |Escape(s)| == |s| + Unacceptable(s)
  {
    if s != "" {
      EscapeLength(s[1..]);
    }
  }

  lemma {:induction false} EscapeSnoc(s: string, c: char)
    requires Octets(s) && c as int < 256
    ensures Escape(s + [c]) == Escape(s) + EscapeChar(c)
  {
    if s == "" {
      assert s + [c] == [c];
      assert Escape([c]) == EscapeChar(c) + Escape([c][1..]);
    } else {
      assert (s + [c])[1..] == s[1..] + [c];
      EscapeSnoc(s[1..], c);
    }
  }

  lemma {:induction false} UnacceptableSnoc(s: string, c: char)
    ensures Unacceptable(s + [c]) == Unacceptable(s) + if Acceptable(c) then 0 else 2
  {
    if s == "" {
      assert s + [c] == [c];
      assert [c][1..] == "";
    } else {
      assert (s + [c])[1..] == s[1..] + [c];
      UnacceptableSnoc(s[1..], c);
    }
  }

  lemma {:induction false} EscapeGrows(s: string, i: nat)
    requires Octets(s) && i < |s|
    ensures |Escape(s[..i])| + |EscapeChar(s[i])| <= |Escape(s)|
    decreases |s| - i
  {
    assert s[..i + 1] == s[..i] + [s[i]];
    EscapeSnoc(s[..i], s[i]);
    if i + 1 < |s| {
      EscapeGrows(s, i + 1);
    } else {
      assert s[..i + 1] == s;
    }
  }

  /** One pass sizes the buffer, a second fills it to exactly its terminator. */
  method EscapeText(str: string) returns (result: array<char>)
    requires Octets(str)
    ensures fresh(result) && result.Length == |str| + Unacceptable(str) + 1
    ensures result[..] == Escape(str) + [NUL]
  {
    var unacceptable := CountUnacceptable(str);
    EscapeLength(str);
    result := new char[|str| + unacceptable + 1](_ => NUL);
    var p, q := 0, 0;
    assert str[..0] == "";
    while p < |str|
      invariant p <= |str| && q == |Escape(str[..p])| < result.Length
      invariant result[..q] == Escape(str[..p])
      invariant result[result.Length - 1] == NUL
    {
      assert str[..p + 1] == str[..p] + [str[p]];
      EscapeSnoc(str[..p], str[p]);
      EscapeGrows(str, p);
      ghost var before := result[..q];
      q := PutEscaped(result, q, str[p]);
      assert result[..q] == before + EscapeChar(str[p]);
      p := p + 1;
    }
    assert str[..p] == str;
    assert result[..] == result[..q] + [NUL];
  }

  method PutEscaped(result: array<char>, q: nat, a: char) returns (next: nat)
    requires a as int < 256 && q + |EscapeChar(a)| < result.Length
    modifies result
    ensures next == q + |EscapeChar(a)| && result[q..next] == EscapeChar(a)
    ensures forall k :: 0 <= k < result.Length && !(q <= k < next) ==> result[k] == old(result[k])
  {
    if !Acceptable(a) {
      result[q] := '%';
      result[q + 1] := HexDigit(a as int / 16);
      result[q + 2] := HexDigit(a as int % 16);
      next := q + 3;
    } else {
      result[q] := a;
      next := q + 1;
    }
  }

  method CountUnacceptable(str: string) returns (unacceptable: nat)
    ensures unacceptable == Unacceptable(str)
  {
    unacceptable := 0;
    var p := 0;
    assert str[..0] == "";
    while p < |str|
      invariant p <= |str| && unacceptable == Unacceptable(str[..p])
    {
      assert str[..p + 1] == str[..p] + [str[p]];
      UnacceptableSnoc(str[..p], str[p]);
      if !Acceptable(str[p]) {
        unacceptable := unacceptable + 2;
      }
      p := p + 1;
    }
    assert str[..p] == str;
  }

  /** What an escaped text is made of, so that it can stand in a query. */
  lemma {:induction false} EscapeIsPlain(s: string)
    requires Octets(s)
    ensures '&' !in Escape(s) && '=' !in Escape(s) && NUL !in Escape(s)
  {
    if s != "" {
      EscapeIsPlain(s[1..]);
      EscapeCharIsPlain(s[0]);
    }
  }

  lemma EscapeCharIsPlain(c: char)
    requires c as int < 256
    ensures '&' !in EscapeChar(c) && '=' !in EscapeChar(c) && NUL !in EscapeChar(c)
  {
    HexIsPlain(c as int / 16);
    HexIsPlain(c as int % 16);
  }

  lemma HexIsPlain(n: nat)
    requires n < 16
    ensures HexDigit(n) != '&' && HexDigit(n) != '=' && HexDigit(n) != NUL && HexDigit(n) != '%'
    ensures FromHex(HexDigit(n)) == n
  {
  }

  // ----- Unescaping -----

  function FromHex(c: char): int {
    if '0' <= c <= '9' then c as int - '0' as int
    else if 'A' <= c <= 'F' then c as int - 'A' as int + 10
    else c as int - 'a' as int + 10
  }

  function HexPair(h: char, l: char): char {
    Octet(Octet(FromHex(h) * 16) as int + FromHex(l))
  }

  /** The character written at q for what is read at p, and where reading goes on. A percent
      sign cut short by the end leaves what the buffer already held at q. */
  function Decoded(s: string, p: nat, q: nat): (r: (char, nat))
    requires q <= p < |s|
    ensures p < r.1 <= |s|
  {
    if s[p] == '%' then
      if p + 1 == |s| then (s[q], p + 1)
      else if p + 2 == |s| then (Octet(FromHex(s[p + 1]) * 16), p + 2)
      else (HexPair(s[p + 1], s[p + 2]), p + 3)
    else (Blank(s[p]), p + 1)
  }

  function Unescape(s: string, p: nat, out: string): (r: string)
    requires |out| <= p <= |s|
    ensures |r| <= |s|
    decreases |s| - p
  {
    if p == |s| then out
    else
      var d := Decoded(s, p, |out|);
      Unescape(s, d.1, out + [d.0])
  }

  function Unescaped(s: string): string {
    Unescape(s, 0, "")
  }

  function Blank(c: char): char {
    if c == '+' then ' ' else c
  }

  function PlusToSpace(s: string): (r: string)
    ensures |r| == |s|
    ensures forall i :: 0 <= i < |s| ==> r[i] == Blank(s[i])
  {
    if s == "" then "" else [Blank(s[0])] + PlusToSpace(s[1..])
  }

  lemma PairArrives(c: char)
    requires c as int < 256
    ensures HexPair(HexDigit(c as int / 16), HexDigit(c as int % 16)) == c
  {
    HexIsPlain(c as int / 16);
    HexIsPlain(c as int % 16);
  }

  /** Unescaping what was escaped gives the text back, but for '+', which becomes a blank. */
  lemma UnescapeEscape(s: string)
    requires Octets(s)
    ensures Unescaped(Escape(s)) == PlusToSpace(s)
  {
    UnescapeFrom(Escape(s), 0, s, "");
    assert "" + PlusToSpace(s) == PlusToSpace(s);
  }

  lemma {:induction false} UnescapeFrom(t: string, p: nat, s: string, out: string)
    requires Octets(s) && |out| <= p <= |t| && t[p..] == Escape(s)
    ensures Unescape(t, p, out) == out + PlusToSpace(s)
    decreases |s|
  {
    if s == "" {
      assert out + PlusToSpace(s) == out;
    } else {
      var d, next := Blank(s[0]), p + |EscapeChar(s[0])|;
      DecodeEscaped(t, p, |out|, s[0], Escape(s[1..]));
      UnescapeStep(t, p, out, d, next);
      UnescapeFrom(t, next, s[1..], out + [d]);
      Assoc(out, [d], PlusToSpace(s[1..]));
    }
  }

  lemma UnescapeStep(t: string, p: nat, out: string, d: char, next: nat)
    requires |out| <= p < |t| && Decoded(t, p, |out|) == (d, next)
    ensures Unescape(t, p, out) == Unescape(t, next, out + [d])
  {
  }

  lemma DecodeEscaped(t: string, p: nat, q: nat, c: char, rest: string)
    requires c as int < 256 && q <= p <= |t| && t[p..] == EscapeChar(c) + rest
    ensures p < |t| && Decoded(t, p, q) == (Blank(c), p + |EscapeChar(c)|)
    ensures t[p + |EscapeChar(c)|..] == rest
  {
    var e := EscapeChar(c);
    assert forall i :: 0 <= i < |e| ==> t[p + i] == t[p..][i] == e[i];
    assert t[p + |e|..] == t[p..][|e|..];
    if !Acceptable(c) {
      PairArrives(c);
      assert t[p] == '%' && t[p + 1] == e[1] && t[p + 2] == e[2];
    } else {
      assert t[p] == c;
    }
  }

  method DecodeInPlace(buf: array<char>, p: nat, q: nat, k: nat, ghost s: string) returns (next: nat)
    requires k <= q <= p < k + |s| < buf.Length && buf[k + |s|] == NUL
    requires forall j :: q <= j < k + |s| ==> buf[j] == s[j - k] && buf[j] != NUL
    modifies buf
    ensures next == k + Decoded(s, p - k, q - k).1 && buf[q] == Decoded(s, p - k, q - k).0
    ensures forall j :: 0 <= j < buf.Length && j != q ==> buf[j] == old(buf[j])
  {
    next := p;
    if buf[p] == '%' {
      next := next + 1;
      if buf[next] != NUL {
        buf[q] := Octet(FromHex(buf[next]) * 16);
        next := next + 1;
        if buf[next] != NUL {
          buf[q] := Octet(buf[q] as int + FromHex(buf[next]));
          next := next + 1;
        }
      }
    } else {
      buf[q] := if buf[p] == '+' then ' ' else buf[p];
      next := next + 1;
    }
  }

  /** Unescaping in place: the write position never passes the read position, and nothing
      outside the text is touched. */
  method UnescapeInPlace(buf: array<char>, k: nat, ghost s: string)
    requires HoldsAt(buf, k, s)
    modifies buf
    ensures k + |Unescaped(s)| < buf.Length
    ensures buf[k..k + |Unescaped(s)|] == Unescaped(s) && buf[k + |Unescaped(s)|] == NUL
    ensures forall j :: 0 <= j < buf.Length && !(k <= j <= k + |s|) ==> buf[j] == old(buf[j])
  {
    var p, q := k, k;
    while buf[p] != NUL
      invariant k <= q <= p <= k + |s| < buf.Length && buf[k + |s|] == NUL
      invariant forall j :: q <= j < k + |s| ==> buf[j] == s[j - k] && buf[j] != NUL
      invariant Unescape(s, p - k, buf[k..q]) == Unescaped(s)
      invariant forall j :: 0 <= j < buf.Length && !(k <= j <= k + |s|) ==> buf[j] == old(buf[j])
      decreases k + |s| - p
    {
      ghost var out := buf[k..q];
      p := DecodeInPlace(buf, p, q, k, s);
      q := q + 1;
      assert buf[k..q] == out + [buf[q - 1]];
    }
    buf[q] := NUL;
    assert buf[k..q] == Unescaped(s);
  }
}
