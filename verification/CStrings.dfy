/** C strings inside a character buffer, and strsep over them. */
module CStrings {
  import opened Base

  const NUL := '\0'

  /** The position of the first NUL at or after k, or the end of the buffer. */
  function NulAt(buf: seq<char>, k: nat): (n: nat)
    requires k <= |buf|
    ensures k <= n <= |buf| && (n < |buf| ==> buf[n] == NUL)
    ensures forall j :: k <= j < n ==> buf[j] != NUL
    decreases |buf| - k
  {
    if k == |buf| || buf[k] == NUL then k else NulAt(buf, k + 1)
  }

  lemma {:induction false} NulAtIs(buf: seq<char>, k: nat, n: nat)
    requires k <= n <= |buf| && (n < |buf| ==> buf[n] == NUL)
    requires forall j :: k <= j < n ==> buf[j] != NUL
    ensures NulAt(buf, k) == n
    decreases n - k
  {
    if k < n {
      NulAtIs(buf, k + 1, n);
    }
  }

  /** The characters from k up to the next NUL. */
  function CStr(buf: seq<char>, k: nat): (s: string)
    requires k <= |buf|
    ensures |s| == NulAt(buf, k) - k
  {
    buf[k..NulAt(buf, k)]
  }

  /** The index of the first d in s, or the length. */
  function Until(s: string, d: char): (i: nat)
    ensures i <= |s| && d !in s[..i] && (i < |s| ==> s[i] == d)
    ensures i == |s| <==> d !in s
  {
    if s == "" || s[0] == d then 0
    else
      var i := 1 + Until(s[1..], d);
      assert s[..i] == [s[0]] + s[1..][..i - 1];
      i
  }

  /** The piece before the first d, and what follows that d. */
  function Head(s: string, d: char): (r: string)
    ensures |r| == Until(s, d)
  {
    s[..Until(s, d)]
  }

  function Tail(s: string, d: char): (r: string)
    requires d in s
    ensures |r| == |s| - Until(s, d) - 1
  {
    s[Until(s, d) + 1..]
  }

  /** A NUL written over the first d makes two texts of one. */
  lemma CutAt(buf: seq<char>, start: nat, d: char)
    requires start <= |buf| && d in CStr(buf, start)
    ensures var s := CStr(buf, start);
            var i := start + Until(s, d);
            CStr(buf[i := NUL], start) == Head(s, d) && CStr(buf[i := NUL], i + 1) == Tail(s, d)
  {
    var s := CStr(buf, start);
    var i := start + Until(s, d);
    var n := NulAt(buf, start);
    var cut := buf[i := NUL];
    assert s[i - start] == buf[i];
    NulAtIs(cut, start, i);
    NulAtIs(cut, i + 1, n);
    assert cut[start..i] == Head(s, d);
    assert cut[i + 1..n] == Tail(s, d);
  }

  method Scan(buf: seq<char>, start: nat, d: char) returns (i: nat)
    requires start <= |buf| && d != NUL
    ensures i == Until(CStr(buf, start), d) && start + i <= |buf|
    ensures d in CStr(buf, start) <==> start + i < |buf| && buf[start + i] == d
  {
    i := 0;
    while start + i < |buf| && buf[start + i] != NUL && buf[start + i] != d
      invariant start + i <= |buf|
      invariant forall j :: start <= j < start + i ==> buf[j] != NUL && buf[j] != d
    {
      i := i + 1;
    }
    ScanEnds(buf, start, d, i);
  }

  /** strsep on the text at start: cut at the first d. Returns the buffer and where the next
      piece begins, or -1 when there is none. */
  method StrSep(buf: seq<char>, start: nat, d: char) returns (cut: seq<char>, next: int)
    requires start <= |buf| && d != NUL
    ensures |cut| == |buf| && CStr(cut, start) == Head(CStr(buf, start), d)
    ensures d in CStr(buf, start) ==>
              && next == start + |CStr(cut, start)| + 1 && next <= |buf|
              && CStr(cut, next) == Tail(CStr(buf, start), d)
              && forall j :: 0 <= j < |buf| && j != next - 1 ==> cut[j] == buf[j]
    ensures d !in CStr(buf, start) ==> next == -1 && cut == buf
  {
    var i := Scan(buf, start, d);
    if start + i < |buf| && buf[start + i] == d {
      CutAt(buf, start, d);
      cut, next := buf[start + i := NUL], start + i + 1;
    } else {
      cut, next := buf, -1;
      assert Head(CStr(buf, start), d) == CStr(buf, start);
    }
  }

  lemma ScanEnds(buf: seq<char>, start: nat, d: char, i: nat)
    requires start + i <= |buf| && d != NUL
    requires forall j :: start <= j < start + i ==> buf[j] != NUL && buf[j] != d
    requires start + i == |buf| || buf[start + i] == NUL || buf[start + i] == d
    ensures i == Until(CStr(buf, start), d)
    ensures d in CStr(buf, start) <==> start + i < |buf| && buf[start + i] == d
  {
    var s := CStr(buf, start);
    var n := NulAt(buf, start);
    assert start + i <= n;
    assert s[..i] == buf[start..start + i];
    UntilIs(s, d, i);
  }

  lemma {:induction false} UntilIs(s: string, d: char, i: nat)
    requires i <= |s| && d !in s[..i] && (i < |s| ==> s[i] == d)
    ensures Until(s, d) == i
  {
    if i > 0 {
      assert s[0] in s[..i];
      assert s[1..][..i - 1] == s[..i][1..];
      UntilIs(s[1..], d, i - 1);
    }
  }

  /** A text is unchanged by writes outside it and its terminator. */
  lemma CStrKept(buf: seq<char>, cut: seq<char>, k: nat)
    requires |cut| == |buf| && k <= |buf|
    requires forall i :: k <= i <= NulAt(buf, k) && i < |buf| ==> cut[i] == buf[i]
    ensures CStr(cut, k) == CStr(buf, k)
  {
    NulAtIs(cut, k, NulAt(buf, k));
  }

  /** strsep until the text is used up. */
  method StrSepAll(buf: seq<char>, start: nat, d: char) returns (cut: seq<char>)
    requires start <= |buf| && d != NUL
    ensures |cut| == |buf|
    ensures forall j :: 0 <= j < |buf| && !(start <= j < start + |CStr(buf, start)|) ==> cut[j] == buf[j]
  {
    cut := buf;
    var next := start as int;
    ghost var end := start + |CStr(buf, start)|;
    while next >= 0
      invariant |cut| == |buf| && -1 <= next <= |buf|
      invariant next >= 0 ==> start <= next && next + |CStr(cut, next)| == end
      invariant forall j :: 0 <= j < |buf| && !(start <= j < end) ==> cut[j] == buf[j]
      decreases if next < 0 then 0 else |buf| - next + 1
    {
      cut, next := StrSep(cut, next, d);
    }
  }

  /** strlen. */
  method Strlen(buf: array<char>, ghost s: string) returns (n: nat)
    requires HoldsAt(buf, 0, s)
    ensures n == |s|
  {
    n := 0;
    while buf[n] != NUL
      invariant n <= |s|
      decreases |s| - n
    {
      n := n + 1;
    }
  }

  /** The buffer holds a text, and its terminator, at k. */
  ghost predicate HoldsAt(buf: array<char>, k: nat, s: string)
    reads buf
  {
    && k + |s| < buf.Length && buf[k + |s|] == NUL
    && forall j :: k <= j < k + |s| ==> buf[j] == s[j - k] && buf[j] != NUL
  }
}
