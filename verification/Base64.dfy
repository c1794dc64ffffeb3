/** _httpd_decode (libhttpd/protocol.c:183-257) against the encoding of section 4 of RFC 4648. */
module Base64 {
  import opened Base

  const INVALID: bv8 := 64

  /** The six bits a character stands for, or INVALID. */
  function Dec(c: char): (v: bv8)
    ensures v <= INVALID
  {
    if 'A' <= c <= 'Z' then (c as int - 'A' as int) as bv8
    else if 'a' <= c <= 'z' then (c as int - 'a' as int + 26) as bv8
    else if '0' <= c <= '9' then (c as int - '0' as int + 52) as bv8
    else if c == '+' then 62
    else if c == '/' then 63
    else INVALID
  }

  function Enc(v: bv8): char
    requires v < INVALID
  {
    var n := v as int;
    if n < 26 then ('A' as int + n) as char
    else if n < 52 then ('a' as int + n - 26) as char
    else if n < 62 then ('0' as int + n - 52) as char
    else if n == 62 then '+'
    else '/'
  }

  lemma DecEnc(v: bv8)
    requires v < INVALID
    ensures Dec(Enc(v)) == v
  {
    var n := v as int;
    assert n < 64;
  }

  // ----- Three bytes as four characters -----

  function First(a: bv8): bv8 { a >> 2 }
  function Second(a: bv8, b: bv8): bv8 { ((a & 3) << 4) | (b >> 4) }
  function Third(b: bv8, c: bv8): bv8 { ((b & 15) << 2) | (c >> 6) }
  function Fourth(c: bv8): bv8 { c & 63 }

  lemma SixBits(a: bv8, b: bv8, c: bv8)
    ensures First(a) < INVALID && Second(a, b) < INVALID && Third(b, c) < INVALID && Fourth(c) < INVALID
  {
  }

  /** The padded encoding. */
  function Encode(s: seq<bv8>): string {
    if s == [] then ""
    else if |s| == 1 then
      SixBits(s[0], 0, 0);
      [Enc(First(s[0])), Enc(Second(s[0], 0)), '=', '=']
    else if |s| == 2 then
      SixBits(s[0], s[1], 0);
      [Enc(First(s[0])), Enc(Second(s[0], s[1])), Enc(Third(s[1], 0)), '=']
    else
      SixBits(s[0], s[1], s[2]);
      [Enc(First(s[0])), Enc(Second(s[0], s[1])), Enc(Third(s[1], s[2])), Enc(Fourth(s[2]))] + Encode(s[3..])
  }

  // ----- The decoder -----

  function Byte1(a: bv8, b: bv8): bv8 { (a << 2) | (b >> 4) }
  function Byte2(b: bv8, c: bv8): bv8 { (b << 4) | (c >> 2) }
  function Byte3(c: bv8, d: bv8): bv8 { (c << 6) | d }

  lemma BytesArrive(a: bv8, b: bv8, c: bv8)
    ensures Byte1(First(a), Second(a, b)) == a
    ensures Byte2(Second(a, b), Third(b, c)) == b
    ensures Byte3(Third(b, c), Fourth(c)) == c
  {
  }

  function SkipBlanks(s: string, k: nat): (n: nat)
    requires k <= |s|
    ensures k <= n <= |s|
    decreases |s| - k
  {
    if k < |s| && (s[k] == ' ' || s[k] == '\t') then SkipBlanks(s, k + 1) else k
  }

  /** The first character at or after k that is none of the sixty-four. */
  function EndOfCode(s: string, k: nat): (n: nat)
    requires k <= |s|
    ensures k <= n <= |s|
    decreases |s| - k
  {
    if k < |s| && Dec(s[k]) < INVALID then EndOfCode(s, k + 1) else k
  }

  /** Whole groups of four that cover n characters. */
  function Padded(n: nat): nat {
    if n == 0 then 0 else if n <= 4 then 1 else 1 + Padded(n - 4)
  }

  lemma {:induction false} PaddedIs(n: nat)
    ensures Padded(n) == (n + 3) / 4
    ensures n % 4 == 0 <==> n == 4 * Padded(n)
    ensures n <= 4 * Padded(n) < n + 4
  {
    if n > 4 {
      PaddedIs(n - 4);
    }
  }

  lemma LeftOver(n: nat)
    ensures (n - 4 * Padded(n)) % 4 != 0 <==> n != 4 * Padded(n)
  {
    PaddedIs(n);
  }

  /** The three bytes of four characters. */
  function Group(s: string, k: nat): (r: seq<bv8>)
    requires k + 4 <= |s|
    ensures |r| == 3
  {
    var a, b, c, d := Dec(s[k]), Dec(s[k + 1]), Dec(s[k + 2]), Dec(s[k + 3]);
    [Byte1(a, b), Byte2(b, c), Byte3(c, d)]
  }

  /** Every group is decoded in full, padding included. */
  function Groups(s: string, k: nat, g: nat): (r: seq<bv8>)
    requires k + 4 * g <= |s|
    ensures |r| == 3 * g
    decreases g
  {
    if g == 0 then [] else Group(s, k) + Groups(s, k + 4, g - 1)
  }

  /** How many bytes of the last group stand for padding. */
  function Surplus(s: string, k: nat, n: nat): (r: nat)
    requires k + 4 * Padded(n) <= |s|
    ensures r <= 3 * Padded(n)
  {
    if n == 4 * Padded(n) then 0 else if Dec(s[k + 4 * Padded(n) - 2]) == INVALID then 2 else 1
  }

  /** A terminator ends the code, and the last group can be read. */
  predicate Readable(s: string) {
    var k := SkipBlanks(s, 0);
    EndOfCode(s, k) < |s| && k + 4 * Padded(EndOfCode(s, k) - k) <= |s|
  }

  function Decoded(s: string): seq<bv8>
    requires Readable(s)
  {
    var k := SkipBlanks(s, 0);
    var n := EndOfCode(s, k) - k;
    Groups(s, k, Padded(n))[..3 * Padded(n) - Surplus(s, k, n)]
  }

  method Decode(bufcoded: string, bufplain: array<bv8>) returns (count: nat)
    requires Readable(bufcoded)
    requires 3 * Padded(EndOfCode(bufcoded, SkipBlanks(bufcoded, 0)) - SkipBlanks(bufcoded, 0)) < bufplain.Length
    modifies bufplain
    ensures count == |Decoded(bufcoded)| < bufplain.Length
    ensures bufplain[..count] == Decoded(bufcoded) && bufplain[count] == 0
  {
    var start, end := Measure(bufcoded);
    var nprbytes := end - start;
    PaddedIs(nprbytes);
    count := (nprbytes + 3) / 4 * 3;
    var bufin, left := DecodeGroups(bufcoded, start, nprbytes, bufplain);
    ghost var all := bufplain[..count];
    count := TakePadding(bufcoded, bufin, left, count, start, nprbytes);
    DecodedFrom(bufcoded, start, nprbytes, all, count);
    bufplain[count] := 0;
    assert bufplain[..count] == all[..count];
  }

  lemma DecodedFrom(s: string, k: nat, n: nat, all: seq<bv8>, count: nat)
    requires Readable(s) && k == SkipBlanks(s, 0) && n == EndOfCode(s, k) - k
    requires all == Groups(s, k, Padded(n)) && count == 3 * Padded(n) - Surplus(s, k, n)
    ensures count <= |all| == 3 * Padded(n) && Decoded(s) == all[..count] && |Decoded(s)| == count
  {
  }

  method TakePadding(s: string, bufin: nat, left: int, all: nat, ghost k: nat, ghost n: nat) returns (count: nat)
    requires bufin == k + 4 * Padded(n) <= |s| && left == n - 4 * Padded(n) && all == 3 * Padded(n)
    ensures count == 3 * Padded(n) - Surplus(s, k, n)
  {
    LeftOver(n);
    count := all;
    if left % 4 != 0 {
      if Dec(s[bufin - 2]) == INVALID {
        count := count - 2;
      } else {
        count := count - 1;
      }
    }
  }

  method Measure(s: string) returns (start: nat, end: nat)
    requires EndOfCode(s, SkipBlanks(s, 0)) < |s|
    ensures start == SkipBlanks(s, 0) && end == EndOfCode(s, start)
  {
    start := 0;
    while s[start] == ' ' || s[start] == '\t'
      invariant start <= SkipBlanks(s, 0) < |s|
      invariant SkipBlanks(s, start) == SkipBlanks(s, 0)
      decreases |s| - start
    {
      start := start + 1;
    }
    end := start;
    while Dec(s[end]) < INVALID
      invariant start <= end <= EndOfCode(s, start)
      invariant EndOfCode(s, end) == EndOfCode(s, start)
      decreases |s| - end
    {
      end := end + 1;
    }
  }

  /** Characters are left over exactly while groups are to come. */
  lemma GroupsLeft(n: nat, g: nat)
    requires g <= Padded(n)
    ensures n - 4 * g > 0 <==> g < Padded(n)
  {
    PaddedIs(n);
  }

  method DecodeGroups(s: string, start: nat, n: nat, bufplain: array<bv8>) returns (bufin: nat, left: int)
    requires start + 4 * Padded(n) <= |s| && 3 * Padded(n) <= bufplain.Length
    modifies bufplain
    ensures bufplain[..3 * Padded(n)] == Groups(s, start, Padded(n))
    ensures bufin == start + 4 * Padded(n) && left == n - 4 * Padded(n)
  {
    bufin, left := start, n;
    var bufout := 0;
    ghost var g, total := 0, Padded(n);
    GroupsLeft(n, 0);
    while left > 0
      invariant g <= total && bufin == start + 4 * g && left == n - 4 * g && bufout == 3 * g
      invariant left > 0 <==> g < total
      invariant bufplain[..bufout] == Groups(s, start, g)
      decreases left
    {
      GroupsSnoc(s, start, g, bufin);
      GroupsLeft(n, g + 1);
      PutGroup(s, bufin, bufplain, bufout);
      bufin, bufout, left, g := bufin + 4, bufout + 3, left - 4, g + 1;
    }
  }

  lemma {:induction false} GroupsSnoc(s: string, k: nat, g: nat, end: nat)
    requires end == k + 4 * g && end + 4 <= |s|
    ensures Groups(s, k, g + 1) == Groups(s, k, g) + Group(s, end)
    decreases g
  {
    GroupsFirst(s, k, g + 1);
    if g > 0 {
      GroupsFirst(s, k, g);
      GroupsSnoc(s, k + 4, g - 1, end);
      Rejoin(Group(s, k), Groups(s, k + 4, g - 1), Group(s, end), Groups(s, k, g), Groups(s, k, g + 1));
    }
  }

  lemma Rejoin(first: seq<bv8>, mid: seq<bv8>, last: seq<bv8>, front: seq<bv8>, all: seq<bv8>)
    requires front == first + mid && all == first + (mid + last)
    ensures all == front + last
  {
  }

  lemma GroupsFirst(s: string, k: nat, g: nat)
    requires g > 0 && k + 4 * g <= |s|
    ensures Groups(s, k, g) == Group(s, k) + Groups(s, k + 4, g - 1)
  {
  }

  method PutGroup(s: string, k: nat, out: array<bv8>, at: nat)
    requires k + 4 <= |s| && at + 3 <= out.Length
    modifies out
    ensures out[..at + 3] == old(out[..at]) + Group(s, k)
  {
    out[at] := Byte1(Dec(s[k]), Dec(s[k + 1]));
    out[at + 1] := Byte2(Dec(s[k + 1]), Dec(s[k + 2]));
    out[at + 2] := Byte3(Dec(s[k + 2]), Dec(s[k + 3]));
  }

  // ----- The round trip -----

  /** Groups of four characters in an encoding of n bytes. */
  function Blocks(n: nat): nat {
    if n == 0 then 0 else if n <= 3 then 1 else 1 + Blocks(n - 3)
  }

  /** Characters before the padding. */
  function CodeLength(n: nat): nat {
    if n == 0 then 0 else if n <= 2 then n + 1 else 4 + CodeLength(n - 3)
  }

  lemma {:induction false} Sizes(n: nat)
    ensures Padded(CodeLength(n)) == Blocks(n)
    ensures 3 * Blocks(n) - 2 <= n <= 3 * Blocks(n)
    ensures CodeLength(n) == 4 * Blocks(n) <==> n == 3 * Blocks(n)
    decreases n
  {
    if n > 3 {
      Sizes(n - 3);
    }
  }

  lemma {:induction false} EncodeLength(s: seq<bv8>)
    ensures |Encode(s)| == 4 * Blocks(|s|)
    decreases |s|
  {
    if |s| > 2 {
      EncodeLength(s[3..]);
    }
  }

  /** The text holds e at k. */
  predicate At(t: string, k: nat, e: string) {
    k + |e| <= |t| && forall i :: 0 <= i < |e| ==> t[k + i] == e[i]
  }

  lemma RestAt(t: string, k: nat, s: seq<bv8>)
    requires |s| > 2 && At(t, k, Encode(s))
    ensures At(t, k + 4, Encode(s[3..])) && |Encode(s)| == 4 + |Encode(s[3..])|
  {
    var e, rest := Encode(s), Encode(s[3..]);
    assert forall i :: 0 <= i < |rest| ==> t[k + (4 + i)] == e[4 + i] == rest[i];
  }

  lemma JoinsGroup(s: seq<bv8>, later: seq<bv8>)
    requires |s| > 2 && s[3..] <= later
    ensures s <= [s[0], s[1], s[2]] + later
  {
    assert s == [s[0], s[1], s[2]] + s[3..];
  }

  /** The groups of an encoding begin with its bytes. */
  lemma {:induction false} GroupsOfEncode(t: string, k: nat, s: seq<bv8>)
    requires At(t, k, Encode(s)) && k + 4 * Blocks(|s|) <= |t|
    ensures s <= Groups(t, k, Blocks(|s|))
    decreases |s|
  {
    if s != [] {
      EncodeLength(s);
      FirstFour(t, k, s);
      if |s| > 2 {
        RestAt(t, k, s);
        GroupsOfEncode(t, k + 4, s[3..]);
        JoinsGroup(s, Groups(t, k + 4, Blocks(|s|) - 1));
      }
    }
  }

  lemma FirstFour(t: string, k: nat, s: seq<bv8>)
    requires s != [] && At(t, k, Encode(s)) && |Encode(s)| >= 4
    ensures Byte1(Dec(t[k]), Dec(t[k + 1])) == s[0]
    ensures |s| > 1 ==> Byte2(Dec(t[k + 1]), Dec(t[k + 2])) == s[1]
    ensures |s| > 2 ==> Byte3(Dec(t[k + 2]), Dec(t[k + 3])) == s[2]
  {
    var e := Encode(s);
    assert t[k + 0] == e[0] && t[k + 1] == e[1] && t[k + 2] == e[2] && t[k + 3] == e[3];
    EncodeFirst(s);
    BytesArrive(s[0], if |s| > 1 then s[1] else 0, if |s| > 2 then s[2] else 0);
  }

  /** The six-bit values of the first group. */
  lemma EncodeFirst(s: seq<bv8>)
    requires s != [] && |Encode(s)| >= 4
    ensures var e, b, c := Encode(s), if |s| > 1 then s[1] else 0, if |s| > 2 then s[2] else 0;
            && Dec(e[0]) == First(s[0]) < INVALID && Dec(e[1]) == Second(s[0], b) < INVALID
            && (if |s| == 1 then e[2] == '=' else Dec(e[2]) == Third(b, c) < INVALID)
            && (if |s| <= 2 then e[3] == '=' else Dec(e[3]) == Fourth(c) < INVALID)
  {
    var a, b, c := s[0], if |s| > 1 then s[1] else 0, if |s| > 2 then s[2] else 0;
    SixBits(a, b, c);
    DecEnc(First(a));
    DecEnc(Second(a, b));
    DecEnc(Third(b, c));
    DecEnc(Fourth(c));
  }

  /** An encoding ends where its padding begins. */
  lemma {:induction false} CodeEnds(t: string, k: nat, s: seq<bv8>)
    requires At(t, k, Encode(s)) && k + 4 * Blocks(|s|) < |t| && Dec(t[k + 4 * Blocks(|s|)]) == INVALID
    ensures EndOfCode(t, k) == k + CodeLength(|s|)
    decreases |s|
  {
    if s != [] {
      EncodeLength(s);
      EncodeFirst(s);
      var e := Encode(s);
      assert t[k + 0] == e[0] && t[k + 1] == e[1] && t[k + 2] == e[2] && t[k + 3] == e[3];
      if |s| > 2 {
        RestAt(t, k, s);
        CodeEnds(t, k + 4, s[3..]);
        FourMore(t, k);
      } else {
        ShortEnd(t, k, |s|);
      }
    }
  }

  lemma FourMore(t: string, k: nat)
    requires k + 4 < |t|
    requires Dec(t[k]) < INVALID && Dec(t[k + 1]) < INVALID && Dec(t[k + 2]) < INVALID && Dec(t[k + 3]) < INVALID
    ensures EndOfCode(t, k) == EndOfCode(t, k + 4)
  {
    assert EndOfCode(t, k + 2) == EndOfCode(t, k + 4);
  }

  lemma ShortEnd(t: string, k: nat, n: nat)
    requires k + 4 < |t| && 1 <= n <= 2 && Dec(t[k]) < INVALID && Dec(t[k + 1]) < INVALID
    requires n == 1 ==> t[k + 2] == '='
    requires n == 2 ==> Dec(t[k + 2]) < INVALID && t[k + 3] == '='
    ensures EndOfCode(t, k) == k + CodeLength(n)
  {
    assert EndOfCode(t, k) == EndOfCode(t, k + 2);
  }

  lemma {:induction false} BlanksSkipped(blanks: string, k: nat, t: string)
    requires k <= |blanks| <= |t| && blanks <= t && forall i :: 0 <= i < |blanks| ==> blanks[i] in " \t"
    requires |blanks| < |t| && t[|blanks|] !in " \t"
    ensures SkipBlanks(t, k) == |blanks|
    decreases |blanks| - k
  {
    if k < |blanks| {
      assert t[k] == blanks[k];
      BlanksSkipped(blanks, k + 1, t);
    }
  }

  /** The last character but one tells one byte from two. */
  predicate TellsPadding(e: string, m: nat, g: nat) {
    && |e| == 4 * g
    && (g > 0 && m == 3 * g - 2 ==> e[4 * g - 2] == '=')
    && (g > 0 && m == 3 * g - 1 ==> Dec(e[4 * g - 2]) < INVALID)
  }

  lemma {:induction false} LastButOne(s: seq<bv8>)
    ensures TellsPadding(Encode(s), |s|, Blocks(|s|))
    decreases |s|
  {
    EncodeLength(s);
    if s != [] {
      EncodeFirst(s);
      if |s| > 3 {
        LastButOne(s[3..]);
      }
    }
  }

  lemma PaddingTaken(t: string, k: nat, e: string, m: nat, n: nat)
    requires At(t, k, e) && TellsPadding(e, m, Padded(n)) && 3 * Padded(n) - 2 <= m <= 3 * Padded(n)
    requires n == 4 * Padded(n) <==> m == 3 * Padded(n)
    ensures 3 * Padded(n) - Surplus(t, k, n) == m
  {
    if e != "" {
      assert t[k + (|e| - 2)] == e[|e| - 2];
    }
  }

  lemma DecodedIs(t: string, k: nat, n: nat, s: seq<bv8>)
    requires k <= |t| && SkipBlanks(t, 0) == k && EndOfCode(t, k) == k + n
    requires k + n < |t| && k + 4 * Padded(n) <= |t|
    requires |s| == 3 * Padded(n) - Surplus(t, k, n) && s <= Groups(t, k, Padded(n))
    ensures Readable(t) && Decoded(t) == s
  {
  }

  lemma EncodingArrives(t: string, k: nat, s: seq<bv8>)
    requires At(t, k, Encode(s)) && k + 4 * Blocks(|s|) < |t|
    requires Dec(t[k + 4 * Blocks(|s|)]) == INVALID && SkipBlanks(t, 0) == k
    ensures Readable(t) && Decoded(t) == s
  {
    CodeEnds(t, k, s);
    GroupsOfEncode(t, k, s);
    LastButOne(s);
    SizesOf(t, k, s, Encode(s), CodeLength(|s|), Blocks(|s|));
  }

  lemma SizesOf(t: string, k: nat, s: seq<bv8>, e: string, n: nat, g: nat)
    requires At(t, k, e) && TellsPadding(e, |s|, g) && n == CodeLength(|s|) && g == Blocks(|s|)
    requires SkipBlanks(t, 0) == k && EndOfCode(t, k) == k + n && k + 4 * g < |t|
    requires s <= Groups(t, k, g)
    ensures Readable(t) && Decoded(t) == s
  {
    Sizes(|s|);
    PaddedIs(n);
    PaddingTaken(t, k, e, |s|, n);
    DecodedIs(t, k, n, s);
  }

  /** Any bytes, after any blanks and before any terminator, come back exactly. */
  lemma RoundTrip(blanks: string, s: seq<bv8>, rest: string)
    requires forall i :: 0 <= i < |blanks| ==> blanks[i] in " \t"
    requires rest != "" && Dec(rest[0]) == INVALID && (s == [] ==> rest[0] !in " \t")
    ensures Readable(blanks + Encode(s) + rest) && Decoded(blanks + Encode(s) + rest) == s
  {
    var t, k, e := blanks + Encode(s) + rest, |blanks|, Encode(s);
    EncodeLength(s);
    Placed(blanks, e, rest);
    if s != [] {
      EncodeFirst(s);
      assert t[k + 0] == e[0];
      NotBlank(e[0]);
    }
    BlanksSkipped(blanks, 0, t);
    EncodingArrives(t, k, s);
  }

  lemma Placed(blanks: string, e: string, rest: string)
    requires rest != ""
    ensures At(blanks + e + rest, |blanks|, e) && (blanks + e + rest)[|blanks| + |e|] == rest[0]
    ensures blanks <= blanks + e + rest
  {
  }

  lemma NotBlank(c: char)
    requires Dec(c) < INVALID
    ensures c !in " \t"
  {
  }
}
