/** The Internet checksum of an echo request (src/util.c:346-352), section 1 of RFC 1071. */
module Checksum {
  const BASE := 0x1_0000
  const WIDE := 0x1_0000_0000

  type Word = w: int | 0 <= w < BASE

  function Sum(words: seq<Word>): nat {
    if words == [] then 0 else words[0] + Sum(words[1..])
  }

  /** The end-around carry, repeated. */
  function Fold(j: nat): (r: nat)
    decreases j
  {
    if j < BASE then j else Fold(j % BASE + j / BASE)
  }

  /** The checksum field for a sum that folds to j; 0xffff is kept and not complemented to 0. */
  function Field(j: Word): Word {
    if j == 0xffff then j else 0xffff - j
  }

  // ----- What folding computes -----

  lemma {:induction false} Congruent(a: nat, q: nat)
    ensures (a + 0xffff * q) % 0xffff == a % 0xffff
  {
    if q > 0 {
      Congruent(a, q - 1);
      assert a + 0xffff * q == a + 0xffff * (q - 1) + 0xffff;
    }
  }

  /** Folding keeps the sum modulo 65535, fits a word, and only zero folds to zero. */
  lemma {:induction false} FoldKeeps(j: nat)
    ensures Fold(j) < BASE && Fold(j) % 0xffff == j % 0xffff
    ensures Fold(j) == 0 <==> j == 0
    decreases j
  {
    if j >= BASE {
      var next := j % BASE + j / BASE;
      FoldKeeps(next);
      Congruent(next, j / BASE);
      assert j == next + 0xffff * (j / BASE);
    }
  }

  /** So a positive multiple of 65535 folds to 0xffff, and nothing else does. */
  lemma FoldsToOnes(j: nat)
    ensures Fold(j) == 0xffff <==> j > 0 && j % 0xffff == 0
  {
    FoldKeeps(j);
    var f := Fold(j);
    assert f % 0xffff == 0 <==> f == 0 || f == 0xffff;
  }

  // ----- The loops -----

  lemma {:induction false} SumSnoc(words: seq<Word>, w: Word)
    ensures Sum(words + [w]) == Sum(words) + w
  {
    if words == [] {
      assert [w][1..] == [];
      assert words + [w] == [w];
    } else {
      assert (words + [w])[1..] == words[1..] + [w];
      SumSnoc(words[1..], w);
    }
  }

  lemma {:induction false} SumBound(words: seq<Word>)
    ensures Sum(words) <= 0xffff * |words|
  {
    if words != [] {
      SumBound(words[1..]);
    }
  }

  /** At most 65537 words keep the sum inside the 32 bits of j. */
  method ChecksumOf(words: seq<Word>) returns (cksum: Word)
    requires |words| <= 65537
    ensures Fold(Sum(words)) < BASE && cksum == Field(Fold(Sum(words)))
  {
    var i, j := 0, 0;
    assert words[..0] == [];
    while i < |words|
      invariant i <= |words| && j == Sum(words[..i]) < WIDE
    {
      assert words[..i + 1] == words[..i] + [words[i]];
      SumSnoc(words[..i], words[i]);
      SumBound(words[..i + 1]);
      j := (j + words[i]) % WIDE;
      i := i + 1;
    }
    assert words[..i] == words;
    while j / BASE != 0
      invariant 0 <= j && Fold(j) == Fold(Sum(words))
      decreases j
    {
      j := j % BASE + j / BASE;
    }
    cksum := if j == 0xffff then j else 0xffff - j;
  }

  lemma {:induction false} SumUpdate(words: seq<Word>, c: nat, w: Word)
    requires c < |words| && words[c] == 0
    ensures Sum(words[c := w]) == Sum(words) + w
  {
    if c == 0 {
      assert words[c := w][1..] == words[1..];
    } else {
      assert words[c := w][1..] == words[1..][c - 1 := w];
      SumUpdate(words[1..], c - 1, w);
    }
  }

  /** The message with its checksum in place folds to all ones: the receiver's test passes. */
  lemma MessageFoldsToOnes(words: seq<Word>, c: nat)
    requires c < |words| && words[c] == 0
    ensures Fold(Sum(words)) < BASE
    ensures Fold(Sum(words[c := Field(Fold(Sum(words)))])) == 0xffff
  {
    var s := Sum(words);
    FoldKeeps(s);
    var f := Fold(s);
    SumUpdate(words, c, Field(f));
    AddsUp(s, f);
    FoldsToOnes(s + Field(f));
  }

  lemma AddsUp(s: nat, f: Word)
    requires f % 0xffff == s % 0xffff && (f == 0 <==> s == 0)
    ensures s + Field(f) > 0 && (s + Field(f)) % 0xffff == 0
  {
    var q := s / 0xffff;
    assert s == 0xffff * q + s % 0xffff;
    if f == 0xffff {
      Congruent(0, q + 1);
      assert s + Field(f) == 0 + 0xffff * (q + 1);
    } else {
      assert f % 0xffff == f;
      Congruent(0, q + 1);
      assert s + Field(f) == 0 + 0xffff * (q + 1);
    }
  }

  /** Any other word in the field fails the receiver's test, but for the two zeros of ones'
      complement, which cannot be told apart. */
  lemma OnlyThatField(words: seq<Word>, c: nat, w: Word)
    requires c < |words| && words[c] == 0
    ensures Fold(Sum(words[c := w])) == 0xffff <==>
            Sum(words) + w > 0 && (Fold(Sum(words)) + w) % 0xffff == 0
  {
    SumUpdate(words, c, w);
    FoldsToOnes(Sum(words) + w);
    FoldKeeps(Sum(words));
    SameRemainder(Sum(words), Fold(Sum(words)), w);
  }

  lemma SameRemainder(a: nat, b: nat, w: nat)
    requires a % 0xffff == b % 0xffff
    ensures (a + w) % 0xffff == (b + w) % 0xffff
  {
    var p, q := a / 0xffff, b / 0xffff;
    Congruent(a % 0xffff + w, p);
    Congruent(b % 0xffff + w, q);
    assert a + w == a % 0xffff + w + 0xffff * p;
    assert b + w == b % 0xffff + w + 0xffff * q;
  }

  // ----- Byte order -----

  function Swap(w: Word): Word {
    w % 256 * 256 + w / 256
  }

  function Swapped(words: seq<Word>): (r: seq<Word>)
    ensures |r| == |words| && forall i :: 0 <= i < |words| ==> r[i] == Swap(words[i])
  {
    if words == [] then [] else [Swap(words[0])] + Swapped(words[1..])
  }

  /** Swapping the bytes of every word multiplies the sum by 256, modulo 65535. */
  lemma {:induction false} SwappedSum(words: seq<Word>) returns (q: nat)
    ensures 256 * Sum(words) == Sum(Swapped(words)) + 0xffff * q
    ensures Sum(Swapped(words)) == 0 <==> Sum(words) == 0
  {
    if words == [] {
      q := 0;
    } else {
      var rest := SwappedSum(words[1..]);
      var word: int, swapped: int := words[0], Swap(words[0]);
      var h := word / 256;
      q := rest + h;
      assert Swapped(words)[1..] == Swapped(words[1..]);
      assert 256 * word == swapped + 0xffff * h;
      assert Swap(words[0]) == 0 <==> words[0] == 0;
    }
  }

  /** A message that passes the test in one byte order passes it in the other, so the sum may
      be taken in the order of the host. */
  lemma ByteOrderIsIrrelevant(words: seq<Word>)
    requires Fold(Sum(words)) == 0xffff
    ensures Fold(Sum(Swapped(words))) == 0xffff
  {
    FoldsToOnes(Sum(words));
    var q := SwappedSum(words);
    var s, t := Sum(words), Sum(Swapped(words));
    var p := s / 0xffff;
    assert s == 0xffff * p;
    Congruent(t, q);
    Congruent(0, 256 * p);
    assert 256 * s == 0 + 0xffff * (256 * p);
    FoldsToOnes(t);
  }
}
