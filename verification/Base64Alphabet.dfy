/** The alphabet of section 4 of RFC 4648, character by character. */
module Base64Alphabet {
  import opened Base64

  const UPPER := "ABCDEFGHIJKLMNOPQRSTUVWXYZ"
  const LOWER := "abcdefghijklmnopqrstuvwxyz"
  const DIGITS := "0123456789"

  function Alphabet(): (r: string)
    ensures |r| == 64
  {
    UPPER + LOWER + DIGITS + "+/"
  }

  lemma LetterAt(n: nat)
    requires n < 26
    ensures UPPER[n] as int == 'A' as int + n && LOWER[n] as int == 'a' as int + n
  {
  }

  lemma DigitAt(n: nat)
    requires n < 10
    ensures DIGITS[n] as int == '0' as int + n
  {
  }

  lemma Joined(a: string, b: string, c: string, d: string, n: nat)
    requires n < |a| + |b| + |c| + |d|
    ensures (a + b + c + d)[n] == if n < |a| then a[n] else if n < |a| + |b| then b[n - |a|]
                                  else if n < |a| + |b| + |c| then c[n - |a| - |b|] else d[n - |a| - |b| - |c|]
  {
  }

  /** Six bits are written as the character at their place in the alphabet. */
  lemma EncIsAlphabet(v: bv8)
    requires v < INVALID
    ensures Enc(v) == Alphabet()[v as int]
  {
    var n := v as int;
    Joined(UPPER, LOWER, DIGITS, "+/", n);
    if n < 52 {
      LetterAt(if n < 26 then n else n - 26);
    } else if n < 62 {
      DigitAt(n - 52);
    }
  }

  lemma Joins(a: string, b: string, c: string, d: string, x: char)
    ensures x in a + b + c + d <==> x in a || x in b || x in c || x in d
  {
  }

  /** Reading undoes writing, and characters outside the alphabet stand for nothing. */
  lemma DecIsAlphabet(c: char, v: bv8)
    ensures v < INVALID ==> Dec(Alphabet()[v as int]) == v
    ensures c !in Alphabet() ==> Dec(c) == INVALID
  {
    if v < INVALID {
      EncIsAlphabet(v);
      DecEnc(v);
    }
    Joins(UPPER, LOWER, DIGITS, "+/", c);
    if 'A' <= c <= 'Z' {
      LetterAt(c as int - 'A' as int);
    } else if 'a' <= c <= 'z' {
      LetterAt(c as int - 'a' as int);
    } else if '0' <= c <= '9' {
      DigitAt(c as int - '0' as int);
    }
  }

  /** The four groups of six bits are the three bytes as one group of twenty-four, as section 4 of
      RFC 4648 has it. */
  lemma TwentyFourBits(a: bv8, b: bv8, c: bv8)
    ensures (First(a) as bv24 << 18) | (Second(a, b) as bv24 << 12) | (Third(b, c) as bv24 << 6) | Fourth(c) as bv24
         == (a as bv24 << 16) | (b as bv24 << 8) | c as bv24
  {
  }
}
