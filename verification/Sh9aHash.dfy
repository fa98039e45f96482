/** sh9a_gethash: two choices of a bucket and a digest of 24 bits above an empty byte. */
module Sh9aHash {
  import opened TwoChoice
  import opened Sh9aBucket

  const TWO24: nat := 0x100_0000
  const DIGEST_DEFAULT: Word := 0x00000100

  /** A digest stands above the low byte. */
  function Above(b: Word): Word {
    b << 8
  }

  function Raw(n: nat): Word {
    Above(Bits(n, 24))
  }

  /** A digest that leaves the low byte free; zero is replaced since it marks a free rank. */
  function Digest(n: nat): (d: Word)
    ensures d != 0
  {
    if Raw(n) == 0 then DIGEST_DEFAULT else Raw(n)
  }

  /** The choices for the hash m; half is the number of buckets in each half, a power of two. */
  function KeyOf(m: nat, half: nat): (key: Key)
    requires half > 0
    ensures key.h1 < half <= key.h2 < 2 * half && key.d1 != 0 && key.d2 != 0
    ensures High(key.d1) == key.d1 && High(key.d2) == key.d2
  {
    var p1, p2 := Product(m, PERMUTE1), Product(m, PERMUTE2);
    DigestHigh(p1 % TWO24);
    DigestHigh(p2 % TWO24);
    Key(p1 / TWO24 % half, p2 / TWO24 % half + half, Digest(p1 % TWO24), Digest(p2 % TWO24))
  }

  lemma DigestHigh(n: nat)
    ensures High(Digest(n)) == Digest(n)
  {
    hide Bits;
    ShiftedHigh(Bits(n, 24));
  }

  lemma ShiftedHigh(b: Word)
    ensures High(Above(b)) == Above(b) && High(0x100) == 0x100
  {
  }

  lemma Base()
    ensures Pow2(24) == TWO24
  {
    assert Pow2(5) == 32 && Pow2(10) == 1024 && Pow2(15) == 32768 && Pow2(20) == 1048576;
  }

  predicate Narrow(b: Word) {
    b < Cap(24)
  }

  lemma BitsNarrow(n: nat)
    ensures Narrow(Bits(n, 24))
  {
    hide Bits, Cap;
    BitsFit(n, 24);
  }

  lemma ShiftInjective(a: Word, b: Word)
    requires Narrow(a) && Narrow(b) && Above(a) == Above(b)
    ensures a == b
  {
    CapOf24();
  }

  lemma RawInjective(n: nat, m: nat)
    requires n < TWO24 && m < TWO24 && Raw(n) == Raw(m)
    ensures n == m
  {
    hide Bits, Above, Narrow;
    Base();
    BitsNarrow(n);
    BitsNarrow(m);
    ShiftInjective(Bits(n, 24), Bits(m, 24));
    BitsInjective(n, m, 24);
  }

  lemma DigestInjective(n: nat, m: nat)
    requires n < TWO24 && m < TWO24 && Digest(n) == Digest(m) != DIGEST_DEFAULT
    ensures n == m
  {
    hide Raw;
    RawInjective(n, m);
  }

  lemma CapOf24()
    ensures Cap(24) == 0x0100_0000
  {
  }

  /** Two keys that share bucket and digest under one choice share them under the other, unless the digest
      is the one that stands in for zero. */
  lemma KeysAgree(x: nat, y: nat, bits: nat, half: nat)
    requires bits <= 40 && half == Pow2(bits)
    ensures var k, j := KeyOf(x, half), KeyOf(y, half);
      && (k.h1 == j.h1 && k.d1 == j.d1 != DIGEST_DEFAULT ==> k == j)
      && (k.h2 == j.h2 && k.d2 == j.d2 != DIGEST_DEFAULT ==> k == j)
  {
    hide Digest, Product, Pow2;
    Base();
    PowersDivide(24, bits);
    ChoicesAgree(x, y, TWO24, half, Pow2(40 - bits));
    var k, j := KeyOf(x, half), KeyOf(y, half);
    if k.h1 == j.h1 && k.d1 == j.d1 != DIGEST_DEFAULT {
      DigestInjective(Product(x, PERMUTE1) % TWO24, Product(y, PERMUTE1) % TWO24);
    }
    if k.h2 == j.h2 && k.d2 == j.d2 != DIGEST_DEFAULT {
      DigestInjective(Product(x, PERMUTE2) % TWO24, Product(y, PERMUTE2) % TWO24);
    }
  }
}
