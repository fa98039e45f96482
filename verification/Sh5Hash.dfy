/** sh5_gethash: two choices of a bucket and a digest of 27 bits. */
module Sh5Hash {
  import opened TwoChoice

  const TWO27: nat := 0x800_0000
  const DIGEST_DEFAULT: bv32 := 0x00001000

  /** A digest of 27 bits, where zero is replaced since it marks a free item. */
  function Digest(n: nat): (d: bv32)
    ensures d != 0
  {
    if Bits(n, 27) == 0 then DIGEST_DEFAULT else Bits(n, 27)
  }

  /** The choices for the hash m; half is the number of buckets in each half, a power of two. */
  function KeyOf(m: nat, half: nat): (key: Key)
    requires half > 0
    ensures key.h1 < half <= key.h2 < 2 * half && key.d1 != 0 && key.d2 != 0
  {
    var p1, p2 := Product(m, PERMUTE1), Product(m, PERMUTE2);
    Key(p1 / TWO27 % half, p2 / TWO27 % half + half, Digest(p1 % TWO27), Digest(p2 % TWO27))
  }

  lemma Base()
    ensures Pow2(27) == TWO27
  {
    assert Pow2(5) == 32 && Pow2(10) == 1024 && Pow2(15) == 32768 && Pow2(20) == 1048576 && Pow2(25) == 33554432;
  }

  lemma DigestInjective(n: nat, m: nat)
    requires n < TWO27 && m < TWO27 && Digest(n) == Digest(m) != DIGEST_DEFAULT
    ensures n == m
  {
    hide Bits;
    Base();
    BitsInjective(n, m, 27);
  }

  /** Two keys that share bucket and digest under one choice share them under the other, unless the digest
      is the one that stands in for zero. */
  lemma KeysAgree(x: nat, y: nat, bits: nat, half: nat)
    requires bits <= 37 && half == Pow2(bits)
    ensures var k, j := KeyOf(x, half), KeyOf(y, half);
      && (k.h1 == j.h1 && k.d1 == j.d1 != DIGEST_DEFAULT ==> k == j)
      && (k.h2 == j.h2 && k.d2 == j.d2 != DIGEST_DEFAULT ==> k == j)
  {
    hide Digest, Product, Pow2;
    Base();
    PowersDivide(27, bits);
    ChoicesAgree(x, y, TWO27, half, Pow2(37 - bits));
    var k, j := KeyOf(x, half), KeyOf(y, half);
    if k.h1 == j.h1 && k.d1 == j.d1 != DIGEST_DEFAULT {
      DigestInjective(Product(x, PERMUTE1) % TWO27, Product(y, PERMUTE1) % TWO27);
    }
    if k.h2 == j.h2 && k.d2 == j.d2 != DIGEST_DEFAULT {
      DigestInjective(Product(x, PERMUTE2) % TWO27, Product(y, PERMUTE2) % TWO27);
    }
  }
}
