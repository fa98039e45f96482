/** Two bucket choices from one hash: multiplied by odd constants, its low bits decide both. */
module TwoChoice {
  const PERMUTE1: nat := 0xed31952d18a569dd
  const PERMUTE2: nat := 0x94e36ad1c8d2654b
  const TWO64: nat := 0x1_0000_0000_0000_0000

  /** The bucket in each half of the table and the digest stored there. */
  datatype Key = Key(h1: nat, h2: nat, d1: bv32, d2: bv32)

  function Pow2(k: nat): (p: nat)
    ensures p > 0
  {
    if k == 0 then 1 else 2 * Pow2(k - 1)
  }

  function Product(m: nat, permute: nat): nat {
    m * permute % TWO64
  }

  /** The low k bits of n as a word. */
  function Bits(n: nat, k: nat): bv32 {
    if k == 0 then 0 else Grow(Bits(n / 2, k - 1), LowBit(n))
  }

  function Grow(high: bv32, low: bv32): bv32 {
    (high << 1) | low
  }

  function LowBit(n: nat): (b: bv32)
    ensures b < 2
  {
    if n % 2 == 1 then 1 else 0
  }

  function Halved(c: bv32): (h: bv32)
    ensures h <= c
  {
    c >> 1
  }

  // An upper bound for words of k bits.
  function Cap(k: nat): (c: bv32)
    requires k <= 27
    ensures c <= 0x0800_0000
    decreases 27 - k
  {
    if k == 27 then 0x0800_0000 else Halved(Cap(k + 1))
  }

  lemma CapOfNone()
    ensures Cap(0) == 1
  {
    assert Cap(24) == 0x0100_0000 && Cap(21) == 0x0020_0000;
    assert Cap(18) == 0x0004_0000 && Cap(15) == 0x0000_8000;
    assert Cap(12) == 0x0000_1000 && Cap(9) == 0x0000_0200;
    assert Cap(6) == 0x0000_0040 && Cap(3) == 0x0000_0008;
  }

  lemma GrowFits(high: bv32, low: bv32, cap: bv32)
    requires cap <= 0x0800_0000 && low < 2 && high < Halved(cap)
    ensures Grow(high, low) < cap
  {
  }

  lemma {:induction false} BitsFit(n: nat, k: nat)
    requires k <= 27
    ensures Bits(n, k) < Cap(k)
    decreases k
  {
    hide Grow, LowBit, Halved;
    if k == 0 {
      CapOfNone();
    } else {
      BitsFit(n / 2, k - 1);
      GrowFits(Bits(n / 2, k - 1), LowBit(n), Cap(k));
    }
  }

  lemma Shifted(a: bv32, b: bv32, x: bv32, y: bv32)
    requires a < 0x0800_0000 && b < 0x0800_0000 && x < 2 && y < 2 && Grow(a, x) == Grow(b, y)
    ensures a == b && x == y
  {
  }

  lemma BitsStep(n: nat, k: nat)
    requires 0 < k <= 27
    ensures Bits(n, k) == Grow(Bits(n / 2, k - 1), LowBit(n))
    ensures Bits(n / 2, k - 1) < 0x0800_0000 && LowBit(n) < 2
  {
    BitsFit(n / 2, k - 1);
  }

  lemma LowInjective(n: nat, m: nat)
    requires LowBit(n) == LowBit(m) && n / 2 == m / 2
    ensures n == m
  {
  }

  lemma {:induction false} BitsInjective(n: nat, m: nat, k: nat)
    requires k <= 27 && n < Pow2(k) && m < Pow2(k) && Bits(n, k) == Bits(m, k)
    ensures n == m
    decreases k
  {
    hide Bits, LowBit, Grow;
    if k > 0 {
      BitsStep(n, k);
      BitsStep(m, k);
      Shifted(Bits(n / 2, k - 1), Bits(m / 2, k - 1), LowBit(n), LowBit(m));
      BitsInjective(n / 2, m / 2, k - 1);
      LowInjective(n, m);
    }
  }

  // ----- multiplication by an odd constant is a bijection on the low bits -----

  const INVERSE1: nat := 0xe7924afa8c3a3675
  const INVERSE2: nat := 0x7e2d9b4315a7fc63

  lemma MulGrows(d: int, n: int)
    requires d >= 1 && n > 0
    ensures d * n >= n
  {
  }

  lemma DivModUnique(a: int, n: int, q: int, r: int)
    requires n > 0 && a == q * n + r && 0 <= r < n
    ensures a / n == q && a % n == r
  {
    var d := q - a / n;
    assert d * n == a % n - r;
    if d > 0 {
      MulGrows(d, n);
    } else if d < 0 {
      MulGrows(-d, n);
    }
  }

  lemma ModAdd(a: int, n: int, k: int)
    requires n > 0
    ensures (a + k * n) % n == a % n
  {
    assert a + k * n == (a / n + k) * n + a % n;
    DivModUnique(a + k * n, n, a / n + k, a % n);
  }

  // The low bits of the product, whether or not the high ones are cut off first.
  lemma ProductLow(x: nat, permute: nat, n: nat, t: nat)
    requires n > 0 && n * t == TWO64
    ensures Product(x, permute) % n == x * permute % n
  {
    var p := x * permute;
    var q := p / TWO64;
    assert Product(x, permute) == p + (-q * t) * n by {
      assert q * t * n == q * TWO64;
    }
    ModAdd(p, n, -q * t);
  }

  /** Numbers with the same low bits have products with the same low bits. */
  lemma ProductKeeps(x: nat, y: nat, permute: nat, n: nat, t: nat)
    requires n > 0 && n * t == TWO64 && x % n == y % n
    ensures Product(x, permute) % n == Product(y, permute) % n
  {
    var k := x / n - y / n;
    assert x == y + k * n;
    assert x * permute == y * permute + k * permute * n;
    ModAdd(y * permute, n, k * permute);
    ProductLow(x, permute, n, t);
    ProductLow(y, permute, n, t);
  }

  lemma BackTo(x: int, permute: int, inverse: int, c: int, p: int, q: int)
    requires permute * inverse == c * TWO64 + 1 && p == x * permute - q * TWO64
    ensures p * inverse == x + (x * c - q * inverse) * TWO64
  {
    assert x * permute * inverse == x * (c * TWO64 + 1);
  }

  /** The inverse of the constant brings the low bits back. */
  lemma ProductReturns(x: nat, permute: nat, inverse: nat, c: nat, n: nat, t: nat)
    requires n > 0 && n * t == TWO64 && permute * inverse == c * TWO64 + 1
    ensures Product(Product(x, permute), inverse) % n == x % n
  {
    var p := Product(x, permute);
    ProductLow(p, inverse, n, t);
    var q := x * permute / TWO64;
    BackTo(x, permute, inverse, c, p, q);
    var k := x * c - q * inverse;
    assert k * TWO64 == k * t * n;
    ModAdd(x, n, k * t);
  }

  // Bucket and raw digest are the low bits of the product.
  lemma Split(p: nat, base: nat, half: nat)
    requires base > 0 && half > 0
    ensures p % (base * half) == p / base % half * base + p % base
    ensures p % (base * half) / base == p / base % half && p % (base * half) % base == p % base
  {
    var q, h, r := p / base / half, p / base % half, p % base;
    assert p / base == q * half + h;
    assert p == q * (base * half) + (h * base + r) by {
      assert p == p / base * base + r;
      assert (q * half + h) * base == q * (base * half) + h * base;
    }
    LowBound(h, r, base, half);
    DivModUnique(p, base * half, q, h * base + r);
    DivModUnique(h * base + r, base, h, r);
  }

  lemma LowBound(h: nat, r: nat, base: nat, half: nat)
    requires h < half && r < base
    ensures h * base + r < base * half
  {
    assert (h + 1) * base <= half * base;
  }

  /** One choice: the bucket and the raw digest a product selects. */
  function Choice(m: nat, permute: nat, base: nat, half: nat): (nat, nat)
    requires base > 0 && half > 0
  {
    (Product(m, permute) / base % half, Product(m, permute) % base)
  }

  lemma ChoiceIsLow(x: nat, y: nat, permute: nat, base: nat, half: nat)
    requires base > 0 && half > 0
    ensures Choice(x, permute, base, half) == Choice(y, permute, base, half)
      <==> Product(x, permute) % (base * half) == Product(y, permute) % (base * half)
  {
    Split(Product(x, permute), base, half);
    Split(Product(y, permute), base, half);
  }

  lemma LowDecides(x: nat, y: nat, permute: nat, inverse: nat, c: nat, other: nat, n: nat, t: nat)
    requires n > 0 && n * t == TWO64 && permute * inverse == c * TWO64 + 1
    requires Product(x, permute) % n == Product(y, permute) % n
    ensures Product(x, other) % n == Product(y, other) % n
  {
    ProductKeeps(Product(x, permute), Product(y, permute), inverse, n, t);
    ProductReturns(x, permute, inverse, c, n, t);
    ProductReturns(y, permute, inverse, c, n, t);
    ProductKeeps(x, y, other, n, t);
  }

  /** Two hashes agree on bucket and raw digest under the first constant exactly if they do under the second. */
  lemma ChoicesAgree(x: nat, y: nat, base: nat, half: nat, t: nat)
    requires base > 0 && half > 0 && base * half * t == TWO64
    ensures Choice(x, PERMUTE1, base, half) == Choice(y, PERMUTE1, base, half)
      <==> Choice(x, PERMUTE2, base, half) == Choice(y, PERMUTE2, base, half)
  {
    hide Choice, Product;
    ChoiceIsLow(x, y, PERMUTE1, base, half);
    ChoiceIsLow(x, y, PERMUTE2, base, half);
    if Choice(x, PERMUTE1, base, half) == Choice(y, PERMUTE1, base, half) {
      LowDecides(x, y, PERMUTE1, INVERSE1, 0xd68f495b3e6d154c, PERMUTE2, base * half, t);
    }
    if Choice(x, PERMUTE2, base, half) == Choice(y, PERMUTE2, base, half) {
      LowDecides(x, y, PERMUTE2, INVERSE2, 0x496274d9bd822f3d, PERMUTE1, base * half, t);
    }
  }

  lemma {:induction false} PowersMultiply(j: nat, k: nat)
    ensures Pow2(j) * Pow2(k) == Pow2(j + k)
    decreases j
  {
    if j > 0 {
      PowersMultiply(j - 1, k);
      assert 2 * Pow2(j - 1) * Pow2(k) == 2 * (Pow2(j - 1) * Pow2(k));
    }
  }

  lemma PowerOf64()
    ensures Pow2(64) == TWO64
  {
    assert Pow2(5) == 32 && Pow2(10) == 1024 && Pow2(15) == 32768 && Pow2(20) == 1048576;
    assert Pow2(25) == 33554432 && Pow2(30) == 1073741824 && Pow2(32) == 4294967296;
    PowersMultiply(32, 32);
  }

  lemma PowersDivide(width: nat, bits: nat)
    requires width + bits <= 64
    ensures Pow2(width) * Pow2(bits) * Pow2(64 - width - bits) == TWO64
  {
    hide Pow2;
    PowerOf64();
    PowersMultiply(width, bits);
    PowersMultiply(width + bits, 64 - width - bits);
  }
}
