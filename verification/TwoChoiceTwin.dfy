/** Keys that share one choice only, and what happens to them in a table that puts a new key in the emptier bucket. */
module TwoChoiceTwin {
  import opened TwoChoice

  /** A hash that makes a given choice. */
  lemma HashFor(permute: nat, inverse: nat, c: nat, base: nat, half: nat, t: nat, h: nat, r: nat) returns (m: nat)
    requires base * half * t == TWO64 && permute * inverse == c * TWO64 + 1
    requires base > 0 && h < half && r < base
    ensures Choice(m, permute, base, half) == (h, r)
  {
    var p := h * base + r;
    m := Product(p, inverse);
    LowBound(h, r, base, half);
    InTurn(p, base, half, t);
    ProductReturns(p, inverse, permute, c, TWO64, 1);
    DivModUnique(p, base, h, r);
    DivModUnique(h, half, 0, h);
  }

  lemma InTurn(p: nat, base: nat, half: nat, t: nat)
    requires base * half * t == TWO64 && p < base * half
    ensures p < TWO64 && p % TWO64 == p
  {
    MulGrows(t, base * half);
  }

  /** The raw digest that is stored like the raw digest r: zero is stored as d, and d as itself. */
  function Other(r: nat, d: nat): nat {
    if r == 0 then d else 0
  }

  lemma Distribute(x: int, y: int, z: int, n: int)
    ensures (x + y + z) * n == x * n + y * n + z * n
  {
  }

  /** The rest of a number that is put together from multiples and a rest. */
  lemma RestOf(p: int, x: int, y: int, z: int, n: int, r: int)
    requires n > 0 && p == x * n + y * n + z * n + r
    ensures p % n == r % n
  {
    Distribute(x, y, z, n);
    ModAdd(r, n, x + y + z);
  }

  lemma TwinInRange(p: nat, base: nat, n: nat, d: nat)
    requires n * base == TWO64 && 0 < d < base && p < TWO64 && (p % base == 0 || p % base == d)
    ensures p % base == 0 ==> p + d < TWO64
    ensures p % base == d ==> 0 <= p - d
  {
    var q := p / base;
    assert p == q * base + p % base;
    if q >= n {
      MulNonNeg(q - n, base);
    } else {
      MulNonNeg(n - 1 - q, base);
    }
  }

  lemma MulNonNeg(d: int, n: int)
    requires d >= 0 && n > 0
    ensures d * n >= 0
  {
  }

  // The product of the twin under the constant for which its raw digest is swapped.
  lemma TwinProduct(p: nat, base: nat, half: nat, n: nat, d: nat) returns (p': nat)
    requires n * base == TWO64 && 0 < d < base && half > 0 && p < TWO64 && (p % base == 0 || p % base == d)
    ensures p' < TWO64 && p' == (if p % base == 0 then p + d else p - d)
    ensures p' / base % half == p / base % half && p' % base == Other(p % base, d)
  {
    TwinInRange(p, base, n, d);
    p' := if p % base == 0 then p + d else p - d;
    DivModUnique(p', base, p / base, Other(p % base, d));
  }

  // How the hash that a product goes back to differs from the hash of another product.
  lemma TwinHash(m: nat, permute: nat, inverse: nat, c: nat, p': nat, e: int) returns (k: int)
    requires permute * inverse == c * TWO64 + 1 && p' < TWO64 && p' == Product(m, permute) + e
    ensures Product(Product(p', inverse), permute) == p'
    ensures Product(p', inverse) == m + e * inverse + k * TWO64
  {
    hide Product;
    var p, q, l := Product(m, permute), m * permute / TWO64, p' * inverse / TWO64;
    ProductIs(m, permute);
    ProductIs(p', inverse);
    ProductIs(Product(p', inverse), permute);
    BackTo(m, permute, inverse, c, p, q);
    ProductReturns(p', inverse, permute, c, TWO64, 1);
    k := m * c - q * inverse - l;
    Distribute(p, e, 0, inverse);
    Distribute(m * c - q * inverse, -l, 0, TWO64);
  }

  lemma ProductIs(m: nat, permute: nat)
    ensures Product(m, permute) == m * permute - m * permute / TWO64 * TWO64
    ensures Product(m, permute) < TWO64 && Product(m, permute) % TWO64 == Product(m, permute)
  {
  }

  // What that makes of the product under the other constant.
  lemma OtherProduct(m: nat, j: nat, other: nat, e: int, d: nat, inverse: nat, k: int, base: nat, n: nat, b: nat)
    requires n * base == TWO64 && base > 0 && (e == 1 || e == -1) && d * inverse * other % base == b
    requires j == m + e * d * inverse + k * TWO64
    ensures Product(j, other) % base == (Product(m, other) % base + e * b) % base
  {
    ProductLow(m, other, base, n);
    ProductLow(j, other, base, n);
    hide Product;
    var x := d * inverse;
    Reorder(e, d, inverse);
    Expand(m, j, other, e, x, k, n, base);
    Combine(m * other, x * other, j * other, e, k * other * n, base);
  }

  lemma Combine(y: int, x: int, z: int, e: int, k: int, base: nat)
    requires base > 0 && (e == 1 || e == -1) && z == y + e * x + k * base
    ensures z % base == (y % base + e * (x % base)) % base
  {
    var q, u := x / base, y / base;
    EitherSign(e, q, base, x % base);
    RestOf(z, u, e * q, k, base, y % base + e * (x % base));
  }

  lemma EitherSign(e: int, q: int, base: int, b: int)
    requires e == 1 || e == -1
    ensures e * (q * base + b) == e * q * base + e * b
  {
  }

  lemma Expand(m: int, j: int, other: int, e: int, x: int, k: int, n: int, base: int)
    requires j == m + e * x + k * TWO64 && n * base == TWO64
    ensures j * other == m * other + e * (x * other) + k * other * n * base
  {
    Distribute(m, e * x, k * TWO64, other);
    Reorder(e, x, other);
    assert k * TWO64 * other == k * other * (n * base);
    Reorder(k * other, n, base);
  }

  lemma Reorder(x: int, y: int, z: int)
    ensures x * y * z == x * (y * z)
  {
  }

  /** A key whose raw digest under one constant is zero or the default has a twin that makes the same choice of
      bucket with the other of the two, and under the other constant a raw digest that cannot be stored like
      that of the key. */
  lemma Twin(m: nat, permute: nat, inverse: nat, c: nat, other: nat, base: nat, half: nat, n: nat, d: nat, b: nat)
    returns (j: nat)
    requires n * base == TWO64 && permute * inverse == c * TWO64 + 1
    requires 0 < d < base && half > 0 && (Product(m, permute) % base == 0 || Product(m, permute) % base == d)
    requires d * inverse * other % base == b && b != 0 && b != d && b != base - d
    ensures Choice(j, permute, base, half) ==
      (Choice(m, permute, base, half).0, Other(Product(m, permute) % base, d))
    ensures Apart(Product(m, other) % base, Product(j, other) % base, d)
  {
    var p := Product(m, permute);
    var e := if p % base == 0 then 1 else -1;
    var p' := TwinProduct(p, base, half, n, d);
    var k := TwinHash(m, permute, inverse, c, p', e * d);
    j := Product(p', inverse);
    hide Product;
    Reorder(e, d, inverse);
    OtherProduct(m, j, other, e, d, inverse, k, base, n, b);
    Shift(Product(m, other) % base, Product(j, other) % base, e, base, d, b);
  }

  /** The raw digests are not stored alike. */
  predicate Apart(r: nat, s: nat, d: nat) {
    r != s && !(r == 0 && s == d) && !(r == d && s == 0)
  }

  lemma Shift(r: nat, s: nat, e: int, base: nat, d: nat, b: nat)
    requires r < base && 0 < d < base && 0 < b < base && b != d && b != base - d && (e == 1 || e == -1)
    requires s == (r + e * b) % base
    ensures Apart(r, s, d)
  {
    var v := r + e * b;
    if v < 0 {
      DivModUnique(v, base, -1, v + base);
    } else if v < base {
      DivModUnique(v, base, 0, v);
    } else {
      DivModUnique(v, base, 1, v - base);
    }
  }

  lemma {:induction false} ZeroBits(k: nat)
    ensures Bits(0, k) == 0
    decreases k
  {
    if k > 0 {
      ZeroBits(k - 1);
    }
  }

  lemma SmallBits(k: nat)
    requires k >= 3
    ensures Bits(1, k) == 1 && Bits(2, k) == 2 && Bits(3, k) == 3 && Bits(4, k) == 4
  {
    ZeroBits(k - 1);
    ZeroBits(k - 2);
    ZeroBits(k - 3);
    assert Bits(1, k - 2) == 1 && Bits(1, k - 1) == 1;
    assert Bits(2, k - 1) == 2;
  }
}
