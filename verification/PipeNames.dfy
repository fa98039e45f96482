/** The names under which graphBuilder.cc enters kids and made-up streams. */
module PipeNames {
  /** The longest name that snprintf leaves of a kid's. */
  const KEY_CHARS := 62

  function Digit(d: nat): (c: char)
    requires d < 16
    ensures c != '.'
  {
    "0123456789abcdef"[d]
  }

  lemma DigitInjective(d: nat, e: nat)
    requires d < 16 && e < 16 && Digit(d) == Digit(e)
    ensures d == e
  {
  }

  /** A number in a base of at most sixteen, with leading zeros up to a width. */
  function Numeral(k: nat, base: nat, width: nat): (s: string)
    requires 2 <= base <= 16
    ensures s != [] && '.' !in s
    decreases k + width
  {
    if k < base && width <= 1 then [Digit(k)]
    else
      DivSmaller(k, base);
      Numeral(k / base, base, if width == 0 then 0 else width - 1) + [Digit(k % base)]
  }

  lemma DivSmaller(k: nat, base: nat)
    requires 2 <= base
    ensures k / base <= k && (k > 0 ==> k / base < k) && k % base < base
  {
    if k > 0 {
      assert k == base * (k / base) + k % base;
      assert base * (k / base) >= 2 * (k / base);
    }
  }

  /** The last digit of a numeral, and what stands before it. */
  lemma NumeralEnds(k: nat, base: nat, width: nat)
    requires 2 <= base <= 16
    ensures k % base < base && Numeral(k, base, width)[|Numeral(k, base, width)| - 1] == Digit(k % base)
    ensures |Numeral(k, base, width)| == 1 <==> k < base && width <= 1
    ensures (k < base && width <= 1) ||
            (k / base >= 0 &&
             Numeral(k, base, width)[..|Numeral(k, base, width)| - 1] ==
             Numeral(k / base, base, if width == 0 then 0 else width - 1))
  {
    hide Digit;
    DivSmaller(k, base);
    if !(k < base && width <= 1) {
      hide Numeral;
      NumeralStep(k, base, width, k / base, k % base);
    }
  }

  /** Numerals of one base and width are those of different numbers. */
  lemma {:induction false} NumeralInjective(k: nat, m: nat, base: nat, width: nat)
    requires 2 <= base <= 16 && Numeral(k, base, width) == Numeral(m, base, width)
    ensures k == m
    decreases k + width
  {
    hide Numeral;
    hide Digit;
    NumeralEnds(k, base, width);
    NumeralEnds(m, base, width);
    DigitInjective(k % base, m % base);
    if !(k < base && width <= 1) {
      DivSmaller(k, base);
      DivSmaller(m, base);
      NumeralInjective(k / base, m / base, base, if width == 0 then 0 else width - 1);
    }
    QuotientAndRest(k, m, base);
  }

  lemma QuotientAndRest(k: nat, m: nat, base: nat)
    requires base > 0 && k % base == m % base && (k / base == m / base || (k < base && m < base))
    ensures k == m
  {
  }

  /** What a digit is worth. */
  function Worth(c: char): int {
    if '0' <= c <= '9' then c as int - '0' as int else if 'a' <= c <= 'f' then c as int - 'a' as int + 10 else -1
  }

  /** The number that a numeral stands for. */
  function Amount(s: string, base: nat): int {
    if s == "" then 0 else base * Amount(s[..|s| - 1], base) + Worth(s[|s| - 1])
  }

  lemma DigitWorth(d: nat)
    requires d < 16
    ensures Worth(Digit(d)) == d
  {
  }

  // A numeral of more than one digit, given the quotient and the rest by the base.
  lemma NumeralStep(k: nat, base: nat, width: nat, q: nat, r: nat)
    requires 2 <= base <= 16 && !(k < base && width <= 1) && q == k / base && r == k % base && r < base && k + width > 0
    ensures Numeral(k, base, width) == Numeral(q, base, if width == 0 then 0 else width - 1) + [Digit(r)]
  {
    hide Digit;
  }

  lemma AmountMore(s: string, c: char, base: nat)
    ensures Amount(s + [c], base) == base * Amount(s, base) + Worth(c)
  {
    assert (s + [c])[..|s|] == s;
  }

  /** A numeral stands for its number, is as wide as asked for, and has no leading zero beyond that. */
  lemma {:induction false} NumeralStandsFor(k: nat, base: nat, width: nat)
    requires 2 <= base <= 16
    ensures var s := Numeral(k, base, width);
      && Amount(s, base) == k && |s| >= width && (forall i :: 0 <= i < |s| ==> 0 <= Worth(s[i]) < base)
      && (|s| > width && |s| > 1 ==> s[0] != '0')
    decreases k + width
  {
    hide Digit, Worth, Numeral, Amount;
    DivSmaller(k, base);
    DigitWorth(k % base);
    var q, r := k / base, k % base;
    assert k == base * q + r;
    if k < base && width <= 1 {
      OneDigit(k, base, width);
    } else {
      var rest := if width == 0 then 0 else width - 1;
      NumeralStep(k, base, width, q, r);
      NumeralStandsFor(q, base, rest);
      AmountMore(Numeral(q, base, rest), Digit(r), base);
      FirstDigit(q, base, rest);
      FewDigits(k, base, width, q);
    }
  }

  lemma OneDigit(k: nat, base: nat, width: nat)
    requires k < base && 2 <= base <= 16 && width <= 1
    ensures Numeral(k, base, width) == [Digit(k)] && Amount([Digit(k)], base) == k && 0 <= Worth(Digit(k)) < base
  {
    hide Digit, Worth;
    DigitWorth(k);
    AmountMore("", Digit(k), base);
    assert "" + [Digit(k)] == [Digit(k)];
  }

  // The quotient is zero only where the width asks for more digits.
  lemma FewDigits(k: nat, base: nat, width: nat, q: nat)
    requires 2 <= base && !(k < base && width <= 1) && q == k / base
    ensures q == 0 ==> k < base && width > 1
  {
  }

  lemma FirstDigit(k: nat, base: nat, width: nat)
    requires 2 <= base <= 16
    ensures k > 0 && |Numeral(k, base, width)| == 1 ==> Numeral(k, base, width)[0] != '0'
    ensures k == 0 ==> |Numeral(k, base, width)| <= width || |Numeral(k, base, width)| == 1
  {
  }

  /** What the n-th bundled source's stream is called. */
  function TempName(n: nat): string {
    "tempStream" + Numeral(n, 16, 8)
  }

  lemma TempNamesDiffer(n: nat, m: nat)
    requires TempName(n) == TempName(m)
    ensures n == m
  {
    assert TempName(n)[10..] == Numeral(n, 16, 8) && TempName(m)[10..] == Numeral(m, 16, 8);
    NumeralInjective(n, m, 16, 8);
  }

  function Munged(name: string, version: nat): string {
    name + "." + Numeral(version, 10, 0)
  }

  /** The name under which a kid is entered in the table of kids. */
  function Key(name: string, version: nat): string {
    var s := Munged(name, version);
    if |s| <= KEY_CHARS then s else s[..KEY_CHARS]
  }

  lemma NoDotAfter(a: string, v: nat)
    ensures forall i :: |a| < i < |Munged(a, v)| ==> Munged(a, v)[i] != '.'
  {
    forall i | |a| < i < |Munged(a, v)|
      ensures Munged(a, v)[i] != '.'
    {
      assert Munged(a, v)[i] == Numeral(v, 10, 0)[i - |a| - 1];
    }
  }

  /** A name and a version can be read back from the two put together. */
  lemma MungedInjective(a: string, v: nat, b: string, w: nat)
    requires Munged(a, v) == Munged(b, w)
    ensures a == b && v == w
  {
    hide Numeral;
    var s := Munged(a, v);
    assert s[|a|] == s[|b|] == '.';
    NoDotAfter(a, v);
    NoDotAfter(b, w);
    assert s[..|a|] == a && s[..|b|] == b;
    assert s[|a| + 1..] == Numeral(v, 10, 0) && s[|b| + 1..] == Numeral(w, 10, 0);
    NumeralInjective(v, w, 10, 0);
  }

  /** The digits of the version that a kid's key keeps: those of the first KEY_CHARS characters. */
  function KeptDigits(name: string, version: nat): (d: string)
    ensures '.' !in d
  {
    var num, room := Numeral(version, 10, 0), KEY_CHARS - |name| - 1;
    if room <= 0 then "" else if |num| <= room then num else num[..room]
  }

  /** A key ends with the dot and the digits that are kept, unless the name alone fills it. */
  lemma KeyIs(a: string, v: nat)
    ensures |a| < KEY_CHARS ==> Key(a, v) == a + "." + KeptDigits(a, v)
    ensures |a| >= KEY_CHARS ==> Key(a, v) == a[..KEY_CHARS] && KeptDigits(a, v) == ""
  {
    hide Numeral;
  }

  lemma SplitAtDot(a: string, x: string, b: string, y: string)
    requires '.' !in x && '.' !in y && a + "." + x == b + "." + y
    ensures a == b && x == y
  {
    var s := a + "." + x;
    assert s[|a|] == '.' && forall i :: |a| < i < |s| ==> s[i] == x[i - |a| - 1];
    assert s[|b|] == '.' && forall i :: |b| < i < |s| ==> s[i] == y[i - |b| - 1];
    assert s[..|a|] == a && s[..|b|] == b && s[|a| + 1..] == x && s[|b| + 1..] == y;
  }

  /** Whether the first name and version fill a key that the second name begins with. */
  predicate Covers(a: string, v: nat, b: string)
    requires |b| >= KEY_CHARS
  {
    |Munged(a, v)| >= KEY_CHARS && Munged(a, v)[..KEY_CHARS] == b[..KEY_CHARS]
  }

  lemma CoversIs(a: string, v: nat, b: string)
    requires |b| >= KEY_CHARS
    ensures Covers(a, v, b) <==> Key(a, v) == b[..KEY_CHARS]
  {
  }

  /** When two kids are entered under one key. Kids of one name are if the digits kept of their versions are the
      same: none are kept of a name of 61 characters or more. Kids of different names are only if one of the
      names fills the key by itself. */
  predicate Shared(a: string, v: nat, b: string, w: nat) {
    if a == b then KeptDigits(a, v) == KeptDigits(a, w)
    else if |b| >= KEY_CHARS then Covers(a, v, b)
    else |a| >= KEY_CHARS && Covers(b, w, a)
  }

  // Names and versions that fit the table's keys.
  lemma KeysShort(a: string, v: nat, b: string, w: nat)
    ensures |Munged(a, v)| <= KEY_CHARS && |Munged(b, w)| <= KEY_CHARS ==>
              (Key(a, v) == Key(b, w) <==> a == b && v == w)
  {
    hide Munged;
    if Munged(a, v) == Munged(b, w) {
      MungedInjective(a, v, b, w);
    }
  }

  /** Exactly when two kids share a key; and versions that are kept whole never do. */
  lemma KeysDiffer(a: string, v: nat, b: string, w: nat)
    ensures Key(a, v) == Key(b, w) <==> Shared(a, v, b, w)
    ensures |Munged(a, v)| <= KEY_CHARS && |Munged(b, w)| <= KEY_CHARS ==>
              (Key(a, v) == Key(b, w) <==> a == b && v == w)
  {
    hide KeptDigits, Numeral, Key, Covers;
    KeyIs(a, v);
    KeyIs(b, w);
    KeysShort(a, v, b, w);
    if |a| >= KEY_CHARS {
      CoversIs(b, w, a);
    }
    if |b| >= KEY_CHARS {
      CoversIs(a, v, b);
    }
    if |a| < KEY_CHARS && |b| < KEY_CHARS && Key(a, v) == Key(b, w) {
      SplitAtDot(a, KeptDigits(a, v), b, KeptDigits(b, w));
    }
  }

  /** A name of sixty characters keeps one digit, so that versions 1 and 10 share a key. */
  lemma OneAndTen(a: string)
    requires |a| == 60
    ensures Key(a, 1) == Key(a, 10) && |Munged(a, 1)| == KEY_CHARS
  {
    assert Numeral(1, 10, 0) == "1" && Numeral(10, 10, 0) == "10";
  }
}
