/** The clock of eight bits that stamps buckets. */
module EpochClock {
  import TwoChoice

  /** The clock after n ticks from 0. */
  function Clock(n: nat): bv8 {
    if n == 0 then 0 else Later(Clock(n - 1))
  }

  function Later(b: bv8): bv8 {
    b + 1
  }

  function Number(b: bv8): (n: nat)
    ensures n < 256
  {
    b as nat
  }

  lemma NumberNext(b: bv8)
    ensures Number(Later(b)) == if Number(b) == 255 then 0 else Number(b) + 1
    ensures Number(0) == 0
  {
  }

  lemma NumberOrder(a: bv8, b: bv8)
    ensures a > b <==> Number(a) > Number(b)
  {
  }

  lemma NextModulo(n: nat)
    ensures (n + 1) % 256 == if n % 256 == 255 then 0 else n % 256 + 1
  {
  }

  lemma {:induction false} ClockIs(n: nat)
    ensures Number(Clock(n)) == n % 256
  {
    hide Number, Later;
    NumberNext(0);
    if n > 0 {
      ClockIs(n - 1);
      NumberNext(Clock(n - 1));
      NextModulo(n - 1);
    }
  }

  function Minus(a: bv8, b: bv8): bv8 {
    a - b
  }

  lemma MinusNext(a: bv8, b: bv8)
    ensures Minus(Later(a), b) == Later(Minus(a, b)) && Minus(a, a) == 0
  {
  }

  /** The difference of two times is the time that has passed, by the clock. */
  lemma {:induction false} Passed(from: nat, n: nat)
    ensures Minus(Clock(from + n), Clock(from)) == Clock(n)
    decreases n
  {
    hide Minus, Later;
    if n == 0 {
      MinusNext(Clock(from), Clock(from));
    } else {
      Passed(from, n - 1);
      MinusNext(Clock(from + (n - 1)), Clock(from));
      assert from + n - 1 == from + (n - 1);
    }
  }

  /** Times that have passed compare as the numbers of ticks do, up to full turns of the clock. */
  lemma Compare(m: nat, n: nat)
    ensures Clock(m) > Clock(n) <==> m % 256 > n % 256
  {
    hide Clock, Number;
    ClockIs(m);
    ClockIs(n);
    NumberOrder(Clock(m), Clock(n));
  }

  /** One more insert, and perhaps a tick. */
  lemma TickDivide(n: nat, m: nat)
    requires m > 0
    ensures (n + 1) / m == n / m + (if n % m + 1 == m then 1 else 0)
    ensures (n + 1) % m == if n % m + 1 == m then 0 else n % m + 1
  {
    var q, r := n / m, n % m;
    assert n + 1 == q * m + (r + 1);
    if r + 1 == m {
      assert n + 1 == (q + 1) * m + 0;
      TwoChoice.DivModUnique(n + 1, m, q + 1, 0);
    } else {
      TwoChoice.DivModUnique(n + 1, m, q, r + 1);
    }
  }
}
