/** Which bucket takes a new key, and of two full ones which gives up a record, in terms of the calls made so far. */
module Sh5Age {
  import opened Optional
  import opened Lru
  import opened Sh5Lru
  import opened TwoChoice
  import opened Sh5Hash
  import opened Sh5Table
  import opened Sh5Live
  import opened EpochClock

  /** A digest is stored in the bucket that was not stored there before. */
  ghost predicate Gains(t: Table, r: Table, h: nat) {
    exists d :: d != 0 && Stored(r, h, d) && !Stored(t, h, d)
  }

  /** The last of the calls stored a new digest in bucket h. */
  ghost predicate NewIn(calls: seq<Call>, half: nat, limit: nat, h: nat)
    requires half > 0 && CallsOk(calls, half)
  {
    calls != [] &&
    Gains(After(Created(half), calls[..|calls| - 1], half, limit), After(Created(half), calls, half, limit), h)
  }

  ghost predicate AnyNew(calls: seq<Call>, half: nat, limit: nat)
    requires half > 0 && CallsOk(calls, half)
  {
    exists h: nat :: h < 2 * half && NewIn(calls, half, limit, h)
  }

  /** How many of the calls stored a new digest. */
  ghost function Inserts(calls: seq<Call>, half: nat, limit: nat): nat
    requires half > 0 && CallsOk(calls, half)
    decreases |calls|
  {
    if calls == [] then 0
    else Inserts(calls[..|calls| - 1], half, limit) + if AnyNew(calls, half, limit) then 1 else 0
  }

  /** The clock ticks once for every limit + 1 of them. */
  ghost function Ticks(calls: seq<Call>, half: nat, limit: nat): nat
    requires half > 0 && CallsOk(calls, half)
  {
    Inserts(calls, half, limit) / (limit + 1)
  }

  /** How often it had ticked when a new digest was last stored in bucket h. */
  ghost function TicksThen(calls: seq<Call>, half: nat, limit: nat, h: nat): Option<nat>
    requires half > 0 && CallsOk(calls, half)
    decreases |calls|
  {
    if calls == [] then None
    else if NewIn(calls, half, limit, h) then Some(Ticks(calls, half, limit))
    else TicksThen(calls[..|calls| - 1], half, limit, h)
  }

  // ----- what a call stores -----

  ghost predicate IsNew(t: Table, k: Key) {
    !Stored(t, k.h1, k.d1) && !Stored(t, k.h2, k.d2)
  }

  lemma NewIsMissing(t: Table, k: Key)
    requires Fits(t, k)
    ensures IsNew(t, k) <==> Locate(t, k) == None
  {
  }

  /** Only a call that attaches a new key stores a new digest, and it does so in the bucket chosen. */
  lemma GainsIff(t: Table, call: Call, half: nat, limit: nat, h: nat)
    requires half > 0 && Valid(t, half) && CallOk(call, half)
    ensures Gains(t, Next(t, call, half, limit), h) <==>
      call.Attach? && (KeyFits(t, call.m, half);
        Locate(t, KeyOf(call.m, half)) == None && h == Chosen(t, KeyOf(call.m, half)))
  {
    hide KeyOf, Good, Second, Frees, Index, PushOver, MoveToFront, Drop, Scour, Locate, Sh5Table.Valid;
    var r := Next(t, call, half, limit);
    if d :| d != 0 && Stored(r, h, d) && !Stored(t, h, d) {
      StoredBounds(r, half, h, d);
      StepStored(t, call, half, limit, h, d);
    }
    if call.Attach? {
      KeyFits(t, call.m, half);
      var k := KeyOf(call.m, half);
      if Locate(t, k) == None && h == Chosen(t, k) {
        Admitted(t, call.m, half, limit);
      }
    }
  }

  lemma StoredBounds(t: Table, half: nat, h: nat, d: bv32)
    requires Sh5Table.Valid(t, half) && Stored(t, h, d)
    ensures h < 2 * half
  {
  }

  lemma Admitted(t: Table, m: nat, half: nat, limit: nat)
    requires half > 0 && Valid(t, half) && (KeyFits(t, m, half); Locate(t, KeyOf(m, half)) == None)
    ensures (KeyFits(t, m, half); var k, r := KeyOf(m, half), Next(t, Attach(m), half, limit);
      && ChosenDigest(t, k) != 0 && Stored(r, Chosen(t, k), ChosenDigest(t, k))
      && !Stored(t, Chosen(t, k), ChosenDigest(t, k)))
  {
    hide KeyOf, Good, Second;
    KeyFits(t, m, half);
    NoneLocated(t, KeyOf(m, half));
  }

  // ----- the clock and the stamps -----

  /** The clock, the count towards its next tick and the stamps tell the inserts so far. */
  ghost predicate Clocked(calls: seq<Call>, half: nat, limit: nat)
    requires half > 0 && CallsOk(calls, half)
  {
    var t, n := After(Created(half), calls, half, limit), Inserts(calls, half, limit);
    && t.epoch == Clock(1 + n / (limit + 1)) && t.einserts == n % (limit + 1)
    && forall h: nat :: h < 2 * half ==> Stamped(t, h, TicksThen(calls, half, limit, h))
  }

  predicate Stamped(t: Table, h: nat, ticks: Option<nat>) {
    ticks.Some? ==> h < |t.buckets| && t.buckets[h].stamp == Clock(1 + ticks.value)
  }

  ghost predicate Admits(t: Table, call: Call, half: nat)
    requires half > 0 && Valid(t, half)
  {
    call.Attach? && (KeyFits(t, call.m, half); Locate(t, KeyOf(call.m, half)) == None)
  }

  // Another call leaves the clock and the stamps alone.
  lemma OtherClock(t: Table, call: Call, half: nat, limit: nat)
    requires half > 0 && Valid(t, half) && CallOk(call, half) && !Admits(t, call, half)
    ensures var r := Next(t, call, half, limit);
      && |r.buckets| == |t.buckets| && r.epoch == t.epoch && r.einserts == t.einserts
      && forall h: nat :: h < |t.buckets| ==> r.buckets[h].stamp == t.buckets[h].stamp && !Gains(t, r, h)
  {
    hide KeyOf, Good, Second, Index, PushOver, MoveToFront, Drop, Scour, Locate, Gains;
    var r := Next(t, call, half, limit);
    forall h: nat | h < |t.buckets|
      ensures !Gains(t, r, h)
    {
      GainsIff(t, call, half, limit, h);
    }
    if !call.WalkRow? {
      KeyFits(t, call.m, half);
      if Locate(t, KeyOf(call.m, half)).Some? {
        LocateFound(t, KeyOf(call.m, half));
      }
    }
  }

  // One that attaches a new key moves the clock on and stamps the bucket.
  lemma AdmitClock(t: Table, call: Call, half: nat, limit: nat) returns (g: nat)
    requires half > 0 && Valid(t, half) && CallOk(call, half) && Admits(t, call, half)
    ensures var r := Next(t, call, half, limit);
      && |r.buckets| == |t.buckets| && g < |t.buckets|
      && r.epoch == (if t.einserts + 1 > limit then Later(t.epoch) else t.epoch)
      && r.einserts == (if t.einserts + 1 > limit then 0 else t.einserts + 1)
      && forall h: nat :: h < |t.buckets| ==>
           && r.buckets[h].stamp == (if h == g then r.epoch else t.buckets[h].stamp)
           && (Gains(t, r, h) <==> h == g)
  {
    hide KeyOf, Good, Second, PushOver, Locate, Gains;
    var r := Next(t, call, half, limit);
    KeyFits(t, call.m, half);
    g := Chosen(t, KeyOf(call.m, half));
    forall h: nat | h < |t.buckets|
      ensures Gains(t, r, h) <==> h == g
    {
      GainsIff(t, call, half, limit, h);
    }
  }

  lemma {:induction false} ClockKept(calls: seq<Call>, half: nat, limit: nat)
    requires half > 0 && CallsOk(calls, half)
    ensures Clocked(calls, half, limit)
    decreases |calls|
  {
    if calls == [] {
      ClockStart(half, limit);
    } else {
      ClockKept(calls[..|calls| - 1], half, limit);
      ClockStep(calls, half, limit);
    }
  }

  lemma ClockStep(calls: seq<Call>, half: nat, limit: nat)
    requires half > 0 && CallsOk(calls, half) && calls != [] && Clocked(calls[..|calls| - 1], half, limit)
    ensures Clocked(calls, half, limit)
  {
    hide Gains, Next, Created, Later, Admits, Valid;
    var before, call := calls[..|calls| - 1], calls[|calls| - 1];
    var t, n := After(Created(half), before, half, limit), Inserts(before, half, limit);
    var r := After(Created(half), calls, half, limit);
    assert r == Next(t, call, half, limit);
    Sizes(t, r, half);
    TickDivide(n, limit + 1);
    if Admits(t, call, half) {
      var g := AdmitClock(t, call, half, limit);
      assert NewIn(calls, half, limit, g) && AnyNew(calls, half, limit);
      Onwards(n, limit);
      assert r.epoch == Clock(1 + Ticks(calls, half, limit)) && r.einserts == (n + 1) % (limit + 1);
    } else {
      OtherClock(t, call, half, limit);
      assert !AnyNew(calls, half, limit);
    }
    forall h: nat | h < 2 * half
      ensures Stamped(r, h, TicksThen(calls, half, limit, h))
    {
      assert Stamped(t, h, TicksThen(before, half, limit, h));
    }
  }

  lemma Sizes(t: Table, r: Table, half: nat)
    requires Valid(t, half) && Valid(r, half)
    ensures |t.buckets| == |r.buckets| == 2 * half
  {
  }

  lemma Onwards(n: nat, limit: nat)
    ensures Clock(1 + (n + 1) / (limit + 1)) ==
      if n % (limit + 1) + 1 > limit then Later(Clock(1 + n / (limit + 1))) else Clock(1 + n / (limit + 1))
  {
    TickDivide(n, limit + 1);
  }

  lemma ClockStart(half: nat, limit: nat)
    requires half > 0
    ensures Clocked([], half, limit)
  {
    assert Clock(1) == Later(Clock(0));
  }

  lemma {:induction false} ThenBefore(calls: seq<Call>, half: nat, limit: nat, h: nat)
    requires half > 0 && CallsOk(calls, half)
    ensures var ticks := TicksThen(calls, half, limit, h); ticks.Some? ==> ticks.value <= Ticks(calls, half, limit)
    decreases |calls|
  {
    hide NewIn, AnyNew;
    if calls != [] {
      ThenBefore(calls[..|calls| - 1], half, limit, h);
      TickDivide(Inserts(calls[..|calls| - 1], half, limit), limit + 1);
    }
  }

  /** What is stored in a bucket was stored at some time. */
  lemma {:induction false} StoredThen(calls: seq<Call>, half: nat, limit: nat, h: nat, d: bv32)
    requires half > 0 && CallsOk(calls, half) && d != 0 && Stored(After(Created(half), calls, half, limit), h, d)
    ensures TicksThen(calls, half, limit, h).Some?
    decreases |calls|
  {
    hide Stored, Next, Created, Ticks;
    if calls == [] {
      NothingStored(half, h, d);
    } else {
      var before := calls[..|calls| - 1];
      if Stored(After(Created(half), before, half, limit), h, d) {
        StoredThen(before, half, limit, h, d);
      } else {
        assert NewIn(calls, half, limit, h);
      }
    }
  }

  lemma NothingStored(half: nat, h: nat, d: bv32)
    requires d != 0
    ensures !Stored(Created(half), h, d)
  {
    hide Fresh;
    if h < 2 * half {
      assert Items(Created(half), h) == Fresh();
    }
  }

  // ----- which bucket takes a new key -----

  /** All records of the bucket are in use. */
  predicate AllUsed(s: List) {
    |s| == DEPTH && forall i :: 0 <= i < DEPTH ==> s[i].digest != 0
  }

  /** How many ticks have passed since a new digest was last stored in bucket h. */
  ghost function Since(calls: seq<Call>, half: nat, limit: nat, h: nat): nat
    requires half > 0 && CallsOk(calls, half) && TicksThen(calls, half, limit, h).Some?
  {
    ThenBefore(calls, half, limit, h);
    Ticks(calls, half, limit) - TicksThen(calls, half, limit, h).value
  }

  lemma AgeIs(calls: seq<Call>, half: nat, limit: nat, h: nat)
    requires half > 0 && CallsOk(calls, half) && h < 2 * half
    requires AllUsed(Items(After(Created(half), calls, half, limit), h))
    ensures TicksThen(calls, half, limit, h).Some?
    ensures Age(After(Created(half), calls, half, limit), h) == Clock(Since(calls, half, limit, h))
  {
    hide After, Created, TicksThen, Clock, Sh5Table.Valid, Age;
    var t := After(Created(half), calls, half, limit);
    Sizes(t, t, half);
    UsedStored(t, h);
    StoredThen(calls, half, limit, h, Items(t, h)[0].digest);
    ClockKept(calls, half, limit);
    ThenBefore(calls, half, limit, h);
    var from := TicksThen(calls, half, limit, h);
    assert Stamped(t, h, from);
    AgeOf(t, h, 1 + from.value, Since(calls, half, limit, h));
  }

  lemma UsedStored(t: Table, h: nat)
    requires h < |t.buckets| && AllUsed(Items(t, h))
    ensures Items(t, h)[0].digest != 0 && Stored(t, h, Items(t, h)[0].digest)
  {
  }

  lemma AgeOf(t: Table, h: nat, from: nat, n: nat)
    requires h < |t.buckets| && t.buckets[h].stamp == Clock(from) && t.epoch == Clock(from + n)
    ensures Age(t, h) == Clock(n)
  {
    hide Clock;
    Passed(from, n);
  }

  /** A new key is stored in one of its buckets. */
  lemma OneGains(t: Table, m: nat, half: nat, limit: nat)
    requires half > 0 && Valid(t, half) && IsNew(t, KeyOf(m, half))
    ensures var k, r := KeyOf(m, half), Next(t, Attach(m), half, limit);
      && (forall h: nat :: Gains(t, r, h) ==> h == k.h1 || h == k.h2)
      && (KeyFits(t, m, half); Gains(t, r, k.h2) <==> Second(t, k))
      && (Gains(t, r, k.h1) <==> !Gains(t, r, k.h2))
  {
    hide KeyOf, Second, Gains, Sh5Table.Valid;
    var k := KeyOf(m, half);
    KeyFits(t, m, half);
    NewIsMissing(t, k);
    forall h: nat
      ensures Gains(t, Next(t, Attach(m), half, limit), h) <==> h == Chosen(t, k)
    {
      GainsIff(t, Attach(m), half, limit, h);
    }
  }

  /** The record at the last place of a bucket in use to the end is given up when the bucket takes a new key. */
  lemma LastGivenUp(t: Table, m: nat, half: nat, limit: nat, h: nat)
    requires half > 0 && Valid(t, half) && h < 2 * half && AllUsed(Items(t, h))
    requires Gains(t, Next(t, Attach(m), half, limit), h)
    ensures var d := Items(t, h)[DEPTH - 1].digest;
      Stored(t, h, d) && !Stored(Next(t, Attach(m), half, limit), h, d)
  {
    hide KeyOf, Second, Gains, Index, Sh5Table.Valid;
    GainsIff(t, Attach(m), half, limit, h);
    KeyFits(t, m, half);
    NoneLocated(t, KeyOf(m, half));
    assert Items(Next(t, Attach(m), half, limit), h) == PushOver(Items(t, h), ChosenDigest(t, KeyOf(m, half)));
    GoodAt(t, half, h);
    LastGone(Items(t, h), ChosenDigest(t, KeyOf(m, half)));
  }

  lemma GoodAt(t: Table, half: nat, h: nat)
    requires Valid(t, half) && h < 2 * half
    ensures |t.buckets| == 2 * half && Good(Items(t, h))
  {
  }

  lemma LastGone(s: List, d: bv32)
    requires Good(s) && AllUsed(s) && Index(s, d) == DEPTH
    ensures var e := s[DEPTH - 1].digest; Index(s, e) < DEPTH && Index(PushOver(s, d), e) == DEPTH
  {
    var e, r := s[DEPTH - 1].digest, PushOver(s, d);
    IndexMember(s, e, DEPTH - 1);
    assert d != e;
    assert forall k :: 1 <= k < DEPTH ==> r[k] == s[k - 1];
  }

  lemma DepthIs(s: List)
    requires |s| == DEPTH
    ensures Depth(s) == DEPTH <==> s[DEPTH - 1].digest != 0
  {
  }

  /** Of two buckets in use to the last record, the one in which no new digest has been stored for more ticks of the
      clock gives up a record for a new key, and the first in a tie; the clock counts up to 256. */
  lemma OlderGivesUp(calls: seq<Call>, m: nat, half: nat, limit: nat)
    requires half > 0 && CallsOk(calls, half)
    requires var t, k := After(Created(half), calls, half, limit), KeyOf(m, half);
      IsNew(t, k) && AllUsed(Items(t, k.h1)) && AllUsed(Items(t, k.h2))
    ensures var t, k := After(Created(half), calls, half, limit), KeyOf(m, half);
      && TicksThen(calls, half, limit, k.h1).Some? && TicksThen(calls, half, limit, k.h2).Some?
      && var r, m1, m2 :=
           Next(t, Attach(m), half, limit), Since(calls, half, limit, k.h1), Since(calls, half, limit, k.h2);
         && (Gains(t, r, k.h2) <==> m2 % 256 > m1 % 256)
         && (Gains(t, r, k.h1) <==> !(m2 % 256 > m1 % 256))
         && (m1 < 256 && m2 < 256 ==> (Gains(t, r, k.h2) <==> m2 > m1))
  {
    hide After, Created, TicksThen, Since, Gains, KeyOf, Age, Sh5Table.Valid, Clock, IsNew;
    var t, k := After(Created(half), calls, half, limit), KeyOf(m, half);
    KeyFits(t, m, half);
    OneGains(t, m, half, limit);
    AgeIs(calls, half, limit, k.h1);
    AgeIs(calls, half, limit, k.h2);
    DepthIs(Items(t, k.h1));
    DepthIs(Items(t, k.h2));
    Compare(Since(calls, half, limit, k.h2), Since(calls, half, limit, k.h1));
  }

  /** Some record in use stands in the first list at a place from which on none stands in the second. */
  predicate Deeper(s: List, r: List) {
    exists i :: 0 <= i < |s| && s[i].digest != 0 && forall j :: i <= j < |r| ==> r[j].digest == 0
  }

  /** As long as not both buckets are in use to the last record, the second takes a new key exactly if the records
      in use reach deeper in the first. */
  lemma ShallowTakes(t: Table, m: nat, half: nat, limit: nat)
    requires half > 0 && Valid(t, half) && IsNew(t, KeyOf(m, half))
    requires var k := KeyOf(m, half);
      (KeyFits(t, m, half); Items(t, k.h1)[DEPTH - 1].digest == 0 || Items(t, k.h2)[DEPTH - 1].digest == 0)
    ensures var k, r := KeyOf(m, half), Next(t, Attach(m), half, limit);
      && (KeyFits(t, m, half); Gains(t, r, k.h2) <==> Deeper(Items(t, k.h1), Items(t, k.h2)))
      && (Gains(t, r, k.h1) <==> !Gains(t, r, k.h2))
  {
    hide KeyOf, Gains, Age, Sh5Table.Valid, IsNew;
    var k := KeyOf(m, half);
    KeyFits(t, m, half);
    OneGains(t, m, half, limit);
    DepthIs(Items(t, k.h1));
    DepthIs(Items(t, k.h2));
    DeeperIs(Items(t, k.h1), Items(t, k.h2));
  }

  lemma DeeperIs(s: List, r: List)
    requires |s| == |r|
    ensures Deeper(s, r) <==> Depth(r) < Depth(s)
  {
    if Depth(r) < Depth(s) {
      assert s[Depth(s) - 1].digest != 0;
    }
  }
}
