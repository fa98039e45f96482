/** Which bucket takes a new key, and of two full ones which gives up a digest, in terms of the calls made so far. */
module Sh9aAge {
  import opened Optional
  import opened Lru
  import opened TwoChoice
  import opened EpochClock
  import opened Sh9aBucket
  import opened Sh9aHash
  import opened Sh9aTable
  import opened Sh9aLive

  /** A digest is stored in the bucket that was not stored there before. */
  ghost predicate Gains(t: Table, r: Table, h: nat) {
    exists d :: Stored(r, h, d) && !Stored(t, h, d)
  }

  /** The last of the calls stored a new digest in bucket h. */
  ghost predicate NewIn(calls: seq<Call>, half: nat, limit: nat, h: nat)
    requires half > 0
  {
    calls != [] &&
    Gains(After(Created(half), calls[..|calls| - 1], half, limit), After(Created(half), calls, half, limit), h)
  }

  ghost predicate AnyNew(calls: seq<Call>, half: nat, limit: nat)
    requires half > 0
  {
    exists h: nat :: h < 2 * half && NewIn(calls, half, limit, h)
  }

  /** How many of the calls stored a new digest. */
  ghost function Inserts(calls: seq<Call>, half: nat, limit: nat): nat
    requires half > 0
    decreases |calls|
  {
    if calls == [] then 0
    else Inserts(calls[..|calls| - 1], half, limit) + if AnyNew(calls, half, limit) then 1 else 0
  }

  /** The clock ticks once for every limit + 1 of them; a flush sets it back, but not the count. */
  ghost function Ticks(calls: seq<Call>, half: nat, limit: nat): nat
    requires half > 0
  {
    Inserts(calls, half, limit) / (limit + 1)
  }

  /** How often it had ticked at the last flush. */
  ghost function TicksAtFlush(calls: seq<Call>, half: nat, limit: nat): nat
    requires half > 0
    decreases |calls|
  {
    if calls == [] then 0
    else if calls[|calls| - 1].Flush? then Ticks(calls, half, limit)
    else TicksAtFlush(calls[..|calls| - 1], half, limit)
  }

  /** How often it had ticked when, since the last flush, a new digest was last stored in bucket h. */
  ghost function TicksThen(calls: seq<Call>, half: nat, limit: nat, h: nat): Option<nat>
    requires half > 0
    decreases |calls|
  {
    if calls == [] || calls[|calls| - 1].Flush? then None
    else if NewIn(calls, half, limit, h) then Some(Ticks(calls, half, limit))
    else TicksThen(calls[..|calls| - 1], half, limit, h)
  }

  // ----- what a call stores -----

  ghost predicate IsNew(t: Table, k: Key) {
    !Stored(t, k.h1, k.d1) && !Stored(t, k.h2, k.d2)
  }

  lemma NewIsMissing(t: Table, k: Key)
    requires Fits(t, k)
    ensures IsNew(t, k) <==> Locate(t, k) == None
  {
    IndexMember(Items(t, k.h1), k.d1);
    IndexMember(Items(t, k.h2), k.d2);
  }

  ghost predicate Admits(t: Table, call: Call, half: nat)
    requires half > 0 && Valid(t, half)
  {
    call.Put? && (KeyFits(t, call.m, half); Locate(t, KeyOf(call.m, half)) == None)
  }

  /** Only a call that sets a new key stores a new digest, and it does so in the bucket chosen. */
  lemma GainsIff(t: Table, call: Call, half: nat, limit: nat, h: nat)
    requires half > 0 && Valid(t, half)
    ensures Gains(t, Next(t, call, half, limit), h) <==>
      Admits(t, call, half) && (KeyFits(t, call.m, half); h == Chosen(t, KeyOf(call.m, half)))
  {
    hide KeyOf, Good, First, Drops, Index, PushFront, MoveToFront, Locate, Sh9aTable.Valid;
    var r := Next(t, call, half, limit);
    if d :| Stored(r, h, d) && !Stored(t, h, d) {
      StoredBounds(r, h, d, half);
      StepStored(t, call, half, limit, h, d);
    }
    if call.Put? {
      KeyFits(t, call.m, half);
      var k := KeyOf(call.m, half);
      if Locate(t, k) == None && h == Chosen(t, k) {
        NoneLocated(t, k);
        Admitted(t, call.m, half, limit);
      }
    }
  }

  lemma Admitted(t: Table, m: nat, half: nat, limit: nat)
    requires half > 0 && Valid(t, half) && Admits(t, Put(m), half)
    ensures (KeyFits(t, m, half); var k, r := KeyOf(m, half), Next(t, Put(m), half, limit);
      Stored(r, Chosen(t, k), ChosenDigest(t, k)) && !Stored(t, Chosen(t, k), ChosenDigest(t, k)))
  {
    hide KeyOf, Good, First;
    KeyFits(t, m, half);
    var k := KeyOf(m, half);
    NoneLocated(t, k);
    IndexMember(Items(t, Chosen(t, k)), ChosenDigest(t, k));
  }

  // ----- the clock and the stamps -----

  /** The clock, the count towards its next tick and the stamps tell the inserts and flushes so far. */
  ghost predicate Clocked(calls: seq<Call>, half: nat, limit: nat)
    requires half > 0
  {
    var t, n := After(Created(half), calls, half, limit), Inserts(calls, half, limit);
    var from := TicksAtFlush(calls, half, limit);
    && from <= n / (limit + 1) && t.epoch == Clock(1 + (n / (limit + 1) - from)) && t.inserts == n % (limit + 1)
    && forall h: nat :: h < 2 * half ==> Stamped(t, h, TicksThen(calls, half, limit, h), from)
  }

  predicate Stamped(t: Table, h: nat, ticks: Option<nat>, from: nat) {
    ticks.Some? ==> h < |t.buckets| && from <= ticks.value && t.buckets[h].stamp == Clock(1 + (ticks.value - from))
  }

  // A check, or a set of a key that is there, leaves the clock and the stamps alone.
  lemma OtherClock(t: Table, call: Call, half: nat, limit: nat)
    requires half > 0 && Valid(t, half) && !Admits(t, call, half) && !call.Flush?
    ensures var r := Next(t, call, half, limit);
      && |r.buckets| == |t.buckets| && r.epoch == t.epoch && r.inserts == t.inserts
      && forall h: nat :: h < |t.buckets| ==> r.buckets[h].stamp == t.buckets[h].stamp && !Gains(t, r, h)
  {
    hide KeyOf, Good, First, Index, PushFront, MoveToFront, Locate, Gains;
    var r := Next(t, call, half, limit);
    forall h: nat | h < |t.buckets|
      ensures !Gains(t, r, h)
    {
      GainsIff(t, call, half, limit, h);
    }
    KeyFits(t, call.m, half);
    if Locate(t, KeyOf(call.m, half)).Some? {
      LocateFound(t, KeyOf(call.m, half));
    }
  }

  // A set of a new key moves the clock on and stamps the bucket.
  lemma AdmitClock(t: Table, call: Call, half: nat, limit: nat) returns (g: nat)
    requires half > 0 && Valid(t, half) && Admits(t, call, half)
    ensures var r := Next(t, call, half, limit);
      && |r.buckets| == |t.buckets| && g < |t.buckets|
      && r.epoch == (if t.inserts + 1 > limit then Later(t.epoch) else t.epoch)
      && r.inserts == (if t.inserts + 1 > limit then 0 else t.inserts + 1)
      && forall h: nat :: h < |t.buckets| ==>
           && r.buckets[h].stamp == (if h == g then r.epoch else t.buckets[h].stamp)
           && (Gains(t, r, h) <==> h == g)
  {
    hide KeyOf, Good, First, PushFront, Locate, Gains;
    var r := Next(t, call, half, limit);
    KeyFits(t, call.m, half);
    g := Chosen(t, KeyOf(call.m, half));
    forall h: nat | h < |t.buckets|
      ensures Gains(t, r, h) <==> h == g
    {
      GainsIff(t, call, half, limit, h);
    }
  }

  lemma FlushClock(t: Table, half: nat, limit: nat)
    requires half > 0 && Valid(t, half)
    ensures var r := Next(t, Flush, half, limit);
      && |r.buckets| == |t.buckets| && r.epoch == Clock(1) && r.inserts == t.inserts
      && forall h: nat :: !Gains(t, r, h)
  {
    hide Good;
    assert Clock(1) == Later(Clock(0));
    var r := Next(t, Flush, half, limit);
    forall h: nat | h < |r.buckets|
      ensures Items(r, h) == Empty()
    {
    }
  }

  lemma {:induction false} ClockKept(calls: seq<Call>, half: nat, limit: nat)
    requires half > 0
    ensures Clocked(calls, half, limit)
    decreases |calls|
  {
    if calls == [] {
      ClockStart(half, limit);
    } else {
      ClockKept(calls[..|calls| - 1], half, limit);
      ClockStep(calls, half, limit);
    }
  }

  lemma ClockStep(calls: seq<Call>, half: nat, limit: nat)
    requires half > 0 && calls != [] && Clocked(calls[..|calls| - 1], half, limit)
    ensures Clocked(calls, half, limit)
  {
    hide Gains, Next, Created, Later, Admits, Valid;
    var before, call := calls[..|calls| - 1], calls[|calls| - 1];
    var t, n := After(Created(half), before, half, limit), Inserts(before, half, limit);
    var r := After(Created(half), calls, half, limit);
    assert r == Next(t, call, half, limit);
    Sizes(t, r, half);
    TickDivide(n, limit + 1);
    if call.Flush? {
      FlushClock(t, half, limit);
      assert !AnyNew(calls, half, limit);
    } else if Admits(t, call, half) {
      var g := AdmitClock(t, call, half, limit);
      assert NewIn(calls, half, limit, g) && AnyNew(calls, half, limit);
      Onwards(n, TicksAtFlush(before, half, limit), limit);
      assert r.inserts == (n + 1) % (limit + 1);
    } else {
      OtherClock(t, call, half, limit);
      assert !AnyNew(calls, half, limit);
    }
    var from := TicksAtFlush(calls, half, limit);
    forall h: nat | h < 2 * half
      ensures Stamped(r, h, TicksThen(calls, half, limit, h), from)
    {
      assert Stamped(t, h, TicksThen(before, half, limit, h), TicksAtFlush(before, half, limit));
    }
  }

  lemma Sizes(t: Table, r: Table, half: nat)
    requires Valid(t, half) && Valid(r, half)
    ensures |t.buckets| == |r.buckets| == 2 * half
  {
  }

  lemma Onwards(n: nat, from: nat, limit: nat)
    requires from <= n / (limit + 1)
    ensures from <= (n + 1) / (limit + 1)
    ensures Clock(1 + ((n + 1) / (limit + 1) - from)) ==
      var now := Clock(1 + (n / (limit + 1) - from)); if n % (limit + 1) + 1 > limit then Later(now) else now
  {
    TickDivide(n, limit + 1);
  }

  lemma ClockStart(half: nat, limit: nat)
    requires half > 0
    ensures Clocked([], half, limit)
  {
    assert Clock(1) == Later(Clock(0));
  }

  lemma {:induction false} ThenBefore(calls: seq<Call>, half: nat, limit: nat, h: nat)
    requires half > 0
    ensures var ticks := TicksThen(calls, half, limit, h); ticks.Some? ==> ticks.value <= Ticks(calls, half, limit)
    decreases |calls|
  {
    hide NewIn, AnyNew;
    if calls != [] {
      ThenBefore(calls[..|calls| - 1], half, limit, h);
      TickDivide(Inserts(calls[..|calls| - 1], half, limit), limit + 1);
    }
  }

  /** What is stored in a bucket was stored at some time since the last flush. */
  lemma {:induction false} StoredThen(calls: seq<Call>, half: nat, limit: nat, h: nat, d: Word)
    requires half > 0 && Stored(After(Created(half), calls, half, limit), h, d)
    ensures TicksThen(calls, half, limit, h).Some?
    decreases |calls|
  {
    hide Stored, Created, Ticks;
    if calls == [] {
      NothingStored(half, h, d);
    } else {
      var before := calls[..|calls| - 1];
      var t := After(Created(half), before, half, limit);
      if calls[|calls| - 1].Flush? {
        NothingFlushed(t, h, d);
      } else if Stored(t, h, d) {
        StoredThen(before, half, limit, h, d);
      } else {
        assert NewIn(calls, half, limit, h);
      }
    }
  }

  lemma NothingFlushed(t: Table, h: nat, d: Word)
    ensures !Stored(Flushed(t), h, d)
  {
    if h < |t.buckets| {
      assert Items(Flushed(t), h) == Empty();
    }
  }

  lemma NothingStored(half: nat, h: nat, d: Word)
    ensures !Stored(Created(half), h, d)
  {
    assert Created(half) == Flushed(Created(half));
    NothingFlushed(Created(half), h, d);
  }

  // ----- which bucket takes a new key -----

  /** How many ranks of the bucket are in use. */
  ghost function Used(s: seq<Word>): nat {
    |set i | 0 <= i < |s| && s[i] != 0|
  }

  lemma {:induction false} ZerosAre(s: seq<Word>)
    ensures Zeros(s) == |s| - Used(s)
  {
    if s != [] {
      var n := |s| - 1;
      ZerosAre(s[..n]);
      var before, all := set i | 0 <= i < n && s[..n][i] != 0, set i | 0 <= i < |s| && s[i] != 0;
      assert all == before + if s[n] != 0 then {n} else {};
    }
  }

  /** How many ticks have passed since a new digest was last stored in bucket h. */
  ghost function Since(calls: seq<Call>, half: nat, limit: nat, h: nat): nat
    requires half > 0 && TicksThen(calls, half, limit, h).Some?
  {
    ThenBefore(calls, half, limit, h);
    Ticks(calls, half, limit) - TicksThen(calls, half, limit, h).value
  }

  lemma AgeIs(calls: seq<Call>, half: nat, limit: nat, h: nat)
    requires half > 0 && h < 2 * half && Used(Items(After(Created(half), calls, half, limit), h)) == ITEMS
    ensures TicksThen(calls, half, limit, h).Some?
    ensures Age(After(Created(half), calls, half, limit), h) == Clock(Since(calls, half, limit, h))
  {
    hide After, Created, TicksThen, Clock, Sh9aTable.Valid, Age, Used;
    var t := After(Created(half), calls, half, limit);
    Sizes(t, t, half);
    var d := SomeUsed(t, h);
    StoredThen(calls, half, limit, h, d);
    ClockKept(calls, half, limit);
    ThenBefore(calls, half, limit, h);
    var ticks, from := TicksThen(calls, half, limit, h), TicksAtFlush(calls, half, limit);
    assert Stamped(t, h, ticks, from);
    AgeOf(t, h, 1 + (ticks.value - from), Since(calls, half, limit, h));
  }

  lemma SomeUsed(t: Table, h: nat) returns (d: Word)
    requires h < |t.buckets| && Used(Items(t, h)) > 0
    ensures Stored(t, h, d)
  {
    var s := Items(t, h);
    var i :| i in set i | 0 <= i < |s| && s[i] != 0;
    d := s[i];
  }

  lemma AgeOf(t: Table, h: nat, from: nat, n: nat)
    requires h < |t.buckets| && t.buckets[h].stamp == Clock(from) && t.epoch == Clock(from + n)
    ensures Age(t, h) == Clock(n)
  {
    hide Clock;
    Passed(from, n);
  }

  /** A new key is stored in one of its buckets. */
  lemma OneGains(t: Table, m: nat, half: nat, limit: nat)
    requires half > 0 && Valid(t, half) && IsNew(t, KeyOf(m, half))
    ensures var k, r := KeyOf(m, half), Next(t, Put(m), half, limit);
      && (forall h: nat :: Gains(t, r, h) ==> h == k.h1 || h == k.h2)
      && (KeyFits(t, m, half); Gains(t, r, k.h1) <==> First(t, k))
      && (Gains(t, r, k.h2) <==> !Gains(t, r, k.h1))
  {
    hide KeyOf, First, Gains, Sh9aTable.Valid, Stored, Locate;
    var k := KeyOf(m, half);
    KeyFits(t, m, half);
    NewIsMissing(t, k);
    forall h: nat
      ensures Gains(t, Next(t, Put(m), half, limit), h) <==> h == Chosen(t, k)
    {
      GainsIff(t, Put(m), half, limit, h);
    }
  }

  /** Of two buckets without a free rank, the one in which no new digest has been stored for more ticks of the clock
      gives up a digest for a new key, and the second in a tie; the clock counts up to 256. */
  lemma OlderGivesUp(calls: seq<Call>, m: nat, half: nat, limit: nat)
    requires half > 0
    requires var t, k := After(Created(half), calls, half, limit), KeyOf(m, half);
      IsNew(t, k) && (KeyFits(t, m, half); Used(Items(t, k.h1)) == Used(Items(t, k.h2)) == ITEMS)
    ensures var t, k := After(Created(half), calls, half, limit), KeyOf(m, half);
      && TicksThen(calls, half, limit, k.h1).Some? && TicksThen(calls, half, limit, k.h2).Some?
      && var r, m1, m2 :=
           Next(t, Put(m), half, limit), Since(calls, half, limit, k.h1), Since(calls, half, limit, k.h2);
         && (Gains(t, r, k.h1) <==> m1 % 256 > m2 % 256)
         && (Gains(t, r, k.h2) <==> !(m1 % 256 > m2 % 256))
         && (m1 < 256 && m2 < 256 ==> (Gains(t, r, k.h1) <==> m1 > m2))
  {
    hide After, Created, TicksThen, Since, Gains, KeyOf, Age, Sh9aTable.Valid, Clock, IsNew, Used, Zeros, High;
    var t, k := After(Created(half), calls, half, limit), KeyOf(m, half);
    KeyFits(t, m, half);
    OneGains(t, m, half, limit);
    AgeIs(calls, half, limit, k.h1);
    AgeIs(calls, half, limit, k.h2);
    ZerosAre(Items(t, k.h1));
    ZerosAre(Items(t, k.h2));
    Sh9aTable.OlderGivesUp(t, k);
    Compare(Since(calls, half, limit, k.h1), Since(calls, half, limit, k.h2));
  }

  /** As long as one of the buckets has a free rank, the first takes a new key exactly if it has no more ranks in
      use than the second. */
  lemma EmptierTakes(t: Table, m: nat, half: nat, limit: nat)
    requires half > 0 && Valid(t, half) && IsNew(t, KeyOf(m, half))
    requires var k := KeyOf(m, half);
      (KeyFits(t, m, half); Used(Items(t, k.h1)) < ITEMS || Used(Items(t, k.h2)) < ITEMS)
    ensures var k, r := KeyOf(m, half), Next(t, Put(m), half, limit);
      && (KeyFits(t, m, half); Gains(t, r, k.h1) <==> Used(Items(t, k.h1)) <= Used(Items(t, k.h2)))
      && (Gains(t, r, k.h2) <==> !Gains(t, r, k.h1))
  {
    hide KeyOf, Gains, CompareEpochs, Sh9aTable.Valid, IsNew, Used, Zeros;
    var k := KeyOf(m, half);
    KeyFits(t, m, half);
    OneGains(t, m, half, limit);
    ZerosAre(Items(t, k.h1));
    ZerosAre(Items(t, k.h2));
  }
}
