/** What a run of checks and sets keeps, loses and counts. */
module Sh9aLive {
  import opened Optional
  import opened Lru
  import opened TwoChoice
  import opened Sh9aBucket
  import opened Sh9aHash
  import opened Sh9aTable

  datatype Call = Look(m: nat) | Put(m: nat) | Flush

  lemma KeyFits(t: Table, m: nat, half: nat)
    requires half > 0 && Valid(t, half)
    ensures Fits(t, KeyOf(m, half))
  {
    hide KeyOf;
    var k := KeyOf(m, half);
    assert Good(Items(t, k.h1)) && Good(Items(t, k.h2));
  }

  ghost function Step(t: Table, call: Call, half: nat, limit: nat): Table
    requires half > 0 && Valid(t, half)
  {
    match call
    case Look(m) => KeyFits(t, m, half); Check(t, KeyOf(m, half)).0
    case Put(m) => KeyFits(t, m, half); Set(t, KeyOf(m, half), limit).0
    case Flush => Flushed(t)
  }

  lemma LocateFound(t: Table, k: Key)
    requires Fits(t, k) && Locate(t, k).Some?
    ensures var p := Locate(t, k).value; p.0 < |t.buckets| && p.1 < |Items(t, p.0)| == ITEMS && Items(t, p.0)[p.1] != 0
  {
  }

  lemma NoneLocated(t: Table, k: Key)
    requires Fits(t, k) && Locate(t, k) == None
    ensures Index(Items(t, k.h1), k.d1) == ITEMS && Index(Items(t, k.h2), k.d2) == ITEMS
    ensures Index(Items(t, Chosen(t, k)), ChosenDigest(t, k)) == ITEMS
  {
  }

  lemma EmptyGood()
    ensures Good(Empty())
  {
  }

  /** Digests stay distinct and free ranks at the end. */
  lemma StepValid(t: Table, call: Call, half: nat, limit: nat)
    requires half > 0 && Valid(t, half)
    ensures Valid(Step(t, call, half, limit), half)
  {
    hide Good, KeyOf, Locate, MoveToFront, PushFront, Index, First, Empty;
    if call.Flush? {
      EmptyGood();
    } else {
      var k := KeyOf(call.m, half);
      KeyFits(t, call.m, half);
      if Locate(t, k).Some? {
        LocateFound(t, k);
        var p := Locate(t, k).value;
        MoveGood(Items(t, p.0), p.1);
      } else if call.Put? {
        NoneLocated(t, k);
        PushGood(Items(t, Chosen(t, k)), ChosenDigest(t, k));
      }
    }
  }

  ghost function Next(t: Table, call: Call, half: nat, limit: nat): (r: Table)
    requires half > 0 && Valid(t, half)
    ensures Valid(r, half)
  {
    StepValid(t, call, half, limit);
    Step(t, call, half, limit)
  }

  predicate Stored(t: Table, h: nat, x: Word) {
    h < |t.buckets| && x != 0 && x in Items(t, h)
  }

  /** The call pushes the digest x of bucket h over the end. */
  ghost predicate Drops(t: Table, call: Call, half: nat, h: nat, x: Word)
    requires half > 0 && Valid(t, half)
  {
    call.Put? && (
      KeyFits(t, call.m, half);
      var k := KeyOf(call.m, half);
      Locate(t, k) == None && h == Chosen(t, k) && |Items(t, h)| == ITEMS && x == Items(t, h)[ITEMS - 1])
  }

  /** The call stores the digest x in bucket h. */
  ghost predicate Stores(t: Table, call: Call, half: nat, h: nat, x: Word)
    requires half > 0 && Valid(t, half)
  {
    call.Put? && (
      KeyFits(t, call.m, half);
      var k := KeyOf(call.m, half);
      Locate(t, k) == None && h == Chosen(t, k) && x == ChosenDigest(t, k))
  }

  /** The digests stored after a call are those it does not drop or flush, and the new one. */
  lemma StepStored(t: Table, call: Call, half: nat, limit: nat, h: nat, x: Word)
    requires half > 0 && Valid(t, half) && h < 2 * half && x != 0
    ensures Stored(Step(t, call, half, limit), h, x)
      <==> (Stored(t, h, x) && !call.Flush? && !Drops(t, call, half, h, x)) || Stores(t, call, half, h, x)
  {
    hide Good, KeyOf, Locate, MoveToFront, PushFront, Index, First;
    assert Good(Items(t, h));
    GoodLength(Items(t, h));
    if !call.Flush? {
      var k := KeyOf(call.m, half);
      KeyFits(t, call.m, half);
      if Locate(t, k).Some? {
        LocateFound(t, k);
        var p := Locate(t, k).value;
        if h == p.0 {
          MoveMember(Items(t, h), p.1, x);
        }
      } else if call.Put? && h == Chosen(t, k) {
        PushMember(Items(t, h), ChosenDigest(t, k), x);
      }
    }
  }

  lemma GoodLength(s: seq<Word>)
    requires Good(s)
    ensures |s| == ITEMS
  {
  }

  /** The last rank of the bucket that takes a new key is in use exactly if both buckets are full. */
  lemma LastFull(t: Table, k: Key)
    requires Fits(t, k) && Good(Items(t, k.h1)) && Good(Items(t, k.h2))
    ensures |Items(t, Chosen(t, k))| == ITEMS && (Items(t, Chosen(t, k))[ITEMS - 1] != 0 <==> Full(t, k))
  {
    hide Good, Zeros, CompareEpochs;
    LastZero(Items(t, k.h1));
    LastZero(Items(t, k.h2));
  }

  /** Without a counted drop no digest is lost, short of a flush; with one exactly one is. */
  lemma DropCounted(t: Table, call: Call, half: nat, limit: nat)
    requires half > 0 && Valid(t, half)
    ensures Step(t, call, half, limit).drops == t.drops || Step(t, call, half, limit).drops == t.drops + 1
    ensures Step(t, call, half, limit).drops != t.drops
      <==> exists h, x :: Stored(t, h, x) && Drops(t, call, half, h, x)
  {
    hide Good, KeyOf, Locate, First, Full, PushFront, Index, MoveToFront;
    if call.Put? {
      var k := KeyOf(call.m, half);
      KeyFits(t, call.m, half);
      assert Good(Items(t, k.h1)) && Good(Items(t, k.h2));
      LastFull(t, k);
      var h := Chosen(t, k);
      if Locate(t, k) == None && Full(t, k) {
        assert Stored(t, h, Items(t, h)[ITEMS - 1]) && Drops(t, call, half, h, Items(t, h)[ITEMS - 1]);
      }
    }
  }

  // ----- runs -----

  ghost function After(t: Table, calls: seq<Call>, half: nat, limit: nat): (r: Table)
    requires half > 0 && Valid(t, half)
    ensures Valid(r, half)
    decreases |calls|
  {
    if calls == [] then t else Next(After(t, calls[..|calls| - 1], half, limit), calls[|calls| - 1], half, limit)
  }

  /** No call of the run flushes the table or drops the digest x of bucket h. */
  ghost predicate Kept(t: Table, calls: seq<Call>, half: nat, limit: nat, h: nat, x: Word)
    requires half > 0 && Valid(t, half)
  {
    forall i :: 0 <= i < |calls| ==> !calls[i].Flush? && !Drops(After(t, calls[..i], half, limit), calls[i], half, h, x)
  }

  lemma {:induction false} StaysStored(t: Table, calls: seq<Call>, half: nat, limit: nat, h: nat, x: Word)
    requires half > 0 && Valid(t, half) && Stored(t, h, x) && Kept(t, calls, half, limit, h, x)
    ensures Stored(After(t, calls, half, limit), h, x)
    decreases |calls|
  {
    hide Stored, Drops, Stores, Step, Valid;
    if calls != [] {
      var n := |calls| - 1;
      assert forall i :: 0 <= i < n ==> calls[..n][..i] == calls[..i];
      StaysStored(t, calls[..n], half, limit, h, x);
      var before := After(t, calls[..n], half, limit);
      StoredBounds(before, h, x, half);
      StepStored(before, calls[n], half, limit, h, x);
    }
  }

  lemma StoredBounds(t: Table, h: nat, x: Word, half: nat)
    requires Stored(t, h, x) && Valid(t, half)
    ensures h < 2 * half && x != 0
  {
  }

  /** A check finds a key exactly if one of its choices is stored. */
  lemma CheckFinds(t: Table, m: nat, half: nat)
    requires half > 0 && Valid(t, half)
    ensures (KeyFits(t, m, half); var k := KeyOf(m, half);
      Check(t, k).1 <==> Stored(t, k.h1, k.d1) || Stored(t, k.h2, k.d2))
  {
    hide KeyOf, Good;
    KeyFits(t, m, half);
    var k := KeyOf(m, half);
    IndexMember(Items(t, k.h1), k.d1);
    IndexMember(Items(t, k.h2), k.d2);
  }

  lemma IndexMember(s: seq<Word>, x: Word)
    ensures Index(s, x) < |s| <==> x in s
  {
  }

  /** After a set, one of the choices of the key is stored. */
  lemma SetStores(t: Table, m: nat, half: nat, limit: nat)
    requires half > 0 && Valid(t, half)
    ensures var k, r := KeyOf(m, half), Next(t, Put(m), half, limit); Stored(r, k.h1, k.d1) || Stored(r, k.h2, k.d2)
  {
    hide KeyOf, Good, First;
    KeyFits(t, m, half);
    var k := KeyOf(m, half);
    if Locate(t, k).Some? {
      var p := Locate(t, k).value;
      MoveMember(Items(t, p.0), p.1, Items(t, p.0)[p.1]);
    }
  }

  ghost predicate Found(t: Table, m: nat, half: nat)
    requires half > 0 && Valid(t, half)
  {
    KeyFits(t, m, half);
    Check(t, KeyOf(m, half)).1
  }

  /** A key that was set is found until a counted drop or a flush takes it. */
  lemma ChecksAgain(t: Table, m: nat, calls: seq<Call>, half: nat, limit: nat)
    requires half > 0 && Valid(t, half)
    requires var k, r := KeyOf(m, half), Next(t, Put(m), half, limit);
      Kept(r, calls, half, limit, k.h1, k.d1) && Kept(r, calls, half, limit, k.h2, k.d2)
    ensures Found(After(Next(t, Put(m), half, limit), calls, half, limit), m, half)
  {
    hide KeyOf, Stored, Valid, Kept, Check, Step;
    var k, r := KeyOf(m, half), Next(t, Put(m), half, limit);
    SetStores(t, m, half, limit);
    if Stored(r, k.h1, k.d1) {
      StaysStored(r, calls, half, limit, k.h1, k.d1);
    } else {
      StaysStored(r, calls, half, limit, k.h2, k.d2);
    }
    CheckFinds(After(r, calls, half, limit), m, half);
  }

  // ----- a key is stored once at most -----

  /** Neither digest is the one that stands in for zero. */
  predicate Ordinary(k: Key) {
    k.d1 != DIGEST_DEFAULT && k.d2 != DIGEST_DEFAULT
  }

  ghost predicate OneChoice(t: Table, k: Key) {
    !(Stored(t, k.h1, k.d1) && Stored(t, k.h2, k.d2))
  }

  // The digest just stored is that of an ordinary key only if it was stored for the same key.
  lemma StoredFor(t: Table, call: Call, bits: nat, half: nat, m: nat, h: nat, x: Word)
    requires bits <= 40 && half == Pow2(bits) && Valid(t, half) && Stores(t, call, half, h, x) &&
      Ordinary(KeyOf(m, half))
    requires (h == KeyOf(m, half).h1 && x == KeyOf(m, half).d1) || (h == KeyOf(m, half).h2 && x == KeyOf(m, half).d2)
    ensures !Stored(t, KeyOf(m, half).h1, KeyOf(m, half).d1) && !Stored(t, KeyOf(m, half).h2, KeyOf(m, half).d2)
    ensures call.Put? && Fits(t, KeyOf(m, half)) && h == Chosen(t, KeyOf(m, half))
  {
    hide KeyOf, First, Locate;
    KeyFits(t, call.m, half);
    KeyFits(t, m, half);
    KeysAgree(call.m, m, bits, half);
    var k := KeyOf(call.m, half);
    NoneLocated(t, k);
    IndexMember(Items(t, k.h1), k.d1);
    IndexMember(Items(t, k.h2), k.d2);
  }

  /** Whatever the call, an ordinary key is not stored under both its choices. */
  lemma StepOneChoice(t: Table, call: Call, bits: nat, half: nat, limit: nat, m: nat)
    requires bits <= 40 && half == Pow2(bits) && Valid(t, half)
    requires Ordinary(KeyOf(m, half)) && OneChoice(t, KeyOf(m, half))
    ensures OneChoice(Step(t, call, half, limit), KeyOf(m, half))
  {
    hide Step, Drops, Stores, Stored, Good, KeyOf, Chosen;
    var k := KeyOf(m, half);
    StepStored(t, call, half, limit, k.h1, k.d1);
    StepStored(t, call, half, limit, k.h2, k.d2);
    if Stores(t, call, half, k.h1, k.d1) {
      StoredFor(t, call, bits, half, m, k.h1, k.d1);
    }
    if Stores(t, call, half, k.h2, k.d2) {
      StoredFor(t, call, bits, half, m, k.h2, k.d2);
    }
    ChosenOnce(t, call, half, k);
  }

  // A call stores in one bucket only.
  lemma ChosenOnce(t: Table, call: Call, half: nat, k: Key)
    requires half > 0 && Valid(t, half) && k.h1 != k.h2
    ensures !(Stores(t, call, half, k.h1, k.d1) && Stores(t, call, half, k.h2, k.d2))
  {
    hide KeyOf, First, Locate;
  }

  lemma {:induction false} StaysOneChoice(t: Table, calls: seq<Call>, bits: nat, half: nat, limit: nat, m: nat)
    requires bits <= 40 && half == Pow2(bits) && Valid(t, half)
    requires Ordinary(KeyOf(m, half)) && OneChoice(t, KeyOf(m, half))
    ensures OneChoice(After(t, calls, half, limit), KeyOf(m, half))
    decreases |calls|
  {
    hide OneChoice, KeyOf, Step;
    if calls != [] {
      StaysOneChoice(t, calls[..|calls| - 1], bits, half, limit, m);
      StepOneChoice(After(t, calls[..|calls| - 1], half, limit), calls[|calls| - 1], bits, half, limit, m);
    }
  }

  lemma FlushedOneChoice(t: Table, k: Key)
    requires k.h1 < |t.buckets|
    ensures OneChoice(Flushed(t), k)
  {
    assert Items(Flushed(t), k.h1) == Empty();
  }

  /** In every run of a created table, flushes among its calls or not, no ordinary key is stored under both
      its choices. */
  lemma AfterOneChoice(calls: seq<Call>, bits: nat, half: nat, limit: nat, m: nat)
    requires bits <= 40 && half == Pow2(bits) && Ordinary(KeyOf(m, half))
    ensures OneChoice(After(Created(half), calls, half, limit), KeyOf(m, half))
  {
    hide KeyOf, OneChoice, After;
    assert Created(half) == Flushed(Created(half));
    FlushedOneChoice(Created(half), KeyOf(m, half));
    StaysOneChoice(Created(half), calls, bits, half, limit, m);
  }

  // ----- counting -----

  /** The digests stored in the first n buckets. */
  function Total(b: seq<Bucket>, n: nat): int
    requires n <= |b|
  {
    if n == 0 then 0 else Total(b, n - 1) + (ITEMS - Zeros(b[n - 1].items))
  }

  lemma {:induction false} TotalUpdate(b: seq<Bucket>, n: nat, h: nat, c: Bucket)
    requires n <= |b| && h < |b|
    ensures Total(b[h := c], n) == Total(b, n) + if h < n then Zeros(b[h].items) - Zeros(c.items) else 0
    decreases n
  {
    if n > 0 {
      TotalUpdate(b, n - 1, h, c);
    }
  }

  ghost predicate Inserts(t: Table, call: Call, half: nat)
    requires half > 0 && Valid(t, half)
  {
    call.Put? && (KeyFits(t, call.m, half); Locate(t, KeyOf(call.m, half)) == None)
  }

  /** Short of a flush, the stored digests grow by an insert and shrink by a counted drop. */
  lemma StepTotal(t: Table, call: Call, half: nat, limit: nat)
    requires half > 0 && Valid(t, half) && !call.Flush?
    ensures Total(Next(t, call, half, limit).buckets, 2 * half) == Total(t.buckets, 2 * half)
      + (if Inserts(t, call, half) then 1 else 0) - (Next(t, call, half, limit).drops - t.drops)
  {
    hide Good, KeyOf, Locate, MoveToFront, PushFront, Index, CompareEpochs, Zeros, Total;
    var k := KeyOf(call.m, half);
    KeyFits(t, call.m, half);
    if Locate(t, k).Some? {
      LocateFound(t, k);
      var p := Locate(t, k).value;
      MoveZeros(Items(t, p.0), p.1);
      TotalUpdate(t.buckets, 2 * half, p.0, t.buckets[p.0].(items := MoveToFront(Items(t, p.0), p.1)));
    } else if call.Put? {
      var h, d := Chosen(t, k), ChosenDigest(t, k);
      assert Good(Items(t, k.h1)) && Good(Items(t, k.h2));
      LastZero(Items(t, k.h1));
      LastZero(Items(t, k.h2));
      GoodLength(Items(t, h));
      PushZeros(Items(t, h), d);
      var c := Next(t, call, half, limit).buckets[h];
      TotalUpdate(t.buckets, 2 * half, h, c);
    }
  }

  ghost function InsertCount(t: Table, calls: seq<Call>, half: nat, limit: nat): nat
    requires half > 0 && Valid(t, half)
    decreases |calls|
  {
    if calls == [] then 0
    else
      var before := calls[..|calls| - 1];
      InsertCount(t, before, half, limit)
      + if Inserts(After(t, before, half, limit), calls[|calls| - 1], half) then 1 else 0
  }

  lemma {:induction false} EmptyZeros(s: seq<Word>)
    requires forall i :: 0 <= i < |s| ==> s[i] == 0
    ensures Zeros(s) == |s|
    decreases |s|
  {
    if s != [] {
      EmptyZeros(s[..|s| - 1]);
    }
  }

  lemma {:induction false} FlushedTotal(t: Table, n: nat)
    requires n <= |t.buckets|
    ensures Total(Flushed(t).buckets, n) == 0
    decreases n
  {
    if n > 0 {
      FlushedTotal(t, n - 1);
      EmptyZeros(Empty());
    }
  }

  /** Since the last flush: stored digests are successful inserts less counted drops. */
  lemma {:induction false} StoredIsInsertsLessDrops(t: Table, calls: seq<Call>, half: nat, limit: nat)
    requires half > 0 && Valid(t, half) && forall i :: 0 <= i < |calls| ==> !calls[i].Flush?
    ensures var start := Next(t, Flush, half, limit);
      var end := After(start, calls, half, limit);
      Total(end.buckets, 2 * half) == InsertCount(start, calls, half, limit) - (end.drops - start.drops)
    decreases |calls|
  {
    hide Total, Inserts, Valid;
    var start := Next(t, Flush, half, limit);
    if calls == [] {
      ValidSize(t, half);
      FlushedTotal(t, 2 * half);
    } else {
      hide Next;
      var before, call := calls[..|calls| - 1], calls[|calls| - 1];
      StoredIsInsertsLessDrops(t, before, half, limit);
      StepTotal(After(start, before, half, limit), call, half, limit);
    }
  }

  lemma ValidSize(t: Table, half: nat)
    requires Valid(t, half)
    ensures |t.buckets| == 2 * half
  {
  }
}
