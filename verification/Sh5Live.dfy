/** Which records are live over a run, and that a key finds the record it was given. */
module Sh5Live {
  import opened Optional
  import opened Lru
  import opened Sh5Lru
  import opened TwoChoice
  import opened Sh5Hash
  import opened Sh5Table

  datatype Call = Lookup(m: nat) | Attach(m: nat) | Remove(m: nat) | WalkRow(row: nat, keep: seq<bool>)

  predicate CallOk(call: Call, half: nat) {
    call.WalkRow? ==> call.row < 2 * half && |call.keep| == DEPTH
  }

  lemma KeyFits(t: Table, m: nat, half: nat)
    requires half > 0 && Valid(t, half)
    ensures Fits(t, KeyOf(m, half))
  {
    hide Good, KeyOf;
    var k := KeyOf(m, half);
    assert Good(Items(t, k.h1)) && Good(Items(t, k.h2));
    GoodLength(Items(t, k.h1));
    GoodLength(Items(t, k.h2));
  }

  lemma GoodLength(s: List)
    requires Good(s)
    ensures |s| == DEPTH
  {
  }

  ghost function Step(t: Table, call: Call, half: nat, limit: nat): Table
    requires half > 0 && Valid(t, half) && CallOk(call, half)
  {
    match call
    case Lookup(m) => KeyFits(t, m, half); Find(t, KeyOf(m, half)).0
    case Attach(m) => KeyFits(t, m, half); FindAttach(t, KeyOf(m, half), limit).0
    case Remove(m) => KeyFits(t, m, half); DeleteKey(t, KeyOf(m, half)).0
    case WalkRow(row, keep) => WalkNext(t, row, keep)
  }

  // ----- live items of one list -----

  lemma PushMember(s: List, d: bv32, x: Item)
    requires Good(s)
    ensures x in PushOver(s, d) <==> x == Item(s[DEPTH - 1].bin, d) || (x in s && x != s[DEPTH - 1])
  {
    assert s == s[..DEPTH - 1] + [s[DEPTH - 1]];
  }

  lemma DropMember(s: List, i: nat, x: Item)
    requires Good(s) && i < DEPTH && x.digest != 0
    ensures x in Drop(s, i) <==> x in s && x != s[i]
  {
    assert s == s[..i] + [s[i]] + s[i + 1..];
  }

  lemma ScourMember(s: List, keep: seq<bool>, x: Item)
    requires |keep| == |s| && x.digest != 0
    ensures x in Scour(s, keep) <==> exists i :: 0 <= i < |s| && s[i] == x && keep[i]
  {
    var r := Scour(s, keep);
    if x in r {
      var i :| 0 <= i < |r| && r[i] == x;
      assert s[i] == x && keep[i];
    }
    if i :| 0 <= i < |s| && s[i] == x && keep[i] {
      assert r[i] == x;
    }
  }

  // ----- live records of the table -----

  predicate Live(t: Table, h: nat, x: Item) {
    h < |t.buckets| && x.digest != 0 && x in Items(t, h)
  }

  /** The call gives up the record x of bucket h. */
  ghost predicate Frees(t: Table, call: Call, half: nat, h: nat, x: Item)
    requires half > 0 && Valid(t, half) && CallOk(call, half)
  {
    match call
    case Lookup(_) => false
    case Attach(m) =>
      KeyFits(t, m, half);
      var k := KeyOf(m, half);
      Locate(t, k) == None && h == Chosen(t, k) && x == Items(t, h)[DEPTH - 1]
    case Remove(m) =>
      KeyFits(t, m, half);
      var p := Locate(t, KeyOf(m, half));
      p.Some? && h == p.value.0 && x == Items(t, h)[p.value.1]
    case WalkRow(row, keep) => h == row && forall i :: 0 <= i < |Items(t, h)| && Items(t, h)[i] == x ==> !keep[i]
  }

  /** The call hands out the record x of bucket h for a new key. */
  ghost predicate Takes(t: Table, call: Call, half: nat, h: nat, x: Item)
    requires half > 0 && Valid(t, half) && CallOk(call, half)
  {
    call.Attach? && (
      KeyFits(t, call.m, half);
      var k := KeyOf(call.m, half);
      Locate(t, k) == None && h == Chosen(t, k) && x == Item(Items(t, h)[DEPTH - 1].bin, ChosenDigest(t, k)))
  }

  lemma LocateFound(t: Table, k: Key)
    requires Fits(t, k) && Locate(t, k).Some?
    ensures var p := Locate(t, k).value;
      p.0 < |t.buckets| && p.1 < |Items(t, p.0)| == DEPTH && Items(t, p.0)[p.1].digest != 0
  {
  }

  /** Every call keeps the bins of every bucket a permutation and its digests distinct. */
  lemma StepValid(t: Table, call: Call, half: nat, limit: nat)
    requires half > 0 && Valid(t, half) && CallOk(call, half)
    ensures Valid(Step(t, call, half, limit), half)
  {
    hide Good, KeyOf, Locate, MoveToFront, PushOver, Drop, Scour, Index;
    if call.WalkRow? {
      ScourGood(Items(t, call.row), call.keep);
    } else {
      var k := KeyOf(call.m, half);
      KeyFits(t, call.m, half);
      if Locate(t, k).Some? {
        LocateFound(t, k);
        var p := Locate(t, k).value;
        MoveGood(Items(t, p.0), p.1);
        DropGood(Items(t, p.0), p.1);
      } else if call.Attach? {
        NoneLocated(t, k);
        PushGood(Items(t, Chosen(t, k)), ChosenDigest(t, k));
      }
    }
  }

  lemma NoneLocated(t: Table, k: Key)
    requires Fits(t, k) && Locate(t, k) == None
    ensures Index(Items(t, k.h1), k.d1) == DEPTH && Index(Items(t, k.h2), k.d2) == DEPTH
    ensures Index(Items(t, Chosen(t, k)), ChosenDigest(t, k)) == DEPTH
  {
  }

  /** The live records after a call are those it does not free and the one it takes. */
  lemma StepLive(t: Table, call: Call, half: nat, limit: nat, h: nat, x: Item)
    requires half > 0 && Valid(t, half) && CallOk(call, half) && h < 2 * half && x.digest != 0
    ensures Live(Step(t, call, half, limit), h, x)
      <==> (Live(t, h, x) && !Frees(t, call, half, h, x)) || Takes(t, call, half, h, x)
  {
    hide Good, KeyOf, Locate, MoveToFront, PushOver, Drop, Scour, Index;
    var s := Items(t, h);
    GoodLength(s);
    if call.WalkRow? {
      if h == call.row {
        ScourMember(s, call.keep, x);
      }
    } else {
      var k := KeyOf(call.m, half);
      KeyFits(t, call.m, half);
      if Locate(t, k).Some? {
        LocateFound(t, k);
        var p := Locate(t, k).value;
        if h == p.0 {
          MoveMember(s, p.1, x);
          DropMember(s, p.1, x);
        }
      } else if h == Chosen(t, k) {
        PushMember(s, ChosenDigest(t, k), x);
      }
    }
  }

  /** The last place of the bucket that takes a new key is live exactly if both buckets are full. */
  lemma LastFull(t: Table, k: Key)
    requires Fits(t, k)
    ensures Items(t, Chosen(t, k))[DEPTH - 1].digest != 0 <==> Full(t, k)
  {
  }

  /** A live record is given up for a new key only when the drop is counted, and every counted drop gives one up. */
  lemma DropCounted(t: Table, call: Call, half: nat, limit: nat)
    requires half > 0 && Valid(t, half) && CallOk(call, half)
    ensures Step(t, call, half, limit).drops == t.drops || Step(t, call, half, limit).drops == t.drops + 1
    ensures Step(t, call, half, limit).drops != t.drops
      <==> call.Attach? && exists h, x :: Live(t, h, x) && Frees(t, call, half, h, x)
  {
    hide KeyOf, Good, Locate, Second, Index;
    if call.Attach? {
      var k := KeyOf(call.m, half);
      KeyFits(t, call.m, half);
      LastFull(t, k);
      if Locate(t, k) == None && Full(t, k) {
        var h := Chosen(t, k);
        assert Live(t, h, Items(t, h)[DEPTH - 1]) && Frees(t, call, half, h, Items(t, h)[DEPTH - 1]);
      }
    }
  }

  // ----- a key has one record at most -----

  /** Some record of the bucket is stored under the digest. */
  predicate Stored(t: Table, h: nat, d: bv32) {
    h < |t.buckets| && Index(Items(t, h), d) < |Items(t, h)|
  }

  /** Neither digest is the one that stands in for zero. */
  predicate Ordinary(k: Key) {
    k.d1 != DIGEST_DEFAULT && k.d2 != DIGEST_DEFAULT
  }

  ghost predicate OneChoice(t: Table, k: Key) {
    !(Stored(t, k.h1, k.d1) && Stored(t, k.h2, k.d2))
  }

  /** No ordinary key is stored under both its choices. */
  ghost predicate Unique(t: Table, half: nat)
    requires half > 0
  {
    forall m: nat :: Ordinary(KeyOf(m, half)) ==> OneChoice(t, KeyOf(m, half))
  }

  lemma IndexMember(s: List, d: bv32, i: nat)
    requires i < |s| && s[i].digest == d
    ensures Index(s, d) < |s|
  {
  }

  lemma StoredLive(t: Table, h: nat, d: bv32)
    requires d != 0
    ensures Stored(t, h, d) <==> exists x :: Live(t, h, x) && x.digest == d
  {
    if Stored(t, h, d) {
      assert Live(t, h, Items(t, h)[Index(Items(t, h), d)]);
    }
    if x :| Live(t, h, x) && x.digest == d {
      var i :| 0 <= i < |Items(t, h)| && Items(t, h)[i] == x;
      IndexMember(Items(t, h), d, i);
    }
  }

  /** A digest that is stored after a call was stored before, or the call has just taken a record for it. */
  lemma StepStored(t: Table, call: Call, half: nat, limit: nat, h: nat, d: bv32)
    requires half > 0 && Valid(t, half) && CallOk(call, half) && h < 2 * half && d != 0
    requires Stored(Step(t, call, half, limit), h, d) && !Stored(t, h, d)
    ensures exists x :: Takes(t, call, half, h, x) && x.digest == d
  {
    hide Step, Frees, Takes, Stored, Live, Good, Index, KeyOf;
    var t' := Step(t, call, half, limit);
    StoredLive(t', h, d);
    StoredLive(t, h, d);
    var x :| Live(t', h, x) && x.digest == d;
    LiveDigest(t', h, x);
    StepLive(t, call, half, limit, h, x);
  }

  lemma LiveDigest(t: Table, h: nat, x: Item)
    requires Live(t, h, x)
    ensures x.digest != 0
  {
  }

  // The record just taken for a key is stored under an ordinary key only if the two keys are the same.
  lemma TakenFor(t: Table, call: Call, bits: nat, half: nat, m: nat, h: nat, x: Item)
    requires bits <= 37 && half == Pow2(bits) && Valid(t, half) && CallOk(call, half) && Takes(t, call, half, h, x)
    requires Ordinary(KeyOf(m, half))
    requires (h == KeyOf(m, half).h1 && x.digest == KeyOf(m, half).d1) ||
      (h == KeyOf(m, half).h2 && x.digest == KeyOf(m, half).d2)
    ensures call.Attach? && KeyOf(call.m, half) == KeyOf(m, half)
    ensures !Stored(t, KeyOf(m, half).h1, KeyOf(m, half).d1) && !Stored(t, KeyOf(m, half).h2, KeyOf(m, half).d2)
    ensures Fits(t, KeyOf(m, half)) && h == Chosen(t, KeyOf(m, half))
  {
    hide KeyOf, Second, Locate;
    KeyFits(t, call.m, half);
    KeyFits(t, m, half);
    KeysAgree(call.m, m, bits, half);
    NoneLocated(t, KeyOf(call.m, half));
  }

  lemma StepOneChoice(t: Table, call: Call, bits: nat, half: nat, limit: nat, m: nat)
    requires bits <= 37 && half == Pow2(bits) && Valid(t, half) && CallOk(call, half)
    requires Ordinary(KeyOf(m, half)) && OneChoice(t, KeyOf(m, half))
    ensures OneChoice(Step(t, call, half, limit), KeyOf(m, half))
  {
    hide Step, Frees, Takes, Stored, Live, Good, Index, KeyOf, Chosen;
    var t', k := Step(t, call, half, limit), KeyOf(m, half);
    if Stored(t', k.h1, k.d1) && Stored(t', k.h2, k.d2) {
      if !Stored(t, k.h1, k.d1) {
        StepStored(t, call, half, limit, k.h1, k.d1);
        var x :| Takes(t, call, half, k.h1, x) && x.digest == k.d1;
        TakenFor(t, call, bits, half, m, k.h1, x);
      }
      if !Stored(t, k.h2, k.d2) {
        StepStored(t, call, half, limit, k.h2, k.d2);
        var x :| Takes(t, call, half, k.h2, x) && x.digest == k.d2;
        TakenFor(t, call, bits, half, m, k.h2, x);
      }
    }
  }

  lemma StepUnique(t: Table, call: Call, bits: nat, half: nat, limit: nat)
    requires bits <= 37 && half == Pow2(bits) && Valid(t, half) && CallOk(call, half) && Unique(t, half)
    ensures Unique(Step(t, call, half, limit), half)
  {
    hide Step, OneChoice, KeyOf;
    var t' := Step(t, call, half, limit);
    forall m: nat | Ordinary(KeyOf(m, half))
      ensures OneChoice(t', KeyOf(m, half))
    {
      StepOneChoice(t, call, bits, half, limit, m);
    }
  }

  // ----- runs -----

  ghost predicate CallsOk(calls: seq<Call>, half: nat) {
    forall i :: 0 <= i < |calls| ==> CallOk(calls[i], half)
  }

  /** A step, known to keep the table valid. */
  ghost function Next(t: Table, call: Call, half: nat, limit: nat): (r: Table)
    requires half > 0 && Valid(t, half) && CallOk(call, half)
    ensures Valid(r, half)
  {
    StepValid(t, call, half, limit);
    Step(t, call, half, limit)
  }

  /** The table after the calls; it stays valid throughout. */
  ghost function After(t: Table, calls: seq<Call>, half: nat, limit: nat): (r: Table)
    requires half > 0 && Valid(t, half) && CallsOk(calls, half)
    ensures Valid(r, half)
    decreases |calls|
  {
    if calls == [] then t
    else
      Next(After(t, calls[..|calls| - 1], half, limit), calls[|calls| - 1], half, limit)
  }

  lemma CreatedUnique(half: nat)
    requires half > 0
    ensures Unique(Created(half), half)
  {
    hide KeyOf, Fresh, Created;
    FreshGood();
    var t := Created(half);
    forall m: nat
      ensures OneChoice(t, KeyOf(m, half))
    {
      var k := KeyOf(m, half);
      assert Items(t, k.h1) == Fresh();
    }
  }

  lemma {:induction false} StaysUnique(t: Table, calls: seq<Call>, bits: nat, half: nat, limit: nat)
    requires bits <= 37 && half == Pow2(bits) && Valid(t, half) && CallsOk(calls, half) && Unique(t, half)
    ensures Unique(After(t, calls, half, limit), half)
    decreases |calls|
  {
    hide Unique, Step;
    if calls != [] {
      StaysUnique(t, calls[..|calls| - 1], bits, half, limit);
      StepUnique(After(t, calls[..|calls| - 1], half, limit), calls[|calls| - 1], bits, half, limit);
    }
  }

  /** In every run of a created table, whatever the calls, no ordinary key is stored under both its choices. */
  lemma AfterUnique(calls: seq<Call>, bits: nat, half: nat, limit: nat)
    requires bits <= 37 && half == Pow2(bits) && CallsOk(calls, half)
    ensures Unique(After(Created(half), calls, half, limit), half)
  {
    hide Unique, Created, After;
    CreatedUnique(half);
    StaysUnique(Created(half), calls, bits, half, limit);
  }

  /** No call of the run gives up the record in the slot. */
  ghost predicate Kept(t: Table, calls: seq<Call>, half: nat, limit: nat, s: Slot)
    requires half > 0 && Valid(t, half) && CallsOk(calls, half)
  {
    forall i, d :: 0 <= i < |calls| ==>
      !Frees(After(t, calls[..i], half, limit), calls[i], half, s.bucket, Item(s.bin, d))
  }

  lemma {:induction false} StaysLive(t: Table, calls: seq<Call>, half: nat, limit: nat, s: Slot, d: bv32)
    requires half > 0 && Valid(t, half) && CallsOk(calls, half)
    requires Live(t, s.bucket, Item(s.bin, d)) && Kept(t, calls, half, limit, s)
    ensures Live(After(t, calls, half, limit), s.bucket, Item(s.bin, d))
    decreases |calls|
  {
    hide Live, Frees, Takes, Step, Valid;
    if calls != [] {
      var n := |calls| - 1;
      assert forall i :: 0 <= i < n ==> calls[..n][..i] == calls[..i];
      StaysLive(t, calls[..n], half, limit, s, d);
      var before := After(t, calls[..n], half, limit);
      LiveBounds(before, s.bucket, Item(s.bin, d), half);
      StepLive(before, calls[n], half, limit, s.bucket, Item(s.bin, d));
    }
  }

  lemma LiveBounds(t: Table, h: nat, x: Item, half: nat)
    requires Live(t, h, x) && Valid(t, half)
    ensures h < 2 * half && x.digest != 0
  {
  }

  // ----- a key finds its record again -----

  /** The slot holds the record of the key, under the first or the second choice. */
  predicate Holds(t: Table, k: Key, s: Slot) {
    || (s.bucket == k.h1 && Live(t, s.bucket, Item(s.bin, k.d1)))
    || (s.bucket == k.h2 && Live(t, s.bucket, Item(s.bin, k.d2)))
  }

  lemma IndexOf(s: List, x: Item)
    requires Good(s) && x in s && x.digest != 0
    ensures Index(s, x.digest) < DEPTH && s[Index(s, x.digest)] == x
  {
    var i :| 0 <= i < |s| && s[i] == x;
    IndexMember(s, x.digest, i);
  }

  /** What stringhash5_find returns for a key with hash m. */
  ghost function Found(t: Table, m: nat, half: nat): Option<Slot>
    requires half > 0 && Valid(t, half)
  {
    KeyFits(t, m, half);
    Find(t, KeyOf(m, half)).1
  }

  /** What stringhash5_find_attach returns. */
  ghost function Attached(t: Table, m: nat, half: nat, limit: nat): Slot
    requires half > 0 && Valid(t, half)
  {
    KeyFits(t, m, half);
    FindAttach(t, KeyOf(m, half), limit).1
  }

  lemma UniqueFindHolds(t: Table, m: nat, half: nat, s: Slot)
    requires half > 0 && Valid(t, half) && Unique(t, half) && Ordinary(KeyOf(m, half))
    ensures Found(t, m, half) == Some(s) <==> Holds(t, KeyOf(m, half), s)
  {
    hide KeyOf, Good, Unique;
    KeyFits(t, m, half);
    var k := KeyOf(m, half);
    AtMostOne(t, m, half);
    if Holds(t, k, s) {
      IndexOf(Items(t, s.bucket), Item(s.bin, if s.bucket == k.h1 then k.d1 else k.d2));
    }
  }

  /** After any run of a created table, a lookup finds a slot exactly if the slot holds a record of the key. */
  lemma FindHolds(calls: seq<Call>, m: nat, bits: nat, half: nat, limit: nat, s: Slot)
    requires bits <= 37 && half == Pow2(bits) && CallsOk(calls, half) && Ordinary(KeyOf(m, half))
    ensures var t := After(Created(half), calls, half, limit);
      Found(t, m, half) == Some(s) <==> Holds(t, KeyOf(m, half), s)
  {
    hide KeyOf, Unique, Created, After, Found, Holds, Ordinary;
    AfterUnique(calls, bits, half, limit);
    UniqueFindHolds(After(Created(half), calls, half, limit), m, half, s);
  }

  lemma AtMostOne(t: Table, m: nat, half: nat)
    requires half > 0 && Unique(t, half) && Ordinary(KeyOf(m, half))
    ensures OneChoice(t, KeyOf(m, half))
  {
    hide KeyOf, OneChoice, Ordinary;
  }

  /** The slot find_attach returns holds the record of the key. */
  lemma AttachHolds(t: Table, m: nat, half: nat, limit: nat)
    requires half > 0 && Valid(t, half)
    ensures Holds(Next(t, Attach(m), half, limit), KeyOf(m, half), Attached(t, m, half, limit))
  {
    hide KeyOf, Good, Second, Tick;
    KeyFits(t, m, half);
    var k := KeyOf(m, half);
    if Locate(t, k).Some? {
      var p := Locate(t, k).value;
      MoveMember(Items(t, p.0), p.1, Items(t, p.0)[p.1]);
    }
  }

  lemma UniqueFindsAgain(t: Table, m: nat, calls: seq<Call>, bits: nat, half: nat, limit: nat)
    requires bits <= 37 && half == Pow2(bits) && Valid(t, half) && Unique(t, half) && CallsOk(calls, half)
    requires Ordinary(KeyOf(m, half))
    requires Kept(Next(t, Attach(m), half, limit), calls, half, limit, Attached(t, m, half, limit))
    ensures Found(After(Next(t, Attach(m), half, limit), calls, half, limit), m, half) ==
      Some(Attached(t, m, half, limit))
  {
    hide KeyOf, FindAttach, Unique, Kept, Live, Find, Valid, Step, Found, Attached;
    var k := KeyOf(m, half);
    StepUnique(t, Attach(m), bits, half, limit);
    AttachHolds(t, m, half, limit);
    var t', s := Next(t, Attach(m), half, limit), Attached(t, m, half, limit);
    StaysUnique(t', calls, bits, half, limit);
    var d := if s.bucket == k.h1 && Live(t', s.bucket, Item(s.bin, k.d1)) then k.d1 else k.d2;
    StaysLive(t', calls, half, limit, s, d);
    UniqueFindHolds(After(t', calls, half, limit), m, half, s);
  }

  /** After any run of a created table: from find_attach on, a lookup gives the same slot as long as no call
      gives that record up. */
  lemma FindsAgain(before: seq<Call>, m: nat, calls: seq<Call>, bits: nat, half: nat, limit: nat)
    requires bits <= 37 && half == Pow2(bits) && CallsOk(before, half) && CallsOk(calls, half)
    requires Ordinary(KeyOf(m, half))
    requires var t := After(Created(half), before, half, limit);
      Kept(Next(t, Attach(m), half, limit), calls, half, limit, Attached(t, m, half, limit))
    ensures var t := After(Created(half), before, half, limit);
      Found(After(Next(t, Attach(m), half, limit), calls, half, limit), m, half) == Some(Attached(t, m, half, limit))
  {
    hide KeyOf, Unique, Created, After, Found, Attached, Kept, Next, Ordinary;
    AfterUnique(before, bits, half, limit);
    UniqueFindsAgain(After(Created(half), before, half, limit), m, calls, bits, half, limit);
  }

  /** Live records never share a slot. */
  lemma SlotsDistinct(t: Table, half: nat, h: nat, x: Item, y: Item)
    requires Valid(t, half) && Live(t, h, x) && Live(t, h, y) && x.bin == y.bin
    ensures x == y
  {
    var s := Items(t, h);
    var i :| 0 <= i < |s| && s[i] == x;
    var j :| 0 <= j < |s| && s[j] == y;
    assert Good(s);
  }
}
