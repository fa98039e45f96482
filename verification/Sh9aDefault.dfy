/** The keys that a stringhash9a table can store twice: exactly those with a default digest. */
module Sh9aDefault {
  import opened Optional
  import opened Lru
  import opened TwoChoice
  import opened TwoChoiceTwin
  import TwoChoiceRun
  import opened Sh9aBucket
  import opened Sh9aHash
  import opened Sh9aTable
  import opened Sh9aLive

  const RAW_DEFAULT: nat := 1

  // ----- digests -----

  lemma SmallDigests()
    ensures Digest(0) == Digest(RAW_DEFAULT) == DIGEST_DEFAULT && Raw(0) == 0
    ensures Digest(2) == 0x200 && Digest(3) == 0x300 && Digest(4) == 0x400 && Raw(1) == DIGEST_DEFAULT
  {
    hide Bits;
    ZeroBits(24);
    SmallBits(24);
  }

  /** Two raw digests are stored alike exactly if they are the same or zero and the default. */
  lemma DigestsAlike(r: nat, s: nat)
    requires r < TWO24 && s < TWO24
    ensures Digest(r) == Digest(s) <==> !Apart(r, s, RAW_DEFAULT)
    ensures Digest(r) == DIGEST_DEFAULT <==> r == 0 || r == RAW_DEFAULT
  {
    hide Raw, Digest;
    SmallDigests();
    if Digest(r) == DIGEST_DEFAULT {
      DefaultRaw(r);
    }
    if Digest(s) == DIGEST_DEFAULT {
      DefaultRaw(s);
    }
    if Digest(r) == Digest(s) != DIGEST_DEFAULT {
      DigestInjective(r, s);
    }
  }

  lemma DefaultRaw(r: nat)
    requires r < TWO24 && Digest(r) == DIGEST_DEFAULT
    ensures r == 0 || r == RAW_DEFAULT
  {
    hide Raw;
    SmallDigests();
    RawInjective(r, if Raw(r) == 0 then 0 else RAW_DEFAULT);
  }

  // ----- keys with given choices -----

  const BUCKETS_MAX: nat := 40

  // The multiples of TWO24 below TWO64.
  function Multiples(bits: nat): nat
    requires bits <= BUCKETS_MAX
  {
    Pow2(bits) * Pow2(BUCKETS_MAX - bits)
  }

  lemma MultiplesIs(bits: nat, half: nat)
    requires bits <= BUCKETS_MAX && half == Pow2(bits)
    ensures Multiples(bits) * TWO24 == TWO64 && TWO24 * half * Pow2(BUCKETS_MAX - bits) == TWO64
  {
    hide Pow2;
    Base();
    PowersDivide(24, bits);
    assert Multiples(bits) * TWO24 == TWO24 * half * Pow2(BUCKETS_MAX - bits);
  }

  lemma KeyOfChoices(m: nat, half: nat)
    requires half > 0
    ensures var k, x, y := KeyOf(m, half), Choice(m, PERMUTE1, TWO24, half), Choice(m, PERMUTE2, TWO24, half);
      && k == Key(x.0, y.0 + half, Digest(x.1), Digest(y.1)) && x.1 < TWO24 && y.1 < TWO24
      && x.1 == Product(m, PERMUTE1) % TWO24 && y.1 == Product(m, PERMUTE2) % TWO24
  {
    hide Digest, Product;
  }

  /** A key with a default digest has a twin that shares one choice with it and not the other. */
  lemma TwinKey(m: nat, bits: nat, half: nat) returns (j: nat)
    requires bits <= BUCKETS_MAX && half == Pow2(bits) && !Ordinary(KeyOf(m, half))
    ensures var k, b := KeyOf(m, half), KeyOf(j, half);
      TwoChoiceRun.SharesFirst(k, b) != TwoChoiceRun.SharesSecond(k, b)
  {
    hide Digest, Product, Pow2, KeyOf, Choice, Multiples, Apart;
    MultiplesIs(bits, half);
    KeyOfChoices(m, half);
    var r, s := Product(m, PERMUTE1) % TWO24, Product(m, PERMUTE2) % TWO24;
    DigestsAlike(r, s);
    DigestsAlike(s, r);
    if KeyOf(m, half).d1 == DIGEST_DEFAULT {
      j := Twin(m, PERMUTE1, INVERSE1, 0xd68f495b3e6d154c, PERMUTE2, TWO24, half, Multiples(bits), RAW_DEFAULT,
        0x841d47);
      SwappedAlike(r);
    } else {
      j := Twin(m, PERMUTE2, INVERSE2, 0x496274d9bd822f3d, PERMUTE1, TWO24, half, Multiples(bits), RAW_DEFAULT,
        0x587c77);
      SwappedAlike(s);
    }
    KeyOfChoices(j, half);
    DigestsAlike(r, Product(j, PERMUTE1) % TWO24);
    DigestsAlike(s, Product(j, PERMUTE2) % TWO24);
  }

  lemma SwappedAlike(r: nat)
    requires r == 0 || r == RAW_DEFAULT
    ensures Other(r, RAW_DEFAULT) < TWO24 && !Apart(r, Other(r, RAW_DEFAULT), RAW_DEFAULT)
  {
  }

  // A hash whose first choice is a given bucket, with a digest other than two given ones.
  lemma FillerFirst(bits: nat, half: nat, h: nat, d: bv32, e: bv32) returns (m: nat)
    requires bits <= BUCKETS_MAX && half == Pow2(bits) && h < half
    ensures KeyOf(m, half).h1 == h && KeyOf(m, half).d1 != d && KeyOf(m, half).d1 != e
  {
    hide Digest, Product, Pow2, KeyOf, Choice;
    MultiplesIs(bits, half);
    SmallDigests();
    var r := if d != 0x200 && e != 0x200 then 2 else if d != 0x300 && e != 0x300 then 3 else 4;
    m := HashFor(PERMUTE1, INVERSE1, 0xd68f495b3e6d154c, TWO24, half, Pow2(BUCKETS_MAX - bits), h, r);
    KeyOfChoices(m, half);
  }

  // A hash whose second choice is a given bucket, with an ordinary digest other than a given one.
  lemma FillerSecond(bits: nat, half: nat, h: nat, d: bv32) returns (m: nat)
    requires bits <= BUCKETS_MAX && half == Pow2(bits) && half <= h < 2 * half
    ensures KeyOf(m, half).h2 == h && KeyOf(m, half).d2 != d && KeyOf(m, half).d2 != DIGEST_DEFAULT
  {
    hide Digest, Product, Pow2, KeyOf, Choice;
    MultiplesIs(bits, half);
    SmallDigests();
    var r := if d != 0x200 then 2 else 3;
    m := HashFor(PERMUTE2, INVERSE2, 0x496274d9bd822f3d, TWO24, half, Pow2(BUCKETS_MAX - bits), h - half, r);
    KeyOfChoices(m, half);
  }

  // ----- runs with few digests -----

  /** The ranks in use hold the digests of the set. */
  ghost predicate ListIs(s: seq<Word>, ds: set<bv32>) {
    && |s| == ITEMS && |ds| <= ITEMS && Zeros(s) == ITEMS - |ds|
    && (forall d :: d != 0 ==> (d in s <==> d in ds))
  }

  lemma MoveListIs(s: seq<Word>, i: nat, ds: set<bv32>)
    requires ListIs(s, ds) && i < ITEMS
    ensures ListIs(MoveToFront(s, i), ds)
  {
    hide Zeros;
    MoveZeros(s, i);
    forall d | d != 0
      ensures d in MoveToFront(s, i) <==> d in s
    {
      MoveMember(s, i, d);
    }
  }

  lemma PushListIs(s: seq<Word>, d: bv32, ds: set<bv32>)
    requires Good(s) && ListIs(s, ds) && |ds| < ITEMS && d != 0 && d !in ds
    ensures ListIs(PushFront(s, d), ds + {d})
  {
    hide Zeros;
    PushZeros(s, d);
    LastZero(s);
    forall e | e != 0
      ensures e in PushFront(s, d) <==> e == d || e in s
    {
      PushMember(s, d, e);
    }
  }

  ghost predicate Refines(t: Table, s: TwoChoiceRun.Sketch, half: nat) {
    |t.buckets| == 2 * half && forall h: nat :: h < 2 * half ==> ListIs(Items(t, h), s(h))
  }

  /** Setting a key places it in the sketch, as long as its buckets have room. */
  lemma StepRefines(t: Table, s: TwoChoiceRun.Sketch, m: nat, half: nat, limit: nat)
    requires half > 0 && Valid(t, half) && Refines(t, s, half)
    requires |s(KeyOf(m, half).h1)| < ITEMS && |s(KeyOf(m, half).h2)| < ITEMS
    ensures Refines(Next(t, Put(m), half, limit), TwoChoiceRun.Placed(s, KeyOf(m, half)), half)
  {
    hide KeyOf, Zeros, MoveToFront, PushFront, Index, CompareEpochs, Good;
    var k, r := KeyOf(m, half), Next(t, Put(m), half, limit);
    KeyFits(t, m, half);
    LocateIs(t, s, k, half);
    if Locate(t, k).Some? {
      LocateFound(t, k);
      var p := Locate(t, k).value;
      MoveListIs(Items(t, p.0), p.1, s(p.0));
    } else {
      var h := Chosen(t, k);
      assert Good(Items(t, h)) && ListIs(Items(t, k.h1), s(k.h1)) && ListIs(Items(t, k.h2), s(k.h2));
      PushListIs(Items(t, h), ChosenDigest(t, k), s(h));
    }
  }

  lemma LocateIs(t: Table, s: TwoChoiceRun.Sketch, k: Key, half: nat)
    requires Refines(t, s, half) && Fits(t, k)
    ensures Locate(t, k) == None <==> TwoChoiceRun.Missing(s, k)
    ensures Locate(t, k).Some? ==> Locate(t, k).value.0 < 2 * half
  {
    hide Zeros;
    assert ListIs(Items(t, k.h1), s(k.h1)) && ListIs(Items(t, k.h2), s(k.h2));
    IndexMember(Items(t, k.h1), k.d1);
    IndexMember(Items(t, k.h2), k.d2);
  }

  function KeysOf(ms: seq<nat>, half: nat): (ks: seq<Key>)
    requires half > 0
    ensures |ks| == |ms|
  {
    seq(|ms|, i requires 0 <= i < |ms| => KeyOf(ms[i], half))
  }

  function Puts(ms: seq<nat>): seq<Call> {
    seq(|ms|, i requires 0 <= i < |ms| => Put(ms[i]))
  }

  lemma {:induction false} RunRefines(ms: seq<nat>, half: nat, limit: nat)
    requires half > 0 && |ms| <= ITEMS
    ensures Refines(After(Created(half), Puts(ms), half, limit), TwoChoiceRun.AllPlaced(KeysOf(ms, half)), half)
    decreases |ms|
  {
    hide KeyOf, Created, Next, TwoChoiceRun.Placed, ListIs;
    if ms == [] {
      CreatedRefines(half);
    } else {
      var init, m := ms[..|ms| - 1], ms[|ms| - 1];
      RunRefines(init, half, limit);
      var calls, ks := Puts(ms), KeysOf(ms, half);
      assert calls[..|calls| - 1] == Puts(init) && ks[..|ks| - 1] == KeysOf(init, half);
      TwoChoiceRun.FewPlaced(KeysOf(init, half), KeyOf(m, half).h1);
      TwoChoiceRun.FewPlaced(KeysOf(init, half), KeyOf(m, half).h2);
      var t, sketch := After(Created(half), Puts(init), half, limit), TwoChoiceRun.AllPlaced(KeysOf(init, half));
      StepRefines(t, sketch, m, half, limit);
    }
  }

  lemma CreatedRefines(half: nat)
    requires half > 0
    ensures Refines(Created(half), TwoChoiceRun.Empty(), half)
  {
    hide Empty, Zeros;
    var t := Created(half);
    EmptyZeros(Empty());
    forall h: nat | h < 2 * half
      ensures ListIs(Items(t, h), {})
    {
      assert Items(t, h) == Empty();
    }
  }

  // Both choices of a key are stored in the table if they are in the sketch.
  lemma BothStored(ms: seq<nat>, m: nat, half: nat, limit: nat)
    requires half > 0 && |ms| <= ITEMS && TwoChoiceRun.Both(TwoChoiceRun.AllPlaced(KeysOf(ms, half)), KeyOf(m, half))
    ensures !OneChoice(After(Created(half), Puts(ms), half, limit), KeyOf(m, half))
  {
    hide KeyOf, After, TwoChoiceRun.AllPlaced;
    RunRefines(ms, half, limit);
    var t, s, k := After(Created(half), Puts(ms), half, limit), TwoChoiceRun.AllPlaced(KeysOf(ms, half)),
      KeyOf(m, half);
    assert ListIs(Items(t, k.h1), s(k.h1)) && ListIs(Items(t, k.h2), s(k.h2));
  }

  // The hashes to set when the twin has another second bucket.
  lemma FarHashes(m: nat, j: nat, bits: nat, half: nat) returns (ms: seq<nat>)
    requires bits <= BUCKETS_MAX && half == Pow2(bits) && KeyOf(m, half).h2 != KeyOf(j, half).h2
    requires TwoChoiceRun.SharesFirst(KeyOf(m, half), KeyOf(j, half))
    ensures |ms| <= ITEMS && TwoChoiceRun.Both(TwoChoiceRun.AllPlaced(KeysOf(ms, half)), KeyOf(m, half))
  {
    hide KeyOf, TwoChoiceRun.AllPlaced, TwoChoiceRun.Both, Pow2;
    var k, a := KeyOf(m, half), KeyOf(j, half);
    var u := FillerSecond(bits, half, a.h2, a.d2);
    var v := FillerFirst(bits, half, KeyOf(u, half).h1, KeyOf(u, half).d1, k.d1);
    var w := FillerFirst(bits, half, k.h1, k.d1, k.d1);
    KeysAgree(w, u, bits, half);
    var ks := TwoChoiceRun.FirstSharedFar(k, a, half, KeyOf(v, half), KeyOf(u, half), KeyOf(w, half));
    ms := if KeyOf(u, half).h1 == k.h1 then [v, u, m, j] else [v, u, w, m, j];
    assert KeysOf(ms, half) == ks;
  }

  /** For every key with a default digest some run stores both its choices. */
  lemma StoredTwice(m: nat, bits: nat, half: nat, limit: nat) returns (calls: seq<Call>)
    requires bits <= BUCKETS_MAX && half == Pow2(bits) && !Ordinary(KeyOf(m, half))
    ensures !OneChoice(After(Created(half), calls, half, limit), KeyOf(m, half))
  {
    hide KeyOf, TwoChoiceRun.AllPlaced, TwoChoiceRun.Both, Pow2, OneChoice, After;
    var j := TwinKey(m, bits, half);
    var k, b := KeyOf(m, half), KeyOf(j, half);
    var ms, ks;
    if TwoChoiceRun.SharesSecond(k, b) {
      var w := FillerFirst(bits, half, b.h1, b.d1, b.d1);
      ks := TwoChoiceRun.SecondShared(k, b, half, KeyOf(w, half));
      ms := if b.h1 == k.h1 then [m, j] else [w, m, j];
      assert KeysOf(ms, half) == ks;
    } else if b.h2 == k.h2 {
      var w := FillerFirst(bits, half, k.h1, k.d1, k.d1);
      ks := TwoChoiceRun.FirstShared(k, b, half, KeyOf(w, half));
      ms := [w, m, j];
      assert KeysOf(ms, half) == ks;
    } else {
      ms := FarHashes(m, j, bits, half);
    }
    BothStored(ms, m, half, limit);
    calls := Puts(ms);
  }

  /** A key is stored under one of its choices at most in every run of a created table if and only if neither of
      its digests is the default one. */
  lemma OnceIffOrdinary(m: nat, bits: nat, half: nat, limit: nat)
    requires bits <= BUCKETS_MAX && half == Pow2(bits)
    ensures (forall calls :: OneChoice(After(Created(half), calls, half, limit), KeyOf(m, half)))
      <==> Ordinary(KeyOf(m, half))
  {
    hide KeyOf, OneChoice, After, Ordinary, Pow2;
    if Ordinary(KeyOf(m, half)) {
      forall calls
        ensures OneChoice(After(Created(half), calls, half, limit), KeyOf(m, half))
      {
        AfterOneChoice(calls, bits, half, limit, m);
      }
    } else {
      var calls := StoredTwice(m, bits, half, limit);
    }
  }
}
