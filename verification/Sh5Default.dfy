/** The keys for which a stringhash5 table can hold two records at once: exactly those with a default digest. */
module Sh5Default {
  import opened Optional
  import opened Lru
  import opened Sh5Lru
  import opened TwoChoice
  import opened TwoChoiceTwin
  import TwoChoiceRun
  import opened Sh5Hash
  import opened Sh5Table
  import opened Sh5Live

  const RAW_DEFAULT: nat := 0x1000

  // ----- digests -----

  lemma DefaultBits()
    ensures Bits(RAW_DEFAULT, 27) == DIGEST_DEFAULT
  {
    SmallBits(17);
    assert Bits(4, 17) == 4;
    assert Bits(8, 18) == 8;
    assert Bits(16, 19) == 16;
    assert Bits(32, 20) == 32;
    assert Bits(64, 21) == 64;
    assert Bits(128, 22) == 128;
    assert Bits(256, 23) == 256;
    assert Bits(512, 24) == 512;
    assert Bits(1024, 25) == 1024;
    assert Bits(2048, 26) == 2048;
  }

  lemma SmallDigests()
    ensures Digest(0) == Digest(RAW_DEFAULT) == DIGEST_DEFAULT
    ensures Digest(2) == 2 && Digest(3) == 3 && Digest(4) == 4
  {
    hide Bits;
    ZeroBits(27);
    SmallBits(27);
    DefaultBits();
  }

  /** Two raw digests are stored alike exactly if they are the same or zero and the default. */
  lemma DigestsAlike(r: nat, s: nat)
    requires r < TWO27 && s < TWO27
    ensures Digest(r) == Digest(s) <==> !Apart(r, s, RAW_DEFAULT)
    ensures Digest(r) == DIGEST_DEFAULT <==> r == 0 || r == RAW_DEFAULT
  {
    hide Bits, Digest;
    SmallDigests();
    Base();
    if Digest(r) == DIGEST_DEFAULT {
      DefaultRaw(r);
    }
    if Digest(s) == DIGEST_DEFAULT {
      DefaultRaw(s);
    }
    if Digest(r) == Digest(s) != DIGEST_DEFAULT {
      DigestInjective(r, s);
    }
  }

  lemma DefaultRaw(r: nat)
    requires r < TWO27 && Digest(r) == DIGEST_DEFAULT
    ensures r == 0 || r == RAW_DEFAULT
  {
    hide Bits;
    ZeroBits(27);
    DefaultBits();
    Base();
    BitsInjective(r, if Bits(r, 27) == 0 then 0 else RAW_DEFAULT, 27);
  }

  // ----- keys with given choices -----

  const BUCKETS_MAX: nat := 37

  // The multiples of TWO27 below TWO64.
  function Multiples(bits: nat): nat
    requires bits <= BUCKETS_MAX
  {
    Pow2(bits) * Pow2(BUCKETS_MAX - bits)
  }

  lemma MultiplesIs(bits: nat, half: nat)
    requires bits <= BUCKETS_MAX && half == Pow2(bits)
    ensures Multiples(bits) * TWO27 == TWO64 && TWO27 * half * Pow2(BUCKETS_MAX - bits) == TWO64
  {
    hide Pow2;
    Base();
    PowersDivide(27, bits);
    assert Multiples(bits) * TWO27 == TWO27 * half * Pow2(BUCKETS_MAX - bits);
  }

  lemma KeyOfChoices(m: nat, half: nat)
    requires half > 0
    ensures var k, x, y := KeyOf(m, half), Choice(m, PERMUTE1, TWO27, half), Choice(m, PERMUTE2, TWO27, half);
      && k == Key(x.0, y.0 + half, Digest(x.1), Digest(y.1)) && x.1 < TWO27 && y.1 < TWO27
      && x.1 == Product(m, PERMUTE1) % TWO27 && y.1 == Product(m, PERMUTE2) % TWO27
  {
    hide Digest, Product;
  }

  /** A key with a default digest has a twin that shares one choice with it and not the other. */
  lemma TwinKey(m: nat, bits: nat, half: nat) returns (j: nat)
    requires bits <= BUCKETS_MAX && half == Pow2(bits) && !Ordinary(KeyOf(m, half))
    ensures var k, b := KeyOf(m, half), KeyOf(j, half);
      TwoChoiceRun.SharesFirst(k, b) != TwoChoiceRun.SharesSecond(k, b)
  {
    hide Digest, Product, Pow2, KeyOf, Choice, Multiples, Apart;
    MultiplesIs(bits, half);
    KeyOfChoices(m, half);
    var r, s := Product(m, PERMUTE1) % TWO27, Product(m, PERMUTE2) % TWO27;
    DigestsAlike(r, s);
    DigestsAlike(s, r);
    if KeyOf(m, half).d1 == DIGEST_DEFAULT {
      j := Twin(m, PERMUTE1, INVERSE1, 0xd68f495b3e6d154c, PERMUTE2, TWO27, half, Multiples(bits), RAW_DEFAULT,
        0x1d47000);
      SwappedAlike(r);
    } else {
      j := Twin(m, PERMUTE2, INVERSE2, 0x496274d9bd822f3d, PERMUTE1, TWO27, half, Multiples(bits), RAW_DEFAULT,
        0x7c77000);
      SwappedAlike(s);
    }
    KeyOfChoices(j, half);
    DigestsAlike(r, Product(j, PERMUTE1) % TWO27);
    DigestsAlike(s, Product(j, PERMUTE2) % TWO27);
  }

  lemma SwappedAlike(r: nat)
    requires r == 0 || r == RAW_DEFAULT
    ensures Other(r, RAW_DEFAULT) < TWO27 && !Apart(r, Other(r, RAW_DEFAULT), RAW_DEFAULT)
  {
  }

  // A hash whose first choice is a given bucket, with a digest other than two given ones.
  lemma FillerFirst(bits: nat, half: nat, h: nat, d: bv32, e: bv32) returns (m: nat)
    requires bits <= BUCKETS_MAX && half == Pow2(bits) && h < half
    ensures KeyOf(m, half).h1 == h && KeyOf(m, half).d1 != d && KeyOf(m, half).d1 != e
  {
    hide Digest, Product, Pow2, KeyOf, Choice;
    MultiplesIs(bits, half);
    SmallDigests();
    var r := if d != 2 && e != 2 then 2 else if d != 3 && e != 3 then 3 else 4;
    m := HashFor(PERMUTE1, INVERSE1, 0xd68f495b3e6d154c, TWO27, half, Pow2(BUCKETS_MAX - bits), h, r);
    KeyOfChoices(m, half);
  }

  // A hash whose second choice is a given bucket, with an ordinary digest other than a given one.
  lemma FillerSecond(bits: nat, half: nat, h: nat, d: bv32) returns (m: nat)
    requires bits <= BUCKETS_MAX && half == Pow2(bits) && half <= h < 2 * half
    ensures KeyOf(m, half).h2 == h && KeyOf(m, half).d2 != d && KeyOf(m, half).d2 != DIGEST_DEFAULT
  {
    hide Digest, Product, Pow2, KeyOf, Choice;
    MultiplesIs(bits, half);
    SmallDigests();
    var r := if d != 2 then 2 else 3;
    m := HashFor(PERMUTE2, INVERSE2, 0x496274d9bd822f3d, TWO27, half, Pow2(BUCKETS_MAX - bits), h - half, r);
    KeyOfChoices(m, half);
  }

  // ----- runs with few records -----

  predicate HasDigest(s: List, d: bv32) {
    exists i :: 0 <= i < |s| && s[i].digest == d
  }

  /** The live items come first, and theirs are the digests of the set. */
  ghost predicate ListIs(s: List, ds: set<bv32>) {
    && |s| == DEPTH && |ds| <= DEPTH
    && (forall i :: 0 <= i < DEPTH ==> (s[i].digest != 0 <==> i < |ds|))
    && (forall d :: d != 0 ==> (HasDigest(s, d) <==> d in ds))
  }

  lemma IndexHas(s: List, d: bv32)
    ensures Index(s, d) < |s| <==> HasDigest(s, d)
  {
  }

  lemma MoveListIs(s: List, i: nat, ds: set<bv32>)
    requires ListIs(s, ds) && i < DEPTH && s[i].digest != 0
    ensures ListIs(MoveToFront(s, i), ds)
  {
    var r := MoveToFront(s, i);
    assert forall k :: 0 <= k < DEPTH ==> r[k] == s[if k == 0 then i else if k <= i then k - 1 else k];
    forall d | d != 0
      ensures HasDigest(r, d) <==> HasDigest(s, d)
    {
      if k :| 0 <= k < |s| && s[k].digest == d {
        assert r[if k == i then 0 else if k < i then k + 1 else k].digest == d;
      }
    }
  }

  lemma PushListIs(s: List, d: bv32, ds: set<bv32>)
    requires ListIs(s, ds) && |ds| < DEPTH && d != 0 && d !in ds
    ensures ListIs(PushOver(s, d), ds + {d})
  {
    var r := PushOver(s, d);
    assert forall k :: 1 <= k < DEPTH ==> r[k] == s[k - 1];
    forall e | e != 0
      ensures HasDigest(r, e) <==> e == d || HasDigest(s, e)
    {
      assert r[0].digest == d;
      if k :| 0 <= k < |s| && s[k].digest == e {
        assert r[k + 1].digest == e;
      }
    }
  }

  lemma DepthIs(s: List, ds: set<bv32>)
    requires ListIs(s, ds)
    ensures Depth(s) == |ds|
  {
    assert Depth(s) < DEPTH ==> s[Depth(s)].digest == 0;
  }

  ghost predicate Refines(t: Table, s: TwoChoiceRun.Sketch, half: nat) {
    |t.buckets| == 2 * half && forall h: nat :: h < 2 * half ==> ListIs(Items(t, h), s(h))
  }

  /** Attaching a key places it in the sketch, as long as its buckets have room. */
  lemma StepRefines(t: Table, s: TwoChoiceRun.Sketch, m: nat, half: nat, limit: nat)
    requires half > 0 && Valid(t, half) && Refines(t, s, half)
    requires |s(KeyOf(m, half).h1)| < DEPTH && |s(KeyOf(m, half).h2)| < DEPTH
    ensures Refines(Next(t, Attach(m), half, limit), TwoChoiceRun.Placed(s, KeyOf(m, half)), half)
  {
    hide KeyOf, ListIs, MoveToFront, PushOver, Index, Sh5Table.Valid;
    var k, r := KeyOf(m, half), Next(t, Attach(m), half, limit);
    KeyFits(t, m, half);
    LocateIs(t, s, k, half);
    if Locate(t, k).Some? {
      LocateFound(t, k);
      var p := Locate(t, k).value;
      MoveListIs(Items(t, p.0), p.1, s(p.0));
    } else {
      DepthIs(Items(t, k.h1), s(k.h1));
      DepthIs(Items(t, k.h2), s(k.h2));
      PushListIs(Items(t, Chosen(t, k)), ChosenDigest(t, k), s(Chosen(t, k)));
    }
  }

  lemma LocateIs(t: Table, s: TwoChoiceRun.Sketch, k: Key, half: nat)
    requires Refines(t, s, half) && Fits(t, k)
    ensures Locate(t, k) == None <==> TwoChoiceRun.Missing(s, k)
    ensures Locate(t, k).Some? ==> Locate(t, k).value.0 < 2 * half
  {
    assert ListIs(Items(t, k.h1), s(k.h1)) && ListIs(Items(t, k.h2), s(k.h2));
    IndexHas(Items(t, k.h1), k.d1);
    IndexHas(Items(t, k.h2), k.d2);
  }

  function KeysOf(ms: seq<nat>, half: nat): (ks: seq<Key>)
    requires half > 0
    ensures |ks| == |ms|
  {
    seq(|ms|, i requires 0 <= i < |ms| => KeyOf(ms[i], half))
  }

  function Attaches(ms: seq<nat>): seq<Call> {
    seq(|ms|, i requires 0 <= i < |ms| => Attach(ms[i]))
  }

  lemma {:induction false} RunRefines(ms: seq<nat>, half: nat, limit: nat)
    requires half > 0 && |ms| <= DEPTH
    ensures CallsOk(Attaches(ms), half)
    ensures Refines(After(Created(half), Attaches(ms), half, limit), TwoChoiceRun.AllPlaced(KeysOf(ms, half)), half)
    decreases |ms|
  {
    hide KeyOf, Created, Next, TwoChoiceRun.Placed, ListIs;
    if ms == [] {
      CreatedRefines(half);
    } else {
      var init, m := ms[..|ms| - 1], ms[|ms| - 1];
      RunRefines(init, half, limit);
      var calls, ks := Attaches(ms), KeysOf(ms, half);
      assert calls[..|calls| - 1] == Attaches(init) && ks[..|ks| - 1] == KeysOf(init, half);
      TwoChoiceRun.FewPlaced(KeysOf(init, half), KeyOf(m, half).h1);
      TwoChoiceRun.FewPlaced(KeysOf(init, half), KeyOf(m, half).h2);
      var t, sketch := After(Created(half), Attaches(init), half, limit), TwoChoiceRun.AllPlaced(KeysOf(init, half));
      StepRefines(t, sketch, m, half, limit);
    }
  }

  lemma CreatedRefines(half: nat)
    requires half > 0
    ensures Refines(Created(half), TwoChoiceRun.Empty(), half)
  {
    hide Fresh;
    var t := Created(half);
    forall h: nat | h < 2 * half
      ensures ListIs(Items(t, h), {})
    {
      assert Items(t, h) == Fresh();
    }
  }

  // Both choices of a key are stored in the table if they are in the sketch.
  lemma BothStored(ms: seq<nat>, m: nat, half: nat, limit: nat)
    requires half > 0 && |ms| <= DEPTH && TwoChoiceRun.Both(TwoChoiceRun.AllPlaced(KeysOf(ms, half)), KeyOf(m, half))
    ensures CallsOk(Attaches(ms), half)
    ensures !OneChoice(After(Created(half), Attaches(ms), half, limit), KeyOf(m, half))
  {
    hide KeyOf, After, TwoChoiceRun.AllPlaced;
    RunRefines(ms, half, limit);
    var t, s, k := After(Created(half), Attaches(ms), half, limit), TwoChoiceRun.AllPlaced(KeysOf(ms, half)),
      KeyOf(m, half);
    assert ListIs(Items(t, k.h1), s(k.h1)) && ListIs(Items(t, k.h2), s(k.h2));
    IndexHas(Items(t, k.h1), k.d1);
    IndexHas(Items(t, k.h2), k.d2);
  }

  // The hashes to attach when the twin has another second bucket.
  lemma FarHashes(m: nat, j: nat, bits: nat, half: nat) returns (ms: seq<nat>)
    requires bits <= BUCKETS_MAX && half == Pow2(bits) && KeyOf(m, half).h2 != KeyOf(j, half).h2
    requires TwoChoiceRun.SharesFirst(KeyOf(m, half), KeyOf(j, half))
    ensures |ms| <= DEPTH && TwoChoiceRun.Both(TwoChoiceRun.AllPlaced(KeysOf(ms, half)), KeyOf(m, half))
  {
    hide KeyOf, TwoChoiceRun.AllPlaced, TwoChoiceRun.Both, Pow2;
    var k, a := KeyOf(m, half), KeyOf(j, half);
    var u := FillerSecond(bits, half, a.h2, a.d2);
    var v := FillerFirst(bits, half, KeyOf(u, half).h1, KeyOf(u, half).d1, k.d1);
    var w := FillerFirst(bits, half, k.h1, k.d1, k.d1);
    KeysAgree(w, u, bits, half);
    var ks := TwoChoiceRun.FirstSharedFar(k, a, half, KeyOf(v, half), KeyOf(u, half), KeyOf(w, half));
    ms := if KeyOf(u, half).h1 == k.h1 then [v, u, m, j] else [v, u, w, m, j];
    assert KeysOf(ms, half) == ks;
  }

  /** For every key with a default digest some run stores both its choices. */
  lemma StoredTwice(m: nat, bits: nat, half: nat, limit: nat) returns (calls: seq<Call>)
    requires bits <= BUCKETS_MAX && half == Pow2(bits) && !Ordinary(KeyOf(m, half))
    ensures CallsOk(calls, half) && !OneChoice(After(Created(half), calls, half, limit), KeyOf(m, half))
  {
    hide KeyOf, TwoChoiceRun.AllPlaced, TwoChoiceRun.Both, Pow2, OneChoice, After, CallsOk;
    var j := TwinKey(m, bits, half);
    var k, b := KeyOf(m, half), KeyOf(j, half);
    var ms, ks;
    if TwoChoiceRun.SharesSecond(k, b) {
      var w := FillerFirst(bits, half, b.h1, b.d1, b.d1);
      ks := TwoChoiceRun.SecondShared(k, b, half, KeyOf(w, half));
      ms := if b.h1 == k.h1 then [m, j] else [w, m, j];
      assert KeysOf(ms, half) == ks;
    } else if b.h2 == k.h2 {
      var w := FillerFirst(bits, half, k.h1, k.d1, k.d1);
      ks := TwoChoiceRun.FirstShared(k, b, half, KeyOf(w, half));
      ms := [w, m, j];
      assert KeysOf(ms, half) == ks;
    } else {
      ms := FarHashes(m, j, bits, half);
    }
    BothStored(ms, m, half, limit);
    calls := Attaches(ms);
  }

  /** A key is stored under one of its choices at most in every run of a created table if and only if neither of
      its digests is the default one. */
  lemma OnceIffOrdinary(m: nat, bits: nat, half: nat, limit: nat)
    requires bits <= BUCKETS_MAX && half == Pow2(bits)
    ensures (forall calls :: CallsOk(calls, half) ==>
      OneChoice(After(Created(half), calls, half, limit), KeyOf(m, half)))
      <==> Ordinary(KeyOf(m, half))
  {
    hide KeyOf, OneChoice, After, CallsOk, Ordinary, Pow2;
    if Ordinary(KeyOf(m, half)) {
      forall calls | CallsOk(calls, half)
        ensures OneChoice(After(Created(half), calls, half, limit), KeyOf(m, half))
      {
        AfterUnique(calls, bits, half, limit);
        AtMostOne(After(Created(half), calls, half, limit), m, half);
      }
    } else {
      var calls := StoredTwice(m, bits, half, limit);
    }
  }
}
