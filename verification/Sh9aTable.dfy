/** A stringhash9a table in its plain form: LRU lists of 21 digests, a clock and a drop count. */
module Sh9aTable {
  import opened Optional
  import opened Lru
  import opened TwoChoice
  import opened Sh9aBucket
  import opened Sh9aHash

  /** A list of digests, where 0 marks a free rank, and the epoch of the last insert. */
  datatype Bucket = Bucket(items: seq<Word>, stamp: bv8)

  datatype Table = Table(buckets: seq<Bucket>, epoch: bv8, inserts: nat, drops: nat)

  /** No digest is stored twice and the free ranks are behind the others. */
  ghost predicate Good(s: seq<Word>) {
    && |s| == ITEMS
    && (forall i, j :: 0 <= i < j < ITEMS && s[i] == 0 ==> s[j] == 0)
    && (forall i, j :: 0 <= i < j < ITEMS && s[i] != 0 ==> s[i] != s[j])
  }

  ghost predicate Valid(t: Table, half: nat) {
    |t.buckets| == 2 * half && forall h :: 0 <= h < 2 * half ==> Good(t.buckets[h].items)
  }

  predicate Fits(t: Table, k: Key) {
    && k.h1 < |t.buckets| && k.h2 < |t.buckets| && k.h1 != k.h2 && k.d1 != 0 && k.d2 != 0
    && |t.buckets[k.h1].items| == ITEMS && |t.buckets[k.h2].items| == ITEMS
  }

  function Items(t: Table, h: nat): seq<Word>
    requires h < |t.buckets|
  {
    t.buckets[h].items
  }

  function Locate(t: Table, k: Key): Option<(nat, nat)>
    requires Fits(t, k)
  {
    var i, j := Index(Items(t, k.h1), k.d1), Index(Items(t, k.h2), k.d2);
    if i < ITEMS then Some((k.h1, i)) else if j < ITEMS then Some((k.h2, j)) else None
  }

  function Touch(t: Table, h: nat, i: nat): Table
    requires h < |t.buckets| && i < |Items(t, h)|
  {
    t.(buckets := t.buckets[h := t.buckets[h].(items := MoveToFront(Items(t, h), i))])
  }

  /** The age of a bucket by the clock of eight bits. */
  function Age(t: Table, h: nat): bv8
    requires h < |t.buckets|
  {
    t.epoch - t.buckets[h].stamp
  }

  /** sh9a_cmp_epoch: whether the first bucket gives up a digest. */
  function CompareEpochs(t: Table, k: Key): bool
    requires Fits(t, k)
  {
    var diff1, diff2 := Age(t, k.h1), Age(t, k.h2);
    if diff1 > diff2 then true else if diff2 < diff1 then false else k.d1 & 1 != 0
  }

  lemma HighIsEven(w: Word)
    requires High(w) == w
    ensures w & 1 == 0
  {
    assert w & 0xFFFFFF00 & 1 == 0;
  }

  /** The last bit of a key's digest is never set, so that the last case never chooses the first bucket:
      it gives up a digest exactly if it is the older one, and the second bucket does in every tie. */
  lemma OlderGivesUp(t: Table, k: Key)
    requires Fits(t, k) && High(k.d1) == k.d1
    ensures CompareEpochs(t, k) <==> Age(t, k.h1) > Age(t, k.h2)
  {
    HighIsEven(k.d1);
  }

  /** The first bucket takes a new key if it has more free ranks, or as many but some, or gives up a digest. */
  predicate First(t: Table, k: Key)
    requires Fits(t, k)
  {
    var n, m := Zeros(Items(t, k.h1)), Zeros(Items(t, k.h2));
    if n > m then true else if n < m then false else if n > 0 then true else CompareEpochs(t, k)
  }

  function Chosen(t: Table, k: Key): (h: nat)
    requires Fits(t, k)
  {
    if First(t, k) then k.h1 else k.h2
  }

  function ChosenDigest(t: Table, k: Key): (d: Word)
    requires Fits(t, k)
    ensures d != 0
  {
    if First(t, k) then k.d1 else k.d2
  }

  predicate Full(t: Table, k: Key)
    requires Fits(t, k)
  {
    Zeros(Items(t, k.h1)) == 0 && Zeros(Items(t, k.h2)) == 0
  }

  function Tick(t: Table, limit: nat): Table {
    if t.inserts + 1 > limit then t.(inserts := 0, epoch := t.epoch + 1) else t.(inserts := t.inserts + 1)
  }

  function Admit(t: Table, k: Key, limit: nat): Table
    requires Fits(t, k)
  {
    var h := Chosen(t, k);
    var c := Tick(t.(drops := if Full(t, k) then t.drops + 1 else t.drops), limit);
    c.(buckets := t.buckets[h := Bucket(PushFront(Items(t, h), ChosenDigest(t, k)), c.epoch)])
  }

  function Check(t: Table, k: Key): (Table, bool)
    requires Fits(t, k)
  {
    match Locate(t, k)
    case Some(p) => (Touch(t, p.0, p.1), true)
    case None => (t, false)
  }

  function Set(t: Table, k: Key, limit: nat): (Table, bool)
    requires Fits(t, k)
  {
    match Locate(t, k)
    case Some(p) => (Touch(t, p.0, p.1), true)
    case None => (Admit(t, k, limit), false)
  }

  function Empty(): (s: seq<Word>)
    ensures |s| == ITEMS && forall i :: 0 <= i < ITEMS ==> s[i] == 0
  {
    seq(ITEMS, _ => 0)
  }

  /** Creation and flush leave every rank free and the clock at 1. */
  function Flushed(t: Table): Table {
    t.(buckets := seq(|t.buckets|, _ => Bucket(Empty(), 0)), epoch := 1)
  }

  /** A table as it is created. */
  function Created(half: nat): (t: Table)
    ensures Valid(t, half) && forall h :: 0 <= h < 2 * half ==> t.buckets[h].items == Empty()
  {
    Table(seq(2 * half, _ => Bucket(Empty(), 0)), 1, 0, 0)
  }

  // ----- lists -----

  lemma MoveGood(s: seq<Word>, i: nat)
    requires Good(s) && i < ITEMS && s[i] != 0
    ensures Good(MoveToFront(s, i))
  {
    var r := MoveToFront(s, i);
    assert r[0] == s[i] && forall k :: 1 <= k < ITEMS ==> r[k] == s[if k <= i then k - 1 else k];
  }

  lemma PushGood(s: seq<Word>, d: Word)
    requires Good(s) && d != 0 && Index(s, d) == ITEMS
    ensures Good(PushFront(s, d))
  {
    var r := PushFront(s, d);
    assert forall k :: 1 <= k < ITEMS ==> r[k] == s[k - 1];
  }

  lemma PushMember(s: seq<Word>, d: Word, x: Word)
    requires Good(s) && x != 0
    ensures x in PushFront(s, d) <==> x == d || (x in s && x != s[ITEMS - 1])
  {
    assert s == s[..ITEMS - 1] + [s[ITEMS - 1]];
  }

  lemma {:induction false} ZerosAppend(s: seq<Word>, x: Word)
    ensures Zeros(s + [x]) == Zeros(s) + if x == 0 then 1 else 0
  {
    assert (s + [x])[..|s|] == s;
  }

  lemma {:induction false} ZerosConcat(a: seq<Word>, b: seq<Word>)
    ensures Zeros(a + b) == Zeros(a) + Zeros(b)
    decreases |b|
  {
    if b == [] {
      assert a + b == a;
    } else {
      assert (a + b)[..|a + b| - 1] == a + b[..|b| - 1];
      ZerosConcat(a, b[..|b| - 1]);
    }
  }

  lemma ZerosSwap(a: seq<Word>, x: Word, b: seq<Word>)
    ensures Zeros(a + [x] + b) == Zeros([x] + a + b)
  {
    hide Zeros;
    ZerosConcat(a, [x]);
    ZerosConcat(a + [x], b);
    ZerosConcat([x], a);
    ZerosConcat([x] + a, b);
  }

  lemma MoveZeros(s: seq<Word>, i: nat)
    requires i < |s|
    ensures Zeros(MoveToFront(s, i)) == Zeros(s)
  {
    hide Zeros;
    Parts(s, i);
    ZerosSwap(s[..i], s[i], s[i + 1..]);
  }

  lemma PushZeros(s: seq<Word>, d: Word)
    requires |s| == ITEMS && d != 0
    ensures Zeros(PushFront(s, d)) == Zeros(s) - if s[ITEMS - 1] == 0 then 1 else 0
  {
    assert s == s[..ITEMS - 1] + [s[ITEMS - 1]];
    ZerosAppend(s[..ITEMS - 1], s[ITEMS - 1]);
    ZerosConcat([d], s[..ITEMS - 1]);
    ZerosAppend([], d);
    assert [] + [d] == [d];
  }

  /** The last rank is free exactly if some rank is. */
  lemma {:induction false} LastZero(s: seq<Word>)
    requires Good(s)
    ensures Zeros(s) > 0 <==> s[ITEMS - 1] == 0
  {
    assert s == s[..ITEMS - 1] + [s[ITEMS - 1]];
    ZerosAppend(s[..ITEMS - 1], s[ITEMS - 1]);
    if s[ITEMS - 1] != 0 {
      NoZeros(s);
    }
  }

  lemma {:induction false} NoZeros(s: seq<Word>)
    requires forall i :: 0 <= i < |s| ==> s[i] != 0
    ensures Zeros(s) == 0
    decreases |s|
  {
    if s != [] {
      NoZeros(s[..|s| - 1]);
    }
  }
}
