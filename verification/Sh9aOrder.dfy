/** Every bucket of a stringhash9a table is an LRU list over every run. */
module Sh9aOrder {
  import opened Optional
  import opened Lru
  import opened TwoChoice
  import opened Sh9aBucket
  import opened Sh9aHash
  import opened Sh9aTable
  import opened Sh9aLive

  /** What happens to one bucket: a stored digest is used, a missing one inserted, or all are flushed. */
  datatype Op = Use(digest: Word) | Insert(digest: Word) | Clear

  predicate Legal(s: seq<Word>, op: Op) {
    && |s| == ITEMS
    && match op
       case Use(d) => d != 0 && d in s
       case Insert(d) => d != 0 && d !in s
       case Clear => true
  }

  function Apply(s: seq<Word>, op: Op): seq<Word>
    requires Legal(s, op)
  {
    match op
    case Use(d) => IndexMember(s, d); MoveToFront(s, Index(s, d))
    case Insert(d) => PushFront(s, d)
    case Clear => Empty()
  }

  function Run(ops: seq<Op>): seq<Word>
    requires Allowed(ops)
    decreases |ops|, 1
  {
    if ops == [] then Empty() else Apply(Run(ops[..|ops| - 1]), ops[|ops| - 1])
  }

  predicate Allowed(ops: seq<Op>)
    decreases |ops|, 0
  {
    ops != [] ==> Allowed(ops[..|ops| - 1]) && Legal(Run(ops[..|ops| - 1]), ops[|ops| - 1])
  }

  /** One more than the position of the last op that used or inserted the digest. */
  function LastUse(ops: seq<Op>, d: Word): (t: nat)
    ensures t <= |ops|
  {
    if ops == [] then 0
    else if ops[|ops| - 1] == Use(d) || ops[|ops| - 1] == Insert(d) then |ops|
    else LastUse(ops[..|ops| - 1], d)
  }

  /** The stored digests are in the order of their last use. */
  ghost predicate Ordered(s: seq<Word>, use: Word -> nat) {
    forall i, j :: 0 <= i < j < |s| && s[i] != 0 && s[j] != 0 ==> use(s[i]) > use(s[j])
  }

  lemma MoveOrdered(s: seq<Word>, i: nat, use: Word -> nat, use': Word -> nat)
    requires Good(s) && i < ITEMS && s[i] != 0 && Ordered(s, use)
    requires forall e :: e != s[i] ==> use'(e) == use(e) < use'(s[i])
    ensures Ordered(MoveToFront(s, i), use')
  {
    var r := MoveToFront(s, i);
    assert r[0] == s[i];
    assert forall k :: 1 <= k < ITEMS ==> r[k] == s[if k <= i then k - 1 else k];
    assert forall k :: 1 <= k < ITEMS ==> r[k] != s[i];
  }

  lemma PushOrdered(s: seq<Word>, d: Word, use: Word -> nat, use': Word -> nat)
    requires |s| == ITEMS && d !in s && Ordered(s, use)
    requires forall e :: e != d ==> use'(e) == use(e) < use'(d)
    ensures Ordered(PushFront(s, d), use')
  {
    var r := PushFront(s, d);
    assert forall k :: 1 <= k < ITEMS ==> r[k] == s[k - 1];
  }

  lemma ApplyGood(s: seq<Word>, op: Op)
    requires Good(s) && Legal(s, op)
    ensures Good(Apply(s, op))
  {
    hide Good, MoveToFront, PushFront, Empty;
    match op
    case Use(d) =>
      IndexMember(s, d);
      MoveGood(s, Index(s, d));
    case Insert(d) =>
      IndexMember(s, d);
      PushGood(s, d);
    case Clear => EmptyGood();
  }

  lemma ApplyOrdered(s: seq<Word>, op: Op, use: Word -> nat, use': Word -> nat, now: nat)
    requires Good(s) && Legal(s, op) && Ordered(s, use) && forall d :: use(d) < now
    requires forall d :: use'(d) == if op == Use(d) || op == Insert(d) then now else use(d)
    ensures Ordered(Apply(s, op), use')
  {
    hide MoveToFront, PushFront;
    match op
    case Use(d) =>
      IndexMember(s, d);
      MoveOrdered(s, Index(s, d), use, use');
    case Insert(d) => PushOrdered(s, d, use, use');
    case Clear =>
  }

  /** Stored digests stand in the order of their last use, and none is stored twice, after any ops. */
  lemma {:induction false} RunOrdered(ops: seq<Op>)
    requires Allowed(ops)
    ensures Good(Run(ops)) && Ordered(Run(ops), d => LastUse(ops, d))
    decreases |ops|
  {
    hide Good, Ordered, Apply;
    if ops == [] {
      EmptyOrdered(d => LastUse(ops, d));
    } else {
      var before, op := ops[..|ops| - 1], ops[|ops| - 1];
      RunOrdered(before);
      ApplyGood(Run(before), op);
      ApplyOrdered(Run(before), op, d => LastUse(before, d), d => LastUse(ops, d), |ops|);
    }
  }

  lemma EmptyOrdered(use: Word -> nat)
    ensures Good(Empty()) && Ordered(Empty(), use)
  {
  }

  // ----- the buckets of a table -----

  /** What a call does to bucket h, if anything. */
  ghost function OpOn(t: Table, call: Call, half: nat, h: nat): Option<Op>
    requires half > 0 && Valid(t, half) && h < 2 * half
  {
    if call.Flush? then Some(Clear)
    else
      KeyFits(t, call.m, half);
      var k := KeyOf(call.m, half);
      match Locate(t, k)
      case Some(p) =>
        LocateFound(t, k);
        if h == p.0 then Some(Use(Items(t, h)[p.1])) else None
      case None => if call.Put? && h == Chosen(t, k) then Some(Insert(ChosenDigest(t, k))) else None
  }

  lemma LocatedFirst(t: Table, k: Key)
    requires Fits(t, k) && Locate(t, k).Some?
    ensures var p := Locate(t, k).value;
      p.0 < |t.buckets| && p.1 < |Items(t, p.0)| && Index(Items(t, p.0), Items(t, p.0)[p.1]) == p.1
  {
  }

  /** A call changes a bucket by the op it performs there. */
  lemma StepApplies(t: Table, call: Call, half: nat, limit: nat, h: nat)
    requires half > 0 && Valid(t, half) && h < 2 * half
    ensures var op := OpOn(t, call, half, h);
      && (op.Some? ==> Legal(Items(t, h), op.value))
      && Items(Next(t, call, half, limit), h) == if op.Some? then Apply(Items(t, h), op.value) else Items(t, h)
  {
    hide KeyOf, Good, Locate, Index, MoveToFront, PushFront, First, Empty;
    assert Good(Items(t, h));
    GoodLength(Items(t, h));
    if !call.Flush? {
      var k := KeyOf(call.m, half);
      KeyFits(t, call.m, half);
      if Locate(t, k).Some? {
        LocateFound(t, k);
        LocatedFirst(t, k);
      } else {
        NoneLocated(t, k);
        IndexMember(Items(t, Chosen(t, k)), ChosenDigest(t, k));
      }
    }
  }

  /** The ops on bucket h over a run of a new table. */
  ghost function OpsOn(calls: seq<Call>, half: nat, limit: nat, h: nat): seq<Op>
    requires half > 0 && h < 2 * half
    decreases |calls|
  {
    if calls == [] then []
    else
      var before := calls[..|calls| - 1];
      match OpOn(After(Created(half), before, half, limit), calls[|calls| - 1], half, h)
      case Some(op) => OpsOn(before, half, limit, h) + [op]
      case None => OpsOn(before, half, limit, h)
  }

  lemma {:induction false} AfterIsRun(calls: seq<Call>, half: nat, limit: nat, h: nat)
    requires half > 0 && h < 2 * half
    ensures Allowed(OpsOn(calls, half, limit, h))
    ensures Items(After(Created(half), calls, half, limit), h) == Run(OpsOn(calls, half, limit, h))
    decreases |calls|
  {
    hide OpOn, Next, Legal, Apply, Empty;
    if calls != [] {
      var before := calls[..|calls| - 1];
      AfterIsRun(before, half, limit, h);
      var t := After(Created(half), before, half, limit);
      StepApplies(t, calls[|calls| - 1], half, limit, h);
      var ops, op := OpsOn(before, half, limit, h), OpOn(t, calls[|calls| - 1], half, h);
      if op.Some? {
        assert (ops + [op.value])[..|ops|] == ops;
      }
    }
  }

  /** In every bucket, after every run, the stored digests stand in the order of their last use, so that a full
      bucket gives up the one that has not been used for the longest time. */
  lemma LruOrder(calls: seq<Call>, half: nat, limit: nat, h: nat, i: nat, j: nat)
    requires half > 0 && h < 2 * half && i < j < ITEMS
    ensures var s := Items(After(Created(half), calls, half, limit), h);
      |s| == ITEMS && (s[i] != 0 && s[j] != 0 ==>
        LastUse(OpsOn(calls, half, limit, h), s[i]) > LastUse(OpsOn(calls, half, limit, h), s[j]))
  {
    hide Run, Allowed, After, LastUse;
    AfterIsRun(calls, half, limit, h);
    RunOrdered(OpsOn(calls, half, limit, h));
  }
}
