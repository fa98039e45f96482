/** Every bucket of a table is an LRU list over every run. */
module Sh5Order {
  import opened Optional
  import opened Lru
  import opened Sh5Lru
  import opened TwoChoice
  import opened Sh5Hash
  import opened Sh5Table
  import opened Sh5Live

  /** What a call does to bucket h, if anything. */
  ghost function OpOn(t: Table, call: Call, half: nat, h: nat): Option<Op>
    requires half > 0 && Valid(t, half) && CallOk(call, half) && h < 2 * half
  {
    if call.WalkRow? then (if h == call.row then Some(Walk(call.keep)) else None)
    else
      KeyFits(t, call.m, half);
      var k := KeyOf(call.m, half);
      match Locate(t, k)
      case Some(p) =>
        LocateFound(t, k);
        if h != p.0 then None
        else if call.Remove? then Some(Op.Delete(Items(t, h)[p.1].digest))
        else Some(Use(Items(t, h)[p.1].digest))
      case None => if call.Attach? && h == Chosen(t, k) then Some(Insert(ChosenDigest(t, k))) else None
  }

  lemma LocatedFirst(t: Table, k: Key)
    requires Fits(t, k) && Locate(t, k).Some?
    ensures var p := Locate(t, k).value;
      p.0 < |t.buckets| && p.1 < |Items(t, p.0)| && Index(Items(t, p.0), Items(t, p.0)[p.1].digest) == p.1
  {
  }

  /** A call changes a bucket by the op it performs there. */
  lemma StepApplies(t: Table, call: Call, half: nat, limit: nat, h: nat)
    requires half > 0 && Valid(t, half) && CallOk(call, half) && h < 2 * half
    ensures (var op := OpOn(t, call, half, h);
      (op.Some? ==> Legal(Items(t, h), op.value))
      && Items(Next(t, call, half, limit), h) == if op.Some? then Apply(Items(t, h), op.value) else Items(t, h))
  {
    hide KeyOf, Good, Locate, Index, MoveToFront, PushOver, Drop, Scour;
    assert Good(Items(t, h));
    GoodLength(Items(t, h));
    if !call.WalkRow? {
      var k := KeyOf(call.m, half);
      KeyFits(t, call.m, half);
      if Locate(t, k).Some? {
        LocateFound(t, k);
        LocatedFirst(t, k);
      } else {
        NoneLocated(t, k);
      }
    }
  }

  /** The ops on bucket h over a run of a new table. */
  ghost function OpsOn(calls: seq<Call>, half: nat, limit: nat, h: nat): seq<Op>
    requires half > 0 && CallsOk(calls, half) && h < 2 * half
    decreases |calls|
  {
    if calls == [] then []
    else
      var before := calls[..|calls| - 1];
      match OpOn(After(Created(half), before, half, limit), calls[|calls| - 1], half, h)
      case Some(op) => OpsOn(before, half, limit, h) + [op]
      case None => OpsOn(before, half, limit, h)
  }

  lemma {:induction false} AfterIsRun(calls: seq<Call>, half: nat, limit: nat, h: nat)
    requires half > 0 && CallsOk(calls, half) && h < 2 * half
    ensures Allowed(OpsOn(calls, half, limit, h))
    ensures Items(After(Created(half), calls, half, limit), h) == Run(OpsOn(calls, half, limit, h))
    decreases |calls|
  {
    hide OpOn, Next, Legal, Apply, Fresh;
    if calls != [] {
      var before := calls[..|calls| - 1];
      AfterIsRun(before, half, limit, h);
      var t := After(Created(half), before, half, limit);
      StepApplies(t, calls[|calls| - 1], half, limit, h);
      var ops, op := OpsOn(before, half, limit, h), OpOn(t, calls[|calls| - 1], half, h);
      if op.Some? {
        assert (ops + [op.value])[..|ops|] == ops;
      }
    }
  }

  /** In every bucket, after every run, live items stand in the order of their last use, so a new key takes
      the record that has not been used for the longest time. */
  lemma LruOrder(calls: seq<Call>, half: nat, limit: nat, h: nat, i: nat, j: nat)
    requires half > 0 && CallsOk(calls, half) && h < 2 * half && i < j < DEPTH
    ensures var s := Items(After(Created(half), calls, half, limit), h);
      |s| == DEPTH && (s[i].digest != 0 && s[j].digest != 0 ==>
        LastUse(OpsOn(calls, half, limit, h), s[i].digest) > LastUse(OpsOn(calls, half, limit, h), s[j].digest))
  {
    hide Run, Allowed, After, LastUse;
    AfterIsRun(calls, half, limit, h);
    RunOrdered(OpsOn(calls, half, limit, h));
  }

  ghost function Sixteen(): set<bv32> {
    {0, 1, 2, 3, 4, 5, 6, 7, 8, 9, 10, 11, 12, 13, 14, 15}
  }

  lemma SixteenSize()
    ensures |Sixteen()| == DEPTH
  {
  }

  lemma SixteenHas(b: bv32)
    requires b < 16
    ensures b in Sixteen()
  {
  }

  /** The bins of a bucket are all the sixteen slots. */
  lemma BinsArePermutation(s: List, b: bv32)
    requires Good(s) && b < 16
    ensures exists i :: 0 <= i < DEPTH && s[i].bin == b
  {
    hide Sixteen;
    var all := set i | 0 <= i < DEPTH :: s[i].bin;
    DistinctBins(s, DEPTH);
    SixteenSize();
    forall x | x in all
      ensures x in Sixteen()
    {
      SixteenHas(x);
    }
    SubsetOfSize(all, Sixteen());
    SixteenHas(b);
    assert b in all;
  }

  lemma {:induction false} DistinctBins(s: List, n: nat)
    requires Good(s) && n <= DEPTH
    ensures |(set i | 0 <= i < n :: s[i].bin)| == n
    decreases n
  {
    if n > 0 {
      DistinctBins(s, n - 1);
      var before := set i | 0 <= i < n - 1 :: s[i].bin;
      assert (set i | 0 <= i < n :: s[i].bin) == before + {s[n - 1].bin};
      assert s[n - 1].bin !in before;
    }
  }

  lemma SubsetOfSize(a: set<bv32>, b: set<bv32>)
    requires a <= b && |a| == |b|
    ensures a == b
  {
    assert |b - a| == 0;
  }
}
