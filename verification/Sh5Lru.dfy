/** The plain form of a stringhash5 bucket: sixteen items in order of their last use. */
module Sh5Lru {
  import opened Lru

  const DEPTH: nat := 16

  /** The slot of the data table an entry owns, and the digest of its key; 0 marks an entry that is free. */
  datatype Item = Item(bin: bv32, digest: bv32)

  type List = seq<Item>

  /** The bins are a permutation of the sixteen slots and no digest is stored twice. */
  ghost predicate Good(s: List) {
    && |s| == DEPTH
    && (forall i :: 0 <= i < DEPTH ==> s[i].bin < 16)
    && (forall i, j :: 0 <= i < j < DEPTH ==> s[i].bin != s[j].bin)
    && (forall i, j :: 0 <= i < j < DEPTH && s[i].digest != 0 ==> s[i].digest != s[j].digest)
  }

  /** The first place of a digest, or DEPTH. */
  function Index(s: List, d: bv32): (i: nat)
    ensures i <= |s| && (i < |s| ==> s[i].digest == d)
    ensures forall j :: 0 <= j < i ==> s[j].digest != d
  {
    if s == [] || s[0].digest == d then 0 else Index(s[1..], d) + 1
  }

  /** The last item gives its bin to a new digest, which comes first. */
  function PushOver(s: List, d: bv32): List
    requires |s| == DEPTH
  {
    [Item(s[DEPTH - 1].bin, d)] + s[..DEPTH - 1]
  }

  /** The bin of a deleted item becomes the first to be taken again. */
  function Drop(s: List, i: nat): List
    requires i < |s|
  {
    s[..i] + s[i + 1..] + [Item(s[i].bin, 0)]
  }

  /** A walk frees the items its callback does not want to keep. */
  function Scour(s: List, keep: seq<bool>): (r: List)
    requires |keep| == |s|
    ensures |r| == |s| && forall i :: 0 <= i < |s| ==> r[i] == if keep[i] then s[i] else Item(s[i].bin, 0)
  {
    seq(|s|, i requires 0 <= i < |s| => if keep[i] then s[i] else Item(s[i].bin, 0))
  }

  /** One more than the place of the last live item, or 0. */
  function Depth(s: List): (n: nat)
    ensures n <= |s| && (n > 0 ==> s[n - 1].digest != 0)
    ensures forall k :: n <= k < |s| ==> s[k].digest == 0
  {
    if s == [] then 0 else if s[|s| - 1].digest != 0 then |s| else Depth(s[..|s| - 1])
  }

  /** What happens to one bucket. */
  datatype Op = Use(digest: bv32) | Insert(digest: bv32) | Delete(digest: bv32) | Walk(keep: seq<bool>)

  /** An op the table performs: keys have nonzero digests and only a digest that is missing is inserted. */
  predicate Legal(s: List, op: Op) {
    && |s| == DEPTH
    && match op
       case Walk(keep) => |keep| == DEPTH
       case Insert(d) => d != 0 && Index(s, d) == DEPTH
       case _ => op.digest != 0
  }

  function Apply(s: List, op: Op): List
    requires Legal(s, op)
  {
    match op
    case Use(d) => if Index(s, d) < DEPTH then MoveToFront(s, Index(s, d)) else s
    case Insert(d) => PushOver(s, d)
    case Delete(d) => if Index(s, d) < DEPTH then Drop(s, Index(s, d)) else s
    case Walk(keep) => Scour(s, keep)
  }

  /** The bucket as it is created: item i owns bin i and is free. */
  function Fresh(): (s: List)
    ensures |s| == DEPTH && forall i :: 0 <= i < DEPTH ==> s[i].bin as nat == i && s[i].digest == 0
  {
    [Item(0, 0), Item(1, 0), Item(2, 0), Item(3, 0), Item(4, 0), Item(5, 0), Item(6, 0), Item(7, 0),
     Item(8, 0), Item(9, 0), Item(10, 0), Item(11, 0), Item(12, 0), Item(13, 0), Item(14, 0), Item(15, 0)]
  }

  lemma FreshGood()
    ensures Good(Fresh())
  {
    hide Fresh;
    forall i | 0 <= i < DEPTH
      ensures Fresh()[i].bin < 16
    {
      assert Fresh()[i].bin as nat == i;
    }
  }

  lemma MoveGood(s: List, i: nat)
    requires Good(s) && i < DEPTH
    ensures Good(MoveToFront(s, i))
  {
  }

  lemma PushGood(s: List, d: bv32)
    requires Good(s) && d != 0 && Index(s, d) == DEPTH
    ensures Good(PushOver(s, d))
  {
  }

  lemma DropGood(s: List, i: nat)
    requires Good(s) && i < DEPTH
    ensures Good(Drop(s, i))
  {
  }

  lemma ScourGood(s: List, keep: seq<bool>)
    requires Good(s) && |keep| == DEPTH
    ensures Good(Scour(s, keep))
  {
  }

  /** Every op keeps the bins a permutation and the digests distinct. */
  lemma ApplyGood(s: List, op: Op)
    requires Good(s) && Legal(s, op)
    ensures Good(Apply(s, op))
  {
    hide Good, MoveToFront, PushOver, Drop, Scour;
    match op
    case Use(d) => if Index(s, d) < DEPTH { MoveGood(s, Index(s, d)); }
    case Insert(d) => PushGood(s, d);
    case Delete(d) => if Index(s, d) < DEPTH { DropGood(s, Index(s, d)); }
    case Walk(keep) => ScourGood(s, keep);
  }

  // ----- the order of last use -----

  function Run(ops: seq<Op>): List
    requires Allowed(ops)
    decreases |ops|, 1
  {
    if ops == [] then Fresh() else Apply(Run(ops[..|ops| - 1]), ops[|ops| - 1])
  }

  predicate Allowed(ops: seq<Op>)
    decreases |ops|, 0
  {
    ops != [] ==> Allowed(ops[..|ops| - 1]) && Legal(Run(ops[..|ops| - 1]), ops[|ops| - 1])
  }

  /** One more than the position of the last op that used or inserted the digest. */
  function LastUse(ops: seq<Op>, d: bv32): (t: nat)
    ensures t <= |ops|
  {
    if ops == [] then 0
    else if ops[|ops| - 1] == Use(d) || ops[|ops| - 1] == Insert(d) then |ops|
    else LastUse(ops[..|ops| - 1], d)
  }

  /** The items are in the order of their last use. */
  ghost predicate Ordered(s: List, use: bv32 -> nat) {
    forall i, j :: 0 <= i < j < |s| && s[i].digest != 0 && s[j].digest != 0 ==> use(s[i].digest) > use(s[j].digest)
  }

  /** The LRU order over every run: a live item was used after every live item behind it, so the one that
      is pushed over is the one that has not been used for the longest time. */
  lemma {:induction false} RunOrdered(ops: seq<Op>)
    requires Allowed(ops)
    ensures Good(Run(ops)) && Ordered(Run(ops), d => LastUse(ops, d))
    decreases |ops|
  {
    if ops == [] {
      FreshGood();
    } else {
      var before, op := ops[..|ops| - 1], ops[|ops| - 1];
      RunOrdered(before);
      ApplyGood(Run(before), op);
      ApplyOrdered(Run(before), op, d => LastUse(before, d), d => LastUse(ops, d), |ops|);
    }
  }

  lemma MoveOrdered(s: List, i: nat, use: bv32 -> nat, use': bv32 -> nat)
    requires Good(s) && i < DEPTH && s[i].digest != 0 && Ordered(s, use)
    requires forall e :: e != s[i].digest ==> use'(e) == use(e) < use'(s[i].digest)
    ensures Ordered(MoveToFront(s, i), use')
  {
    var r := MoveToFront(s, i);
    assert r[0] == s[i];
    assert forall k :: 1 <= k < DEPTH ==> r[k] == s[if k <= i then k - 1 else k];
    assert forall k :: 1 <= k < DEPTH ==> r[k].digest != s[i].digest;
  }

  lemma PushOrdered(s: List, d: bv32, use: bv32 -> nat, use': bv32 -> nat)
    requires |s| == DEPTH && Index(s, d) == DEPTH && Ordered(s, use)
    requires forall e :: e != d ==> use'(e) == use(e) < use'(d)
    ensures Ordered(PushOver(s, d), use')
  {
    var r := PushOver(s, d);
    assert forall k :: 1 <= k < DEPTH ==> r[k] == s[k - 1];
  }

  lemma DropOrdered(s: List, i: nat, use: bv32 -> nat)
    requires |s| == DEPTH && i < DEPTH && Ordered(s, use)
    ensures Ordered(Drop(s, i), use)
  {
    var r := Drop(s, i);
    assert forall k :: 0 <= k < DEPTH - 1 ==> r[k] == s[if k < i then k else k + 1];
  }

  lemma ScourOrdered(s: List, keep: seq<bool>, use: bv32 -> nat)
    requires |keep| == |s| && Ordered(s, use)
    ensures Ordered(Scour(s, keep), use)
  {
  }

  lemma SameOrdered(s: List, use: bv32 -> nat, use': bv32 -> nat)
    requires Ordered(s, use) && forall i :: 0 <= i < |s| ==> use'(s[i].digest) == use(s[i].digest)
    ensures Ordered(s, use')
  {
  }

  lemma ApplyOrdered(s: List, op: Op, use: bv32 -> nat, use': bv32 -> nat, now: nat)
    requires Good(s) && Legal(s, op) && Ordered(s, use)
    requires forall d :: use(d) < now
    requires forall d :: use'(d) == if op == Use(d) || op == Insert(d) then now else use(d)
    ensures Ordered(Apply(s, op), use')
  {
    hide Ordered, MoveToFront, PushOver, Drop, Scour;
    match op
    case Use(d) =>
      if Index(s, d) < DEPTH {
        MoveOrdered(s, Index(s, d), use, use');
      } else {
        SameOrdered(s, use, use');
      }
    case Insert(d) => PushOrdered(s, d, use, use');
    case Delete(d) =>
      SameOrdered(s, use, use');
      if Index(s, d) < DEPTH { DropOrdered(s, Index(s, d), use'); }
    case Walk(keep) =>
      SameOrdered(s, use, use');
      ScourOrdered(s, keep, use');
  }
}
