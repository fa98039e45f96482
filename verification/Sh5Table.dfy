/** A stringhash5 table in its plain form: two halves of LRU lists, a clock and a drop count. */
module Sh5Table {
  import opened Optional
  import opened Lru
  import opened Sh5Lru
  import opened TwoChoice
  import opened Sh5Hash

  /** A list and the epoch of its last insert. */
  datatype Bucket = Bucket(items: List, stamp: bv8)

  datatype Table = Table(buckets: seq<Bucket>, epoch: bv8, einserts: nat, drops: nat)

  /** A record of the data table: a bucket and one of its bins. */
  datatype Slot = Slot(bucket: nat, bin: bv32)

  ghost predicate Valid(t: Table, half: nat) {
    |t.buckets| == 2 * half && forall h :: 0 <= h < 2 * half ==> Good(t.buckets[h].items)
  }

  predicate Fits(t: Table, k: Key) {
    && k.h1 < |t.buckets| && k.h2 < |t.buckets| && k.h1 != k.h2 && k.d1 != 0 && k.d2 != 0
    && |t.buckets[k.h1].items| == DEPTH && |t.buckets[k.h2].items| == DEPTH
  }

  function Items(t: Table, h: nat): List
    requires h < |t.buckets|
  {
    t.buckets[h].items
  }

  function WithItems(t: Table, h: nat, s: List): Table
    requires h < |t.buckets|
  {
    t.(buckets := t.buckets[h := t.buckets[h].(items := s)])
  }

  /** Where a key is: the bucket of its first or second choice and the place there. */
  function Locate(t: Table, k: Key): Option<(nat, nat)>
    requires Fits(t, k)
  {
    var i, j := Index(Items(t, k.h1), k.d1), Index(Items(t, k.h2), k.d2);
    if i < DEPTH then Some((k.h1, i)) else if j < DEPTH then Some((k.h2, j)) else None
  }

  function SlotAt(t: Table, h: nat, i: nat): Slot
    requires h < |t.buckets| && i < |Items(t, h)|
  {
    Slot(h, Items(t, h)[i].bin)
  }

  function Touch(t: Table, h: nat, i: nat): Table
    requires h < |t.buckets| && i < |Items(t, h)|
  {
    WithItems(t, h, MoveToFront(Items(t, h), i))
  }

  /** The age of a bucket by the clock of eight bits. */
  function Age(t: Table, h: nat): bv8
    requires h < |t.buckets|
  {
    t.epoch - t.buckets[h].stamp
  }

  /** The second bucket takes a new key if it is less deep, or, when both are full, strictly older. */
  predicate Second(t: Table, k: Key)
    requires Fits(t, k)
  {
    var n, m := Depth(Items(t, k.h1)), Depth(Items(t, k.h2));
    if n == m == DEPTH then Age(t, k.h2) > Age(t, k.h1) else m < n
  }

  function Chosen(t: Table, k: Key): (h: nat)
    requires Fits(t, k)
  {
    if Second(t, k) then k.h2 else k.h1
  }

  function ChosenDigest(t: Table, k: Key): (d: bv32)
    requires Fits(t, k)
    ensures d != 0
  {
    if Second(t, k) then k.d2 else k.d1
  }

  /** Both buckets are full to their last place. */
  predicate Full(t: Table, k: Key)
    requires Fits(t, k)
  {
    Depth(Items(t, k.h1)) == DEPTH && Depth(Items(t, k.h2)) == DEPTH
  }

  function Tick(t: Table, limit: nat): Table {
    if t.einserts + 1 > limit then t.(einserts := 0, epoch := t.epoch + 1) else t.(einserts := t.einserts + 1)
  }

  /** A new key takes the record of the last item of its bucket. */
  function Admit(t: Table, k: Key, limit: nat): Table
    requires Fits(t, k)
  {
    var h := Chosen(t, k);
    var c := Tick(t.(drops := if Full(t, k) then t.drops + 1 else t.drops), limit);
    c.(buckets := t.buckets[h := Bucket(PushOver(Items(t, h), ChosenDigest(t, k)), c.epoch)])
  }

  function Find(t: Table, k: Key): (Table, Option<Slot>)
    requires Fits(t, k)
  {
    match Locate(t, k)
    case Some(p) => (Touch(t, p.0, p.1), Some(SlotAt(t, p.0, p.1)))
    case None => (t, None)
  }

  function FindAttach(t: Table, k: Key, limit: nat): (Table, Slot)
    requires Fits(t, k)
  {
    match Locate(t, k)
    case Some(p) => (Touch(t, p.0, p.1), SlotAt(t, p.0, p.1))
    case None => (Admit(t, k, limit), SlotAt(t, Chosen(t, k), DEPTH - 1))
  }

  function DeleteKey(t: Table, k: Key): (Table, bool)
    requires Fits(t, k)
  {
    match Locate(t, k)
    case Some(p) => (WithItems(t, p.0, Drop(Items(t, p.0), p.1)), true)
    case None => (t, false)
  }

  /** One row of a walk; keep says for each place whether the callback wants to keep a live item. */
  function WalkNext(t: Table, h: nat, keep: seq<bool>): Table
    requires h < |t.buckets| && |keep| == |Items(t, h)|
  {
    WithItems(t, h, Scour(Items(t, h), keep))
  }

  /** The row a walker visits next. */
  function RowOf(cursor: nat, rows: nat): (row: nat)
    requires rows > 0
    ensures row < rows
  {
    if cursor >= rows then 0 else cursor
  }

  /** The cursor of a walker after k more rows. */
  function CursorAfter(cursor: nat, rows: nat, k: nat): nat
    requires rows > 0
  {
    if k == 0 then cursor else RowOf(CursorAfter(cursor, rows, k - 1), rows) + 1
  }

  lemma {:induction false} WalkInTurn(cursor: nat, rows: nat, k: nat)
    requires k < rows
    ensures var first := RowOf(cursor, rows);
      RowOf(CursorAfter(cursor, rows, k), rows) == if first + k < rows then first + k else first + k - rows
  {
    if k > 0 {
      WalkInTurn(cursor, rows, k - 1);
    }
  }

  /** As many calls of a walker as there are rows visit every row exactly once, wherever it starts. */
  lemma WalkSweeps(cursor: nat, rows: nat, row: nat) returns (k: nat)
    requires row < rows
    ensures k < rows && VisitsAt(cursor, rows, k, row)
    ensures forall j: nat :: j < rows && VisitsAt(cursor, rows, j, row) ==> j == k
  {
    var first := RowOf(cursor, rows);
    k := if first <= row then row - first else row + rows - first;
    WalkInTurn(cursor, rows, k);
    forall j: nat | j < rows && VisitsAt(cursor, rows, j, row)
      ensures j == k
    {
      WalkInTurn(cursor, rows, j);
    }
  }

  predicate VisitsAt(cursor: nat, rows: nat, k: nat, row: nat)
    requires rows > 0
  {
    RowOf(CursorAfter(cursor, rows, k), rows) == row
  }

  /** A table as it is created: two halves of fresh buckets, and the clock at 1. */
  function Created(half: nat): (t: Table)
    ensures Valid(t, half) && forall h :: 0 <= h < 2 * half ==> t.buckets[h].items == Fresh()
  {
    FreshGood();
    Table(seq(2 * half, _ => Bucket(Fresh(), 0)), 1, 0, 0)
  }
}
