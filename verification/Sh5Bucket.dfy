/** The packed form of a bucket: sixteen 32-bit words that hold a bin, a digest and, in words 8 to 15, one
    bit of the epoch of the last insert. */
module Sh5Bucket {
  import opened Lru
  import opened Sh5Lru

  type Word = bv32

  const DIGEST_MASK: Word := 0x07FFFFFF
  const ANTI_DIGEST_MASK: Word := 0xF8000000
  const EPOCH_MASK: Word := 0x08000000
  const ANTI_EPOCH_MASK: Word := 0xF7FFFFFF
  const EPOCH_SHIFT: Word := 27
  const DATA_BIN: Word := 28

  /** The digest and the bin in a word; bit 27 belongs to neither. */
  function Unpack(w: Word): Item {
    Item(w >> DATA_BIN, w & DIGEST_MASK)
  }

  function Mark(w: Word): Word {
    w & EPOCH_MASK
  }

  /** The word is a digest and nothing else. */
  predicate IsDigest(w: Word) {
    w & DIGEST_MASK == w
  }

  function DigestOf(w: Word): (digest: Word)
    ensures digest == Unpack(w).digest
  {
    w & DIGEST_MASK
  }

  /** The word with its digest cleared: bin and epoch bit stay. */
  function WithoutDigest(w: Word): (c: Word)
    ensures Unpack(c) == Item(Unpack(w).bin, 0) && Mark(c) == Mark(w)
  {
    w & ANTI_DIGEST_MASK
  }

  /** The word x in the place of e, which keeps its epoch bit. */
  function Keep(e: Word, x: Word): (w: Word)
    ensures Unpack(w) == Unpack(x) && Mark(w) == Mark(e)
  {
    (e & EPOCH_MASK) | (ANTI_EPOCH_MASK & x)
  }

  function Unpacked(row: seq<Word>): (s: List)
    ensures |s| == |row| && forall i :: 0 <= i < |row| ==> s[i] == Unpack(row[i])
  {
    seq(|row|, i requires 0 <= i < |row| => Unpack(row[i]))
  }

  /** The eight epoch bits, each shifted to its place, as sh5_get_epoch adds them up. */
  function Sum(m8: Word, m9: Word, m10: Word, m11: Word, m12: Word, m13: Word, m14: Word, m15: Word): bv8 {
    var sum := (m15 >> (EPOCH_SHIFT - 7)) + (m14 >> (EPOCH_SHIFT - 6)) + (m13 >> (EPOCH_SHIFT - 5))
      + (m12 >> (EPOCH_SHIFT - 4)) + (m11 >> (EPOCH_SHIFT - 3)) + (m10 >> (EPOCH_SHIFT - 2))
      + (m9 >> (EPOCH_SHIFT - 1)) + (m8 >> EPOCH_SHIFT);
    (sum & 0xFF) as bv8
  }

  function Stamp(row: seq<Word>): bv8
    requires |row| == DEPTH
  {
    Sum(Mark(row[8]), Mark(row[9]), Mark(row[10]), Mark(row[11]),
      Mark(row[12]), Mark(row[13]), Mark(row[14]), Mark(row[15]))
  }

  lemma StampOf(row: seq<Word>, was: seq<Word>)
    requires |row| == |was| == DEPTH && forall i :: 8 <= i < DEPTH ==> Mark(row[i]) == Mark(was[i])
    ensures Stamp(row) == Stamp(was)
  {
    hide Mark, Sum;
  }

  function EpochBit(epoch: bv8, i: nat): Word
    requires i < 8
  {
    (((epoch >> i) & 0x1) as Word) << EPOCH_SHIFT
  }

  /** What set_epoch writes decodes to the epoch. */
  lemma StampDecodes(row: seq<Word>, epoch: bv8)
    requires |row| == DEPTH && forall i :: 0 <= i < 8 ==> Mark(row[8 + i]) == EpochBit(epoch, i)
    ensures Stamp(row) == epoch
  {
    assert Mark(row[8 + 0]) == EpochBit(epoch, 0) && Mark(row[8 + 1]) == EpochBit(epoch, 1);
    assert Mark(row[8 + 2]) == EpochBit(epoch, 2) && Mark(row[8 + 3]) == EpochBit(epoch, 3);
    assert Mark(row[8 + 4]) == EpochBit(epoch, 4) && Mark(row[8 + 5]) == EpochBit(epoch, 5);
    assert Mark(row[8 + 6]) == EpochBit(epoch, 6) && Mark(row[8 + 7]) == EpochBit(epoch, 7);
  }

  // ----- in place: the bucket at position at of the table of words -----

  ghost function Row(d: array<Word>, at: nat): (r: seq<Word>)
    requires at + DEPTH <= d.Length
    reads d
    ensures |r| == DEPTH && forall k :: 0 <= k < DEPTH ==> r[k] == d[at + k]
  {
    d[at..at + DEPTH]
  }

  /** The items in the order of the new row, told item by item. */
  lemma Moved(was: seq<Word>, now: seq<Word>, mru: nat)
    requires |was| == |now| == DEPTH && mru < DEPTH
    requires Unpack(now[0]) == Unpack(was[mru])
    requires forall k :: 0 < k <= mru ==> Unpack(now[k]) == Unpack(was[k - 1])
    requires forall k :: mru < k < DEPTH ==> now[k] == was[k]
    ensures Unpacked(now) == MoveToFront(Unpacked(was), mru)
  {
    hide Unpack;
    var s, r := Unpacked(now), MoveToFront(Unpacked(was), mru);
    forall k | 0 <= k < DEPTH
      ensures s[k] == r[k]
    {
      assert r[k] == Unpacked(was)[if k == 0 then mru else if k <= mru then k - 1 else k];
    }
  }

  /** Words 1 to mru take the place behind, and keep their epoch bits. */
  method ShiftBack(d: array<Word>, at: nat, mru: nat)
    requires at + DEPTH <= d.Length && mru < DEPTH
    modifies d
    ensures forall p :: at < p <= at + mru ==> Unpack(d[p]) == Unpack(old(d[p - 1]))
    ensures forall p :: at + 8 <= p <= at + mru ==> Mark(d[p]) == Mark(old(d[p]))
    ensures forall p :: 0 <= p < d.Length && !(at < p <= at + mru) ==> d[p] == old(d[p])
  {
    hide Unpack, Keep, Mark;
    for i := mru downto 0
      invariant forall p :: 0 <= p < d.Length && !(at + i < p <= at + mru) ==> d[p] == old(d[p])
      invariant forall p :: at + i < p <= at + mru ==> Unpack(d[p]) == Unpack(old(d[p - 1]))
      invariant forall p :: at + i < p <= at + mru && at + 8 <= p ==> Mark(d[p]) == Mark(old(d[p]))
    {
      var k := i + 1;
      d[at + k] := if 8 <= k then Keep(d[at + k], d[at + i]) else d[at + i];
    }
  }

  /** Move the most recently used word to the front; the epoch bits stay in their words. */
  method SortLru(d: array<Word>, at: nat, mru: nat)
    requires at + DEPTH <= d.Length && mru < DEPTH
    modifies d
    ensures Unpacked(Row(d, at)) == MoveToFront(old(Unpacked(Row(d, at))), mru)
    ensures Stamp(Row(d, at)) == old(Stamp(Row(d, at)))
    ensures forall k :: 0 <= k < d.Length && !(at <= k < at + DEPTH) ==> d[k] == old(d[k])
  {
    hide Unpack, Mark, MoveToFront, Unpacked, Stamp;
    ghost var was := Row(d, at);
    var a := d[at + mru];
    ShiftBack(d, at, mru);
    d[at] := a;
    Moved(was, Row(d, at), mru);
    StampOf(Row(d, at), was);
  }

  /** The same where the epoch is about to be written anyway. */
  method SortLruNoEpoch(d: array<Word>, at: nat, mru: nat)
    requires at + DEPTH <= d.Length && mru < DEPTH
    modifies d
    ensures Unpacked(Row(d, at)) == MoveToFront(old(Unpacked(Row(d, at))), mru)
    ensures forall k :: 0 <= k < d.Length && !(at <= k < at + DEPTH) ==> d[k] == old(d[k])
  {
    hide Unpack, MoveToFront;
    ghost var was := Row(d, at);
    var a := d[at + mru];
    for i := mru downto 0
      invariant forall k :: 0 <= k < d.Length && !(at + i < k <= at + mru) ==> d[k] == old(d[k])
      invariant forall p :: at + i < p <= at + mru ==> d[p] == old(d[p - 1])
    {
      d[at + i + 1] := d[at + i];
    }
    d[at] := a;
    Moved(was, Row(d, at), mru);
  }

  /** Write an epoch into the spare bits. */
  method SetStamp(d: array<Word>, at: nat, epoch: bv8)
    requires at + DEPTH <= d.Length
    modifies d
    ensures Unpacked(Row(d, at)) == old(Unpacked(Row(d, at))) && Stamp(Row(d, at)) == epoch
    ensures forall k :: 0 <= k < d.Length && !(at <= k < at + DEPTH) ==> d[k] == old(d[k])
  {
    hide Unpack, Mark, EpochBit, Unpacked, Stamp;
    for i := 0 to 8
      invariant forall k :: 0 <= k < d.Length && !(at + 8 <= k < at + 8 + i) ==> d[k] == old(d[k])
      invariant forall p :: at <= p < at + DEPTH ==> Unpack(d[p]) == Unpack(old(d[p]))
      invariant forall k :: 0 <= k < i ==> Mark(d[at + 8 + k]) == EpochBit(epoch, k)
    {
      StampBit(d[at + 8 + i], epoch, i);
      d[at + 8 + i] := (d[at + 8 + i] & ANTI_EPOCH_MASK) | EpochBit(epoch, i);
    }
    Stamped(old(Row(d, at)), Row(d, at), epoch);
  }

  lemma Stamped(was: seq<Word>, now: seq<Word>, epoch: bv8)
    requires |was| == |now| == DEPTH && forall p :: 0 <= p < DEPTH ==> Unpack(now[p]) == Unpack(was[p])
    requires forall k :: 0 <= k < 8 ==> Mark(now[8 + k]) == EpochBit(epoch, k)
    ensures Unpacked(now) == Unpacked(was) && Stamp(now) == epoch
  {
    hide Unpack, Mark, EpochBit;
    StampDecodes(now, epoch);
  }

  lemma StampBit(w: Word, epoch: bv8, i: nat)
    requires i < 8
    ensures var w' := (w & ANTI_EPOCH_MASK) | EpochBit(epoch, i);
      Unpack(w') == Unpack(w) && Mark(w') == EpochBit(epoch, i)
  {
  }

  /** Words item to 14 take the word behind them, and keep their epoch bits. */
  method ShiftUp(d: array<Word>, at: nat, item: nat)
    requires at + DEPTH <= d.Length && item < DEPTH
    modifies d
    ensures forall p :: at + item <= p < at + DEPTH - 1 ==>
        Unpack(d[p]) == Unpack(old(d[p + 1])) && Mark(d[p]) == Mark(old(d[p]))
    ensures forall p :: 0 <= p < d.Length && !(at + item <= p < at + DEPTH - 1) ==> d[p] == old(d[p])
  {
    hide Unpack, Keep, Mark;
    for i := item to DEPTH - 1
      invariant forall p :: 0 <= p < d.Length && !(at + item <= p < at + i) ==> d[p] == old(d[p])
      invariant forall p :: at + item <= p < at + i ==>
          Unpack(d[p]) == Unpack(old(d[p + 1])) && Mark(d[p]) == Mark(old(d[p]))
    {
      d[at + i] := Keep(d[at + i], d[at + i + 1]);
    }
  }

  /** Delete an item: the items behind it move up and its bin goes to the end. */
  method DeleteLru(d: array<Word>, at: nat, item: nat)
    requires at + DEPTH <= d.Length && item < DEPTH
    modifies d
    ensures Unpacked(Row(d, at)) == Drop(old(Unpacked(Row(d, at))), item)
    ensures Stamp(Row(d, at)) == old(Stamp(Row(d, at)))
    ensures forall k :: 0 <= k < d.Length && !(at <= k < at + DEPTH) ==> d[k] == old(d[k])
  {
    hide Unpack, Keep, Mark, Drop, Unpacked, Stamp, WithoutDigest, Row;
    ghost var was := Row(d, at);
    var data := WithoutDigest(d[at + item]);
    ShiftUp(d, at, item);
    d[at + DEPTH - 1] := Keep(d[at + DEPTH - 1], data);
    ghost var now := Row(d, at);
    forall k | item <= k < DEPTH - 1
      ensures Unpack(now[k]) == Unpack(was[k + 1]) && Mark(now[k]) == Mark(was[k])
    {
      assert now[k] == d[at + k] && was[k] == old(d[at + k]) && was[k + 1] == old(d[at + k + 1]);
    }
    Dropped(was, now, item);
  }

  lemma Dropped(was: seq<Word>, now: seq<Word>, item: nat)
    requires |was| == |now| == DEPTH && item < DEPTH
    requires forall k :: 0 <= k < item ==> now[k] == was[k]
    requires forall k :: item <= k < DEPTH - 1 ==> Unpack(now[k]) == Unpack(was[k + 1]) && Mark(now[k]) == Mark(was[k])
    requires Unpack(now[DEPTH - 1]) == Item(Unpack(was[item]).bin, 0) && Mark(now[DEPTH - 1]) == Mark(was[DEPTH - 1])
    ensures Unpacked(now) == Drop(Unpacked(was), item) && Stamp(now) == Stamp(was)
  {
    hide Unpack, Mark;
    StampOf(now, was);
    var s, r := Unpacked(now), Drop(Unpacked(was), item);
    forall k | 0 <= k < DEPTH
      ensures s[k] == r[k]
    {
      assert k < DEPTH - 1 ==> r[k] == Unpacked(was)[if k < item then k else k + 1];
    }
  }

  /** Where a digest is: the place in the bucket, or DEPTH. */
  method LookupBucket(d: array<Word>, at: nat, digest: Word) returns (i: nat)
    requires at + DEPTH <= d.Length
    ensures i == Index(Unpacked(Row(d, at)), digest)
  {
    ghost var s := Unpacked(Row(d, at));
    i := 0;
    while i < DEPTH && digest != d[at + i] & DIGEST_MASK
      invariant i <= DEPTH && forall k :: 0 <= k < i ==> s[k].digest != digest
    {
      assert s[i] == Unpack(d[at + i]);
      i := i + 1;
    }
    assert i < DEPTH ==> s[i] == Unpack(d[at + i]);
  }

  method BucketDepth(d: array<Word>, at: nat) returns (n: nat)
    requires at + DEPTH <= d.Length
    ensures n == Depth(Unpacked(Row(d, at)))
  {
    ghost var s := Unpacked(Row(d, at));
    n := DEPTH;
    while n > 0 && d[at + n - 1] & DIGEST_MASK == 0
      invariant n <= DEPTH && forall k :: n <= k < DEPTH ==> s[k].digest == 0
    {
      assert s[n - 1] == Unpack(d[at + n - 1]);
      n := n - 1;
    }
    assert n > 0 ==> s[n - 1] == Unpack(d[at + n - 1]);
  }
}
