/** A stringhash5 table: the packed words of all buckets in one array, and the operations on it. */
module StringHash5 {
  import opened Optional
  import opened Lru
  import opened Sh5Lru
  import opened Sh5Bucket
  import opened TwoChoice
  import opened Sh5Hash
  import opened Sh5Table
  import Live = Sh5Live

  // ----- the words of the table as buckets -----

  ghost function BucketAt(words: seq<Word>, h: nat): Bucket
    requires (h + 1) * DEPTH <= |words|
  {
    var row := words[h * DEPTH..(h + 1) * DEPTH];
    Bucket(Unpacked(row), Stamp(row))
  }

  ghost function Buckets(words: seq<Word>, n: nat): (b: seq<Bucket>)
    requires |words| == n * DEPTH
    ensures |b| == n && forall h :: 0 <= h < n ==> b[h] == BucketAt(words, h)
  {
    seq(n, h requires 0 <= h < n => BucketAt(words, h))
  }

  /** Words change in one bucket only. */
  lemma OneBucket(was: seq<Word>, now: seq<Word>, n: nat, h: nat)
    requires |was| == |now| == n * DEPTH && h < n
    requires forall k :: 0 <= k < n * DEPTH && !(h * DEPTH <= k < h * DEPTH + DEPTH) ==> now[k] == was[k]
    ensures Buckets(now, n) == Buckets(was, n)[h := BucketAt(now, h)]
  {
    hide Unpacked, Stamp;
    forall j | 0 <= j < n && j != h
      ensures BucketAt(now, j) == BucketAt(was, j)
    {
      assert now[j * DEPTH..(j + 1) * DEPTH] == was[j * DEPTH..(j + 1) * DEPTH];
    }
  }

  lemma PushIsMove(s: List, d: bv32)
    requires |s| == DEPTH
    ensures MoveToFront(s[DEPTH - 1 := Item(s[DEPTH - 1].bin, d)], DEPTH - 1) == PushOver(s, d)
  {
  }

  // A digest of 27 bits takes the place of the one in a word.
  lemma Rewritten(w: Word, digest: Word)
    requires IsDigest(digest)
    ensures Unpack((w & ANTI_DIGEST_MASK) | digest) == Item(Unpack(w).bin, digest)
  {
  }

  lemma DigestFits(n: nat)
    ensures IsDigest(Digest(n))
  {
    hide Bits;
    BitsFit(n, 27);
    SmallFits(Bits(n, 27));
  }

  lemma KeyFitsMask(m: nat, half: nat)
    requires half > 0
    ensures var k := KeyOf(m, half); IsDigest(k.d1) && IsDigest(k.d2)
  {
    hide Digest, Product;
    DigestFits(Product(m, PERMUTE1) % TWO27);
    DigestFits(Product(m, PERMUTE2) % TWO27);
  }

  /** What becomes of a word in a walk. */
  function Kept(w: Word, keep: bool): Item {
    if keep then Unpack(w) else Item(Unpack(w).bin, 0)
  }

  lemma StampZero(row: seq<Word>)
    requires |row| == DEPTH && forall i :: 0 <= i < DEPTH ==> Mark(row[i]) == 0
    ensures Stamp(row) == 0
  {
    hide Mark;
  }

  lemma FreshFirst()
    ensures Fresh()[0].bin == 0
  {
  }

  /** The last item of a bucket is replaced, the clock ticks and the bucket is stamped. */
  function PutIn(t: Table, h: nat, digest: bv32, limit: nat): Table
    requires h < |t.buckets| && |Items(t, h)| == DEPTH
  {
    var c := Tick(t, limit);
    c.(buckets := t.buckets[h := Bucket(PushOver(Items(t, h), digest), c.epoch)])
  }

  // With the drop counted, that is how a key is admitted.
  lemma AdmitIsPutIn(t: Table, k: Key, limit: nat)
    requires Fits(t, k)
    ensures var counted, h := t.(drops := t.drops + if Full(t, k) then 1 else 0), Chosen(t, k);
            && h < |t.buckets| && |Items(t, h)| == DEPTH
            && Admit(t, k, limit) == PutIn(counted, h, ChosenDigest(t, k), limit)
  {
    hide Full, PushOver, Second;
  }

  lemma AdmitDrops(t: Table, k: Key, limit: nat)
    requires Fits(t, k)
    ensures Admit(t, k, limit).drops == t.drops + if Full(t, k) then 1 else 0
  {
    hide Second, Full, PushOver;
  }

  // The words of a fresh bucket count through the bins.
  lemma FreshNext(j: nat, b: Word)
    requires j < DEPTH && b == Fresh()[j].bin
    ensures Unpack(b << DATA_BIN) == Fresh()[j] && Mark(b << DATA_BIN) == 0
    ensures j + 1 < DEPTH ==> b + 1 == Fresh()[j + 1].bin
  {
  }

  function LiveCount(s: List): nat {
    if s == [] then 0 else LiveCount(s[..|s| - 1]) + if s[|s| - 1].digest != 0 then 1 else 0
  }

  /** It is the number of items in use. */
  lemma {:induction false} LiveCountIs(s: List)
    ensures LiveCount(s) == |set i | 0 <= i < |s| && s[i].digest != 0|
  {
    if s != [] {
      var n := |s| - 1;
      LiveCountIs(s[..n]);
      var before, all := set i | 0 <= i < n && s[..n][i].digest != 0, set i | 0 <= i < |s| && s[i].digest != 0;
      assert all == before + if s[n].digest != 0 then {n} else {};
    }
  }

  lemma SmallFits(b: Word)
    requires b < 0x0800_0000
    ensures IsDigest(b)
  {
  }

  class StringHash5 {
    const half: nat
    const limit: nat
    const d: array<Word>
    var epoch: bv8
    var einserts: nat
    var drops: nat
    /** For every walker the row it walks next, or the number of rows after the last one. */
    var walkerRow: seq<nat>

    ghost function View(): (t: Table)
      requires d.Length == 2 * half * DEPTH
      reads this, d
      ensures |t.buckets| == 2 * half
    {
      Table(Buckets(d[..], 2 * half), epoch, einserts, drops)
    }

    ghost predicate Valid()
      reads this, d
    {
      Shaped() && Sh5Table.Valid(View(), half)
    }

    /** stringhash5_create for a table of 2^bits records: half the buckets for either choice, and the clock
        ticks after a sixteenth of them. */
    constructor (bits: nat)
      requires 6 <= bits <= 31
      ensures fresh(d) && half == Pow2(bits - 5) && limit == half / 16
      ensures Valid() && View() == Created(half) && walkerRow == []
    {
      half := Pow2(bits - 5);
      limit := Pow2(bits - 5) / 16;
      d := new Word[2 * Pow2(bits - 5) * DEPTH];
      epoch, einserts, drops := 1, 0, 0;
      walkerRow := [];
      new;
      InitBuckets();
    }

    ghost predicate Shaped() {
      half > 0 && d.Length == 2 * half * DEPTH
    }

    lemma RowIs(h: nat)
      requires d.Length == 2 * half * DEPTH && h < 2 * half
      ensures Row(d, h * DEPTH) == d[..][h * DEPTH..(h + 1) * DEPTH]
      ensures View().buckets[h] == Bucket(Unpacked(Row(d, h * DEPTH)), Stamp(Row(d, h * DEPTH)))
    {
      hide Unpacked, Stamp;
      assert d[h * DEPTH..h * DEPTH + DEPTH] == d[..][h * DEPTH..(h + 1) * DEPTH];
    }

    /** Lookup in the bucket of the first choice, then of the second. */
    method LookupKey(k: Key) returns (p: Option<(nat, nat)>)
      requires Shaped() && Fits(View(), k)
      ensures p == Locate(View(), k)
    {
      hide Unpacked, Stamp, Index;
      RowIs(k.h1);
      RowIs(k.h2);
      var i := LookupBucket(d, k.h1 * DEPTH, k.d1);
      if i < DEPTH {
        return Some((k.h1, i));
      }
      i := LookupBucket(d, k.h2 * DEPTH, k.d2);
      p := if i < DEPTH then Some((k.h2, i)) else None;
    }

    /** sh5_sort_lru on a bucket of the table. */
    method TouchItem(h: nat, i: nat)
      requires Shaped() && h < 2 * half && i < DEPTH
      modifies d
      ensures View() == Touch(old(View()), h, i)
    {
      hide Unpacked, Stamp, MoveToFront;
      ghost var was := d[..];
      RowIs(h);
      SortLru(d, h * DEPTH, i);
      RowIs(h);
      OneBucket(was, d[..], 2 * half, h);
    }

    /** sh5_get_epoch: the age of a bucket. */
    method GetEpoch(h: nat) returns (age: bv8)
      requires Shaped() && h < 2 * half
      ensures age == Age(View(), h)
    {
      hide Unpacked, Sum, Mark;
      RowIs(h);
      var at := h * DEPTH;
      assert forall i :: 0 <= i < DEPTH ==> Row(d, at)[i] == d[at + i];
      age := epoch - Sum(Mark(d[at + 8]), Mark(d[at + 9]), Mark(d[at + 10]), Mark(d[at + 11]),
                         Mark(d[at + 12]), Mark(d[at + 13]), Mark(d[at + 14]), Mark(d[at + 15]));
    }

    method DepthOf(h: nat) returns (n: nat)
      requires Shaped() && h < 2 * half
      ensures n == Depth(Items(View(), h))
    {
      hide Unpacked, Stamp, Depth;
      RowIs(h);
      n := BucketDepth(d, h * DEPTH);
    }

    /** The slot of an item: the data bin of its word. */
    method SlotOf(h: nat, i: nat) returns (slot: Slot)
      requires Shaped() && h < 2 * half && i < |Items(View(), h)| == DEPTH
      ensures slot == SlotAt(View(), h, i)
    {
      hide Stamp;
      RowIs(h);
      assert Row(d, h * DEPTH)[i] == d[h * DEPTH + i];
      slot := Slot(h, d[h * DEPTH + i] >> DATA_BIN);
    }

    /** The bucket that is less deep, or the oldest of two full ones, where a drop is counted. */
    method FindBestBucket(k: Key) returns (second: bool)
      requires Shaped() && Fits(View(), k)
      modifies `drops
      ensures second == Second(old(View()), k)
      ensures View() == old(View()).(drops := old(View()).drops + if Full(old(View()), k) then 1 else 0)
    {
      hide Depth, Age, Sh5Table.Valid;
      var d1 := DepthOf(k.h1);
      var d2 := DepthOf(k.h2);
      if d1 == d2 {
        if d1 == DEPTH {
          var e1 := GetEpoch(k.h1);
          var e2 := GetEpoch(k.h2);
          second := e2 > e1;
          drops := drops + 1;
        } else {
          second := false;
        }
      } else {
        second := d2 < d1;
      }
    }

    /** The last word of a bucket takes a new digest and comes first. */
    method Replace(h: nat, digest: Word)
      requires Shaped() && h < 2 * half && IsDigest(digest)
      modifies d
      ensures View().buckets[h].items == PushOver(old(View().buckets[h].items), digest)
      ensures View() == old(View()).(buckets := old(View()).buckets[h := View().buckets[h]])
    {
      hide Unpack, MoveToFront, PushOver, Stamp;
      var at := h * DEPTH;
      ghost var words, was := d[..], Unpacked(Row(d, at));
      RowIs(h);
      Rewritten(d[at + DEPTH - 1], digest);
      d[at + DEPTH - 1] := (d[at + DEPTH - 1] & ANTI_DIGEST_MASK) | digest;
      assert Unpacked(Row(d, at)) == was[DEPTH - 1 := Item(was[DEPTH - 1].bin, digest)];
      SortLruNoEpoch(d, at, DEPTH - 1);
      PushIsMove(was, digest);
      RowIs(h);
      OneBucket(words, d[..], 2 * half, h);
    }

    /** sh5_set_epoch: the clock ticks and the bucket is stamped. */
    method SetEpoch(h: nat)
      requires Shaped() && h < 2 * half
      modifies d, `epoch, `einserts
      ensures View() == (
        var c := Tick(old(View()), limit);
        c.(buckets := c.buckets[h := Bucket(old(View().buckets[h].items), c.epoch)]))
    {
      hide Unpacked, Stamp;
      ghost var was := d[..];
      einserts := einserts + 1;
      if einserts > limit {
        epoch := epoch + 1;
        einserts := 0;
      }
      RowIs(h);
      SetStamp(d, h * DEPTH, epoch);
      RowIs(h);
      OneBucket(was, d[..], 2 * half, h);
    }

    /** stringhash5_find: the slot of a key with hash m, which becomes the most recently used. */
    method FindSerial(m: nat) returns (slot: Option<Slot>)
      requires Valid()
      modifies d
      ensures Valid() && View() == Live.Next(old(View()), Live.Lookup(m), half, limit)
      ensures slot == Live.Found(old(View()), m, half)
    {
      hide KeyOf, Locate, MoveToFront, Sh5Table.Valid, View;
      var k := KeyOf(m, half);
      Live.KeyFits(View(), m, half);
      Live.StepValid(View(), Live.Lookup(m), half, limit);
      var p := LookupKey(k);
      if p.None? {
        return None;
      }
      Live.LocateFound(View(), k);
      var s := SlotOf(p.value.0, p.value.1);
      TouchItem(p.value.0, p.value.1);
      slot := Some(s);
    }

    /** stringhash5_find_attach: the slot of a key, new or not. The callback is told the slot whose record
        is given up. */
    method FindAttachSerial(m: nat) returns (slot: Slot, dropped: Option<Slot>)
      requires Valid()
      modifies d, `epoch, `einserts, `drops
      ensures Valid() && View() == Live.Next(old(View()), Live.Attach(m), half, limit)
      ensures slot == Live.Attached(old(View()), m, half, limit)
      ensures dropped == if View().drops != old(View()).drops then Some(slot) else None
    {
      hide KeyOf, Locate, MoveToFront, Sh5Table.Valid, View, Admit, Chosen;
      var k := KeyOf(m, half);
      KeyFitsMask(m, half);
      Live.KeyFits(View(), m, half);
      Live.StepValid(View(), Live.Attach(m), half, limit);
      var p := LookupKey(k);
      if p.Some? {
        Live.LocateFound(View(), k);
        slot := SlotOf(p.value.0, p.value.1);
        TouchItem(p.value.0, p.value.1);
        return slot, None;
      }
      AdmitDrops(View(), k, limit);
      slot, dropped := AdmitKey(k);
    }

    /** A new digest in the place of the last item of a bucket. */
    method Place(h: nat, digest: Word)
      requires Shaped() && h < 2 * half && |Items(View(), h)| == DEPTH && IsDigest(digest)
      modifies d, `epoch, `einserts
      ensures View() == PutIn(old(View()), h, digest, limit)
    {
      hide PushOver, View, IsDigest;
      Replace(h, digest);
      SetEpoch(h);
    }

    /** The part of find_attach for a key that was not found. */
    method AdmitKey(k: Key) returns (slot: Slot, dropped: Option<Slot>)
      requires Shaped() && Fits(View(), k) && IsDigest(k.d1) && IsDigest(k.d2)
      modifies d, `epoch, `einserts, `drops
      ensures View() == Admit(old(View()), k, limit)
      ensures slot == SlotAt(old(View()), Chosen(old(View()), k), DEPTH - 1)
      ensures dropped == if Full(old(View()), k) then Some(slot) else None
    {
      hide Second, Full, View, Admit, PutIn, Tick, IsDigest;
      ghost var t := View();
      AdmitIsPutIn(t, k, limit);
      Live.LastFull(t, k);
      var second := FindBestBucket(k);
      var h, digest := if second then k.h2 else k.h1, if second then k.d2 else k.d1;
      assert h == Chosen(t, k) && digest == ChosenDigest(t, k) && View().buckets == t.buckets;
      hide Chosen, ChosenDigest;
      slot := SlotOf(h, DEPTH - 1);
      var od := LastDigest(h);
      dropped := if od != 0 then Some(slot) else None;
      Place(h, digest);
    }

    method LastDigest(h: nat) returns (od: Word)
      requires Shaped() && h < 2 * half
      ensures |Items(View(), h)| == DEPTH && od == Items(View(), h)[DEPTH - 1].digest
    {
      hide Stamp;
      RowIs(h);
      assert Row(d, h * DEPTH)[DEPTH - 1] == d[h * DEPTH + DEPTH - 1];
      od := d[h * DEPTH + DEPTH - 1] & DIGEST_MASK;
    }

    /** stringhash5_delete. */
    method DeleteSerial(m: nat) returns (found: bool)
      requires Valid()
      modifies d
      ensures Valid() && View() == Live.Next(old(View()), Live.Remove(m), half, limit)
      ensures found == Live.Found(old(View()), m, half).Some?
    {
      hide KeyOf, Locate, Drop, Sh5Table.Valid, View;
      var k := KeyOf(m, half);
      Live.KeyFits(View(), m, half);
      Live.StepValid(View(), Live.Remove(m), half, limit);
      var p := LookupKey(k);
      found := p.Some?;
      if found {
        Live.LocateFound(View(), k);
        DropItem(p.value.0, p.value.1);
      }
    }

    method DropItem(h: nat, i: nat)
      requires Shaped() && h < 2 * half && i < DEPTH
      modifies d
      ensures View() == WithItems(old(View()), h, Drop(old(Items(View(), h)), i))
    {
      hide Unpacked, Stamp, Drop;
      ghost var was := d[..];
      RowIs(h);
      DeleteLru(d, h * DEPTH, i);
      RowIs(h);
      OneBucket(was, d[..], 2 * half, h);
    }

    /** stringhash5_walker_init: a new walker starts at the first row. */
    method WalkerInit() returns (walker: nat)
      modifies this`walkerRow
      ensures walker == |old(walkerRow)| && walkerRow == old(walkerRow) + [0]
    {
      walker := |walkerRow|;
      walkerRow := walkerRow + [0];
    }

    /** stringhash5_walker_next: on the next row of the walker, the first one again after the last, the callback is
        asked about the live items in order, and those it does not keep lose their digest. */
    method WalkerNext(walker: nat, keep: seq<bool>) returns (calls: nat)
      requires Valid() && walker < |walkerRow| && |keep| == DEPTH
      modifies d, `walkerRow
      ensures var row := RowOf(old(walkerRow)[walker], 2 * half);
        && Valid() && View() == Live.Next(old(View()), Live.WalkRow(row, keep), half, limit)
        && calls == LiveCount(old(Items(View(), RowOf(walkerRow[walker], 2 * half))))
        && walkerRow == old(walkerRow)[walker := row + 1]
    {
      hide Sh5Table.Valid, Scour;
      var row := walkerRow[walker];
      if row >= 2 * half {
        row := 0;
      }
      walkerRow := walkerRow[walker := row + 1];
      calls := WalkRow(row, keep);
    }

    method WalkRow(row: nat, keep: seq<bool>) returns (calls: nat)
      requires Valid() && row < 2 * half && |keep| == DEPTH
      modifies d
      ensures Valid() && View() == Live.Next(old(View()), Live.WalkRow(row, keep), half, limit)
      ensures calls == LiveCount(old(Items(View(), row)))
    {
      hide Sh5Table.Valid, View, Scour;
      Live.StepValid(View(), Live.WalkRow(row, keep), half, limit);
      calls := ClearRow(row, keep);
    }

    /** The words of a row up to place i have been asked about. */
    ghost predicate Asked(row: nat, i: nat, keep: seq<bool>, was: seq<Word>)
      requires Shaped() && row < 2 * half && i <= DEPTH == |keep| && |was| == d.Length
      reads d
    {
      var at := row * DEPTH;
      && (forall k :: 0 <= k < d.Length && !(at <= k < at + i) ==> d[k] == was[k])
      && (forall k :: at <= k < at + i ==> Mark(d[k]) == Mark(was[k]) && Unpack(d[k]) == Kept(was[k], keep[k - at]))
    }

    method Ask(row: nat, i: nat, keep: seq<bool>, ghost was: seq<Word>) returns (called: bool)
      requires Shaped() && row < 2 * half && i < DEPTH == |keep| && |was| == d.Length && Asked(row, i, keep, was)
      modifies d
      ensures Asked(row, i + 1, keep, was)
      ensures called == (Unpack(was[row * DEPTH + i]).digest != 0)
    {
      hide Unpack, Mark, Kept;
      called := AskWord(row * DEPTH + i, keep[i]);
    }

    method AskWord(p: nat, kept: bool) returns (called: bool)
      requires p < d.Length
      modifies d
      ensures Mark(d[p]) == old(Mark(d[p])) && Unpack(d[p]) == Kept(old(d[p]), kept)
      ensures forall k :: 0 <= k < d.Length && k != p ==> d[k] == old(d[k])
      ensures called == (old(Unpack(d[p])).digest != 0)
    {
      hide Unpack, Mark, DigestOf, WithoutDigest;
      called := DigestOf(d[p]) != 0;
      if called && !kept {
        d[p] := WithoutDigest(d[p]);
      }
    }

    method ClearRow(row: nat, keep: seq<bool>) returns (calls: nat)
      requires Shaped() && row < 2 * half && |keep| == DEPTH
      modifies d
      ensures View() == WalkNext(old(View()), row, keep)
      ensures calls == LiveCount(old(Items(View(), row)))
    {
      hide Unpack, Mark, Stamp, Kept;
      ghost var was, s := d[..], Items(View(), row);
      RowIs(row);
      calls := 0;
      for i := 0 to DEPTH
        invariant calls == LiveCount(s[..i]) && Asked(row, i, keep, was)
      {
        var called := Ask(row, i, keep, was);
        assert s[..i + 1][..i] == s[..i] && s[i] == Unpack(was[row * DEPTH + i]);
        calls := calls + if called then 1 else 0;
      }
      assert s[..DEPTH] == s;
      RowAsked(row, keep, was);
    }

    lemma RowAsked(row: nat, keep: seq<bool>, was: seq<Word>)
      requires Shaped() && row < 2 * half && DEPTH == |keep| && |was| == d.Length && Asked(row, DEPTH, keep, was)
      ensures Buckets(d[..], 2 * half) == (
        var b := Buckets(was, 2 * half);
        b[row := b[row].(items := Scour(b[row].items, keep))])
    {
      hide Unpack, Mark, Stamp;
      var at := row * DEPTH;
      RowIs(row);
      StampOf(Row(d, at), was[at..at + DEPTH]);
      OneBucket(was, d[..], 2 * half, row);
      assert Unpacked(Row(d, at)) == Scour(Unpacked(was[at..at + DEPTH]), keep);
    }

    /** sh5_init_buckets, which stringhash5_flush calls: every item is free and owns the bin of its place. */
    method InitBuckets()
      requires Shaped()
      modifies d
      ensures View() == old(View()).(buckets := Created(half).buckets) && Valid()
    {
      hide Unpacked, Stamp, Unpack, Mark, BucketAt;
      for h := 0 to 2 * half
        invariant forall k: nat :: k < h ==> Buckets(d[..], 2 * half)[k] == Bucket(Fresh(), 0)
      {
        InitBucket(h);
      }
      assert Buckets(d[..], 2 * half) == Created(half).buckets;
      FreshGood();
    }

    method InitBucket(h: nat)
      requires Shaped() && h < 2 * half
      modifies d
      ensures Buckets(d[..], 2 * half) == old(Buckets(d[..], 2 * half))[h := Bucket(Fresh(), 0)]
    {
      hide Unpack, Mark, Fresh, Buckets, BucketAt;
      ghost var was := d[..];
      var at := h * DEPTH;
      var b: bv32 := 0;
      FreshFirst();
      for j := 0 to DEPTH
        invariant j < DEPTH ==> b == Fresh()[j].bin
        invariant forall k :: 0 <= k < d.Length && !(at <= k < at + j) ==> d[k] == was[k]
        invariant forall k :: at <= k < at + j ==> Unpack(d[k]) == Fresh()[k - at] && Mark(d[k]) == 0
      {
        d[at + j] := b << DATA_BIN;
        FreshNext(j, b);
        b := b + 1;
      }
      FreshRow(h, was);
    }

    lemma FreshRow(h: nat, was: seq<Word>)
      requires Shaped() && h < 2 * half && |was| == d.Length
      requires forall k :: 0 <= k < d.Length && !(h * DEPTH <= k < h * DEPTH + DEPTH) ==> d[k] == was[k]
      requires forall k :: h * DEPTH <= k < h * DEPTH + DEPTH ==>
          Unpack(d[k]) == Fresh()[k - h * DEPTH] && Mark(d[k]) == 0
      ensures Buckets(d[..], 2 * half) == Buckets(was, 2 * half)[h := Bucket(Fresh(), 0)]
    {
      hide Unpack, Mark, Stamp, Fresh;
      StampZero(Row(d, h * DEPTH));
      assert Unpacked(Row(d, h * DEPTH)) == Fresh();
      RowIs(h);
      OneBucket(was, d[..], 2 * half, h);
    }
  }
}
