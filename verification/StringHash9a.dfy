/** A stringhash9a table: the packed words of all buckets in one array, and the operations on it. */
module StringHash9a {
  import opened Lru
  import opened TwoChoice
  import opened Sh9aBucket
  import opened Sh9aHash
  import opened Sh9aTable
  import Live = Sh9aLive

  ghost function BucketAt(words: seq<Word>, h: nat): Bucket
    requires (h + 1) * DEPTH <= |words|
  {
    var row := words[h * DEPTH..(h + 1) * DEPTH];
    Bucket(Decoded(row), StampByte(row))
  }

  function StampByte(row: seq<Word>): bv8
    requires |row| == DEPTH
  {
    Byte(Stamp(row))
  }

  function Byte(w: Word): bv8 {
    (w & 0xFF) as bv8
  }

  ghost function Buckets(words: seq<Word>, n: nat): (b: seq<Bucket>)
    requires |words| == n * DEPTH
    ensures |b| == n && forall h :: 0 <= h < n ==> b[h] == BucketAt(words, h)
  {
    seq(n, h requires 0 <= h < n => BucketAt(words, h))
  }

  /** Words change in one bucket only. */
  lemma OneBucket(was: seq<Word>, now: seq<Word>, n: nat, h: nat)
    requires |was| == |now| == n * DEPTH && h < n
    requires forall k :: 0 <= k < n * DEPTH && !(h * DEPTH <= k < h * DEPTH + DEPTH) ==> now[k] == was[k]
    ensures Buckets(now, n) == Buckets(was, n)[h := BucketAt(now, h)]
  {
    hide Decoded, StampByte;
    forall j | 0 <= j < n && j != h
      ensures BucketAt(now, j) == BucketAt(was, j)
    {
      assert now[j * DEPTH..(j + 1) * DEPTH] == was[j * DEPTH..(j + 1) * DEPTH];
    }
  }

  // The epoch goes to the low byte of the last word, which belongs to no digest.
  lemma Stamped(was: seq<Word>, now: seq<Word>, epoch: bv8)
    requires |was| == |now| == DEPTH && now == was[DEPTH - 1 := SetLow(was[DEPTH - 1], epoch as Word)]
    ensures Decoded(now) == Decoded(was) && StampByte(now) == epoch
  {
    hide High, SetLow, Spelled, Byte;
    EpochByte(epoch);
    assert forall k :: 0 <= k < DEPTH ==> High(now[k]) == High(was[k]);
  }

  lemma EpochByte(epoch: bv8)
    ensures Byte(Low(epoch as Word)) == epoch
  {
  }

  lemma BlankRow(row: seq<Word>)
    requires |row| == DEPTH && forall i :: 0 <= i < DEPTH ==> row[i] == 0
    ensures Decoded(row) == Empty() && StampByte(row) == 0
  {
    assert Spelled(0, 0, 0) == 0 && High(0) == 0;
  }

  class StringHash9a {
    const half: nat
    const limit: nat
    const d: array<Word>
    var epoch: bv8
    var insertCnt: nat
    var drops: nat

    ghost predicate Shaped() {
      half > 0 && d.Length == 2 * half * DEPTH
    }

    ghost function View(): (t: Table)
      requires d.Length == 2 * half * DEPTH
      reads this, d
      ensures |t.buckets| == 2 * half
    {
      Table(Buckets(d[..], 2 * half), epoch, insertCnt, drops)
    }

    ghost predicate Valid()
      reads this, d
    {
      Shaped() && Sh9aTable.Valid(View(), half)
    }

    lemma RowIs(h: nat)
      requires d.Length == 2 * half * DEPTH && h < 2 * half
      ensures Row(d, h * DEPTH) == d[..][h * DEPTH..(h + 1) * DEPTH]
      ensures View().buckets[h] == Bucket(Decoded(Row(d, h * DEPTH)), StampByte(Row(d, h * DEPTH)))
    {
      hide Decoded, StampByte;
      assert d[h * DEPTH..h * DEPTH + DEPTH] == d[..][h * DEPTH..(h + 1) * DEPTH];
    }

    /** sh9a_create_ibits: half the buckets for either choice, and the clock ticks after a sixteenth of them. */
    constructor (bits: nat)
      requires 1 <= bits <= 31
      ensures fresh(d) && half == Pow2(bits) && limit == half / 16
      ensures Valid() && View() == Created(half)
    {
      half := Pow2(bits);
      limit := Pow2(bits) / 16;
      d := new Word[2 * Pow2(bits) * DEPTH];
      epoch, insertCnt, drops := 1, 0, 0;
      new;
      Flush();
    }

    /** stringhash9a_flush. */
    method Flush()
      requires Shaped()
      modifies d, `epoch
      ensures Valid() && View() == Flushed(old(View()))
    {
      hide Decoded, StampByte, Empty;
      for i := 0 to d.Length
        invariant forall k :: 0 <= k < i ==> d[k] == 0
      {
        d[i] := 0;
      }
      epoch := 1;
      forall h | 0 <= h < 2 * half
        ensures BucketAt(d[..], h) == Bucket(Empty(), 0)
      {
        BlankRow(d[..][h * DEPTH..(h + 1) * DEPTH]);
      }
      assert Buckets(d[..], 2 * half) == seq(2 * half, _ => Bucket(Empty(), 0));
      Live.EmptyGood();
    }

    /** The lookup in one bucket: a digest that is there comes first, else the free ranks are counted. */
    method LookupBucket2(h: nat, digest: Word) returns (found: bool, zeros: nat)
      requires Shaped() && h < 2 * half
      modifies d
      ensures |old(Items(View(), h))| == ITEMS
      ensures found <==> Index(old(Items(View(), h)), digest) < ITEMS
      ensures View() == if found then Touch(old(View()), h, Index(old(Items(View(), h)), digest)) else old(View())
      ensures !found ==> zeros == Zeros(Items(View(), h))
    {
      hide Decoded, StampByte, MoveToFront, Index, Zeros;
      ghost var was := d[..];
      RowIs(h);
      var rank;
      rank, zeros := LookupBucket(d, h * DEPTH, digest);
      found := rank < ITEMS;
      if found {
        Sort(h, rank);
      }
    }

    method Sort(h: nat, rank: nat)
      requires Shaped() && h < 2 * half && rank < ITEMS
      modifies d
      ensures View() == Touch(old(View()), h, rank)
    {
      hide Decoded, Stamp, MoveToFront, Byte;
      ghost var was := d[..];
      RowIs(h);
      if rank < DEPTH {
        SortLower(d, h * DEPTH, rank);
      } else {
        SortUpper(d, h * DEPTH, rank);
      }
      RowIs(h);
      OneBucket(was, d[..], 2 * half, h);
    }

    /** stringhash9a_check for a key with hash m. */
    method CheckSerial(m: nat) returns (found: bool)
      requires Valid()
      modifies d
      ensures Valid() && View() == Live.Next(old(View()), Live.Look(m), half, limit)
      ensures found == Live.Found(old(View()), m, half)
    {
      hide KeyOf, MoveToFront, Index, View, Sh9aTable.Valid;
      var k := KeyOf(m, half);
      Live.KeyFits(View(), m, half);
      Live.StepValid(View(), Live.Look(m), half, limit);
      var zeros;
      found, zeros := LookupBucket2(k.h1, k.d1);
      if !found {
        found, zeros := LookupBucket2(k.h2, k.d2);
      }
    }

    /** sh9a_cmp_epoch: of two full buckets the older one gives up a digest, and the second one in a tie. */
    method CmpEpoch(k: Key) returns (first: bool)
      requires Shaped() && Fits(View(), k)
      ensures first == CompareEpochs(View(), k)
      ensures High(k.d1) == k.d1 ==> (first <==> Age(View(), k.h1) > Age(View(), k.h2))
    {
      hide Age, View, High;
      var diff1 := EpochAge(k.h1);
      var diff2 := EpochAge(k.h2);
      if diff1 > diff2 {
        first := true;
      } else if diff2 < diff1 {
        first := false;
      } else {
        first := k.d1 & 1 != 0;
      }
      if High(k.d1) == k.d1 {
        OlderGivesUp(View(), k);
      }
    }

    method EpochAge(h: nat) returns (age: bv8)
      requires Shaped() && h < 2 * half
      ensures age == Age(View(), h)
    {
      hide Decoded, Byte;
      RowIs(h);
      age := epoch - Byte(Low(d[h * DEPTH + DEPTH - 1]));
    }

    /** sh9a_update_bucket_epoch: the clock ticks and the bucket is stamped. */
    method UpdateEpoch(h: nat)
      requires Shaped() && h < 2 * half
      modifies d, `epoch, `insertCnt
      ensures View() == (
        var c := Tick(old(View()), limit);
        c.(buckets := c.buckets[h := Bucket(old(View().buckets[h].items), c.epoch)]))
    {
      insertCnt := insertCnt + 1;
      if insertCnt > limit {
        insertCnt := 0;
        epoch := epoch + 1;
      }
      StampBucket(h, epoch);
    }

    method StampBucket(h: nat, stamp: bv8)
      requires Shaped() && h < 2 * half
      modifies d
      ensures View() == old(View()).(buckets := old(View()).buckets[h := Bucket(old(View().buckets[h].items), stamp)])
    {
      hide Decoded, StampByte, SetLow, Low, High;
      ghost var was := d[..];
      var last := h * DEPTH + DEPTH - 1;
      RowIs(h);
      SliceUpdate(d[..], h * DEPTH, (h + 1) * DEPTH, DEPTH - 1, SetLow(d[last], stamp as Word));
      d[last] := SetLow(d[last], stamp as Word);
      assert d[..] == was[last := SetLow(was[last], stamp as Word)];
      Stamped(was[h * DEPTH..(h + 1) * DEPTH], d[..][h * DEPTH..(h + 1) * DEPTH], stamp);
      OneBucket(was, d[..], 2 * half, h);
    }

    /** sh9a_shift_new on a bucket of the table. */
    method Push(h: nat, a: Word)
      requires Shaped() && h < 2 * half && High(a) == a
      modifies d
      ensures |old(Items(View(), h))| == ITEMS
      ensures View() == old(View()).(buckets :=
        old(View()).buckets[h := old(View()).buckets[h].(items := PushFront(old(Items(View(), h)), a))])
    {
      hide Decoded, Stamp, PushFront, Byte, High;
      ghost var was := d[..];
      RowIs(h);
      ShiftNew(d, h * DEPTH, a);
      RowIs(h);
      OneBucket(was, d[..], 2 * half, h);
    }

    /** stringhash9a_set for a key with hash m. */
    method SetSerial(m: nat) returns (found: bool)
      requires Valid()
      modifies d, `epoch, `insertCnt, `drops
      ensures Valid() && View() == Live.Next(old(View()), Live.Put(m), half, limit)
      ensures found == Live.Found(old(View()), m, half)
    {
      hide KeyOf, MoveToFront, Index, View, Sh9aTable.Valid, Admit, Zeros;
      var k := KeyOf(m, half);
      Live.KeyFits(View(), m, half);
      Live.StepValid(View(), Live.Put(m), half, limit);
      var zeros1, zeros2;
      found, zeros1 := LookupBucket2(k.h1, k.d1);
      if !found {
        found, zeros2 := LookupBucket2(k.h2, k.d2);
        if !found {
          AdmitKey(k, zeros1, zeros2);
        }
      }
    }

    /** The part of set for a key that was not found. */
    method AdmitKey(k: Key, zeros1: nat, zeros2: nat)
      requires Shaped() && Fits(View(), k) && High(k.d1) == k.d1 && High(k.d2) == k.d2
      requires zeros1 == Zeros(Items(View(), k.h1)) && zeros2 == Zeros(Items(View(), k.h2))
      modifies d, `epoch, `insertCnt, `drops
      ensures View() == Admit(old(View()), k, limit)
    {
      hide High, Zeros, PushFront, CompareEpochs, Tick;
      ghost var t := View();
      var first := zeros1 > zeros2;
      if zeros1 == zeros2 {
        if zeros1 > 0 {
          first := true;
        } else {
          first := CmpEpoch(k);
          drops := drops + 1;
        }
      }
      ghost var counted := View();
      var h, a := if first then k.h1 else k.h2, if first then k.d1 else k.d2;
      Push(h, a);
      ghost var pushed := View();
      UpdateEpoch(h);
      AdmitInSteps(t, k, limit, h, counted, pushed, View());
    }
  }

  // Counting the drop, pushing the digest and stamping the bucket admit the key.
  lemma AdmitInSteps(t: Table, k: Key, limit: nat, h: nat, counted: Table, pushed: Table, stamped: Table)
    requires Fits(t, k) && h == Chosen(t, k) && h < |t.buckets| && |Items(t, h)| == ITEMS
    requires counted == t.(drops := t.drops + if Full(t, k) then 1 else 0)
    requires pushed == counted.(buckets :=
      counted.buckets[h := counted.buckets[h].(items := PushFront(Items(t, h), ChosenDigest(t, k)))])
    requires stamped ==
      var c := Tick(pushed, limit);
      c.(buckets := c.buckets[h := Bucket(pushed.buckets[h].items, c.epoch)])
    ensures stamped == Admit(t, k, limit)
  {
    hide Chosen, ChosenDigest, Full, PushFront;
    assert pushed.buckets[h := stamped.buckets[h]] == t.buckets[h := stamped.buckets[h]];
  }
}
