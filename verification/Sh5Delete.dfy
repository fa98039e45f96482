/** What a delete makes of a record: its key is gone, and its slot is the next one its bucket hands out. */
module Sh5Delete {
  import opened Optional
  import opened Lru
  import opened Sh5Lru
  import opened TwoChoice
  import opened Sh5Hash
  import opened Sh5Table
  import opened Sh5Live
  import opened Sh5Age

  lemma DropsDigest(s: List, i: nat)
    requires Good(s) && i < DEPTH && s[i].digest != 0
    ensures Index(Drop(s, i), s[i].digest) == DEPTH && Drop(s, i)[DEPTH - 1] == Item(s[i].bin, 0)
  {
    var r := Drop(s, i);
    assert forall k :: 0 <= k < DEPTH - 1 ==> r[k] == s[if k < i then k else k + 1];
  }

  lemma DeletedBucket(t: Table, m: nat, half: nat, limit: nat)
    requires half > 0 && Valid(t, half) && (KeyFits(t, m, half); Locate(t, KeyOf(m, half)).Some?)
    ensures (KeyFits(t, m, half); var p := Locate(t, KeyOf(m, half)).value;
      && p.0 < 2 * half && p.1 < |Items(t, p.0)| && Items(t, p.0)[p.1].digest != 0
      && Next(t, Remove(m), half, limit) == WithItems(t, p.0, Drop(Items(t, p.0), p.1))
      && Good(Items(t, p.0)))
  {
    hide KeyOf, Drop, Good;
    KeyFits(t, m, half);
    LocateFound(t, KeyOf(m, half));
  }

  /** After any run of a created table, a key that is deleted is not found. */
  lemma RemovedIsGone(calls: seq<Call>, m: nat, bits: nat, half: nat, limit: nat)
    requires bits <= 37 && half == Pow2(bits) && CallsOk(calls, half) && Ordinary(KeyOf(m, half))
    ensures Found(Next(After(Created(half), calls, half, limit), Remove(m), half, limit), m, half) == None
  {
    hide KeyOf, After, Created, Ordinary, Drop, Good, Sh5Table.Valid, Unique, Pow2;
    var t := After(Created(half), calls, half, limit);
    var k := KeyOf(m, half);
    AfterUnique(calls, bits, half, limit);
    AtMostOne(t, m, half);
    KeyFits(t, m, half);
    KeyFits(Next(t, Remove(m), half, limit), m, half);
    if Locate(t, k).Some? {
      DeletedBucket(t, m, half, limit);
      var p := Locate(t, k).value;
      DropsDigest(Items(t, p.0), p.1);
    }
  }

  /** The slot of a record that was deleted is the next one that its bucket hands out. */
  lemma SlotReused(t: Table, m: nat, n: nat, half: nat, limit: nat)
    requires half > 0 && Valid(t, half) && Found(t, m, half).Some?
    requires var r := Next(t, Remove(m), half, limit);
      && IsNew(r, KeyOf(n, half))
      && Gains(r, Next(r, Attach(n), half, limit), Found(t, m, half).value.bucket)
    ensures Attached(Next(t, Remove(m), half, limit), n, half, limit) == Found(t, m, half).value
  {
    hide KeyOf, Drop, Good, Sh5Table.Valid, Gains, Second, Tick, PushOver, IsNew;
    KeyFits(t, m, half);
    DeletedBucket(t, m, half, limit);
    var p := Locate(t, KeyOf(m, half)).value;
    DropsDigest(Items(t, p.0), p.1);
    var r := Next(t, Remove(m), half, limit);
    KeyFits(r, n, half);
    NewIsMissing(r, KeyOf(n, half));
    GainsIff(r, Attach(n), half, limit, p.0);
  }
}
