/** The packed form of a stringhash9a bucket: sixteen words with a digest of 24 bits each, whose low bytes
    spell five more digests and, in the last word, the epoch. */
module Sh9aBucket {
  import opened Lru

  type Word = bv32

  const DEPTH: nat := 16
  const SPREAD: nat := 5
  const ITEMS: nat := 21

  /** The digest in a word, under SH9A_DIGEST_MASK. */
  function High(w: Word): Word {
    w & 0xFFFFFF00
  }

  /** The byte below it, under SH9A_LEFTOVER_MASK. */
  function Low(w: Word): Word {
    w & 0x000000FF
  }

  /** A digest spelled by three low bytes, as sh9a_build_leftover collects it. */
  function Spelled(b0: Word, b1: Word, b2: Word): Word {
    Join(Low(b0), Low(b1), Low(b2))
  }

  function Join(x: Word, y: Word, z: Word): Word {
    (x << 8) | (y << 16) | (z << 24)
  }

  /** The 21 digests of a bucket by rank. */
  function Decoded(row: seq<Word>): (s: seq<Word>)
    requires |row| == DEPTH
    ensures |s| == ITEMS
    ensures forall r :: 0 <= r < DEPTH ==> s[r] == High(row[r])
    ensures forall j :: 0 <= j < SPREAD ==> s[DEPTH + j] == Spelled(row[3 * j], row[3 * j + 1], row[3 * j + 2])
  {
    seq(DEPTH, r requires 0 <= r < DEPTH => High(row[r]))
    + seq(SPREAD, j requires 0 <= j < SPREAD => Spelled(row[3 * j], row[3 * j + 1], row[3 * j + 2]))
  }

  function Stamp(row: seq<Word>): Word
    requires |row| == DEPTH
  {
    Low(row[DEPTH - 1])
  }

  lemma Spread(row: seq<Word>, j: nat)
    requires |row| == DEPTH && j < SPREAD
    ensures Decoded(row)[DEPTH + j] == Spelled(row[3 * j], row[3 * j + 1], row[3 * j + 2])
  {
  }

  /** The word x with the digest of y. */
  function SetHigh(x: Word, y: Word): (w: Word)
    ensures High(w) == High(y) && Low(w) == Low(x)
  {
    Low(x) | High(y)
  }

  /** The word x with the low byte of y. */
  function SetLow(x: Word, y: Word): (w: Word)
    ensures High(w) == High(x) && Low(w) == Low(y)
  {
    High(x) | Low(y)
  }

  lemma SpelledLow(a0: Word, a1: Word, a2: Word, b0: Word, b1: Word, b2: Word)
    requires Low(a0) == Low(b0) && Low(a1) == Low(b1) && Low(a2) == Low(b2)
    ensures Spelled(a0, a1, a2) == Spelled(b0, b1, b2)
  {
    hide Low, Join;
  }

  // The three upper bytes of a word, taken apart and spelled in low bytes.
  lemma TakenApart(b: Word, x0: Word, x1: Word, x2: Word)
    requires Low(x0) == (b & 0xFF00) >> 8 && Low(x1) == (b & 0xFF0000) >> 16 && Low(x2) == (b & 0xFF000000) >> 24
    ensures Spelled(x0, x1, x2) == High(b)
  {
  }

  ghost function Row(d: array<Word>, at: nat): (r: seq<Word>)
    requires at + DEPTH <= d.Length
    reads d
    ensures |r| == DEPTH && forall k :: 0 <= k < DEPTH ==> r[k] == d[at + k]
  {
    d[at..at + DEPTH]
  }

  /** Words 1 to n take the digest of the word before, and keep their low bytes. */
  method ShiftDigests(d: array<Word>, at: nat, n: nat)
    requires at + DEPTH <= d.Length && n < DEPTH
    modifies d
    ensures forall p :: at < p <= at + n ==> High(d[p]) == High(old(d[p - 1])) && Low(d[p]) == Low(old(d[p]))
    ensures forall p :: 0 <= p < d.Length && !(at < p <= at + n) ==> d[p] == old(d[p])
  {
    hide High, Low, SetHigh;
    ghost var was := d[..];
    for i := n downto 0
      invariant forall p :: 0 <= p < d.Length && !(at + i < p <= at + n) ==> d[p] == was[p]
      invariant forall p :: at + i < p <= at + n ==> High(d[p]) == High(was[p - 1]) && Low(d[p]) == Low(was[p])
    {
      d[at + i + 1] := SetHigh(d[at + i + 1], d[at + i]);
    }
  }

  /** sh9a_sort_lru_lower: the digests in front of place mru move back by one, the low bytes stay. */
  method SortLower(d: array<Word>, at: nat, mru: nat)
    requires at + DEPTH <= d.Length && mru < DEPTH
    modifies d
    ensures Decoded(Row(d, at)) == MoveToFront(old(Decoded(Row(d, at))), mru)
    ensures Stamp(Row(d, at)) == old(Stamp(Row(d, at)))
    ensures forall k :: 0 <= k < d.Length && !(at <= k < at + DEPTH) ==> d[k] == old(d[k])
  {
    hide High, Low, SetHigh, Decoded, MoveToFront;
    ghost var was := Row(d, at);
    var a := High(d[at + mru]);
    ShiftDigests(d, at, mru);
    HighHigh(was[mru]);
    d[at] := SetHigh(d[at], a);
    LowerMoved(was, Row(d, at), mru);
  }

  lemma HighHigh(w: Word)
    ensures High(High(w)) == High(w)
  {
  }

  lemma LowerMoved(was: seq<Word>, now: seq<Word>, mru: nat)
    requires |was| == |now| == DEPTH && mru < DEPTH && High(now[0]) == High(was[mru])
    requires forall k :: 0 < k <= mru ==> High(now[k]) == High(was[k - 1])
    requires forall k :: mru < k < DEPTH ==> High(now[k]) == High(was[k])
    requires forall k :: 0 <= k < DEPTH ==> Low(now[k]) == Low(was[k])
    ensures Decoded(now) == MoveToFront(Decoded(was), mru)
  {
    hide High, Low, Spelled;
    var s, r := Decoded(now), MoveToFront(Decoded(was), mru);
    forall k | 0 <= k < ITEMS
      ensures s[k] == r[k]
    {
      assert r[k] == Decoded(was)[if k == 0 then mru else if k <= mru then k - 1 else k];
      if k >= DEPTH {
        var j := k - DEPTH;
        SpelledLow(now[3 * j], now[3 * j + 1], now[3 * j + 2], was[3 * j], was[3 * j + 1], was[3 * j + 2]);
      }
    }
  }

  /** Three low bytes take those of the group before. */
  method CopyGroup(d: array<Word>, k: nat)
    requires 3 <= k && k + 3 <= d.Length
    modifies d
    ensures forall p :: k <= p < k + 3 ==> Low(d[p]) == Low(old(d[p - 3])) && High(d[p]) == High(old(d[p]))
    ensures forall p :: 0 <= p < d.Length && !(k <= p < k + 3) ==> d[p] == old(d[p])
  {
    hide High, Low, SetLow;
    d[k] := SetLow(d[k], d[k - 3]);
    d[k + 1] := SetLow(d[k + 1], d[k - 2]);
    d[k + 2] := SetLow(d[k + 2], d[k - 1]);
  }

  /** The low bytes of the groups of three words 1 to n take those of the group before. */
  method ShiftLeftovers(d: array<Word>, at: nat, n: nat)
    requires at + DEPTH <= d.Length && n < SPREAD
    modifies d
    ensures forall p :: at + 3 <= p < at + 3 * (n + 1) ==>
        Low(d[p]) == Low(old(d[p - 3])) && High(d[p]) == High(old(d[p]))
    ensures forall p :: 0 <= p < d.Length && !(at + 3 <= p < at + 3 * (n + 1)) ==> d[p] == old(d[p])
  {
    hide High, Low;
    for j := n downto 0
      invariant forall p :: at + 3 * (j + 1) <= p < at + 3 * (n + 1) ==>
          Low(d[p]) == Low(old(d[p - 3])) && High(d[p]) == High(old(d[p]))
      invariant forall p :: 0 <= p < d.Length && !(at + 3 * (j + 1) <= p < at + 3 * (n + 1)) ==> d[p] == old(d[p])
    {
      CopyGroup(d, at + 3 * (j + 1));
    }
  }

  /** The digest of b is spelled in the first three low bytes. */
  method Spell(d: array<Word>, at: nat, b: Word)
    requires at + DEPTH <= d.Length
    modifies d
    ensures Spelled(d[at], d[at + 1], d[at + 2]) == High(b)
    ensures forall p :: at <= p < at + 3 ==> High(d[p]) == High(old(d[p]))
    ensures forall p :: 0 <= p < d.Length && !(at <= p < at + 3) ==> d[p] == old(d[p])
  {
    hide High, Low, SetLow, Spelled;
    Bytes(b);
    d[at] := SetLow(d[at], (b & 0xFF00) >> 8);
    d[at + 1] := SetLow(d[at + 1], (b & 0xFF0000) >> 16);
    d[at + 2] := SetLow(d[at + 2], (b & 0xFF000000) >> 24);
    TakenApart(b, d[at], d[at + 1], d[at + 2]);
  }

  /** All digests of the words move back by one; the last is spelled in the first three low bytes. */
  method PushLower(d: array<Word>, at: nat, a: Word)
    requires at + DEPTH <= d.Length && High(a) == a
    modifies d
    ensures High(d[at]) == a
    ensures forall p :: at < p < at + DEPTH ==> High(d[p]) == High(old(d[p - 1]))
    ensures forall p :: at + 3 <= p < at + DEPTH ==> Low(d[p]) == Low(old(d[p]))
    ensures Spelled(d[at], d[at + 1], d[at + 2]) == High(old(d[at + DEPTH - 1]))
    ensures forall k :: 0 <= k < d.Length && !(at <= k < at + DEPTH) ==> d[k] == old(d[k])
  {
    hide High, Low, SetHigh, Spelled;
    var b := d[at + DEPTH - 1];
    ShiftDigests(d, at, DEPTH - 1);
    Spell(d, at, b);
    ghost var first := d[at];
    d[at] := SetHigh(d[at], a);
    SpelledLow(d[at], d[at + 1], d[at + 2], first, d[at + 1], d[at + 2]);
  }

  lemma Bytes(b: Word)
    ensures Low((b & 0xFF00) >> 8) == (b & 0xFF00) >> 8
    ensures Low((b & 0xFF0000) >> 16) == (b & 0xFF0000) >> 16
    ensures Low((b & 0xFF000000) >> 24) == (b & 0xFF000000) >> 24
  {
  }

  /** The low bytes up to group j and all digests move back by one rank, and a comes first. */
  method PushRank(d: array<Word>, at: nat, j: nat, a: Word)
    requires at + DEPTH <= d.Length && j < SPREAD && High(a) == a
    modifies d
    ensures Decoded(Row(d, at))[0] == a
    ensures forall r :: 0 < r <= DEPTH + j ==> Decoded(Row(d, at))[r] == old(Decoded(Row(d, at)))[r - 1]
    ensures forall r :: DEPTH + j < r < ITEMS ==> Decoded(Row(d, at))[r] == old(Decoded(Row(d, at)))[r]
    ensures Stamp(Row(d, at)) == old(Stamp(Row(d, at)))
    ensures forall k :: 0 <= k < d.Length && !(at <= k < at + DEPTH) ==> d[k] == old(d[k])
  {
    hide High, Low, Spelled, Decoded;
    ghost var was := Row(d, at);
    ShiftLeftovers(d, at, j);
    PushLower(d, at, a);
    UpperMoved(was, Row(d, at), j, a);
  }

  /** sh9a_sort_lru_upper: a spread digest comes first, those before it move back through the low bytes. */
  method SortUpper(d: array<Word>, at: nat, mru: nat)
    requires at + DEPTH <= d.Length && DEPTH <= mru < ITEMS
    modifies d
    ensures Decoded(Row(d, at)) == MoveToFront(old(Decoded(Row(d, at))), mru)
    ensures Stamp(Row(d, at)) == old(Stamp(Row(d, at)))
    ensures forall k :: 0 <= k < d.Length && !(at <= k < at + DEPTH) ==> d[k] == old(d[k])
  {
    hide High, Low, Spelled, Decoded, MoveToFront, Stamp;
    ghost var was := Row(d, at);
    var j := mru - DEPTH;
    var a := Spelled(d[at + 3 * j], d[at + 3 * j + 1], d[at + 3 * j + 2]);
    Spread(was, j);
    HighSpelled(d[at + 3 * j], d[at + 3 * j + 1], d[at + 3 * j + 2]);
    PushRank(d, at, j, a);
    UpperIsMove(Decoded(was), Decoded(Row(d, at)), mru);
  }

  /** A new digest comes first and the last rank is lost. */
  function PushFront(s: seq<Word>, d: Word): seq<Word>
    requires |s| == ITEMS
  {
    [d] + s[..ITEMS - 1]
  }

  /** sh9a_shift_new: a new digest comes first and the last one is lost. */
  method ShiftNew(d: array<Word>, at: nat, a: Word)
    requires at + DEPTH <= d.Length && High(a) == a
    modifies d
    ensures Decoded(Row(d, at)) == PushFront(old(Decoded(Row(d, at))), a)
    ensures Stamp(Row(d, at)) == old(Stamp(Row(d, at)))
    ensures forall k :: 0 <= k < d.Length && !(at <= k < at + DEPTH) ==> d[k] == old(d[k])
  {
    hide High, Decoded, Stamp;
    PushRank(d, at, SPREAD - 1, a);
  }

  lemma HighSpelled(b0: Word, b1: Word, b2: Word)
    ensures High(Spelled(b0, b1, b2)) == Spelled(b0, b1, b2)
  {
    hide High, Low, Join;
    HighJoin(Low(b0), Low(b1), Low(b2));
  }

  lemma HighJoin(x: Word, y: Word, z: Word)
    ensures High(Join(x, y, z)) == Join(x, y, z)
  {
  }

  // A spread digest comes from the group before, or stays.
  lemma SpreadMoved(was: seq<Word>, now: seq<Word>, j: nat, i: nat)
    requires |was| == |now| == DEPTH && j < SPREAD && 0 < i < SPREAD
    requires forall k :: 3 <= k < 3 * (j + 1) ==> Low(now[k]) == Low(was[k - 3])
    requires forall k :: 3 * (j + 1) <= k < DEPTH ==> Low(now[k]) == Low(was[k])
    ensures Decoded(now)[DEPTH + i] == Decoded(was)[DEPTH + if i <= j then i - 1 else i]
  {
    hide High, Low, Spelled, Decoded;
    var m := if i <= j then i - 1 else i;
    Spread(now, i);
    Spread(was, m);
    SpelledLow(now[3 * i], now[3 * i + 1], now[3 * i + 2], was[3 * m], was[3 * m + 1], was[3 * m + 2]);
  }

  // Ranks 1 to 16 + j hold the digest one rank before, ranks behind are as they were.
  lemma UpperMoved(was: seq<Word>, now: seq<Word>, j: nat, a: Word)
    requires |was| == |now| == DEPTH && j < SPREAD && High(now[0]) == a
    requires forall k :: 0 < k < DEPTH ==> High(now[k]) == High(was[k - 1])
    requires Spelled(now[0], now[1], now[2]) == High(was[DEPTH - 1])
    requires forall k :: 3 <= k < 3 * (j + 1) ==> Low(now[k]) == Low(was[k - 3])
    requires forall k :: 3 * (j + 1) <= k < DEPTH ==> Low(now[k]) == Low(was[k])
    ensures Decoded(now)[0] == a
    ensures forall r :: 0 < r <= DEPTH + j ==> Decoded(now)[r] == Decoded(was)[r - 1]
    ensures forall r :: DEPTH + j < r < ITEMS ==> Decoded(now)[r] == Decoded(was)[r]
  {
    hide High, Low, Spelled, Decoded;
    forall r | 0 < r < ITEMS
      ensures Decoded(now)[r] == Decoded(was)[if r <= DEPTH + j then r - 1 else r]
    {
      if r >= DEPTH {
        Spread(now, r - DEPTH);
      }
      if r > DEPTH {
        SpreadMoved(was, now, j, r - DEPTH);
      }
    }
  }

  lemma UpperIsMove(was: seq<Word>, now: seq<Word>, mru: nat)
    requires |was| == |now| == ITEMS && mru < ITEMS && now[0] == was[mru]
    requires forall r :: 0 < r <= mru ==> now[r] == was[r - 1]
    requires forall r :: mru < r < ITEMS ==> now[r] == was[r]
    ensures now == MoveToFront(was, mru)
  {
  }

  // ----- lookup -----

  /** The first place of a digest, or the length. */
  function Index(s: seq<Word>, digest: Word): (i: nat)
    ensures i <= |s| && (i < |s| ==> s[i] == digest)
    ensures forall j :: 0 <= j < i ==> s[j] != digest
  {
    if s == [] || s[0] == digest then 0 else Index(s[1..], digest) + 1
  }

  function Zeros(s: seq<Word>): (n: nat)
    ensures n <= |s|
  {
    if s == [] then 0 else Zeros(s[..|s| - 1]) + if s[|s| - 1] == 0 then 1 else 0
  }

  /** What has been collected of spread digest j once the words in front of i were seen. */
  function Collected(row: seq<Word>, j: nat, i: nat): Word
    requires |row| == DEPTH && j < SPREAD
  {
    Join(if 3 * j < i then Low(row[3 * j]) else 0,
         if 3 * j + 1 < i then Low(row[3 * j + 1]) else 0,
         if 3 * j + 2 < i then Low(row[3 * j + 2]) else 0)
  }

  /** The low byte of word i at its place in the spread digest. */
  function Placed(partial: Word, i: nat): Word {
    if i % 3 == 0 then partial << 8 else if i % 3 == 1 then partial << 16 else partial << 24
  }

  lemma CollectedGroup(row: seq<Word>, j: nat, c: nat)
    requires |row| == DEPTH && j < SPREAD && c < 3
    ensures Collected(row, j, 3 * j + c + 1) == Collected(row, j, 3 * j + c) | Placed(Low(row[3 * j + c]), 3 * j + c)
  {
    hide Low, Join;
    if c == 0 {
      JoinFirst(Low(row[3 * j]));
    } else if c == 1 {
      JoinSecond(Low(row[3 * j]), Low(row[3 * j + 1]));
    } else {
      JoinThird(Low(row[3 * j]), Low(row[3 * j + 1]), Low(row[3 * j + 2]));
    }
  }

  lemma CollectedElsewhere(row: seq<Word>, i: nat, j: nat)
    requires |row| == DEPTH && i < DEPTH && j < SPREAD && (i == DEPTH - 1 || j != i / 3)
    ensures Collected(row, j, i + 1) == Collected(row, j, i)
  {
    hide Low, Join;
  }

  /** sh9a_build_leftover: the low byte of word i joins its spread digest. */
  method BuildLeftover(i: nat, leftover: seq<Word>, w: Word, ghost row: seq<Word>) returns (r: seq<Word>)
    requires |row| == DEPTH && i < DEPTH && w == row[i]
    requires |leftover| == SPREAD && forall j :: 0 <= j < SPREAD ==> leftover[j] == Collected(row, j, i)
    ensures |r| == SPREAD && forall j :: 0 <= j < SPREAD ==> r[j] == Collected(row, j, i + 1)
  {
    hide Low, Join, Collected, Placed;
    r := leftover;
    if i <= 14 {
      var idx := i / 3;
      r := r[idx := r[idx] | Placed(Low(w), i)];
      CollectedGroup(row, idx, i % 3);
    }
    forall j | 0 <= j < SPREAD && (i == DEPTH - 1 || j != i / 3)
      ensures Collected(row, j, i + 1) == Collected(row, j, i)
    {
      CollectedElsewhere(row, i, j);
    }
  }

  lemma JoinFirst(x: Word)
    ensures Join(x, 0, 0) == Join(0, 0, 0) | (x << 8)
  {
  }

  lemma JoinSecond(x: Word, y: Word)
    ensures Join(x, y, 0) == Join(x, 0, 0) | (y << 16)
  {
  }

  lemma JoinThird(x: Word, y: Word, z: Word)
    ensures Join(x, y, z) == Join(x, y, 0) | (z << 24)
  {
  }

  lemma ZerosNone()
    ensures Zeros([]) == 0
  {
  }

  lemma ZerosNext(s: seq<Word>, n: nat)
    requires n < |s|
    ensures Zeros(s[..n + 1]) == Zeros(s[..n]) + if s[n] == 0 then 1 else 0
  {
    assert s[..n + 1][..n] == s[..n];
  }

  /** The part of the lookup that goes through the words and collects the spread digests. */
  method LookupWords(d: array<Word>, at: nat, digest: Word) returns (rank: nat, zeros: nat, leftover: seq<Word>)
    requires at + DEPTH <= d.Length
    ensures rank <= DEPTH && |leftover| == SPREAD
    ensures forall k :: 0 <= k < rank ==> Decoded(Row(d, at))[k] != digest
    ensures rank < DEPTH ==> Decoded(Row(d, at))[rank] == digest
    ensures rank == DEPTH ==> zeros == Zeros(Decoded(Row(d, at))[..DEPTH])
    ensures rank == DEPTH ==> forall j :: 0 <= j < SPREAD ==> leftover[j] == Collected(Row(d, at), j, DEPTH)
  {
    hide High, Low, Join, Collected, Decoded, Zeros;
    ghost var row := Row(d, at);
    ghost var s := Decoded(row);
    ZerosNone();
    leftover := [0, 0, 0, 0, 0];
    zeros, rank := 0, 0;
    forall j | 0 <= j < SPREAD
      ensures Collected(row, j, 0) == 0
    {
      CollectedNone(row, j);
    }
    while rank < DEPTH && digest != High(d[at + rank])
      invariant rank <= DEPTH && zeros == Zeros(s[..rank]) && forall k :: 0 <= k < rank ==> s[k] != digest
      invariant |leftover| == SPREAD && forall j :: 0 <= j < SPREAD ==> leftover[j] == Collected(row, j, rank)
    {
      ZerosNext(s, rank);
      zeros := zeros + if High(d[at + rank]) == 0 then 1 else 0;
      leftover := BuildLeftover(rank, leftover, d[at + rank], row);
      rank := rank + 1;
    }
  }

  lemma CollectedNone(row: seq<Word>, j: nat)
    requires |row| == DEPTH && j < SPREAD
    ensures Collected(row, j, 0) == 0
  {
    JoinZero();
  }

  lemma CollectedAll(row: seq<Word>, j: nat)
    requires |row| == DEPTH && j < SPREAD
    ensures Collected(row, j, DEPTH) == Decoded(row)[DEPTH + j]
  {
    hide Low, Join, Decoded;
    Spread(row, j);
  }

  /** sh9a_lookup_bucket2 up to the sort: the rank of a digest, or the number of free ranks. */
  method LookupBucket(d: array<Word>, at: nat, digest: Word) returns (rank: nat, zeros: nat)
    requires at + DEPTH <= d.Length
    ensures rank == Index(Decoded(Row(d, at)), digest)
    ensures rank == ITEMS ==> zeros == Zeros(Decoded(Row(d, at)))
  {
    hide Collected, Decoded, Zeros, Index;
    var leftover;
    rank, zeros, leftover := LookupWords(d, at, digest);
    if rank == DEPTH {
      rank, zeros := LookupSpread(leftover, digest, zeros, Row(d, at));
    }
  }

  method LookupSpread(leftover: seq<Word>, digest: Word, start: nat, ghost row: seq<Word>)
    returns (rank: nat, zeros: nat)
    requires |row| == DEPTH && |leftover| == SPREAD && start == Zeros(Decoded(row)[..DEPTH])
    requires forall j :: 0 <= j < SPREAD ==> leftover[j] == Collected(row, j, DEPTH)
    requires forall k :: 0 <= k < DEPTH ==> Decoded(row)[k] != digest
    ensures DEPTH <= rank <= ITEMS && (rank < ITEMS ==> Decoded(row)[rank] == digest)
    ensures forall k :: 0 <= k < rank ==> Decoded(row)[k] != digest
    ensures rank == ITEMS ==> zeros == Zeros(Decoded(row))
  {
    hide Collected, Decoded;
    ghost var s := Decoded(row);
    rank, zeros := DEPTH, start;
    while rank < ITEMS && digest != leftover[rank - DEPTH]
      invariant DEPTH <= rank <= ITEMS && zeros == Zeros(s[..rank]) && forall k :: 0 <= k < rank ==> s[k] != digest
    {
      CollectedAll(row, rank - DEPTH);
      assert s[..rank + 1][..rank] == s[..rank];
      zeros := zeros + if leftover[rank - DEPTH] == 0 then 1 else 0;
      rank := rank + 1;
    }
    if rank < ITEMS {
      CollectedAll(row, rank - DEPTH);
    }
    assert s[..ITEMS] == s;
  }

  lemma JoinZero()
    ensures Join(0, 0, 0) == 0
  {
  }
}
