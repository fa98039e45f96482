/** The hash table of listhash.c: two rows for a key, each a chain of blocks, refines a map. */
module ListHash {
  import opened Optional
  import opened Sequences

  type Key = seq<bv8>

  /** A record's address; none is a null pointer. */
  type Data = Option<nat>

  /** How many records a block holds. */
  const DIGEST_DEPTH := 7

  datatype Entry = Entry(digest: nat, key: Key, data: Data, isReference: bool)

  /** The list of a row's blocks, first to last, and the number of records in all of them. */
  datatype Row = Row(depth: nat, blocks: seq<seq<Entry>>)

  datatype Hashes = Hashes(h1: nat, h2: nat, digest: nat)

  function Flat(blocks: seq<seq<Entry>>): seq<Entry> {
    if blocks == [] then [] else Flat(blocks[..|blocks| - 1]) + blocks[|blocks| - 1]
  }

  /** Every block but the last is full and the last is not empty. */
  predicate Packed(blocks: seq<seq<Entry>>) {
    forall i :: 0 <= i < |blocks| ==>
      0 < |blocks[i]| <= DIGEST_DEPTH && (i < |blocks| - 1 ==> |blocks[i]| == DIGEST_DEPTH)
  }

  /** A chain with one more record: in its last block while that has room, in a new block otherwise. */
  function Attached(blocks: seq<seq<Entry>>, e: Entry): (r: seq<seq<Entry>>)
  {
    var n := |blocks|;
    if n == 0 || |blocks[n - 1]| >= DIGEST_DEPTH then blocks + [[e]]
    else blocks[..n - 1] + [blocks[n - 1] + [e]]
  }

  lemma AttachedIsAppend(blocks: seq<seq<Entry>>, e: Entry)
    requires Packed(blocks)
    ensures Packed(Attached(blocks, e)) && Flat(Attached(blocks, e)) == Flat(blocks) + [e]
  {
    var r := Attached(blocks, e);
    assert r[..|r| - 1] == if |r| == |blocks| then blocks[..|blocks| - 1] else blocks;
  }

  /** The address of the first record with the key, or none. */
  function FirstData(es: seq<Entry>, digest: nat, key: Key): Data {
    if es == [] then None
    else if es[0].digest == digest && es[0].key == key then es[0].data
    else FirstData(es[1..], digest, key)
  }

  lemma {:induction false} FirstDataAppend(a: seq<Entry>, b: seq<Entry>, digest: nat, key: Key)
    requires forall i :: 0 <= i < |a| ==> a[i].digest != digest || a[i].key != key
    ensures FirstData(a + b, digest, key) == FirstData(b, digest, key)
  {
    if a == [] {
      assert a + b == b;
    } else {
      assert (a + b)[1..] == a[1..] + b;
      FirstDataAppend(a[1..], b, digest, key);
    }
  }

  /** What the table records of a key. */
  datatype Slot = Slot(data: Data, isReference: bool)

  type Rows = seq<seq<Entry>>

  function Index1(hash: Key -> Hashes, n: nat, key: Key): (r: nat)
    requires n > 0
    ensures r < n
  {
    hash(key).h2 % n
  }

  function Index2(hash: Key -> Hashes, n: nat, key: Key): (r: nat)
    requires n > 0
    ensures r < n
  {
    hash(key).h1 % n
  }

  predicate At(rows: Rows, r: nat, i: nat, key: Key) {
    r < |rows| && i < |rows[r]| && rows[r][i].key == key
  }

  /** A record stands in one of its key's two rows, under its key's digest, with what the map holds for its key. */
  predicate Placed(rows: Rows, hash: Key -> Hashes, dict: map<Key, Slot>, r: nat, e: Entry)
    requires |rows| > 0
  {
    (r == Index1(hash, |rows|, e.key) || r == Index2(hash, |rows|, e.key)) &&
    e.digest == hash(e.key).digest && e.key in dict && dict[e.key] == Slot(e.data, e.isReference)
  }

  /** No key has two records. */
  ghost predicate Unique(rows: Rows) {
    forall r, i, s, j, key :: At(rows, r, i, key) && At(rows, s, j, key) ==> r == s && i == j
  }

  /** Every key of the map has a record. */
  ghost predicate Present(rows: Rows, dict: map<Key, Slot>) {
    forall key :: key in dict ==> exists r: nat, i: nat :: At(rows, r, i, key)
  }

  ghost predicate AllPlaced(rows: Rows, hash: Key -> Hashes, dict: map<Key, Slot>)
    requires |rows| > 0
  {
    forall r, i :: 0 <= r < |rows| && 0 <= i < |rows[r]| ==> Placed(rows, hash, dict, r, rows[r][i])
  }

  /** The rows hold the map, every key of it once. */
  ghost predicate Holds(rows: Rows, hash: Key -> Hashes, dict: map<Key, Slot>) {
    |rows| > 0 && AllPlaced(rows, hash, dict) && Unique(rows) && Present(rows, dict)
  }

  function Lookup(dict: map<Key, Slot>, key: Key): Data {
    if key in dict then dict[key].data else None
  }

  lemma {:induction false} FirstDataAt(es: seq<Entry>, digest: nat, key: Key, i: nat)
    requires i < |es| && es[i].key == key && es[i].digest == digest
    requires forall j :: 0 <= j < |es| && es[j].key == key ==> j == i
    ensures FirstData(es, digest, key) == es[i].data
  {
    if i > 0 {
      FirstDataAt(es[1..], digest, key, i - 1);
    }
  }

  lemma {:induction false} FirstDataAbsent(es: seq<Entry>, digest: nat, key: Key)
    requires forall j :: 0 <= j < |es| ==> es[j].key != key
    ensures FirstData(es, digest, key) == None
  {
    if es != [] {
      FirstDataAbsent(es[1..], digest, key);
    }
  }

  /** What a row gives for a key: what the map holds if the record stands there, nothing otherwise. */
  lemma RowLookup(rows: Rows, hash: Key -> Hashes, dict: map<Key, Slot>, r: nat, key: Key)
    requires Holds(rows, hash, dict) && r < |rows|
    ensures (exists i: nat :: At(rows, r, i, key)) ==>
        key in dict && FirstData(rows[r], hash(key).digest, key) == dict[key].data
    ensures !(exists i: nat :: At(rows, r, i, key)) ==> FirstData(rows[r], hash(key).digest, key) == None
  {
    if i: nat :| At(rows, r, i, key) {
      assert Placed(rows, hash, dict, r, rows[r][i]);
      forall j | 0 <= j < |rows[r]| && rows[r][j].key == key
        ensures j == i
      {
        assert At(rows, r, j, key);
      }
      FirstDataAt(rows[r], hash(key).digest, key, i);
    } else {
      forall j | 0 <= j < |rows[r]|
        ensures rows[r][j].key != key
      {
        assert !At(rows, r, j, key);
      }
      FirstDataAbsent(rows[r], hash(key).digest, key);
    }
  }

  /** Looking in the one row and, finding nothing, in the other is looking in the map. */
  lemma LookupHolds(rows: Rows, hash: Key -> Hashes, dict: map<Key, Slot>, key: Key)
    requires Holds(rows, hash, dict)
    ensures var first := FirstData(rows[Index1(hash, |rows|, key)], hash(key).digest, key);
            Lookup(dict, key) ==
            if first.Some? then first else FirstData(rows[Index2(hash, |rows|, key)], hash(key).digest, key)
  {
    hide FirstData;
    var r1, r2 := Index1(hash, |rows|, key), Index2(hash, |rows|, key);
    RowLookup(rows, hash, dict, r1, key);
    RowLookup(rows, hash, dict, r2, key);
    if key in dict {
      var r: nat, i: nat :| At(rows, r, i, key);
      assert Placed(rows, hash, dict, r, rows[r][i]);
      assert r == r1 || r == r2;
    }
  }

  /** A record of a new key put at the end of either of its rows makes the rows hold the map with that key. */
  lemma AttachHolds(rows: Rows, hash: Key -> Hashes, dict: map<Key, Slot>, r: nat, e: Entry)
    requires Holds(rows, hash, dict) && e.key !in dict && e.digest == hash(e.key).digest
    requires r == Index1(hash, |rows|, e.key) || r == Index2(hash, |rows|, e.key)
    ensures Holds(rows[r := rows[r] + [e]], hash, dict[e.key := Slot(e.data, e.isReference)])
  {
    var next, more := rows[r := rows[r] + [e]], dict[e.key := Slot(e.data, e.isReference)];
    forall s, i | 0 <= s < |next| && 0 <= i < |next[s]|
      ensures Placed(next, hash, more, s, next[s][i])
    {
      if i < |rows[s]| {
        assert Placed(rows, hash, dict, s, rows[s][i]);
      }
    }
    forall s: nat, i: nat, key | At(next, s, i, key)
      ensures key == e.key ==> s == r && i == |rows[r]|
      ensures key != e.key ==> At(rows, s, i, key)
    {
      if i < |rows[s]| {
        assert Placed(rows, hash, dict, s, rows[s][i]);
      }
    }
    AttachPresent(rows, dict, r, e);
  }

  /** A record of a key that has one already is a second one. */
  lemma AttachTwice(rows: Rows, hash: Key -> Hashes, dict: map<Key, Slot>, r: nat, e: Entry)
    requires Holds(rows, hash, dict) && e.key in dict && r < |rows|
    ensures !Unique(rows[r := rows[r] + [e]])
  {
    var next, last := rows[r := rows[r] + [e]], |rows[r]|;
    var s: nat, i: nat :| At(rows, s, i, e.key);
    assert At(next, s, i, e.key) && At(next, r, last, e.key);
  }

  lemma AttachPresent(rows: Rows, dict: map<Key, Slot>, r: nat, e: Entry)
    requires Present(rows, dict) && r < |rows|
    ensures Present(rows[r := rows[r] + [e]], dict[e.key := Slot(e.data, e.isReference)])
  {
    var next := rows[r := rows[r] + [e]];
    var last := |rows[r]|;
    assert At(next, r, last, e.key);
    forall key | key in dict
      ensures exists s: nat, i: nat :: At(next, s, i, key)
    {
      var s: nat, i: nat :| At(rows, s, i, key);
      assert At(next, s, i, key);
    }
  }

  /** The records of all rows, first to last. */
  function AllOf(rows: Rows): seq<Entry> {
    if rows == [] then [] else AllOf(rows[..|rows| - 1]) + rows[|rows| - 1]
  }

  /** The addresses of the records that the table owns. */
  function Owned(es: seq<Entry>): seq<Data> {
    if es == [] then []
    else Owned(es[..|es| - 1]) + if es[|es| - 1].isReference then [] else [es[|es| - 1].data]
  }

  /** Their keys. */
  function OwnedKeys(es: seq<Entry>): seq<Key> {
    if es == [] then []
    else OwnedKeys(es[..|es| - 1]) + if es[|es| - 1].isReference then [] else [es[|es| - 1].key]
  }

  lemma {:induction false} OwnedAppend(a: seq<Entry>, b: seq<Entry>)
    ensures Owned(a + b) == Owned(a) + Owned(b)
    ensures OwnedKeys(a + b) == OwnedKeys(a) + OwnedKeys(b)
  {
    if b == [] {
      assert a + b == a;
    } else {
      assert (a + b)[..|a + b| - 1] == a + b[..|b| - 1];
      OwnedAppend(a, b[..|b| - 1]);
    }
  }

  predicate OwnedAt(rows: Rows, r: nat, i: nat, key: Key) {
    At(rows, r, i, key) && !rows[r][i].isReference
  }

  /** The keys are different ones that the table owns records for, and the addresses are those of the records. */
  ghost predicate OwnedRight(dict: map<Key, Slot>, keys: seq<Key>, data: seq<Data>) {
    Distinct(keys) && |keys| == |data| &&
    forall i :: 0 <= i < |keys| ==> keys[i] in dict && dict[keys[i]] == Slot(data[i], false)
  }

  lemma OwnedJoin(dict: map<Key, Slot>, keys: seq<Key>, data: seq<Data>, moreKeys: seq<Key>, moreData: seq<Data>)
    requires OwnedRight(dict, keys, data) && OwnedRight(dict, moreKeys, moreData)
    requires forall k :: k in keys ==> k !in moreKeys
    ensures OwnedRight(dict, keys + moreKeys, data + moreData)
  {
    forall i, j | 0 <= i < |keys| && 0 <= j < |moreKeys|
      ensures keys[i] != moreKeys[j]
    {
      assert keys[i] in keys;
    }
  }

  /** The first n records of a row. */
  lemma {:induction false} RowOwned(rows: Rows, hash: Key -> Hashes, dict: map<Key, Slot>, r: nat, n: nat)
    requires Holds(rows, hash, dict) && r < |rows| && n <= |rows[r]|
    ensures OwnedRight(dict, OwnedKeys(rows[r][..n]), Owned(rows[r][..n]))
    ensures forall k :: k in OwnedKeys(rows[r][..n]) <==> exists i: nat :: i < n && OwnedAt(rows, r, i, k)
  {
    if n > 0 {
      var m: nat := n - 1;
      RowOwned(rows, hash, dict, r, m);
      var es, e := rows[r][..m], rows[r][m];
      assert rows[r][..n][..m] == es;
      assert Placed(rows, hash, dict, r, e) && At(rows, r, m, e.key);
      if !e.isReference {
        assert OwnedAt(rows, r, m, e.key);
        assert e.key !in OwnedKeys(es);
        OwnedJoin(dict, OwnedKeys(es), Owned(es), [e.key], [e.data]);
      }
    }
  }

  /** The records of the first n rows. */
  lemma {:induction false} RowsOwned(rows: Rows, hash: Key -> Hashes, dict: map<Key, Slot>, n: nat)
    requires Holds(rows, hash, dict) && n <= |rows|
    ensures OwnedRight(dict, OwnedKeys(AllOf(rows[..n])), Owned(AllOf(rows[..n])))
    ensures forall k :: k in OwnedKeys(AllOf(rows[..n])) <==> exists r: nat, i: nat :: r < n && OwnedAt(rows, r, i, k)
  {
    hide Holds, OwnedRight;
    if n == 0 {
      OwnedNone(dict);
    } else {
      var m: nat := n - 1;
      RowsOwned(rows, hash, dict, m);
      RowOwned(rows, hash, dict, m, |rows[m]|);
      var all, row := AllOf(rows[..m]), rows[m];
      assert rows[..n][..m] == rows[..m] && row[..|row|] == row;
      OwnedAppend(all, row);
      forall k | k in OwnedKeys(all)
        ensures k !in OwnedKeys(row)
      {
        var r: nat, i: nat :| r < m && OwnedAt(rows, r, i, k);
        OwnedElsewhere(rows, hash, dict, r, i, m, k);
      }
      OwnedJoin(dict, OwnedKeys(all), Owned(all), OwnedKeys(row), Owned(row));
    }
  }

  lemma OwnedNone(dict: map<Key, Slot>)
    ensures OwnedRight(dict, [], [])
  {
  }

  lemma OwnedElsewhere(rows: Rows, hash: Key -> Hashes, dict: map<Key, Slot>, r: nat, i: nat, s: nat, key: Key)
    requires Holds(rows, hash, dict) && OwnedAt(rows, r, i, key) && r != s
    ensures forall j: nat :: !OwnedAt(rows, s, j, key)
  {
  }

  /** Walking all rows comes once, and with its address, to every record that the table owns. */
  lemma OwnedOnce(rows: Rows, hash: Key -> Hashes, dict: map<Key, Slot>)
    requires Holds(rows, hash, dict)
    ensures OwnedRight(dict, OwnedKeys(AllOf(rows)), Owned(AllOf(rows)))
    ensures forall k :: k in OwnedKeys(AllOf(rows)) <==> k in dict && !dict[k].isReference
  {
    hide OwnedRight;
    RowsOwned(rows, hash, dict, |rows|);
    assert rows[..|rows|] == rows;
    forall k
      ensures (exists r: nat, i: nat :: r < |rows| && OwnedAt(rows, r, i, k)) <==> k in dict && !dict[k].isReference
    {
      if r: nat, i: nat :| r < |rows| && OwnedAt(rows, r, i, k) {
        assert Placed(rows, hash, dict, r, rows[r][i]);
      }
      if k in dict && !dict[k].isReference {
        var r: nat, i: nat :| At(rows, r, i, k);
        assert Placed(rows, hash, dict, r, rows[r][i]);
        assert OwnedAt(rows, r, i, k);
      }
    }
  }

  class ListHash {
    const hash: Key -> Hashes
    const table: array<Row>
    var records: nat
    /** What the table records of each key. */
    ghost var dict: map<Key, Slot>

    ghost function Contents(): (r: Rows)
      reads table
      ensures |r| == table.Length
    {
      seq(table.Length, i requires 0 <= i < table.Length reads table => Flat(table[i].blocks))
    }

    /** A row's blocks are packed and its depth is the number of its records. */
    ghost predicate RowsOk()
      reads table
    {
      forall r :: 0 <= r < table.Length ==> Packed(table[r].blocks) && table[r].depth == |Flat(table[r].blocks)|
    }

    ghost predicate Valid()
      reads this, table
    {
      RowsOk() && Holds(Contents(), hash, dict) && records == |dict|
    }

    constructor (hash: Key -> Hashes, size: nat)
      requires size > 0
      ensures Valid() && dict == map[] && fresh(table) && this.hash == hash && table.Length == size
    {
      this.hash, records, dict := hash, 0, map[];
      table := new Row[size](_ => Row(0, []));
    }

    /** lh_lookup: the first record in the row with the digest and the key. */
    method LookupRow(index: nat, digest: nat, key: Key) returns (data: Data)
      requires Valid() && index < table.Length
      ensures data == FirstData(Contents()[index], digest, key)
    {
      var blocks := table[index].blocks;
      ghost var seen: seq<Entry> := [];
      for b := 0 to |blocks|
        invariant seen == Flat(blocks[..b])
        invariant forall i :: 0 <= i < |seen| ==> seen[i].digest != digest || seen[i].key != key
      {
        var block := blocks[b];
        for i := 0 to |block|
          invariant forall j :: 0 <= j < i ==> block[j].digest != digest || block[j].key != key
        {
          if block[i].digest == digest && block[i].key == key {
            FoundAt(blocks, b, i, digest, key);
            return block[i].data;
          }
        }
        assert blocks[..b + 1][..b] == blocks[..b];
        seen := seen + block;
      }
      assert blocks[..|blocks|] == blocks;
      FirstDataAppend(seen, [], digest, key);
      assert seen + [] == seen;
      return None;
    }

    /** listhash_find: what the map holds. */
    method Find(key: Key) returns (data: Data)
      requires Valid()
      ensures data == Lookup(dict, key)
    {
      hide FirstData, RowsOk, Contents;
      LookupHolds(Contents(), hash, dict, key);
      var h := hash(key);
      data := LookupRow(h.h2 % table.Length, h.digest, key);
      if data.Some? {
        return;
      }
      data := LookupRow(h.h1 % table.Length, h.digest, key);
    }

    /** The chain with a record at the end of the first block that has room, or of a new last block. */
    method AddToChain(blocks: seq<seq<Entry>>, e: Entry) returns (r: seq<seq<Entry>>)
      requires Packed(blocks)
      ensures r == Attached(blocks, e)
    {
      if blocks == [] {
        return [[e]];
      }
      var b := 0;
      while |blocks[b]| >= DIGEST_DEPTH && b < |blocks| - 1
        invariant b < |blocks|
        decreases |blocks| - b
      {
        b := b + 1;
      }
      if |blocks[b]| < DIGEST_DEPTH {
        r := blocks[b := blocks[b] + [e]];
      } else {
        r := blocks + [[e]];
      }
    }

    /** lh_attach: the record goes to the row with fewer records, the first one if they have as many. */
    method Attach(index1: nat, index2: nat, e: Entry)
      requires Valid() && e.digest == hash(e.key).digest
      requires index1 == Index1(hash, table.Length, e.key) && index2 == Index2(hash, table.Length, e.key)
      modifies this, table
      ensures var r := if |old(Contents())[index1]| <= |old(Contents())[index2]| then index1 else index2;
              Contents() == old(Contents())[r := old(Contents())[r] + [e]]
      ensures e.key !in old(dict) ==> Valid() && dict == old(dict)[e.key := Slot(e.data, e.isReference)]
      ensures e.key in old(dict) ==> !Unique(Contents())
    {
      hide FirstData, Holds, Attached, Unique;
      var r := if table[index1].depth <= table[index2].depth then index1 else index2;
      ghost var rows := Contents();
      AttachedIsAppend(table[r].blocks, e);
      if e.key in dict {
        AttachTwice(rows, hash, dict, r, e);
      } else {
        AttachHolds(rows, hash, dict, r, e);
      }
      var blocks := AddToChain(table[r].blocks, e);
      table[r] := Row(table[r].depth + 1, blocks);
      records := records + 1;
      if e.key !in dict {
        dict := dict[e.key := Slot(e.data, e.isReference)];
      }
      assert Contents() == rows[r := rows[r] + [e]];
    }

    /** The key has a record whose address is null: one put in as a reference to nothing. */
    ghost predicate HoldsNull(key: Key)
      reads this
    {
      key in dict && dict[key].data == None
    }

    /**
     * listhash_find_attach: the record there is, or a new one at the address that calloc gives. The key then has
     * two records if and only if the one it had holds a null reference.
     */
    method FindAttach(key: Key, new_: nat) returns (data: Data)
      requires Valid()
      modifies this, table
      ensures Valid() <==> !old(HoldsNull(key))
      ensures Valid() ==> data == Lookup(dict, key) && data.Some?
      ensures Valid() ==> dict == if key in old(dict) then old(dict) else old(dict)[key := Slot(Some(new_), false)]
    {
      data := FindOrAttach(key, Some(new_), false);
    }

    /** listhash_find_attach_reference: the record there is, or one for the address given. */
    method FindAttachReference(key: Key, ref: Data) returns (data: Data)
      requires Valid()
      modifies this, table
      ensures Valid() <==> !old(HoldsNull(key))
      ensures Valid() ==> data == Lookup(dict, key)
      ensures Valid() ==> dict == if key in old(dict) then old(dict) else old(dict)[key := Slot(ref, true)]
    {
      data := FindOrAttach(key, ref, true);
    }

    /** What the two have in common. */
    method FindOrAttach(key: Key, fallback: Data, isReference: bool) returns (data: Data)
      requires Valid()
      modifies this, table
      ensures Valid() <==> !old(HoldsNull(key))
      ensures Valid() ==> data == Lookup(dict, key)
      ensures Valid() ==> dict == if key in old(dict) then old(dict) else old(dict)[key := Slot(fallback, isReference)]
    {
      hide FirstData, RowsOk, Contents, Unique;
      LookupHolds(Contents(), hash, dict, key);
      var h := hash(key);
      var index2, index1 := h.h2 % table.Length, h.h1 % table.Length;
      data := LookupRow(index2, h.digest, key);
      if data.Some? {
        return;
      }
      data := LookupRow(index1, h.digest, key);
      if data.Some? {
        return;
      }
      Attach(index2, index1, Entry(h.digest, key, fallback, isReference));
      data := fallback;
    }

    /** listhash_scour: the addresses that the callback is called with. */
    method Scour() returns (calls: seq<Data>)
      requires Valid()
      ensures calls == Owned(AllOf(Contents()))
      ensures OwnedRight(dict, OwnedKeys(AllOf(Contents())), calls)
      ensures forall k :: k in OwnedKeys(AllOf(Contents())) <==> k in dict && !dict[k].isReference
    {
      OwnedOnce(Contents(), hash, dict);
      calls := WalkOwned();
    }

    /** The loop over the records of a block. */
    static method WalkBlock(calls: seq<Data>, block: seq<Entry>) returns (r: seq<Data>)
      ensures r == calls + Owned(block)
    {
      r := calls;
      for i := 0 to |block|
        invariant r == calls + Owned(block[..i])
      {
        assert block[..i + 1][..i] == block[..i];
        if !block[i].isReference {
          r := r + [block[i].data];
        }
      }
      assert block[..|block|] == block;
    }

    /** The loop over the blocks of a row. */
    static method WalkRow(calls: seq<Data>, blocks: seq<seq<Entry>>) returns (r: seq<Data>)
      ensures r == calls + Owned(Flat(blocks))
    {
      hide Owned;
      NoneOwned();
      r := calls;
      for b := 0 to |blocks|
        invariant r == calls + Owned(Flat(blocks[..b]))
      {
        r := WalkBlock(r, blocks[b]);
        assert blocks[..b + 1][..b] == blocks[..b];
        OwnedAppend(Flat(blocks[..b]), blocks[b]);
      }
      assert blocks[..|blocks|] == blocks;
    }

    /** The loop over rows. */
    method WalkOwned() returns (calls: seq<Data>)
      ensures calls == Owned(AllOf(Contents()))
    {
      hide Owned, Flat;
      calls := [];
      ghost var rows := Contents();
      assert calls == Owned(AllOf([])) by {
        NoneOwned();
      }
      for r := 0 to table.Length
        invariant calls == Owned(AllOf(rows[..r]))
      {
        calls := WalkRow(calls, table[r].blocks);
        assert rows[..r + 1][..r] == rows[..r];
        OwnedAppend(AllOf(rows[..r]), rows[r]);
      }
      assert rows[..|rows|] == rows;
    }

    /** listhash_flush: every owned record is freed once, and nothing is left. */
    method Flush() returns (freed: seq<Data>)
      requires Valid()
      modifies this, table
      ensures Valid() && dict == map[]
      ensures freed == old(Owned(AllOf(Contents())))
      ensures OwnedRight(old(dict), old(OwnedKeys(AllOf(Contents()))), freed)
      ensures forall k :: k in old(OwnedKeys(AllOf(Contents()))) <==> k in old(dict) && !old(dict)[k].isReference
    {
      assert table.Length > 0;
      hide OwnedRight, OwnedKeys, Owned, Contents, Holds, RowsOk;
      freed := Scour();
      Clear();
      records, dict := 0, map[];
      NothingHeld(Contents(), hash);
    }

    method Clear()
      modifies table
      ensures RowsOk() && forall r :: 0 <= r < |Contents()| ==> Contents()[r] == []
    {
      for i := 0 to table.Length
        invariant forall j :: 0 <= j < i ==> table[j] == Row(0, [])
      {
        table[i] := Row(0, []);
      }
    }
  }

  lemma NoneOwned()
    ensures Owned([]) == []
  {
  }

  lemma NothingHeld(rows: Rows, hash: Key -> Hashes)
    requires |rows| > 0 && forall r :: 0 <= r < |rows| ==> rows[r] == []
    ensures Holds(rows, hash, map[])
  {
  }

  lemma {:induction false} FlatAppend(a: seq<seq<Entry>>, b: seq<seq<Entry>>)
    ensures Flat(a + b) == Flat(a) + Flat(b)
  {
    if b == [] {
      assert a + b == a;
    } else {
      assert (a + b)[..|a + b| - 1] == a + b[..|b| - 1];
      FlatAppend(a, b[..|b| - 1]);
    }
  }

  /** A first match in a block is the first match in the row when there is none in the blocks before. */
  lemma FoundAt(blocks: seq<seq<Entry>>, b: nat, i: nat, digest: nat, key: Key)
    requires b < |blocks| && i < |blocks[b]| && blocks[b][i].digest == digest && blocks[b][i].key == key
    requires forall j :: 0 <= j < |Flat(blocks[..b])| ==>
        Flat(blocks[..b])[j].digest != digest || Flat(blocks[..b])[j].key != key
    requires forall j :: 0 <= j < i ==> blocks[b][j].digest != digest || blocks[b][j].key != key
    ensures FirstData(Flat(blocks), digest, key) == blocks[b][i].data
  {
    var block, rest := blocks[b], blocks[b + 1..];
    assert blocks == blocks[..b] + ([block] + rest);
    FlatAppend(blocks[..b], [block] + rest);
    FlatAppend([block], rest);
    assert [block][..0] == [] && Flat([block]) == block;
    var tail := block[i..] + Flat(rest);
    assert Flat(blocks) == (Flat(blocks[..b]) + block[..i]) + tail;
    FirstDataAppend(Flat(blocks[..b]) + block[..i], tail, digest, key);
  }
}
