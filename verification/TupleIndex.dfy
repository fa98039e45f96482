/** The label index of a tuple: one row per indexed label, in a flat array whose stride is the capacity. */
module TupleIndex {
  import opened Optional
  import opened Sequences
  import opened TupleSize

  /** Label numbers count from 1; 0 marks a label that is not indexed. */
  type Labels = nat -> seq<nat>

  // Row i ends before row i + 1 begins.
  lemma RowFits(i: nat, n: nat, max: nat)
    requires i < n
    ensures i * max + max == (i + 1) * max <= n * max
  {
    assert (n - i - 1) * max >= 0;
  }

  /** The first c entries of row i of an index with n rows of stride max. */
  function RowOf(index: seq<nat>, n: nat, max: nat, i: nat, c: nat): (row: seq<nat>)
    requires i < n && c <= max && |index| == n * max
    ensures |row| == c
  {
    RowFits(i, n, max);
    index[i * max..i * max + c]
  }

  lemma RowsApart(i: nat, id: nat, n: nat, max: nat)
    requires i < n && id < n && i != id
    ensures i * max + max <= id * max || id * max + max <= i * max
  {
    if i < id {
      RowFits(i, id, max);
    } else {
      RowFits(id, i, max);
    }
  }

  /** A new entry behind row id leaves every other row alone. */
  lemma RowUpdate(index: seq<nat>, n: nat, max: nat, i: nat, c: nat, id: nat, a: nat, m: nat)
    requires i < n && id < n && c <= max && a < max && |index| == n * max && (i == id ==> c == a)
    ensures 0 <= id * max + a < |index|
    ensures i != id ==> RowOf(index[id * max + a := m], n, max, i, c) == RowOf(index, n, max, i, c)
    ensures i == id ==> RowOf(index[id * max + a := m], n, max, i, c + 1) == RowOf(index, n, max, i, c) + [m]
  {
    RowFits(id, n, max);
    RowFits(i, n, max);
    if i != id {
      RowsApart(i, id, n, max);
    }
    var p, q := i * max, id * max;
    assert i != id ==> index[q + a := m][p..p + c] == index[p..p + c];
    assert i == id ==> index[q + a := m][p..p + c + 1] == index[p..p + c] + [m];
  }

  /** How often a label is in a list of labels. */
  function Count(labels: seq<nat>, tag: nat): nat {
    if labels == [] then 0 else Count(labels[..|labels| - 1], tag) + if labels[|labels| - 1] == tag then 1 else 0
  }

  function Repeat(m: nat, n: nat): seq<nat> {
    seq(n, _ => m)
  }

  /** The members that carry a label, in the order they were added, as often as they carry it. */
  function Carrying(members: seq<nat>, labels: Labels, tag: nat): seq<nat> {
    if members == [] then []
    else
      var m := members[|members| - 1];
      Carrying(members[..|members| - 1], labels, tag) + Repeat(m, Count(labels(m), tag))
  }

  /** A row after n more entries of a member, as far as there is room. */
  function Entered(row: seq<nat>, max: nat, m: nat, n: nat): (r: seq<nat>)
    requires |row| <= max
    ensures |r| == if |row| + n <= max then |row| + n else max
  {
    row + Repeat(m, if |row| + n <= max then n else max - |row|)
  }

  lemma EnteredNone(row: seq<nat>, max: nat, m: nat, tag: nat)
    requires |row| <= max
    ensures Entered(row, max, m, Count([], tag)) == row && Count([], tag) == 0
  {
  }

  ghost predicate EnteredStep(row: seq<nat>, max: nat, m: nat, tags: seq<nat>, k: nat, tag: nat)
    requires |row| <= max && k < |tags|
  {
    var n := Count(tags[..k], tag);
    && Count(tags[..k + 1], tag) == n + (if tags[k] == tag then 1 else 0)
    && Entered(row, max, m, n + 1) ==
         if |Entered(row, max, m, n)| < max then Entered(row, max, m, n) + [m] else Entered(row, max, m, n)
  }

  lemma OneEntered(row: seq<nat>, max: nat, m: nat, tags: seq<nat>, k: nat, tag: nat)
    requires |row| <= max && k < |tags|
    ensures EnteredStep(row, max, m, tags, k, tag)
  {
    assert tags[..k + 1][..k] == tags[..k];
  }

  /** Every row has room for as many entries as its label is given. */
  predicate AllFit(rows: seq<seq<nat>>, max: nat, tags: seq<nat>) {
    forall i :: 0 <= i < |rows| ==> |rows[i]| + Count(tags, i + 1) <= max
  }

  predicate AllIndexed(tags: seq<nat>, indexLen: nat) {
    forall i :: 0 <= i < |tags| ==> 0 < tags[i] <= indexLen
  }

  lemma {:induction false} CountIn(labels: seq<nat>, tag: nat)
    ensures Count(labels, tag) > 0 <==> tag in labels
    decreases |labels|
  {
    if labels != [] {
      CountIn(labels[..|labels| - 1], tag);
      assert labels == labels[..|labels| - 1] + [labels[|labels| - 1]];
    }
  }

  lemma {:induction false} CountDistinct(labels: seq<nat>, tag: nat)
    requires Distinct(labels)
    ensures Count(labels, tag) <= 1
    decreases |labels|
  {
    if labels != [] {
      CountDistinct(labels[..|labels| - 1], tag);
      CountIn(labels[..|labels| - 1], tag);
    }
  }

  lemma {:induction false} CarryingIn(members: seq<nat>, labels: Labels, tag: nat, m: nat)
    ensures m in Carrying(members, labels, tag) <==> m in members && tag in labels(m)
    decreases |members|
  {
    if members != [] {
      var before, last := members[..|members| - 1], members[|members| - 1];
      CarryingIn(before, labels, tag, m);
      CountIn(labels(last), tag);
      assert members == before + [last];
      assert Count(labels(last), tag) > 0 ==> Repeat(last, Count(labels(last), tag))[0] == last;
    }
  }

  /** A label occurs no more often than there are places in its row. */
  predicate HasRoom(members: seq<nat>, labels: Labels, i: nat, max: nat) {
    |Carrying(members, labels, i + 1)| <= max
  }

  lemma RowHasRoom(members: seq<nat>, labels: Labels, i: nat, max: nat)
    ensures |Carrying(members, labels, i + 1)| <= max <==> HasRoom(members, labels, i, max)
  {
  }

  // What is entered for a new member is what it adds, if there is room.
  lemma RoomDecides(members: seq<nat>, m: nat, labels: Labels, i: nat, max: nat, row: seq<nat>)
    requires |Carrying(members, labels, i + 1)| <= max
    requires row == Entered(Carrying(members, labels, i + 1), max, m, Count(labels(m), i + 1))
    ensures row == Carrying(members + [m], labels, i + 1) <==> HasRoom(members + [m], labels, i, max)
  {
    assert (members + [m])[..|members|] == members;
  }

  /** No row can overflow when no member carries a label twice. */
  lemma {:induction false} CarryingFits(members: seq<nat>, labels: Labels, tag: nat)
    requires forall m :: m in members ==> Distinct(labels(m))
    ensures |Carrying(members, labels, tag)| <= |members|
    decreases |members|
  {
    if members != [] {
      var last := members[|members| - 1];
      CarryingFits(members[..|members| - 1], labels, tag);
      CountDistinct(labels(last), tag);
    }
  }

  class TupleIndex {
    const indexLen: nat
    ghost const labels: Labels
    var max: nat
    var members: seq<nat>
    var icnt: array<nat>
    var index: array<nat>

    /** Row id: the first icnt[id] entries at id * max. */
    ghost predicate Shaped()
      reads this, icnt
    {
      && SMALL <= max && icnt.Length == indexLen && index.Length == indexLen * max && |members| <= max
      && forall i :: 0 <= i < indexLen ==> icnt[i] <= max
    }

    ghost function Row(id: nat): seq<nat>
      requires Shaped() && id < indexLen
      reads this, icnt, index
    {
      RowOf(index[..], indexLen, max, id, icnt[id])
    }

    ghost function Rows(): (rows: seq<seq<nat>>)
      requires Shaped()
      reads this, icnt, index
      ensures |rows| == indexLen && forall i :: 0 <= i < indexLen ==> rows[i] == Row(i)
    {
      seq(indexLen, i requires Shaped() && 0 <= i < indexLen reads this, icnt, index => Row(i))
    }

    /** The index agrees with the members: every row lists the members that carry its label. */
    ghost predicate Indexed()
      reads this, icnt, index
    {
      && Shaped() && icnt != index
      && forall i :: 0 <= i < indexLen ==> Row(i) == Carrying(members, labels, i + 1)
    }

    constructor (len: nat, ghost carried: Labels)
      ensures Indexed() && labels == carried && indexLen == len && max == SMALL && members == []
      ensures fresh(icnt) && fresh(index) && forall i :: 0 <= i < indexLen ==> Row(i) == []
    {
      indexLen, labels, max, members := len, carried, SMALL, [];
      icnt := new nat[len](_ => 0);
      index := new nat[len * SMALL](_ => 0);
    }

    /** wstuple_add_search_label: 0 when the label is not indexed or its row is full. */
    method AddSearchLabel(m: nat, tag: nat) returns (ok: bool)
      requires Shaped() && icnt != index
      modifies icnt, index
      ensures Shaped()
      ensures ok <==> 0 < tag <= indexLen && |old(Row(tag - 1))| < max
      ensures forall i :: 0 <= i < indexLen ==> Row(i) == if ok && i == tag - 1 then old(Row(i)) + [m] else old(Row(i))
    {
      hide RowOf;
      if tag == 0 {
        return false;
      }
      var id := tag - 1;
      if id >= indexLen || icnt[id] >= max {
        return false;
      }
      Append(id, m);
      ok := true;
    }

    method Append(id: nat, m: nat)
      requires Shaped() && icnt != index && id < indexLen && icnt[id] < max
      modifies icnt, index
      ensures Shaped()
      ensures forall i :: 0 <= i < indexLen ==> Row(i) == if i == id then old(Row(i)) + [m] else old(Row(i))
    {
      hide RowOf;
      ghost var was, c := index[..], icnt[..];
      RowUpdate(was, indexLen, max, id, c[id], id, c[id], m);
      var pos := id * max + icnt[id];
      index[pos] := m;
      icnt[id] := icnt[id] + 1;
      assert index[..] == was[pos := m];
      forall i | 0 <= i < indexLen
        ensures Row(i) ==
          if i == id then RowOf(was, indexLen, max, i, c[i]) + [m] else RowOf(was, indexLen, max, i, c[i])
      {
        RowUpdate(was, indexLen, max, i, c[i], id, c[id], m);
      }
    }

    /** tuple_attach_member_labels: every label of a new member is entered in its row as long as the row has
        room; the result tells whether all were. */
    method AttachLabels(m: nat, tags: seq<nat>) returns (ok: bool)
      requires Shaped() && icnt != index
      modifies icnt, index
      ensures Shaped()
      ensures forall i :: 0 <= i < indexLen ==> Row(i) == Entered(old(Row(i)), max, m, Count(tags, i + 1))
      ensures ok <==> AllIndexed(tags, indexLen) && AllFit(old(Rows()), max, tags)
    {
      hide Entered, RowOf, Count, Rows;
      ghost var was := Rows();
      ok := true;
      assert tags[..0] == [];
      forall i | 0 <= i < indexLen
        ensures Row(i) == Entered(was[i], max, m, Count(tags[..0], i + 1)) && Count(tags[..0], i + 1) == 0
      {
        EnteredNone(Row(i), max, m, i + 1);
      }
      for k := 0 to |tags|
        invariant Shaped()
        invariant forall i :: 0 <= i < indexLen ==> Row(i) == Entered(was[i], max, m, Count(tags[..k], i + 1))
        invariant ok <==> AllIndexed(tags[..k], indexLen) && AllFit(was, max, tags[..k])
      {
        forall i | 0 <= i < indexLen
          ensures EnteredStep(was[i], max, m, tags, k, i + 1)
        {
          OneEntered(was[i], max, m, tags, k, i + 1);
        }
        var one := AddSearchLabel(m, tags[k]);
        assert tags[..k + 1] == tags[..k] + [tags[k]];
        ok := ok && one;
      }
      assert tags[..|tags|] == tags;
    }

    /** tuple_grow_membership: rows move to the wider stride. */
    method Grow() returns (ok: bool)
      requires Shaped() && icnt != index
      modifies `max, `icnt, `index
      ensures Shaped() && icnt != index && (ok ==> fresh(icnt) && fresh(index))
      ensures ok <==> NewLen(old(max)).Some?
      ensures max == if ok then NewLen(old(max)).value else old(max)
      ensures !ok ==> icnt == old(icnt) && index == old(index)
      ensures forall i :: 0 <= i < indexLen ==> Row(i) == old(Row(i))
    {
      hide RowOf;
      var newLen := NewLen(max);
      if newLen == None {
        return false;
      }
      var wide := newLen.value;
      var newIcnt := new nat[indexLen](_ => 0);
      var newIndex := new nat[indexLen * wide](_ => 0);
      for i := 0 to indexLen
        modifies newIcnt, newIndex
        invariant forall j :: 0 <= j < i ==> newIcnt[j] == icnt[j]
        invariant forall j :: i <= j < indexLen ==> newIcnt[j] == 0
        invariant forall j :: 0 <= j < i ==> RowOf(newIndex[..], indexLen, wide, j, icnt[j]) == Row(j)
      {
        EmptyRow(newIndex[..], indexLen, wide, i, index[..], max);
        if icnt[i] != 0 {
          newIcnt[i] := icnt[i];
          CopyRow(newIndex, wide, i);
        }
      }
      max, icnt, index := wide, newIcnt, newIndex;
      ok := true;
    }

    /** add_tuple_member, by one thread, and the labels of the member: a full tuple grows, but not from a
        pointer and not beyond the largest size. The index goes on agreeing with the members exactly if
        every label still occurs no more often than there are places. */
    method AddMember(m: nat, tags: seq<nat>, isptr: bool) returns (ok: bool)
      requires Shaped() && icnt != index && tags == labels(m)
      modifies this, icnt, index
      ensures Shaped() && icnt != index
      ensures ok <==> old(|members| < max) || (!isptr && NewLen(old(max)).Some?)
      ensures members == if ok then old(members) + [m] else old(members)
      ensures max == if ok && old(|members| == max) then NewLen(old(max)).value else old(max)
      ensures old(Indexed()) ==> (Indexed() <==> forall i :: 0 <= i < indexLen ==> HasRoom(members, labels, i, max))
    {
      hide RowOf, Entered, Carrying, HasRoom, NewLen;
      ghost var was, indexed := members, Indexed();
      ghost var rows := Rows();
      ok := MakeRoom(isptr);
      assert forall i :: 0 <= i < indexLen ==> |rows[i]| == icnt[i] <= max;
      if ok {
        members := members + [m];
        var all := AttachLabels(m, tags);
      }
      if indexed {
        forall i | 0 <= i < indexLen
          ensures Row(i) == Carrying(members, labels, i + 1) <==> HasRoom(members, labels, i, max)
        {
          assert rows[i] == Carrying(was, labels, i + 1);
          if ok {
            RoomDecides(was, m, labels, i, max, Row(i));
          } else {
            RowHasRoom(members, labels, i, max);
          }
        }
      }
    }

    /** A full tuple grows, unless it is reached through a pointer. */
    method MakeRoom(isptr: bool) returns (ok: bool)
      requires Shaped() && icnt != index
      modifies `max, `icnt, `index
      ensures Shaped() && icnt != index && (icnt == old(icnt) || fresh(icnt)) && (index == old(index) || fresh(index))
      ensures ok <==> old(|members| < max) || (!isptr && NewLen(old(max)).Some?)
      ensures max == if ok && old(|members| == max) then NewLen(old(max)).value else old(max)
      ensures ok ==> |members| < max
      ensures forall i :: 0 <= i < indexLen ==> Row(i) == old(Row(i))
    {
      hide RowOf;
      ok := true;
      if |members| == max {
        if isptr {
          ok := false;
        } else {
          ok := Grow();
        }
      }
    }

    /** The entries of row i move to its place in a wider index. */
    method CopyRow(newIndex: array<nat>, wide: nat, i: nat)
      requires Shaped() && i < indexLen && max <= wide && newIndex.Length == indexLen * wide
      requires newIndex != index && newIndex != icnt
      modifies newIndex
      ensures RowOf(newIndex[..], indexLen, wide, i, icnt[i]) == Row(i)
      ensures forall j, c :: 0 <= j < indexLen && j != i && 0 <= c <= wide ==>
        RowOf(newIndex[..], indexLen, wide, j, c) == old(RowOf(newIndex[..], indexLen, wide, j, c))
    {
      hide RowOf;
      EmptyRow(newIndex[..], indexLen, wide, i, index[..], max);
      for a := 0 to icnt[i]
        invariant RowOf(newIndex[..], indexLen, wide, i, a) == Row(i)[..a]
        invariant forall j, c :: 0 <= j < indexLen && j != i && 0 <= c <= wide ==>
          RowOf(newIndex[..], indexLen, wide, j, c) == old(RowOf(newIndex[..], indexLen, wide, j, c))
      {
        ghost var was := newIndex[..];
        RowEntry(index[..], indexLen, max, i, icnt[i], a);
        RowUpdate(was, indexLen, wide, i, a, i, a, index[i * max + a]);
        newIndex[i * wide + a] := index[i * max + a];
        assert newIndex[..] == was[i * wide + a := index[i * max + a]];
        forall j, c | 0 <= j < indexLen && j != i && 0 <= c <= wide
          ensures RowOf(newIndex[..], indexLen, wide, j, c) == RowOf(was, indexLen, wide, j, c)
        {
          RowUpdate(was, indexLen, wide, j, c, i, a, index[i * max + a]);
        }
      }
      assert Row(i)[..icnt[i]] == Row(i);
    }

    /** tuple_find_label: the members that carry a label, or nothing. */
    method FindLabel(tag: nat) returns (row: Option<seq<nat>>)
      requires Shaped()
      ensures row == if 0 < tag <= indexLen && Row(tag - 1) != [] then Some(Row(tag - 1)) else None
    {
      if tag == 0 || tag - 1 >= indexLen || icnt[tag - 1] == 0 {
        return None;
      }
      var id := tag - 1;
      RowFits(id, indexLen, max);
      row := Some(index[id * max..id * max + icnt[id]]);
      assert row.value == Row(id);
    }
  }

  lemma EmptyRow(index: seq<nat>, n: nat, max: nat, i: nat, other: seq<nat>, max': nat)
    requires i < n && |index| == n * max && |other| == n * max'
    ensures RowOf(index, n, max, i, 0) == [] == RowOf(other, n, max', i, 0)
  {
  }

  lemma RowEntry(index: seq<nat>, n: nat, max: nat, i: nat, c: nat, a: nat)
    requires i < n && |index| == n * max && a < c <= max
    ensures 0 <= i * max + a < |index| && RowOf(index, n, max, i, c)[a] == index[i * max + a]
  {
    RowFits(i, n, max);
  }
}
