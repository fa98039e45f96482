/** The binary min-heap of wsheap.h: an array of record numbers, ordered by the values of the records. */
module WsHeap {
  import opened Sequences

  function Swap(h: seq<nat>, i: nat, j: nat): (r: seq<nat>)
    requires i < |h| && j < |h|
    ensures |r| == |h| && r[i] == h[j] && r[j] == h[i] && forall k :: 0 <= k < |h| && k != i && k != j ==> r[k] == h[k]
  {
    h[i := h[j]][j := h[i]]
  }

  /** Every entry is the number of a record. */
  ghost predicate Refers(h: seq<nat>, v: seq<nat>) {
    forall i :: 0 <= i < |h| ==> h[i] < |v|
  }

  function Key(h: seq<nat>, v: seq<nat>, i: nat): nat {
    if i < |h| && h[i] < |v| then v[h[i]] else 0
  }

  function Parent(i: nat): nat
    requires i > 0
  {
    (i + 1) / 2 - 1
  }

  /** wsheap_promote. */
  function Promoted(h: seq<nat>, v: seq<nat>, pos: nat): (r: seq<nat>)
    requires pos < |h|
    ensures |r| == |h|
    decreases pos
  {
    if pos > 0 && Key(h, v, pos) < Key(h, v, Parent(pos)) then Promoted(Swap(h, pos, Parent(pos)), v, Parent(pos))
    else h
  }

  /** The smaller child of a position, the first of two equal ones. */
  function MinChild(h: seq<nat>, v: seq<nat>, count: nat, pos: nat): (c: nat)
    requires 2 * pos + 1 < count <= |h|
    ensures pos < c < count && Parent(c) == pos
  {
    if 2 * pos + 2 < count && Key(h, v, 2 * pos + 1) > Key(h, v, 2 * pos + 2) then 2 * pos + 2 else 2 * pos + 1
  }

  /** wsheap_demote. */
  function Demoted(h: seq<nat>, v: seq<nat>, count: nat, pos: nat): (r: seq<nat>)
    requires count <= |h|
    ensures |r| == |h|
    decreases count - pos
  {
    if 2 * pos + 1 >= count then h
    else
      var c := MinChild(h, v, count, pos);
      if Key(h, v, c) >= Key(h, v, pos) then h else Demoted(Swap(h, c, pos), v, count, c)
  }

  /** No record is smaller than the one at its parent position. */
  ghost predicate Ordered(h: seq<nat>, v: seq<nat>, count: nat) {
    forall i :: 0 < i < count ==> Key(h, v, Parent(i)) <= Key(h, v, i)
  }

  /** The order may be broken between pos and its parent only, and what is below pos fits below that parent. */
  ghost predicate OrderedButUp(h: seq<nat>, v: seq<nat>, count: nat, pos: nat) {
    && (forall i :: 0 < i < count && i != pos ==> Key(h, v, Parent(i)) <= Key(h, v, i))
    && (pos > 0 ==> forall i :: 0 < i < count && Parent(i) == pos ==> Key(h, v, Parent(pos)) <= Key(h, v, i))
  }

  /** The order may be broken between pos and its children only. */
  ghost predicate OrderedButDown(h: seq<nat>, v: seq<nat>, count: nat, pos: nat) {
    && (forall i :: 0 < i < count && Parent(i) != pos ==> Key(h, v, Parent(i)) <= Key(h, v, i))
    && (pos > 0 ==> forall i :: 0 < i < count && Parent(i) == pos ==> Key(h, v, Parent(pos)) <= Key(h, v, i))
  }

  lemma SwapPermutes(h: seq<nat>, i: nat, j: nat)
    requires i < |h| && j < |h|
    ensures multiset(Swap(h, i, j)) == multiset(h)
  {
  }

  lemma {:induction false} PromotedPermutes(h: seq<nat>, v: seq<nat>, pos: nat)
    requires pos < |h|
    ensures multiset(Promoted(h, v, pos)) == multiset(h)
    decreases pos
  {
    hide Swap;
    if pos > 0 {
      SwapPermutes(h, pos, Parent(pos));
      PromotedPermutes(Swap(h, pos, Parent(pos)), v, Parent(pos));
    }
  }

  lemma {:induction false} DemotedPermutes(h: seq<nat>, v: seq<nat>, count: nat, pos: nat)
    requires count <= |h|
    ensures multiset(Demoted(h, v, count, pos)) == multiset(h)
    ensures forall i :: count <= i < |h| ==> Demoted(h, v, count, pos)[i] == h[i]
    decreases count - pos
  {
    hide Swap;
    if 2 * pos + 1 < count {
      var c := MinChild(h, v, count, pos);
      SwapPermutes(h, c, pos);
      DemotedPermutes(Swap(h, c, pos), v, count, c);
    }
  }

  /** Promoting restores the order. */
  lemma {:induction false} PromotedOrdered(h: seq<nat>, v: seq<nat>, count: nat, pos: nat)
    requires pos < count <= |h| && OrderedButUp(h, v, count, pos)
    ensures Ordered(Promoted(h, v, pos), v, count)
    decreases pos
  {
    if pos > 0 && Key(h, v, pos) < Key(h, v, Parent(pos)) {
      PromoteStep(h, v, count, pos);
      PromotedOrdered(Swap(h, pos, Parent(pos)), v, count, Parent(pos));
    }
  }

  lemma PromoteStep(h: seq<nat>, v: seq<nat>, count: nat, pos: nat)
    requires 0 < pos < count <= |h| && OrderedButUp(h, v, count, pos) && Key(h, v, pos) < Key(h, v, Parent(pos))
    ensures OrderedButUp(Swap(h, pos, Parent(pos)), v, count, Parent(pos))
  {
    hide Swap;
    var p := Parent(pos);
    var g := Swap(h, pos, p);
    assert forall i :: 0 <= i < |h| ==> Key(g, v, i) == Key(h, v, if i == pos then p else if i == p then pos else i);
  }

  /** Demoting restores the order. */
  lemma {:induction false} DemotedOrdered(h: seq<nat>, v: seq<nat>, count: nat, pos: nat)
    requires count <= |h| && OrderedButDown(h, v, count, pos)
    ensures Ordered(Demoted(h, v, count, pos), v, count)
    decreases count - pos
  {
    if 2 * pos + 1 < count {
      var c := MinChild(h, v, count, pos);
      if Key(h, v, c) < Key(h, v, pos) {
        DemoteStep(h, v, count, pos);
        DemotedOrdered(Swap(h, c, pos), v, count, c);
      } else {
        ChildrenFit(h, v, count, pos);
      }
    }
  }

  lemma ChildrenFit(h: seq<nat>, v: seq<nat>, count: nat, pos: nat)
    requires 2 * pos + 1 < count <= |h| && Key(h, v, MinChild(h, v, count, pos)) >= Key(h, v, pos)
    ensures forall i :: 0 < i < count && Parent(i) == pos ==> Key(h, v, pos) <= Key(h, v, i)
  {
  }

  lemma DemoteStep(h: seq<nat>, v: seq<nat>, count: nat, pos: nat)
    requires 2 * pos + 1 < count <= |h| && OrderedButDown(h, v, count, pos)
    requires Key(h, v, MinChild(h, v, count, pos)) < Key(h, v, pos)
    ensures OrderedButDown(Swap(h, MinChild(h, v, count, pos), pos), v, count, MinChild(h, v, count, pos))
  {
    var c := MinChild(h, v, count, pos);
    MinChildIsMin(h, v, count, pos);
    SwapDown(h, v, count, pos, c);
  }

  lemma MinChildIsMin(h: seq<nat>, v: seq<nat>, count: nat, pos: nat)
    requires 2 * pos + 1 < count <= |h|
    ensures forall i :: 0 < i < count && Parent(i) == pos ==> Key(h, v, MinChild(h, v, count, pos)) <= Key(h, v, i)
  {
  }

  lemma SwapDown(h: seq<nat>, v: seq<nat>, count: nat, pos: nat, c: nat)
    requires pos < c < count <= |h| && Parent(c) == pos && OrderedButDown(h, v, count, pos)
    requires Key(h, v, c) < Key(h, v, pos)
    requires forall i :: 0 < i < count && Parent(i) == pos ==> Key(h, v, c) <= Key(h, v, i)
    ensures OrderedButDown(Swap(h, c, pos), v, count, c)
  {
    hide Swap;
    var g := Swap(h, c, pos);
    assert forall i :: 0 <= i < |h| ==> Key(g, v, i) == Key(h, v, if i == pos then c else if i == c then pos else i);
    hide Key;
  }

  /** The root of an ordered heap is minimal. */
  lemma {:induction false} RootMinimal(h: seq<nat>, v: seq<nat>, count: nat, i: nat)
    requires Ordered(h, v, count) && i < count
    ensures Key(h, v, 0) <= Key(h, v, i)
    decreases i
  {
    if i > 0 {
      RootMinimal(h, v, count, Parent(i));
    }
  }

  // ----- sorting -----

  /** wsheap_sort_inplace on the first c entries: the smallest goes to the end, again and again. */
  function SortRun(h: seq<nat>, v: seq<nat>, c: nat): (r: seq<nat>)
    requires c <= |h|
    ensures |r| == |h|
    decreases c
  {
    if c <= 1 then h else SortRun(Demoted(Swap(h, 0, c - 1), v, c - 1, 0), v, c - 1)
  }

  /** Values from position from to position to do not rise. */
  ghost predicate Descending(h: seq<nat>, v: seq<nat>, from: nat, to: nat) {
    forall i, j :: from <= i <= j < to ==> Key(h, v, j) <= Key(h, v, i)
  }

  ghost predicate AtLeast(h: seq<nat>, v: seq<nat>, n: nat, b: nat) {
    forall i :: 0 <= i < n ==> b <= Key(h, v, i)
  }

  lemma {:induction false} DemotedAtLeast(h: seq<nat>, v: seq<nat>, count: nat, pos: nat, b: nat)
    requires pos <= count <= |h| && AtLeast(h, v, count, b)
    ensures AtLeast(Demoted(h, v, count, pos), v, count, b)
    decreases count - pos
  {
    if 2 * pos + 1 < count {
      hide Swap;
      var c := MinChild(h, v, count, pos);
      var g := Swap(h, c, pos);
      assert forall i :: 0 <= i < |h| ==> Key(g, v, i) == Key(h, v, if i == pos then c else if i == c then pos else i);
      DemotedAtLeast(g, v, count, c, b);
    }
  }

  /** A heap in front of a sorted rest that is nowhere larger. */
  ghost predicate PartSorted(h: seq<nat>, v: seq<nat>, c: nat, total: nat) {
    && c <= total <= |h| && Ordered(h, v, c) && Descending(h, v, c, total)
    && (c < total ==> AtLeast(h, v, c, Key(h, v, c)))
  }

  lemma SortStep(h: seq<nat>, v: seq<nat>, c: nat, total: nat)
    requires 1 < c && PartSorted(h, v, c, total)
    ensures PartSorted(Demoted(Swap(h, 0, c - 1), v, c - 1, 0), v, c - 1, total)
  {
    hide Swap, Demoted;
    var g := Swap(h, 0, c - 1);
    var r := Demoted(g, v, c - 1, 0);
    assert OrderedButDown(g, v, c - 1, 0) by {
      assert forall i :: 0 < i < c - 1 ==> Key(g, v, i) == Key(h, v, i);
    }
    DemotedOrdered(g, v, c - 1, 0);
    DemotedPermutes(g, v, c - 1, 0);
    assert AtLeast(g, v, c - 1, Key(h, v, 0)) by {
      forall i | 0 <= i < c - 1
        ensures Key(h, v, 0) <= Key(g, v, i)
      {
        RootMinimal(h, v, c, if i == 0 then c - 1 else i);
      }
    }
    DemotedAtLeast(g, v, c - 1, 0, Key(h, v, 0));
    assert forall i :: c <= i < total ==> Key(r, v, i) == Key(h, v, i);
    assert Key(r, v, c - 1) == Key(h, v, 0);
  }

  /** Sorting an ordered heap makes it descend. */
  lemma {:induction false} SortRunDescends(h: seq<nat>, v: seq<nat>, c: nat, total: nat)
    requires PartSorted(h, v, c, total)
    ensures Descending(SortRun(h, v, c), v, 0, total)
    decreases c
  {
    if c > 1 {
      hide Demoted, Swap, PartSorted;
      PartSortedSize(h, v, c, total);
      SortStep(h, v, c, total);
      SortRunDescends(Demoted(Swap(h, 0, c - 1), v, c - 1, 0), v, c - 1, total);
    }
  }

  /** Sorting keeps the records, ordered heap or not. */
  lemma {:induction false} SortRunPermutes(h: seq<nat>, v: seq<nat>, c: nat)
    requires c <= |h|
    ensures multiset(SortRun(h, v, c)) == multiset(h)
    decreases c
  {
    if c > 1 {
      hide Demoted, Swap;
      SwapPermutes(h, 0, c - 1);
      DemotedPermutes(Swap(h, 0, c - 1), v, c - 1, 0);
      SortRunPermutes(Demoted(Swap(h, 0, c - 1), v, c - 1, 0), v, c - 1);
    }
  }

  lemma PartSortedSize(h: seq<nat>, v: seq<nat>, c: nat, total: nat)
    requires PartSorted(h, v, c, total)
    ensures c <= total <= |h|
  {
  }

  // ----- in place -----

  method SwapEntries(heap: array<nat>, i: nat, j: nat)
    requires i < heap.Length && j < heap.Length
    modifies heap
    ensures heap[..] == Swap(old(heap[..]), i, j)
  {
    var tmp := heap[i];
    heap[i] := heap[j];
    heap[j] := tmp;
  }

  method Promote(heap: array<nat>, value: array<nat>, pos: nat)
    requires heap != value && pos < heap.Length && Refers(heap[..], value[..])
    modifies heap
    ensures heap[..] == Promoted(old(heap[..]), value[..], pos)
  {
    hide Swap;
    var child: nat := pos;
    while child > 0
      invariant child < heap.Length && Refers(heap[..], value[..])
      invariant Promoted(heap[..], value[..], child) == Promoted(old(heap[..]), value[..], pos)
    {
      var parent := (child + 1) / 2 - 1;
      if value[heap[child]] < value[heap[parent]] {
        SwapEntries(heap, child, parent);
        child := parent;
      } else {
        break;
      }
    }
  }

  method SmallerChild(heap: array<nat>, value: array<nat>, count: nat, parent: nat) returns (minChild: nat)
    requires count <= heap.Length && Refers(heap[..], value[..]) && 2 * parent + 1 < count
    ensures minChild == MinChild(heap[..], value[..], count, parent)
    ensures Key(heap[..], value[..], minChild) == value[heap[minChild]]
  {
    var child2 := (parent + 1) * 2;
    var child1 := child2 - 1;
    minChild := child1;
    if child2 < count && value[heap[child1]] > value[heap[child2]] {
      minChild := child2;
    }
  }

  method Demote(heap: array<nat>, value: array<nat>, count: nat, pos: nat)
    requires heap != value && count <= heap.Length && Refers(heap[..], value[..])
    modifies heap
    ensures heap[..] == Demoted(old(heap[..]), value[..], count, pos)
  {
    hide Swap, MinChild;
    var parent := pos;
    while 2 * parent + 1 < count
      invariant Refers(heap[..], value[..])
      invariant Demoted(heap[..], value[..], count, parent) == Demoted(old(heap[..]), value[..], count, pos)
      decreases count - parent
    {
      var minChild := SmallerChild(heap, value, count, parent);
      if value[heap[minChild]] >= value[heap[parent]] {
        break;
      }
      SwapEntries(heap, minChild, parent);
      parent := minChild;
    }
  }

  /** wsheap_sort_inplace: the records of an ordered heap come out largest first. */
  method SortInPlace(heap: array<nat>, value: array<nat>, count: nat)
    requires heap != value && count <= heap.Length && Refers(heap[..], value[..])
    modifies heap
    ensures multiset(heap[..]) == multiset(old(heap[..]))
    ensures Ordered(old(heap[..]), value[..], count) ==> Descending(heap[..], value[..], 0, count)
  {
    hide Swap, Demoted;
    ghost var h := heap[..];
    SortRunPermutes(h, value[..], count);
    if Ordered(h, value[..], count) {
      SortRunDescends(h, value[..], count, count);
    }
    var c: nat := count;
    while c > 1
      invariant c <= count && Refers(heap[..], value[..])
      invariant SortRun(heap[..], value[..], c) == SortRun(h, value[..], count)
    {
      c := c - 1;
      ghost var before := heap[..];
      SwapEntries(heap, 0, c);
      SwapRefers(before, value[..], 0, c);
      DemotedRefers(heap[..], value[..], c, 0);
      Demote(heap, value, c, 0);
    }
  }

  lemma SwapRefers(h: seq<nat>, v: seq<nat>, i: nat, j: nat)
    requires i < |h| && j < |h| && Refers(h, v)
    ensures Refers(Swap(h, i, j), v)
  {
  }

  lemma {:induction false} DemotedRefers(h: seq<nat>, v: seq<nat>, count: nat, pos: nat)
    requires count <= |h| && Refers(h, v)
    ensures Refers(Demoted(h, v, count, pos), v)
    decreases count - pos
  {
    if 2 * pos + 1 < count {
      var c := MinChild(h, v, count, pos);
      SwapRefers(h, v, c, pos);
      DemotedRefers(Swap(h, c, pos), v, count, c);
    }
  }

  // ----- a record that gets a value -----

  /** A value given to the record at one position shows at that position only. */
  lemma KeyGiven(h: seq<nat>, v: seq<nat>, p: nat, value: nat)
    requires p < |h| && Refers(h, v)
    requires Distinct(h)
    ensures forall i :: 0 <= i < |h| ==> Key(h, v[h[p] := value], i) == if i == p then value else Key(h, v, i)
  {
    forall i | 0 <= i < |h|
      ensures Key(h, v[h[p] := value], i) == if i == p then value else Key(h, v, i)
    {
      assert h[i] < |v| && h[p] < |v|;
      assert i != p ==> h[i] != h[p];
    }
  }

  /** wsheap_insert: whatever the value of the record behind the heap, promoting it makes a heap of one more. */
  lemma InsertOrders(h: seq<nat>, v: seq<nat>, count: nat, value: nat)
    requires count < |h| && Refers(h, v) && Ordered(h, v, count)
    requires Distinct(h)
    ensures var w := v[h[count] := value]; Ordered(Promoted(h, w, count), w, count + 1)
  {
    KeyGiven(h, v, count, value);
    PromotedOrdered(h, v[h[count] := value], count + 1, count);
  }

  /** wsheap_replace_root: whatever the new value of the root, demoting it restores the heap. */
  lemma ReplaceRootOrders(h: seq<nat>, v: seq<nat>, count: nat, value: nat)
    requires 0 < count <= |h| && Refers(h, v) && Ordered(h, v, count)
    requires Distinct(h)
    ensures var w := v[h[0] := value]; Ordered(Demoted(h, w, count, 0), w, count)
  {
    KeyGiven(h, v, 0, value);
    DemotedOrdered(h, v[h[0] := value], count, 0);
  }

  // ----- a value that has grown -----

  /** No child position of p holds a smaller record. */
  ghost predicate FitsBelow(h: seq<nat>, v: seq<nat>, count: nat, p: nat) {
    forall i :: 0 < i < count && Parent(i) == p ==> Key(h, v, p) <= Key(h, v, i)
  }

  /** wsheap_update demotes at the position that is the number of the record. When the record at position p
      has grown, that restores the order exactly if the record stands at the position of its number or is
      not larger than the records below it. */
  lemma UpdateOrders(h: seq<nat>, v: seq<nat>, count: nat, p: nat, value: nat)
    requires count <= |h| && p < count && Refers(h, v) && v[h[p]] <= value && h[p] < count
    requires Distinct(h)
    requires Ordered(h, v, count)
    ensures var w := v[h[p] := value];
      Ordered(Demoted(h, w, count, h[p]), w, count) <==> h[p] == p || FitsBelow(h, w, count, p)
  {
    var w, q := v[h[p] := value], h[p];
    KeyGiven(h, v, p, value);
    if q == p {
      DemotedOrdered(h, w, count, p);
    } else {
      hide Key;
      assert Demoted(h, w, count, q) == h;
    }
  }

  /** The record with number n stands at the position n, or at one where it is not larger than those below it. */
  ghost predicate UpdateFits(h: seq<nat>, v: seq<nat>, count: nat, n: nat) {
    exists p: nat :: p < count && p < |h| && h[p] == n && (p == n || FitsBelow(h, v, count, p))
  }

  /** UpdateOrders in terms of the record's number. */
  lemma RecordUpdateOrders(h: seq<nat>, v: seq<nat>, count: nat, n: nat, value: nat)
    requires Holds(h, count) && n < count <= |v| && Refers(h, v) && v[n] <= value && Ordered(h, v, count)
    ensures var w := v[n := value]; Ordered(Demoted(h, w, count, n), w, count) <==> UpdateFits(h, w, count, n)
  {
    hide Demoted, FitsBelow, Ordered;
    var p := PositionOf(h, count, n);
    UpdateOrders(h, v, count, p, value);
  }

  function Numbers(n: nat): (r: set<nat>)
    ensures |r| == n && forall i: nat :: i in r <==> i < n
  {
    if n == 0 then {} else Numbers(n - 1) + {n - 1}
  }

  // The position of a record in the heap.
  lemma PositionOf(h: seq<nat>, count: nat, n: nat) returns (p: nat)
    requires Holds(h, count) && n < count
    ensures p < count && h[p] == n
  {
    var some := set i | 0 <= i < count :: h[i];
    HeldDiffer(h, count, count);
    if n !in some {
      SetSize(some, Numbers(count) - {n});
      assert false;
    }
    p :| 0 <= p < count && h[p] == n;
  }

  lemma {:induction false} HeldDiffer(h: seq<nat>, n: nat, count: nat)
    requires Holds(h, count) && n <= count
    ensures |(set i | 0 <= i < n :: h[i])| == n
    decreases n
  {
    if n > 0 {
      HeldDiffer(h, n - 1, count);
      var before := set i | 0 <= i < n - 1 :: h[i];
      assert (set i | 0 <= i < n :: h[i]) == before + {h[n - 1]} && h[n - 1] !in before;
    }
  }

  /** A run in which the order is lost: of two records the root grows beyond the other, and its number is not
      its position. */
  lemma UpdateLosesOrder()
    ensures var h, v := [1, 0], [5, 3];
      Ordered(h, v, 2) && !Ordered(Demoted(h, v[1 := 13], 2, 1), v[1 := 13], 2)
  {
    var h, w := [1, 0], [5, 13];
    assert Demoted(h, w, 2, 1) == h && Parent(1) == 0;
    assert Key(h, w, 0) == 13 && Key(h, w, 1) == 5;
  }

  // ----- the records in the heap -----

  /** The first n positions hold the records 0 to n - 1 in some order. */
  ghost predicate Holds(h: seq<nat>, n: nat) {
    && n <= |h| && (forall i :: 0 <= i < n ==> h[i] < n)
    && Distinct(h)
  }

  lemma SwapHolds(h: seq<nat>, n: nat, i: nat, j: nat)
    requires Holds(h, n) && i < n && j < n
    ensures Holds(Swap(h, i, j), n) && forall k :: n <= k < |h| ==> Swap(h, i, j)[k] == h[k]
  {
  }

  lemma {:induction false} PromotedHolds(h: seq<nat>, v: seq<nat>, pos: nat, n: nat)
    requires pos < n && Holds(h, n)
    ensures Holds(Promoted(h, v, pos), n) && forall i :: n <= i < |h| ==> Promoted(h, v, pos)[i] == h[i]
    decreases pos
  {
    hide Swap, Holds;
    if pos > 0 {
      HoldsSize(h, n);
      SwapHolds(h, n, pos, Parent(pos));
      PromotedHolds(Swap(h, pos, Parent(pos)), v, Parent(pos), n);
    }
  }

  lemma {:induction false} DemotedHolds(h: seq<nat>, v: seq<nat>, count: nat, pos: nat)
    requires Holds(h, count)
    ensures Holds(Demoted(h, v, count, pos), count) && forall i :: count <= i < |h| ==>
        Demoted(h, v, count, pos)[i] == h[i]
    decreases count - pos
  {
    hide Swap, Holds;
    HoldsSize(h, count);
    if 2 * pos + 1 < count {
      var c := MinChild(h, v, count, pos);
      SwapHolds(h, count, c, pos);
      DemotedHolds(Swap(h, c, pos), v, count, c);
    }
  }

  lemma HoldsSize(h: seq<nat>, n: nat)
    requires Holds(h, n)
    ensures n <= |h|
  {
  }
}
