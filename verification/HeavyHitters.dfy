/** heavyhitters.h: the records of the heaviest keys, in a heap and in hash chains. */
module HeavyHitters {
  import opened WsHeap
  import opened HhChains
  import opened HhBook

  class HeavyHitters {
    const max: nat
    const heap: array<nat>
    const value: array<nat>
    const node: array<Node>
    const table: array<int>
    var count: nat

    ghost var chains: seq<seq<nat>>
    /** The weight of all increments, and by key. */
    ghost var total: nat
    ghost var weight: map<nat, nat>
    /** The weight a record got since its key was admitted. */
    ghost var since: seq<nat>
    /** So far every record that was given to another key was a minimal one. */
    ghost var minimal: bool

    ghost predicate Sizes()
      reads this
    {
      && 0 < max == heap.Length == value.Length == node.Length == table.Length && count <= max == |since|
      && heap != value && heap as object != table && value as object != table
    }

    ghost predicate Valid()
      reads this, heap, value, node, table
    {
      && Sizes() && Counted(node[..], value[..], since, count, weight) && Sum(value[..], count) == total
      && Holds(heap[..], count) && (forall i :: count <= i < max ==> heap[i] == i)
      && Chained(node[..], table[..], chains, UpTo(count))
      && DistinctKeys(node[..], count)
      && (minimal ==> Bounded(node[..], value[..], count, weight))
    }

    /** The heap is one. */
    ghost predicate InOrder()
      requires count <= heap.Length
      reads this, heap, value
    {
      Ordered(heap[..], value[..], count)
    }

    constructor (size: nat)
      requires size > 0
      ensures Valid() && max == size && count == 0 && total == 0 && weight == map[] && minimal && InOrder()
      ensures fresh(heap) && fresh(value) && fresh(node) && fresh(table)
    {
      max, count := size, 0;
      heap := new nat[size](i => i);
      value := new nat[size](_ => 0);
      node := new Node[size](_ => Node(0, 0, NIL, NIL));
      table := new int[size](_ => NIL);
      chains, total, weight, since, minimal := seq(size, _ => []), 0, map[], seq(size, _ => 0), true;
      new;
      EmptyChained(node[..], table[..], chains);
    }

    /** The walk along the chain of a key: the record with the key, or none. */
    method Lookup(key: nat) returns (cursor: int)
      requires Valid()
      ensures cursor == NIL ==> !Tracked(node[..], count, key)
      ensures cursor != NIL ==> 0 <= cursor < count && node[cursor].key == key
    {
      var hindex := key % max;
      ghost var chain, i := chains[hindex], 0;
      assert BucketOk(node[..], table[..], chains, UpTo(count), hindex);
      cursor := table[hindex];
      while cursor != NIL
        invariant 0 <= i <= |chain| && cursor == At(chain, i)
        invariant forall j :: 0 <= j < i ==> chain[j] < max && node[chain[j]].key != key
        decreases |chain| - i
      {
        assert chain[i] in chain && NodeLinked(node[..], chain, i);
        if node[cursor].key == key {
          return;
        }
        cursor := node[cursor].next;
        i := i + 1;
      }
      forall n | 0 <= n < count
        ensures node[n].key != key
      {
        assert MemberOk(node[..], table[..], chains, UpTo(count), n);
      }
    }

    /** hh_hashtable_detach. */
    method Detach(n: nat)
      requires Sizes() && n < count && Chained(node[..], table[..], chains, UpTo(count))
      modifies node, table, `chains
      ensures Chained(node[..], table[..], chains, UpTo(count) - {n})
      ensures node[n] == old(node[n]).(prev := NIL, next := NIL)
      ensures forall m :: 0 <= m < max ==> node[m].key == old(node[m].key) && node[m].start == old(node[m].start)
    {
      ghost var nodes, was := node[..], table[..];
      var hindex := node[n].key % max;
      var prev, next := node[n].prev, node[n].next;
      NeighboursInRange(nodes, was, chains, UpTo(count), n);
      if table[hindex] == n {
        table[hindex] := next;
      }
      if prev != NIL {
        node[prev] := node[prev].(next := next);
      }
      if next != NIL {
        node[next] := node[next].(prev := prev);
      }
      node[n] := node[n].(prev := NIL, next := NIL);
      assert node[..] == Detached(nodes, n);
      assert table[..] == TableDetached(nodes, was, n);
      chains := DetachKeeps(nodes, was, chains, UpTo(count), n);
    }

    /** hh_hashtable_attach. */
    method Attach(n: nat, ghost members: set<nat>)
      requires Sizes() && n < max && Chained(node[..], table[..], chains, members) && n !in members
      modifies node, table, `chains
      ensures Chained(node[..], table[..], chains, members + {n})
      ensures forall m :: 0 <= m < max ==> node[m].key == old(node[m].key) && node[m].start == old(node[m].start)
    {
      ghost var nodes, was := node[..], table[..];
      var hindex := node[n].key % max;
      var first := table[hindex];
      HeadInRange(nodes, was, chains, members, hindex);
      if first == NIL {
        table[hindex] := n;
      } else {
        node[first] := node[first].(prev := n);
        node[n] := node[n].(next := first);
        table[hindex] := n;
      }
      assert node[..] == Attached(nodes, n, first);
      assert table[..] == TableAttached(was, hindex, n);
      chains := AttachKeeps(nodes, was, chains, members, n);
    }

    /** heavyhitters_increment. A known key gets the weight and its record is moved from the heap position that
        is its number; a new key gets a free record, or that of the root. */
    method Increment(key: nat, w: nat) returns (n: nat)
      requires Valid() && (Tracked(node[..], count, key) || count < max || value[heap[0]] > 0)
      modifies this, heap, value, node, table
      ensures Valid() && total == old(total) + w && weight == Add(old(weight), key, w)
      ensures n < count && node[n].key == key
      ensures count == old(count) + if !old(Tracked(node[..], count, key)) && old(count) < max then 1 else 0
      ensures value[..] == old(value[..])[n := old(value[..])[n] + w]
      ensures since == old(since)[n := if old(Tracked(node[..], count, key)) then old(since)[n] + w else w]
      ensures forall m :: 0 <= m < max && m != n ==>
          node[m].key == old(node[m].key) && node[m].start == old(node[m].start)
      ensures old(Tracked(node[..], count, key)) ==>
        && node[n].key == old(node[n].key) && node[n].start == old(node[n].start)
        && heap[..] == Demoted(old(heap[..]), value[..], count, n)
      ensures !old(Tracked(node[..], count, key)) && old(count) < max ==>
        n == old(count) && heap[..] == Promoted(old(heap[..]), value[..], n)
      ensures !old(Tracked(node[..], count, key)) && old(count) == max ==>
        n == old(heap[0]) && node[n].start == old(value[..])[n] &&
          heap[..] == Demoted(old(heap[..]), value[..], count, 0)
      ensures minimal ==
        (old(minimal) && (old(Tracked(node[..], count, key)) || old(count) < max || Minimal(old(value[..]), max, n)))
      ensures old(InOrder()) ==>
        (InOrder() <==> !old(Tracked(node[..], count, key)) || UpdateFits(old(heap[..]), value[..], count, n))
      ensures old(InOrder()) && old(minimal) ==> minimal
    {
      hide InOrder, UpdateFits, Chained, Holds, Demoted, Promoted, Bounded, DistinctKeys, Sum, Minimal, Counted,
        Tracked;
      TrackedBy(node[..], count, key);
      var cursor := Lookup(key);
      if cursor != NIL {
        n := cursor;
        Update(n, w);
      } else if count < max {
        n := Insert(key, w);
      } else {
        n := ReplaceRoot(key, w);
      }
    }

    /** The value of a known key grows, and wsheap_update demotes. */
    method Update(n: nat, w: nat)
      requires Valid() && n < count
      modifies this, heap, value
      ensures Valid() && total == old(total) + w && weight == Add(old(weight), node[n].key, w) && count == old(count)
      ensures value[..] == old(value[..])[n := old(value[n]) + w] && since == old(since)[n := old(since)[n] + w]
      ensures heap[..] == Demoted(old(heap[..]), value[..], count, n) && minimal == old(minimal)
      ensures old(InOrder()) ==> (InOrder() <==> UpdateFits(old(heap[..]), value[..], count, n))
    {
      hide Chained, Holds, Demoted, Bounded, DistinctKeys, Sum, Counted, Add, Ordered, UpdateFits;
      ghost var v, key := value[..], node[n].key;
      RecordIs(node[..], v, since, count, weight, n);
      CountedMore(node[..], node[..], v, since, count, count, weight, n, w, since[n] + w);
      SumUpdate(v, count, n, v[n] + w);
      if minimal {
        FoundBounded(node[..], v, count, weight, n, w);
      }
      value[n] := value[n] + w;
      total, weight, since := total + w, Add(weight, key, w), since[n := since[n] + w];
      assert value[..] == v[n := v[n] + w];
      DemotedHolds(heap[..], value[..], count, n);
      HoldsRefers(heap[..], value[..], count);
      if old(InOrder()) {
        RecordUpdateOrders(heap[..], v, count, n, value[n]);
      }
      Demote(heap, value, count, n);
    }

    /** A free record is taken for a new key, at the end of the heap. */
    method Insert(key: nat, w: nat) returns (n: nat)
      requires Valid() && count < max && !Tracked(node[..], count, key)
      modifies this, heap, value, node, table
      ensures Valid() && total == old(total) + w && weight == Add(old(weight), key, w)
      ensures n == old(count) && count == n + 1 && node[n].key == key && minimal == old(minimal)
      ensures value[..] == old(value[..])[n := old(value[..])[n] + w] && since == old(since)[n := w]
      ensures forall m :: 0 <= m < max && m != n ==>
          node[m].key == old(node[m].key) && node[m].start == old(node[m].start)
      ensures heap[..] == Promoted(old(heap[..]), value[..], n)
      ensures old(InOrder()) ==> InOrder()
    {
      hide Chained, Holds, Promoted, Bounded, DistinctKeys, Sum, Counted, Add, Ordered;
      n := heap[count];
      ghost var was, v := node[..], value[..];
      RecordIs(was, v, since, count, weight, n);
      FreeNode(n, key, w);
      var c := count;
      CountedMore(was, node[..], v, since, c, c + 1, weight, n, w, w);
      KeysStayDistinct(was, node[..], c, c + 1, n, key);
      if minimal {
        AdmittedBounded(was, node[..], v, c, c + 1, weight, n, key, w);
      }
      SumNext(v, n, w);
      count := count + 1;
      total, weight, since := total + w, Add(weight, key, w), since[n := w];
      HoldsMore(heap[..], c);
      PromotedHolds(heap[..], value[..], c, count);
      HoldsRefers(heap[..], value[..], count);
      if old(InOrder()) {
        InsertKeepsOrder(heap[..], v, c, w);
      }
      Promote(heap, value, c);
    }

    method FreeNode(n: nat, key: nat, w: nat)
      requires Sizes() && count == n < max && Chained(node[..], table[..], chains, UpTo(count)) && value[n] == 0
      modifies value, node, table, `chains
      ensures Chained(node[..], table[..], chains, UpTo(count + 1))
      ensures node[n].key == key && node[n].start == old(node[n].start)
      ensures forall m :: 0 <= m < max && m != n ==>
          node[m].key == old(node[m].key) && node[m].start == old(node[m].start)
      ensures value[..] == old(value[..])[n := w]
    {
      hide Chained;
      RekeyKeeps(node[..], table[..], chains, UpTo(count), n, key, node[n].start);
      ghost var rekeyed := node[..][n := node[n].(key := key, start := node[n].start)];
      node[n] := node[n].(key := key);
      assert node[..] == rekeyed;
      value[n] := value[n] + w;
      Attach(n, UpTo(count));
      assert UpTo(count) + {n} == UpTo(count + 1);
    }

    /** The record of the root is given to a new key: what it was worth becomes the start of its value. */
    method ReplaceRoot(key: nat, w: nat) returns (n: nat)
      requires Valid() && count == max && !Tracked(node[..], count, key) && value[heap[0]] > 0
      modifies this, heap, value, node, table
      ensures Valid() && total == old(total) + w && weight == Add(old(weight), key, w) && count == max
      ensures n == old(heap[0]) && n < count && node[n].key == key && node[n].start == old(value[..])[n]
      ensures value[..] == old(value[..])[n := old(value[..])[n] + w] && since == old(since)[n := w]
      ensures forall m :: 0 <= m < max && m != n ==>
          node[m].key == old(node[m].key) && node[m].start == old(node[m].start)
      ensures heap[..] == Demoted(old(heap[..]), value[..], count, 0)
      ensures minimal == (old(minimal) && Minimal(old(value[..]), max, n))
      ensures old(InOrder()) ==> InOrder() && Minimal(old(value[..]), max, n)
    {
      hide Chained, Demoted, Bounded, DistinctKeys, Sum, Minimal, Counted, Add, Holds, Ordered;
      HoldsRoot(heap[..], count);
      n := heap[0];
      ghost var was, v := node[..], value[..];
      SumUpdate(v, count, n, v[n] + w);
      ReplaceNode(n, key, w);
      CountedMore(was, node[..], v, since, count, count, weight, n, w, w);
      KeysStayDistinct(was, node[..], count, count, n, key);
      minimal := minimal && Minimal(v, max, n);
      if minimal {
        AdmittedBounded(was, node[..], v, count, count, weight, n, key, w);
      }
      total, weight, since := total + w, Add(weight, key, w), since[n := w];
      DemotedHolds(heap[..], value[..], count, 0);
      HoldsRefers(heap[..], value[..], count);
      if old(InOrder()) {
        ReplaceKeepsOrder(heap[..], v, count, value[n]);
      }
      Demote(heap, value, count, 0);
    }

    /** hh_node_replace on a record in use. */
    method ReplaceNode(n: nat, key: nat, w: nat)
      requires Sizes() && n < count && Chained(node[..], table[..], chains, UpTo(count))
      modifies value, node, table, `chains
      ensures Chained(node[..], table[..], chains, UpTo(count))
      ensures node[n].key == key && node[n].start == old(value[n])
      ensures forall m :: 0 <= m < max && m != n ==>
          node[m].key == old(node[m].key) && node[m].start == old(node[m].start)
      ensures value[..] == old(value[..])[n := old(value[n]) + w]
    {
      hide Chained;
      Detach(n);
      var start := value[n];
      RekeyKeeps(node[..], table[..], chains, UpTo(count) - {n}, n, key, start);
      ghost var rekeyed := node[..][n := node[n].(key := key, start := start)];
      node[n] := node[n].(key := key, start := start);
      assert node[..] == rekeyed;
      value[n] := value[n] + w;
      Attach(n, UpTo(count) - {n});
      assert UpTo(count) - {n} + {n} == UpTo(count);
    }
  }

  lemma TrackedBy(nodes: seq<Node>, count: nat, key: nat)
    requires count <= |nodes|
    ensures Tracked(nodes, count, key) <==> exists n :: 0 <= n < count && nodes[n].key == key
  {
  }

  /** What a record tells about the weight of its key: at least what came since its admission, and, when every
      record that was given away was minimal, at most its value. */
  lemma Estimate(h: HeavyHitters, n: nat)
    requires h.Valid() && n < h.count
    ensures h.value[n] - h.node[n].start <= Weight(h.weight, h.node[n].key)
    ensures h.minimal ==> Weight(h.weight, h.node[n].key) <= h.value[n]
    ensures h.minimal ==> forall key: nat :: !Tracked(h.node[..], h.count, key) ==> Weight(h.weight, key) <= h.value[n]
  {
    RecordIs(h.node[..], h.value[..], h.since, h.count, h.weight, n);
    assert h.minimal ==> KeyOk(h.node[..], h.value[..], h.count, h.weight, h.node[n].key);
    forall key: nat | h.minimal && !Tracked(h.node[..], h.count, key)
      ensures Weight(h.weight, key) <= h.value[n]
    {
      assert KeyOk(h.node[..], h.value[..], h.count, h.weight, key);
    }
  }

  lemma HeapsOfRun()
    ensures Promoted([0, 1], [5, 0], 0) == [0, 1] && Promoted([0, 1], [5, 3], 1) == [1, 0]
    ensures Demoted([1, 0], [5, 13], 2, 1) == [1, 0]
  {
  }

  // A table of two records in which nothing is tracked yet.
  lemma NothingTracked(h: HeavyHitters)
    requires h.Valid() && h.max == 2 && h.count == 0
    ensures h.heap[..] == [0, 1] && h.value[..] == [0, 0]
  {
    RecordIs(h.node[..], h.value[..], h.since, h.count, h.weight, 0);
    RecordIs(h.node[..], h.value[..], h.since, h.count, h.weight, 1);
  }

  /** A run that loses the heaviest key: of two keys the second one grows to 13, but its record stays the root of
      the heap, and a third key takes it over. Then a key of weight 13 has no record while a record is worth 5. */
  method HeaviestKeyLost() returns (h: HeavyHitters, n: nat)
    ensures fresh(h) && h.Valid() && n < h.count
    ensures !Tracked(h.node[..], h.count, 1) && Weight(h.weight, 1) == 13 && h.value[n] == 5
  {
    hide HeavyHitters.Valid, HeavyHitters.InOrder, UpdateFits, Promoted, Demoted, Minimal;
    HeapsOfRun();
    h := new HeavyHitters(2);
    NothingTracked(h);
    n := h.Increment(0, 5);
    SizesOf(h);
    assert h.value[..] == [5, 0] && h.heap[..] == [0, 1] && !Tracked(h.node[..], h.count, 1);
    var b := h.Increment(1, 3);
    SizesOf(h);
    assert h.value[..] == [5, 3] && h.heap[..] == [1, 0] && h.node[..][1].key == 1;
    b := h.Increment(1, 10);
    SizesOf(h);
    assert h.value[..] == [5, 13] && h.heap[..] == [1, 0] && !Tracked(h.node[..], h.count, 2);
    b := h.Increment(2, 1);
    SizesOf(h);
  }

  /** An increment by nothing can leave an empty record at the root of a full table. AttachedTwice says what becomes
      of the chains when a new key takes it over: it is not detached. */
  method EmptyRoot() returns (h: HeavyHitters)
    ensures fresh(h) && h.Valid() && h.count == h.max == 1 && h.heap[0] == 0 && h.value[0] == 0
  {
    h := new HeavyHitters(1);
    RecordIs(h.node[..], h.value[..], h.since, h.count, h.weight, 0);
    var n := h.Increment(0, 0);
  }

  lemma SizesOf(h: HeavyHitters)
    requires h.Valid()
    ensures h.Sizes()
  {
  }

  lemma HoldsRoot(h: seq<nat>, n: nat)
    requires Holds(h, n) && n > 0
    ensures h[0] < n
  {
  }

  lemma HoldsRefers(h: seq<nat>, v: seq<nat>, n: nat)
    requires Holds(h, n) && |v| == |h| && forall i :: n <= i < |h| ==> h[i] == i
    ensures Refers(h, v)
  {
  }

  // A new record behind the heap.
  lemma InsertKeepsOrder(h: seq<nat>, v: seq<nat>, c: nat, w: nat)
    requires c < |h| == |v| && Holds(h, c) && Ordered(h, v, c) && forall i :: c <= i < |h| ==> h[i] == i
    ensures Ordered(Promoted(h, v[c := v[c] + w], c), v[c := v[c] + w], c + 1)
  {
    hide Promoted, Ordered;
    HoldsRefers(h, v, c);
    InsertOrders(h, v, c, v[c] + w);
  }

  // A new value for the root, which was minimal.
  lemma ReplaceKeepsOrder(h: seq<nat>, v: seq<nat>, count: nat, value: nat)
    requires 0 < count == |h| == |v| && Holds(h, count) && Ordered(h, v, count)
    ensures Ordered(Demoted(h, v[h[0] := value], count, 0), v[h[0] := value], count) && Minimal(v, count, h[0])
  {
    hide Demoted, Ordered;
    ReplaceRootOrders(h, v, count, value);
    forall m | 0 <= m < count
      ensures v[h[0]] <= v[m]
    {
      var p := PositionOf(h, count, m);
      RootMinimal(h, v, count, p);
    }
  }

  lemma HoldsMore(h: seq<nat>, n: nat)
    requires Holds(h, n) && n < |h| && forall i :: n <= i < |h| ==> h[i] == i
    ensures Holds(h, n + 1)
  {
  }

  lemma SumNext(v: seq<nat>, n: nat, w: nat)
    requires n < |v|
    ensures Sum(v[n := w], n + 1) == Sum(v, n) + w
  {
    SumUpdate(v, n, n, w);
  }

  lemma EmptyChained(nodes: seq<Node>, table: seq<int>, chains: seq<seq<nat>>)
    requires 0 < |table| == |chains| && forall b :: 0 <= b < |table| ==> table[b] == NIL && chains[b] == []
    requires forall n :: 0 <= n < |nodes| ==> nodes[n].prev == NIL && nodes[n].next == NIL
    ensures Chained(nodes, table, chains, UpTo(0))
  {
  }

  lemma NeighboursInRange(nodes: seq<Node>, table: seq<int>, chains: seq<seq<nat>>, members: set<nat>, n: nat)
    requires Chained(nodes, table, chains, members) && n in members && n < |nodes|
    ensures nodes[n].prev == NIL || 0 <= nodes[n].prev < |nodes|
    ensures nodes[n].next == NIL || 0 <= nodes[n].next < |nodes|
    ensures nodes[n].prev != n && nodes[n].next != n && (nodes[n].prev == NIL || nodes[n].prev != nodes[n].next)
  {
    var home := nodes[n].key % |table|;
    assert MemberOk(nodes, table, chains, members, n) && BucketOk(nodes, table, chains, members, home);
    var chain := chains[home];
    var i: nat :| i < |chain| && chain[i] == n;
    assert NodeLinked(nodes, chain, i);
    assert i > 0 ==> NodeLinked(nodes, chain, i - 1);
    assert i + 1 < |chain| ==> NodeLinked(nodes, chain, i + 1);
  }

  lemma HeadInRange(nodes: seq<Node>, table: seq<int>, chains: seq<seq<nat>>, members: set<nat>, b: nat)
    requires Chained(nodes, table, chains, members) && b < |table|
    ensures table[b] == NIL || (0 <= table[b] < |nodes| && table[b] in members)
  {
    assert BucketOk(nodes, table, chains, members, b);
    assert chains[b] != [] ==> NodeLinked(nodes, chains[b], 0) && chains[b][0] in chains[b];
  }
}
