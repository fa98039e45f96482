/** The hash chains of heavyhitters.h: doubly linked lists through the nodes. */
module HhChains {
  const NIL: int := -1

  datatype Node = Node(key: nat, start: nat, prev: int, next: int)

  function At(chain: seq<nat>, i: int): int {
    if 0 <= i < |chain| then chain[i] else NIL
  }

  ghost predicate NodeLinked(nodes: seq<Node>, chain: seq<nat>, i: int)
    requires 0 <= i < |chain|
  {
    chain[i] < |nodes| && nodes[chain[i]].prev == At(chain, i - 1) && nodes[chain[i]].next == At(chain, i + 1)
  }

  /** The chain starts at head and goes on through the next fields, and back through the prev fields. */
  ghost predicate Linked(nodes: seq<Node>, chain: seq<nat>, head: int) {
    && head == At(chain, 0)
    && (forall i :: 0 <= i < |chain| ==> NodeLinked(nodes, chain, i))
    && (forall i, j :: 0 <= i < j < |chain| ==> chain[i] != chain[j])
  }

  function Without(chain: seq<nat>, i: nat): seq<nat>
    requires i < |chain|
  {
    chain[..i] + chain[i + 1..]
  }

  function SetNext(nodes: seq<Node>, n: int, next: int): (r: seq<Node>)
    ensures |r| == |nodes|
  {
    if 0 <= n < |nodes| then nodes[n := nodes[n].(next := next)] else nodes
  }

  function SetPrev(nodes: seq<Node>, n: int, prev: int): (r: seq<Node>)
    ensures |r| == |nodes|
  {
    if 0 <= n < |nodes| then nodes[n := nodes[n].(prev := prev)] else nodes
  }

  /** hh_hashtable_detach, as far as the nodes go. */
  function Detached(nodes: seq<Node>, n: nat): (r: seq<Node>)
    requires n < |nodes|
    ensures |r| == |nodes|
  {
    var a := SetNext(nodes, nodes[n].prev, nodes[n].next);
    var b := SetPrev(a, nodes[n].next, nodes[n].prev);
    b[n := b[n].(prev := NIL, next := NIL)]
  }

  /** hh_hashtable_attach in front of the chain with the given head. */
  function Attached(nodes: seq<Node>, n: nat, head: int): (r: seq<Node>)
    requires n < |nodes|
    ensures |r| == |nodes|
  {
    if head == NIL then nodes else SetNext(SetPrev(nodes, head, n), n, head)
  }

  lemma DetachLinked(nodes: seq<Node>, chain: seq<nat>, head: int, i: nat)
    requires Linked(nodes, chain, head) && i < |chain| && chain[i] < |nodes|
    ensures Linked(Detached(nodes, chain[i]), Without(chain, i),
      if head == chain[i] then nodes[chain[i]].next else head)
    ensures Detached(nodes, chain[i])[chain[i]] == nodes[chain[i]].(prev := NIL, next := NIL)
  {
    var n, r, rest := chain[i], Detached(nodes, chain[i]), Without(chain, i);
    assert NodeLinked(nodes, chain, i);
    forall k | 0 <= k < |rest|
      ensures NodeLinked(r, rest, k)
    {
      DetachNode(nodes, chain, head, i, k);
    }
    assert forall k :: 0 <= k < |rest| ==> rest[k] == chain[if k < i then k else k + 1];
    assert i == 0 && |chain| > 1 ==> rest[0] == chain[1];
    assert r[n].prev == NIL && r[n].next == NIL;
    assert i > 0 ==> chain[i - 1] != n;
    assert i + 1 < |chain| ==> chain[i + 1] != n;
  }

  lemma DetachNode(nodes: seq<Node>, chain: seq<nat>, head: int, i: nat, k: nat)
    requires Linked(nodes, chain, head) && i < |chain| && chain[i] < |nodes| && k < |chain| - 1
    ensures NodeLinked(Detached(nodes, chain[i]), Without(chain, i), k)
  {
    var j := if k < i then k else k + 1;
    assert Without(chain, i)[k] == chain[j];
    assert NodeLinked(nodes, chain, i) && NodeLinked(nodes, chain, j);
    assert i > 0 ==> NodeLinked(nodes, chain, i - 1);
    assert i + 1 < |chain| ==> NodeLinked(nodes, chain, i + 1);
  }

  lemma AttachLinked(nodes: seq<Node>, chain: seq<nat>, head: int, n: nat)
    requires Linked(nodes, chain, head) && n < |nodes| && n !in chain
    requires nodes[n].prev == NIL && nodes[n].next == NIL
    ensures Linked(Attached(nodes, n, head), [n] + chain, n)
  {
    var r, longer := Attached(nodes, n, head), [n] + chain;
    assert chain != [] ==> NodeLinked(nodes, chain, 0);
    forall k | 0 <= k < |longer|
      ensures NodeLinked(r, longer, k)
    {
      if k > 0 {
        assert NodeLinked(nodes, chain, k - 1);
      }
    }
  }

  /** Another chain is left alone. */
  lemma OtherLinked(nodes: seq<Node>, r: seq<Node>, chain: seq<nat>, head: int)
    requires Linked(nodes, chain, head) && |r| == |nodes| && forall n :: n in chain ==> n < |nodes| && r[n] == nodes[n]
    ensures Linked(r, chain, head)
  {
    forall i | 0 <= i < |chain|
      ensures NodeLinked(r, chain, i)
    {
      assert NodeLinked(nodes, chain, i);
    }
  }

  /** Detaching touches the node and its neighbours in the chain only. */
  lemma DetachTouches(nodes: seq<Node>, chain: seq<nat>, head: int, i: nat, m: nat)
    requires Linked(nodes, chain, head) && i < |chain| && chain[i] < |nodes| && m < |nodes|
    ensures m !in chain ==> Detached(nodes, chain[i])[m] == nodes[m]
    ensures Detached(nodes, chain[i])[m].key == nodes[m].key && Detached(nodes, chain[i])[m].start == nodes[m].start
  {
    assert NodeLinked(nodes, chain, i);
    assert i > 0 ==> chain[i - 1] in chain;
    assert i + 1 < |chain| ==> chain[i + 1] in chain;
  }

  lemma AttachTouches(nodes: seq<Node>, chain: seq<nat>, head: int, n: nat, m: nat)
    requires Linked(nodes, chain, head) && n < |nodes| && m < |nodes|
    ensures m !in chain && m != n ==> Attached(nodes, n, head)[m] == nodes[m]
    ensures Attached(nodes, n, head)[m].key == nodes[m].key && Attached(nodes, n, head)[m].start == nodes[m].start
  {
    assert chain != [] ==> chain[0] in chain;
  }
}
