/** The hash table over the nodes, and what their values say about the keys. */
module HhBook {
  import opened HhChains

  function UpTo(n: nat): (r: set<nat>)
    ensures forall i: nat :: i in r <==> i < n
  {
    if n == 0 then {} else UpTo(n - 1) + {n - 1}
  }

  ghost predicate BucketOk(nodes: seq<Node>, table: seq<int>, chains: seq<seq<nat>>, members: set<nat>, b: nat) {
    b < |chains| == |table| ==> (
      && Linked(nodes, chains[b], table[b])
      && forall n :: n in chains[b] ==> n in members && n < |nodes| && nodes[n].key % |table| == b)
  }

  ghost predicate MemberOk(nodes: seq<Node>, table: seq<int>, chains: seq<seq<nat>>, members: set<nat>, n: nat) {
    && (n in members ==> n < |nodes| && 0 < |table| == |chains| && n in chains[nodes[n].key % |table|])
    && (n !in members && n < |nodes| ==> nodes[n].prev == NIL && nodes[n].next == NIL)
  }

  /** The members are chained, each in the bucket of its key and nowhere else; the other nodes are free. */
  ghost predicate Chained(nodes: seq<Node>, table: seq<int>, chains: seq<seq<nat>>, members: set<nat>) {
    && 0 < |table| == |chains|
    && (forall b: nat :: BucketOk(nodes, table, chains, members, b))
    && (forall n: nat :: MemberOk(nodes, table, chains, members, n))
  }

  function TableDetached(nodes: seq<Node>, table: seq<int>, n: nat): (r: seq<int>)
    requires n < |nodes| && 0 < |table|
    ensures |r| == |table|
  {
    var b := nodes[n].key % |table|;
    if table[b] == n then table[b := nodes[n].next] else table
  }

  function TableAttached(table: seq<int>, b: nat, n: nat): (r: seq<int>)
    requires b < |table|
    ensures |r| == |table|
  {
    table[b := n]
  }

  lemma DetachKeeps(nodes: seq<Node>, table: seq<int>, chains: seq<seq<nat>>, members: set<nat>, n: nat)
    returns (after: seq<seq<nat>>)
    requires Chained(nodes, table, chains, members) && n in members && n < |nodes|
    ensures Chained(Detached(nodes, n), TableDetached(nodes, table, n), after, members - {n})
    ensures Detached(nodes, n)[n] == nodes[n].(prev := NIL, next := NIL)
    ensures forall m :: 0 <= m < |nodes| ==>
        Detached(nodes, n)[m].key == nodes[m].key && Detached(nodes, n)[m].start == nodes[m].start
  {
    hide Detached, Linked;
    var home := nodes[n].key % |table|;
    assert MemberOk(nodes, table, chains, members, n) && BucketOk(nodes, table, chains, members, home);
    var i: nat :| i < |chains[home]| && chains[home][i] == n;
    after := chains[home := Without(chains[home], i)];
    var r, t := Detached(nodes, n), TableDetached(nodes, table, n);
    DetachLinked(nodes, chains[home], table[home], i);
    forall m | 0 <= m < |nodes|
      ensures (m !in chains[home] ==> r[m] == nodes[m]) && r[m].key == nodes[m].key && r[m].start == nodes[m].start
    {
      DetachTouches(nodes, chains[home], table[home], i, m);
    }
    LinkedDistinct(nodes, chains[home], table[home]);
    WithoutMember(chains[home], i);
    forall b: nat
      ensures BucketOk(r, t, after, members - {n}, b)
    {
      assert BucketOk(nodes, table, chains, members, b);
      if b < |chains| && b != home {
        OtherLinked(nodes, r, chains[b], table[b]);
      }
    }
    forall m: nat
      ensures MemberOk(r, t, after, members - {n}, m)
    {
      assert MemberOk(nodes, table, chains, members, m);
    }
  }

  lemma LinkedDistinct(nodes: seq<Node>, chain: seq<nat>, head: int)
    requires Linked(nodes, chain, head)
    ensures forall i, j :: 0 <= i < j < |chain| ==> chain[i] != chain[j]
  {
  }

  lemma WithoutMember(chain: seq<nat>, i: nat)
    requires i < |chain| && forall i, j :: 0 <= i < j < |chain| ==> chain[i] != chain[j]
    ensures forall n :: n in Without(chain, i) <==> n in chain && n != chain[i]
  {
    assert chain == chain[..i] + [chain[i]] + chain[i + 1..];
  }

  /** A free node can be given another key. */
  lemma RekeyKeeps(nodes: seq<Node>, table: seq<int>, chains: seq<seq<nat>>, members: set<nat>, n: nat, key: nat,
                   start: nat)
    requires Chained(nodes, table, chains, members) && n !in members && n < |nodes|
    ensures Chained(nodes[n := nodes[n].(key := key, start := start)], table, chains, members)
  {
    hide Linked;
    var r := nodes[n := nodes[n].(key := key, start := start)];
    forall b: nat
      ensures BucketOk(r, table, chains, members, b)
    {
      assert BucketOk(nodes, table, chains, members, b);
      if b < |chains| {
        OtherLinked(nodes, r, chains[b], table[b]);
      }
    }
    forall m: nat
      ensures MemberOk(r, table, chains, members, m)
    {
      assert MemberOk(nodes, table, chains, members, m);
    }
  }

  lemma AttachKeeps(nodes: seq<Node>, table: seq<int>, chains: seq<seq<nat>>, members: set<nat>, n: nat)
    returns (after: seq<seq<nat>>)
    requires Chained(nodes, table, chains, members) && n !in members && n < |nodes|
    ensures var b := nodes[n].key % |table|;
      Chained(Attached(nodes, n, table[b]), TableAttached(table, b, n), after, members + {n})
    ensures var b := nodes[n].key % |table|;
      forall m :: 0 <= m < |nodes| ==>
        Attached(nodes, n, table[b])[m].key == nodes[m].key && Attached(nodes, n, table[b])[m].start == nodes[m].start
  {
    hide Attached, Linked;
    var home := nodes[n].key % |table|;
    assert MemberOk(nodes, table, chains, members, n) && BucketOk(nodes, table, chains, members, home);
    after := chains[home := [n] + chains[home]];
    var r, t := Attached(nodes, n, table[home]), TableAttached(table, home, n);
    AttachLinked(nodes, chains[home], table[home], n);
    forall m | 0 <= m < |nodes|
      ensures (m !in chains[home] && m != n ==>
          r[m] == nodes[m]) && r[m].key == nodes[m].key && r[m].start == nodes[m].start
    {
      AttachTouches(nodes, chains[home], table[home], n, m);
    }
    forall b: nat
      ensures BucketOk(r, t, after, members + {n}, b)
    {
      assert BucketOk(nodes, table, chains, members, b);
      if b < |chains| && b != home {
        OtherLinked(nodes, r, chains[b], table[b]);
      }
    }
    forall m: nat
      ensures MemberOk(r, t, after, members + {n}, m)
    {
      assert MemberOk(nodes, table, chains, members, m);
    }
  }

  lemma HeadIs(nodes: seq<Node>, table: seq<int>, chains: seq<seq<nat>>, members: set<nat>, b: nat)
    requires Chained(nodes, table, chains, members) && b < |table| && 0 <= table[b] < |nodes|
    ensures nodes[table[b]].prev == NIL && nodes[table[b]].key % |table| == b
  {
    assert BucketOk(nodes, table, chains, members, b);
    assert chains[b] != [] && NodeLinked(nodes, chains[b], 0) && chains[b][0] in chains[b];
  }

  /** A node in use is never chained right again when it is attached without being detached first, whatever its
      new key. */
  lemma AttachedTwice(nodes: seq<Node>, table: seq<int>, chains: seq<seq<nat>>, members: set<nat>, n: nat, key: nat,
                      after: seq<seq<nat>>)
    requires Chained(nodes, table, chains, members) && n in members && n < |nodes|
    ensures var b, rekeyed := key % |table|, nodes[n := nodes[n].(key := key)];
      !Chained(Attached(rekeyed, n, table[b]), TableAttached(table, b, n), after, members)
  {
    var b, home := key % |table|, nodes[n].key % |table|;
    var r, t := Attached(nodes[n := nodes[n].(key := key)], n, table[b]), TableAttached(table, b, n);
    assert MemberOk(nodes, table, chains, members, n) && BucketOk(nodes, table, chains, members, home);
    var chain := chains[home];
    var i: nat :| i < |chain| && chain[i] == n;
    assert NodeLinked(nodes, chain, i) && NodeLinked(nodes, chain, 0);
    if Chained(r, t, after, members) {
      HeadIs(r, t, after, members, b);
      if i == 0 && b != home {
        HeadIs(r, t, after, members, home);
      }
    }
  }

  // ----- values and weights -----

  function Sum(v: seq<nat>, n: nat): nat
    requires n <= |v|
  {
    if n == 0 then 0 else Sum(v, n - 1) + v[n - 1]
  }

  lemma {:induction false} SumUpdate(v: seq<nat>, n: nat, i: nat, x: nat)
    requires n <= |v| && i < |v|
    ensures Sum(v[i := x], n) == Sum(v, n) + if i < n then x - v[i] else 0
    decreases n
  {
    if n > 0 {
      SumUpdate(v, n - 1, i, x);
    }
  }

  /** The weight that was added for a key so far. */
  function Weight(weight: map<nat, nat>, key: nat): nat {
    if key in weight then weight[key] else 0
  }

  function Add(weight: map<nat, nat>, key: nat, w: nat): map<nat, nat> {
    weight[key := Weight(weight, key) + w]
  }

  /** A record in use: its value is what it started from and what came since, and no more than that came for
      its key. A free record is empty. */
  ghost predicate RecordOk(nodes: seq<Node>, v: seq<nat>, since: seq<nat>, count: nat, weight: map<nat, nat>, n: nat)
    requires |nodes| == |v| == |since|
  {
    && (n < count && n < |v| ==> v[n] == nodes[n].start + since[n] && since[n] <= Weight(weight, nodes[n].key))
    && (count <= n < |v| ==> v[n] == 0 && nodes[n].start == 0)
  }

  ghost predicate Counted(nodes: seq<Node>, v: seq<nat>, since: seq<nat>, count: nat, weight: map<nat, nat>)
    requires |nodes| == |v| == |since|
  {
    forall n: nat :: RecordOk(nodes, v, since, count, weight, n)
  }

  /** One record takes more weight, be it for the same key, a first or another one. */
  lemma CountedMore(nodes: seq<Node>, now: seq<Node>, v: seq<nat>, since: seq<nat>, count: nat, after: nat,
                    weight: map<nat, nat>,
                    n: nat, w: nat, came: nat)
    requires |nodes| == |now| == |v| == |since| && Counted(nodes, v, since, count, weight)
    requires n < after && n < |v| && (after == count || (after == count + 1 && n == count))
    requires forall m :: 0 <= m < |nodes| && m != n ==> now[m].key == nodes[m].key && now[m].start == nodes[m].start
    requires v[n] + w == now[n].start + came && came <= Weight(weight, now[n].key) + w
    ensures Counted(now, v[n := v[n] + w], since[n := came], after, Add(weight, now[n].key, w))
  {
    var x, y, more := v[n := v[n] + w], since[n := came], Add(weight, now[n].key, w);
    forall m: nat
      ensures RecordOk(now, x, y, after, more, m)
    {
      assert RecordOk(nodes, v, since, count, weight, m);
    }
  }

  lemma RecordIs(nodes: seq<Node>, v: seq<nat>, since: seq<nat>, count: nat, weight: map<nat, nat>, n: nat)
    requires |nodes| == |v| == |since| && Counted(nodes, v, since, count, weight) && n < |v|
    ensures if n < count then v[n] == nodes[n].start + since[n] && since[n] <= Weight(weight, nodes[n].key)
      else v[n] == 0 && nodes[n].start == 0
  {
    assert RecordOk(nodes, v, since, count, weight, n);
  }

  ghost predicate Tracked(nodes: seq<Node>, count: nat, key: nat)
    requires count <= |nodes|
  {
    exists n :: 0 <= n < count && nodes[n].key == key
  }

  ghost predicate KeyOk(nodes: seq<Node>, v: seq<nat>, count: nat, weight: map<nat, nat>, key: nat)
    requires count <= |nodes| == |v|
  {
    && (forall n :: 0 <= n < count && nodes[n].key == key ==> Weight(weight, key) <= v[n])
    && (!Tracked(nodes, count, key) ==>
          if count < |v| then Weight(weight, key) == 0 else forall n :: 0 <= n < count ==> Weight(weight, key) <= v[n])
  }

  /** No key weighs more than its record says, and none without a record more than any record. */
  ghost predicate Bounded(nodes: seq<Node>, v: seq<nat>, count: nat, weight: map<nat, nat>)
    requires count <= |nodes| == |v|
  {
    forall key: nat :: KeyOk(nodes, v, count, weight, key)
  }

  ghost predicate DistinctKeys(nodes: seq<Node>, count: nat)
    requires count <= |nodes|
  {
    forall n, m :: 0 <= n < m < count ==> nodes[n].key != nodes[m].key
  }

  ghost predicate Minimal(v: seq<nat>, count: nat, n: nat)
    requires count <= |v|
  {
    n < count && forall m :: 0 <= m < count ==> v[n] <= v[m]
  }

  lemma FoundBounded(nodes: seq<Node>, v: seq<nat>, count: nat, weight: map<nat, nat>, n: nat, w: nat)
    requires n < count <= |nodes| == |v| && DistinctKeys(nodes, count) && Bounded(nodes, v, count, weight)
    ensures Bounded(nodes, v[n := v[n] + w], count, Add(weight, nodes[n].key, w))
  {
    var x, after := v[n := v[n] + w], Add(weight, nodes[n].key, w);
    forall k: nat
      ensures KeyOk(nodes, x, count, after, k)
    {
      assert KeyOk(nodes, v, count, weight, k);
    }
  }

  // Node n, new or taken from a minimal record, is given to a key without a record.
  lemma AdmittedBounded(nodes: seq<Node>, now: seq<Node>, v: seq<nat>, count: nat, after: nat, weight: map<nat, nat>,
                        n: nat, key: nat, w: nat)
    requires count <= after <= |nodes| == |now| == |v| && n < after && Bounded(nodes, v, count, weight)
    requires !Tracked(nodes, count, key) && now[n].key == key
    requires forall m :: 0 <= m < |nodes| && m != n ==> now[m].key == nodes[m].key
    requires (after == count + 1 && n == count && v[n] == 0) ||
      (after == count == |v| && Minimal(v, count, n) && DistinctKeys(nodes, count))
    ensures Bounded(now, v[n := v[n] + w], after, Add(weight, key, w))
  {
    var x, more := v[n := v[n] + w], Add(weight, key, w);
    assert KeyOk(nodes, v, count, weight, key);
    forall k: nat
      ensures KeyOk(now, x, after, more, k)
    {
      assert KeyOk(nodes, v, count, weight, k);
      if Tracked(nodes, count, k) {
        var m :| 0 <= m < count && nodes[m].key == k;
        assert m != n ==> now[m].key == k;
      }
      if k != key && !Tracked(now, after, k) && Tracked(nodes, count, k) {
        assert nodes[n].key == k;
      }
    }
  }

  lemma KeysStayDistinct(nodes: seq<Node>, now: seq<Node>, count: nat, after: nat, n: nat, key: nat)
    requires count <= after <= |nodes| == |now| && n < after && (after == count || (after == count + 1 && n == count))
    requires DistinctKeys(nodes, count) && !Tracked(nodes, count, key) && now[n].key == key
    requires forall m :: 0 <= m < |nodes| && m != n ==> now[m].key == nodes[m].key
    ensures DistinctKeys(now, after)
  {
  }
}
