/** Datatypes are pushed through the graph from its sources until nothing is new. */
module GraphInit {
  import opened Optional
  import opened GraphInputs
  import opened GraphOffer
  import opened GraphTrace

  ghost predicate NodeSettled(net: Net, s: State, j: nat)
    requires NetOk(net) && Shape(net, s) && j < |s.outs|
  {
    forall i :: 0 <= i < |net.edges[j]| ==> EdgeSettled(net, s, j, net.edges[j][i])
  }

  ghost predicate SettledBut(net: Net, s: State, pending: set<nat>, j: nat)
    requires NetOk(net) && Shape(net, s)
  {
    j < |s.outs| && Active(net, s, j) && j !in pending ==> NodeSettled(net, s, j)
  }

  ghost function Members(queue: seq<nat>): set<nat> {
    set x | x in queue
  }

  predicate AtLeast(j: nat, from: nat) {
    from <= j
  }

  /** Every node that was reached is settled, but for those still to be visited. */
  ghost predicate Inv(net: Net, s: State, pending: set<nat>)
    requires NetOk(net) && Shape(net, s)
  {
    forall j: nat :: SettledBut(net, s, pending, j)
  }

  predicate Registered(s: State, k: nat, t: nat, p: nat) {
    k < |s.inputs| && Find(s.inputs[k], t, p).Some?
  }

  /** The inputs that could still be registered: what makes propagation end on a cyclic graph. */
  ghost function Free(net: Net, s: State): set<(nat, nat, nat)> {
    set k: nat, t: nat, p: nat | k < net.kids && t < net.types && p < net.ports && !Registered(s, k, t, p) :: (k, t, p)
  }

  lemma FreeShrinks(net: Net, s: State, t: State, dst: nat, dtype: nat, port: nat, index: nat)
    requires Shape(net, s) && dst < net.kids && dtype < net.types && port < net.ports
    requires !Registered(s, dst, dtype, port)
    requires t.inputs == s.inputs[dst := [Input(dtype, port, index)] + s.inputs[dst]]
    ensures |Free(net, t)| < |Free(net, s)|
  {
    hide Find;
    var x := (dst, dtype, port);
    assert x in Free(net, s);
    forall k: nat, d: nat, p: nat | k < net.kids
      ensures Registered(t, k, d, p) <==> Registered(s, k, d, p) || (k, d, p) == x
    {
      RegisteredAfter(s, t, dst, dtype, port, index, k, d, p);
    }
    assert Free(net, t) == Free(net, s) - {x};
  }

  lemma RegisteredAfter(s: State, t: State, dst: nat, dtype: nat, port: nat, index: nat, k: nat, d: nat, p: nat)
    requires dst < |s.inputs| && t.inputs == s.inputs[dst := [Input(dtype, port, index)] + s.inputs[dst]]
    ensures Registered(t, k, d, p) <==> Registered(s, k, d, p) || (k, d, p) == (dst, dtype, port)
  {
    if k == dst {
      assert t.inputs[k][1..] == s.inputs[k];
    }
  }

  /** What an offer or a series of offers along an edge does to the rest of the graph. */
  ghost predicate Along(net: Net, s: State, t: State, dst: nat, grown: bool) {
    && Shape(net, s) && Shape(net, t) && Grows(s, t)
    && (!grown ==> t.inputs == s.inputs)
    && (grown ==> |Free(net, t)| < |Free(net, s)|)
    && (forall j :: 0 <= j < |s.inputs| && j != dst ==> t.inputs[j] == s.inputs[j])
    && (forall j :: 0 <= j < |s.outs| && (j != dst || !grown) ==> |t.outs[j]| == |s.outs[j]|)
  }

  lemma OfferAlong(net: Net, s: State, k: nat, o: nat, e: Edge)
    requires StateOk(net, s) && k < |s.outs| && o < |s.outs[k]| && e.dst < net.kids && e.port < net.ports
    ensures StateOk(net, Offer(net, s, k, o, e).0)
    ensures Along(net, s, Offer(net, s, k, o, e).0, e.dst, Offer(net, s, k, o, e).1 > 0)
  {
    hide Offer, Free, OutOk, InputsOk, Find, Grows;
    var r := Offer(net, s, k, o, e);
    OfferOk(net, s, k, o, e);
    forall j | 0 <= j < |s.outs|
      ensures j < |r.0.outs| && (r.1 <= 0 || j != e.dst ==> |r.0.outs[j]| == |s.outs[j]|)
    {
      OfferOuts(net, s, k, o, e, j);
    }
    OfferOuts(net, s, k, o, e, k);
    StateParts(net, s, k, o);
    if r.1 > 0 {
      FreeShrinks(net, s, r.0, e.dst, s.outs[k][o].dtype, e.port, |s.inputs[e.dst]|);
    } else {
      SameFree(net, s, r.0);
    }
  }

  lemma SameFree(net: Net, s: State, t: State)
    requires t.inputs == s.inputs
    ensures Free(net, t) == Free(net, s)
  {
  }

  lemma AlongTransitive(net: Net, s: State, t: State, u: State, dst: nat, a: bool, b: bool)
    requires Along(net, s, t, dst, a) && Along(net, t, u, dst, b)
    ensures Along(net, s, u, dst, a || b)
  {
    hide Free, Grows;
    GrowsTransitive(s, t, u);
    GrowsSizes(s, t);
    if !a {
      SameFree(net, s, t);
    }
    if !b {
      SameFree(net, t, u);
    }
  }

  lemma GrowsSizes(s: State, t: State)
    requires Grows(s, t)
    ensures |t.inputs| == |s.inputs| && |t.outs| == |s.outs|
  {
  }

  lemma EdgeSettledGrows(net: Net, s: State, t: State, k: nat, e: Edge)
    requires Shape(net, s) && Shape(net, t) && Grows(s, t) && k < |s.outs| && e.dst < |net.thread|
    requires |t.outs[k]| == |s.outs[k]| && EdgeSettled(net, s, k, e)
    ensures EdgeSettled(net, t, k, e)
  {
    hide OutSettled, OutGrows;
    forall o | 0 <= o < |t.outs[k]|
      ensures OutSettled(net, k, t.outs[k][o], e)
    {
      OutSettledGrows(net, k, s.outs[k][o], t.outs[k][o], e);
    }
  }

  lemma NodeSettledGrows(net: Net, s: State, t: State, k: nat)
    requires NetOk(net) && Shape(net, s) && Shape(net, t) && Grows(s, t) && k < |s.outs|
    requires |t.outs[k]| == |s.outs[k]| && NodeSettled(net, s, k)
    ensures NodeSettled(net, t, k)
  {
    hide EdgeSettled, Grows;
    forall i | 0 <= i < |net.edges[k]|
      ensures EdgeSettled(net, t, k, net.edges[k][i])
    {
      EdgeSettledGrows(net, s, t, k, net.edges[k][i]);
    }
  }

  /** Along an edge only its end can become unsettled, and then it has to be visited. */
  lemma InvAlong(net: Net, s: State, t: State, dst: nat, grown: bool, before: set<nat>, after: set<nat>)
    requires NetOk(net) && Along(net, s, t, dst, grown) && Inv(net, s, before)
    requires before <= after && (grown ==> dst in after)
    ensures Inv(net, t, after)
  {
    hide NodeSettled, Grows, Free;
    forall j: nat
      ensures SettledBut(net, t, after, j)
    {
      assert SettledBut(net, s, before, j);
      if j < |t.outs| && Active(net, t, j) && j !in after {
        NodeSettledGrows(net, s, t, j);
      }
    }
  }

  class GraphInit {
    const net: Net
    var inputs: seq<seq<Input>>
    var outs: seq<seq<Out>>

    ghost function View(): State
      reads this
    {
      State(inputs, outs)
    }

    /** A graph whose kids have accepted nothing yet; every node has the out-types it declared itself. */
    constructor (n: Net, ids: seq<seq<(nat, nat)>>)
      requires NetOk(n) && |ids| == |n.edges|
      requires forall k, i :: 0 <= k < |ids| && 0 <= i < |ids[k]| ==> ids[k][i].0 < n.types
      ensures net == n && StateOk(net, View())
      ensures forall k :: 0 <= k < net.kids ==> inputs[k] == []
      ensures forall k :: 0 <= k < |outs| ==> outs[k] == AddOuts([], ids[k])
    {
      net := n;
      inputs := seq(n.kids, _ => []);
      outs := seq(|ids|, k requires 0 <= k < |ids| => AddOuts([], ids[k]));
      new;
      forall k | 0 <= k < |outs|
        ensures forall o :: 0 <= o < |outs[k]| ==> OutOk(net, View(), k, outs[k][o])
      {
        AddOutsOk(net, View(), k, [], ids[k]);
      }
    }

    /** The search for an input a kid has already. */
    method FindInput(dst: nat, dtype: nat, port: nat) returns (r: Option<nat>)
      requires dst < |inputs|
      ensures r == Find(inputs[dst], dtype, port)
    {
      var i := 0;
      assert inputs[dst][0..] == inputs[dst];
      while i < |inputs[dst]|
        invariant i <= |inputs[dst]| && Find(inputs[dst][i..], dtype, port) == Find(inputs[dst], dtype, port)
      {
        if inputs[dst][i].dtype == dtype && inputs[dst][i].port == port {
          return Some(inputs[dst][i].index);
        }
        assert inputs[dst][i..][1..] == inputs[dst][i + 1..];
        i := i + 1;
      }
      r := None;
    }

    /** ws_init_instance_input. */
    method InstanceInput(k: nat, o: nat, e: Edge) returns (rtn: int)
      requires StateOk(net, View()) && k < |outs| && o < |outs[k]| && e.dst < net.kids && e.port < net.ports
      modifies this
      ensures View() == Offer(net, old(View()), k, o, e).0 && rtn == Offer(net, old(View()), k, o, e).1
    {
      hide AddOuts, AddSub, OutOk, InputsOk;
      var dtype := outs[k][o].dtype;
      var found := FindInput(e.dst, dtype, e.port);
      rtn := 0;
      if found.Some? {
        Subscribe(k, o, Sub(e.dst, found.value, e.port, e.tag));
        rtn := -1;
      } else if net.accepts(e.dst, dtype, e.port) {
        var index := |inputs[e.dst]|;
        outs := outs[e.dst := AddOuts(outs[e.dst], net.adds(e.dst, dtype, e.port))];
        inputs := inputs[e.dst := [Input(dtype, e.port, index)] + inputs[e.dst]];
        Subscribe(k, o, Sub(e.dst, index, e.port, e.tag));
        rtn := 1;
      }
    }

    /** A subscriber is linked in front of the local or the external list, unless it is there. */
    method Subscribe(k: nat, o: nat, sub: Sub)
      requires Shape(net, View()) && k < |outs| && o < |outs[k]| && sub.dst < |net.thread|
      modifies `outs
      ensures View() == Attach(net, old(View()), k, o, sub)
    {
      var out := outs[k][o];
      if SameThread(net, k, sub.dst) {
        if sub !in out.local {
          out := out.(local := [sub] + out.local);
        }
      } else if sub !in out.ext {
        out := out.(ext := [sub] + out.ext);
      }
      outs := outs[k := outs[k][o := out]];
    }

    /** ws_init_datatype_dst: every out-type of a node is offered along an edge, those added meanwhile as well. */
    method DatatypeDst(k: nat, e: Edge, ghost start: State) returns (count: nat)
      requires StateOk(net, View()) && k < |outs| && e.dst < net.kids && e.port < net.ports
      requires Traced(net, start, View()) && Active(net, View(), k) && e in net.edges[k]
      modifies this
      ensures Traced(net, start, View()) && Active(net, View(), k)
      ensures count > 0 ==> Active(net, View(), e.dst)
      ensures StateOk(net, View()) && Along(net, old(View()), View(), e.dst, count > 0)
      ensures EdgeSettled(net, View(), k, e)
    {
      hide OutSettled, OutOk, InputsOk, Free, Along, Offer, Traced;
      var o := 0;
      count := 0;
      AlongSelf(net, View(), e.dst);
      while o < |outs[k]|
        invariant StateOk(net, View()) && Along(net, old(View()), View(), e.dst, count > 0)
        invariant k < |outs| && o <= |outs[k]| && Traced(net, start, View()) && Active(net, View(), k)
        invariant count > 0 ==> Active(net, View(), e.dst)
        invariant forall o' :: 0 <= o' < o ==> OutSettled(net, k, outs[k][o'], e)
        decreases |Free(net, View())|, |outs[k]| - o
      {
        ghost var before := View();
        OfferAlong(net, before, k, o, e);
        OfferSettles(net, before, k, o, e);
        OfferTraced(net, start, before, k, o, e);
        OfferActive(net, before, k, o, e, k);
        var rtn := InstanceInput(k, o, e);
        AlongTransitive(net, old(View()), before, View(), e.dst, count > 0, rtn > 0);
        AlongParts(net, before, View(), e.dst, rtn > 0, k);
        forall o' | 0 <= o' < o
          ensures OutSettled(net, k, outs[k][o'], e)
        {
          OutSettledGrows(net, k, before.outs[k][o'], outs[k][o'], e);
        }
        if rtn > 0 {
          count := count + 1;
        }
        o := o + 1;
      }
    }

    /** The kids in the queue have accepted inputs. */
    ghost predicate Elements(queue: seq<nat>)
      reads this
    {
      forall i :: 0 <= i < |queue| ==> queue[i] < net.kids && Active(net, View(), queue[i])
    }

    /** ws_init_from_instance: a kid with new inputs offers its out-types along its edges, and the kids that
        got new inputs by this follow. Pending are the nodes that other activations still have to visit. */
    method InitFromInstance(k: nat, ghost pending: set<nat>, ghost start: State)
      requires Traced(net, start, View()) && Active(net, View(), k)
      requires StateOk(net, View()) && k < net.kids && Inv(net, View(), pending + {k})
      modifies this
      ensures StateOk(net, View()) && Grows(old(View()), View()) && Inv(net, View(), pending)
      ensures Traced(net, start, View())
      ensures |Free(net, View())| <= |Free(net, old(View()))|
      decreases |Free(net, View())|
    {
      hide Inv, Grows, Free, StateOk, Along, EdgeSettled, NodeSettled, Traced;
      StateShape(net, View());
      var queue := OfferEdges(k, pending, start);
      StateShape(net, View());
      while queue != []
        invariant StateOk(net, View()) && Grows(old(View()), View()) && Elements(queue)
        invariant Traced(net, start, View())
        invariant NetOk(net) && Shape(net, View()) && Inv(net, View(), pending + Members(queue))
        invariant |Free(net, View())| <= |Free(net, old(View()))|
        invariant queue != [] ==> |Free(net, View())| < |Free(net, old(View()))|
        decreases |queue|, |Free(net, View())|
      {
        MembersPop(queue);
        var next := queue[0];
        queue := queue[1..];
        ghost var before := View();
        assert Inv(net, before, pending + Members(queue) + {next}) by {
          InvSame(net, before, pending + (Members(queue) + {next}), pending + Members(queue) + {next});
        }
        InitFromInstance(next, pending + Members(queue), start);
        GrowsActive(net, before, View());
        GrowsTransitive(old(View()), before, View());
        StateShape(net, View());
      }
      assert pending + Members([]) == pending;
    }

    /** The loop over the edges of a node; the result are the kids with new inputs. */
    method OfferEdges(k: nat, ghost pending: set<nat>, ghost start: State) returns (queue: seq<nat>)
      requires Traced(net, start, View()) && Active(net, View(), k)
      requires StateOk(net, View()) && k < |outs| && Inv(net, View(), pending + {k})
      modifies this
      ensures StateOk(net, View()) && Grows(old(View()), View()) && Elements(queue) && Traced(net, start, View())
      ensures Inv(net, View(), pending + Members(queue))
      ensures |Free(net, View())| <= |Free(net, old(View()))|
      ensures queue != [] ==> |Free(net, View())| < |Free(net, old(View()))|
    {
      hide Inv, Grows, Free, StateOk, Along, EdgeSettled, NodeSettled, Traced;
      StateShape(net, View());
      GrowsReflexive(View());
      queue := [];
      InvSame(net, View(), pending + {k}, pending + {k} + Members(queue));
      for i := 0 to |net.edges[k]|
        invariant StateOk(net, View()) && Grows(old(View()), View()) && Elements(queue)
        invariant Traced(net, start, View())
        invariant NetOk(net) && Shape(net, View()) && Inv(net, View(), pending + {k} + Members(queue))
        invariant |Free(net, View())| <= |Free(net, old(View()))|
        invariant queue != [] ==> |Free(net, View())| < |Free(net, old(View()))|
        invariant Active(net, View(), k)
        invariant k in queue || SettledUpTo(net, View(), k, i)
      {
        var e := net.edges[k][i];
        ghost var before, queued := View(), queue;
        var count := DatatypeDst(k, e, start);
        StateShape(net, View());
        AlongGrows(net, before, View(), e.dst, count > 0);
        GrowsActive(net, before, View());
        GrowsTransitive(old(View()), before, View());
        if count > 0 {
          queue := queue + [e.dst];
        }
        InvAlong(net, before, View(), e.dst, count > 0,
          pending + {k} + Members(queued), pending + {k} + Members(queue));
        if k !in queue {
          SettledMore(net, before, View(), k, i, e, count > 0);
        }
      }
      if k !in queue {
        AllSettled(net, View(), k);
      }
      InvVisited(net, View(), pending, k, Members(queue));
    }

    ghost function Sources(from: nat): set<nat> {
      set j: nat | j < |net.edges| && AtLeast(j, from)
    }

    /** ws_init_from_sources, on any graph: kids end with exactly the inputs that chains of edges and accepted
        datatypes bring them from a source, nodes with exactly the out-types they declared or add for their inputs,
        and out-types with exactly the subscribers that stand at an edge and accept them. */
    method InitFromSources()
      requires StateOk(net, View()) && forall k :: 0 <= k < net.kids ==> inputs[k] == []
      modifies this
      ensures StateOk(net, View()) && Grows(old(View()), View())
      ensures forall k: nat, dtype: nat, port: nat ::
        InputAt(View(), k, dtype, port) <==> Brought(net, old(View()), k, dtype, port)
      ensures forall k: nat, id :: k < |outs| ==>
        (HasOut(outs[k], id) <==> HasOut(old(outs)[k], id) || AddedFor(net, View(), k, id))
      ensures forall k: nat, o: nat, e :: k < |outs| && o < |outs[k]| ==> Wired(net, View(), k, o, e)
      ensures forall k: nat, o: nat :: k < |outs| && o < |outs[k]| ==> Sided(net, k, outs[k][o])
    {
      hide Inv, Grows, Free, StateOk, NodeSettled, Traced, InputAt, Brought, HasOut, AddedFor, Wired, Sided;
      StateShape(net, View());
      ghost var start := View();
      TracedStart(net, start);
      GrowsReflexive(View());
      var queue: seq<nat> := [];
      NothingReached(net, View(), Sources(net.kids) + Members([]));
      for k := net.kids to |net.edges|
        invariant StateOk(net, View()) && Grows(old(View()), View()) && Elements(queue)
        invariant Traced(net, start, View())
        invariant NetOk(net) && Shape(net, View()) && Inv(net, View(), Sources(k) + Members(queue))
      {
        ghost var before := View();
        ghost var pending := Sources(k + 1) + Members(queue);
        assert Sources(k) + Members(queue) <= pending + {k};
        InvSame(net, before, Sources(k) + Members(queue), pending + {k});
        var more := OfferEdges(k, pending, start);
        StateShape(net, View());
        GrowsTransitive(old(View()), before, View());
        GrowsActive(net, before, View());
        assert pending + Members(more) <= Sources(k + 1) + Members(queue + more);
        InvSame(net, View(), pending + Members(more), Sources(k + 1) + Members(queue + more));
        queue := queue + more;
      }
      assert Sources(|net.edges|) + Members(queue) <= Members(queue);
      InvSame(net, View(), Sources(|net.edges|) + Members(queue), Members(queue));
      while queue != []
        invariant StateOk(net, View()) && Grows(old(View()), View()) && Elements(queue)
        invariant Traced(net, start, View())
        invariant NetOk(net) && Shape(net, View()) && Inv(net, View(), Members(queue))
        decreases |queue|
      {
        MembersPop(queue);
        var next := queue[0];
        queue := queue[1..];
        ghost var before := View();
        InitFromInstance(next, Members(queue), start);
        GrowsActive(net, before, View());
        GrowsTransitive(old(View()), before, View());
        StateShape(net, View());
      }
      InvDone(net, View());
      Ended(net, start, View());
    }
  }

  lemma Ended(net: Net, start: State, s: State)
    requires StateOk(net, s) && Traced(net, start, s) && Grows(start, s) && Shape(net, s)
    requires forall j :: 0 <= j < |s.outs| && Active(net, s, j) ==> NodeSettled(net, s, j)
    ensures forall k: nat, dtype: nat, port: nat :: InputAt(s, k, dtype, port) <==> Brought(net, start, k, dtype, port)
    ensures forall k: nat, id :: k < |s.outs| ==>
      (HasOut(s.outs[k], id) <==> HasOut(start.outs[k], id) || AddedFor(net, s, k, id))
    ensures forall k: nat, o: nat, e :: k < |s.outs| && o < |s.outs[k]| ==> Wired(net, s, k, o, e)
    ensures forall k: nat, o: nat :: k < |s.outs| && o < |s.outs[k]| ==> Sided(net, k, s.outs[k][o])
  {
    hide StateOk, Grows, InputAt, Brought, HasOut, AddedFor, Wired, Sided;
    forall k: nat, dtype: nat, port: nat
      ensures InputAt(s, k, dtype, port) <==> Brought(net, start, k, dtype, port)
    {
      InputsAreBrought(net, start, s, k, dtype, port);
    }
    forall k: nat, id: (nat, nat) | k < |s.outs|
      ensures HasOut(s.outs[k], id) <==> HasOut(start.outs[k], id) || AddedFor(net, s, k, id)
    {
      OutsAreFounded(net, start, s, k, id);
    }
    forall k: nat, o: nat, e | k < |s.outs| && o < |s.outs[k]|
      ensures Wired(net, s, k, o, e)
    {
      AllWired(net, start, s, k, o, e);
    }
    forall k: nat, o: nat | k < |s.outs| && o < |s.outs[k]|
      ensures Sided(net, k, s.outs[k][o])
    {
      AllWired(net, start, s, k, o, Edge(0, 0, 0));
    }
  }

  lemma GrowsActive(net: Net, s: State, t: State)
    requires Grows(s, t)
    ensures forall k: nat :: Active(net, s, k) ==> Active(net, t, k)
  {
    forall k: nat | Active(net, s, k)
      ensures Active(net, t, k)
    {
      if k < net.kids {
        assert s.inputs[k][0] in t.inputs[k];
      }
    }
  }

  lemma OfferActive(net: Net, s: State, k: nat, o: nat, e: Edge, j: nat)
    requires StateOk(net, s) && k < |s.outs| && o < |s.outs[k]| && e.dst < net.kids && e.port < net.ports
    ensures var r := Offer(net, s, k, o, e);
      && (Active(net, s, j) ==> Active(net, r.0, j)) && |r.0.inputs| == |s.inputs|
      && (r.1 > 0 || s.inputs[e.dst] != [] ==> r.0.inputs[e.dst] != [])
  {
    hide StateOk, Find, AddOuts, AddSub, SameThread, OutOk;
    StateParts(net, s, k, o);
  }

  lemma NothingReached(net: Net, s: State, sources: set<nat>)
    requires NetOk(net) && Shape(net, s) && forall k :: 0 <= k < net.kids ==> s.inputs[k] == []
    requires forall j: nat :: net.kids <= j < |net.edges| ==> j in sources
    ensures Inv(net, s, sources)
  {
    hide NodeSettled;
  }

  lemma InvDone(net: Net, s: State)
    requires NetOk(net) && Shape(net, s) && Inv(net, s, Members([]))
    ensures forall j :: 0 <= j < |s.outs| && Active(net, s, j) ==> NodeSettled(net, s, j)
  {
    hide NodeSettled;
    forall j | 0 <= j < |s.outs| && Active(net, s, j)
      ensures NodeSettled(net, s, j)
    {
      assert SettledBut(net, s, Members([]), j);
    }
  }

  lemma MembersPop(queue: seq<nat>)
    requires queue != []
    ensures Members(queue) == Members(queue[1..]) + {queue[0]}
  {
    assert queue == [queue[0]] + queue[1..];
  }

  lemma InvSame(net: Net, s: State, a: set<nat>, b: set<nat>)
    requires NetOk(net) && Shape(net, s) && Inv(net, s, a) && a <= b
    ensures Inv(net, s, b)
  {
    hide NodeSettled;
    forall j: nat
      ensures SettledBut(net, s, b, j)
    {
      assert SettledBut(net, s, a, j);
    }
  }

  /** The first i edges of a node are settled. */
  ghost predicate SettledUpTo(net: Net, s: State, k: nat, i: nat)
    requires NetOk(net) && Shape(net, s) && k < |s.outs| && i <= |net.edges[k]|
  {
    forall i' :: 0 <= i' < i ==> EdgeSettled(net, s, k, net.edges[k][i'])
  }

  lemma AlongGrows(net: Net, s: State, t: State, dst: nat, grown: bool)
    requires Along(net, s, t, dst, grown)
    ensures Grows(s, t) && |Free(net, t)| <= |Free(net, s)| && (grown ==> |Free(net, t)| < |Free(net, s)|)
  {
    hide Free, Grows;
    if !grown {
      SameFree(net, s, t);
    }
  }

  lemma SettledMore(net: Net, s: State, t: State, k: nat, i: nat, e: Edge, grown: bool)
    requires NetOk(net) && Along(net, s, t, e.dst, grown) && (grown ==> k != e.dst)
    requires k < |s.outs| && i < |net.edges[k]| && e == net.edges[k][i]
    requires SettledUpTo(net, s, k, i) && EdgeSettled(net, t, k, e)
    ensures SettledUpTo(net, t, k, i + 1)
  {
    hide EdgeSettled, Grows, Free;
    forall i' | 0 <= i' < i
      ensures EdgeSettled(net, t, k, net.edges[k][i'])
    {
      EdgeSettledGrows(net, s, t, k, net.edges[k][i']);
    }
  }

  lemma AllSettled(net: Net, s: State, k: nat)
    requires NetOk(net) && Shape(net, s) && k < |s.outs| && SettledUpTo(net, s, k, |net.edges[k]|)
    ensures NodeSettled(net, s, k)
  {
    hide EdgeSettled;
  }

  lemma InvVisited(net: Net, s: State, pending: set<nat>, k: nat, queued: set<nat>)
    requires NetOk(net) && Shape(net, s) && k < |s.outs| && Inv(net, s, pending + {k} + queued)
    requires k in queued || NodeSettled(net, s, k)
    ensures Inv(net, s, pending + queued)
  {
    hide NodeSettled;
    forall j: nat
      ensures SettledBut(net, s, pending + queued, j)
    {
      assert SettledBut(net, s, pending + {k} + queued, j);
    }
  }

  lemma StateShape(net: Net, s: State)
    requires StateOk(net, s)
    ensures NetOk(net) && Shape(net, s)
  {
  }

  lemma AlongSelf(net: Net, s: State, dst: nat)
    requires Shape(net, s)
    ensures Along(net, s, s, dst, false)
  {
  }

  lemma AlongParts(net: Net, s: State, t: State, dst: nat, grown: bool, k: nat)
    requires Along(net, s, t, dst, grown) && k < |s.outs|
    ensures k < |t.outs| && |s.outs[k]| <= |t.outs[k]| && forall o :: 0 <= o < |s.outs[k]| ==>
        OutGrows(s.outs[k][o], t.outs[k][o])
    ensures |Free(net, t)| < |Free(net, s)| ||
      (t.inputs == s.inputs && |t.outs[k]| == |s.outs[k]| && Free(net, t) == Free(net, s))
  {
    hide Free;
    if !grown {
      SameFree(net, s, t);
    }
  }
}
