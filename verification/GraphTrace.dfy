/** Where inputs, out-types and subscribers come from. */
module GraphTrace {
  import opened Optional
  import opened GraphInputs
  import opened GraphOffer

  // ----- what a graph asks for, without a run -----

  /** One node hands a datatype to a kid along an edge. */
  datatype Hop = Hop(from: nat, edge: Edge, dtype: nat)

  ghost predicate HasOut(outs: seq<Out>, id: (nat, nat)) {
    exists o :: 0 <= o < |outs| && outs[o].dtype == id.0 && outs[o].tag == id.1
  }

  /** A node declared an out-type of the datatype itself. */
  ghost predicate Declares(start: State, k: nat, dtype: nat) {
    k < |start.outs| && exists tag :: HasOut(start.outs[k], (dtype, tag))
  }

  /** A kid adds an out-type of the datatype for an input. */
  ghost predicate AddsType(net: Net, k: nat, x: Hop, dtype: nat) {
    exists tag :: (dtype, tag) in net.adds(k, x.dtype, x.edge.port)
  }

  /** The hop follows an edge, and the kid at its end accepts the datatype there. */
  ghost predicate HopOk(net: Net, h: Hop) {
    h.from < |net.edges| && h.edge in net.edges[h.from] && net.accepts(h.edge.dst, h.dtype, h.edge.port)
  }

  /** Hops from a source on, each of which hands on what its node declared or adds for what the last one brought. */
  ghost predicate Chain(net: Net, start: State, hops: seq<Hop>) {
    hops != [] &&
    var h := hops[|hops| - 1];
    && HopOk(net, h)
    && if |hops| == 1 then h.from >= net.kids && Declares(start, h.from, h.dtype)
       else
         var x := hops[|hops| - 2];
         && Chain(net, start, hops[..|hops| - 1]) && h.from == x.edge.dst
         && (Declares(start, h.from, h.dtype) || AddsType(net, h.from, x, h.dtype))
  }

  ghost predicate EndsWith(hops: seq<Hop>, k: nat, dtype: nat, port: nat) {
    hops != [] &&
    var h := hops[|hops| - 1];
    h.edge.dst == k && h.dtype == dtype && h.edge.port == port
  }

  /** A chain brings the datatype to the port of the kid. */
  ghost predicate Brought(net: Net, start: State, k: nat, dtype: nat, port: nat) {
    exists hops :: Chain(net, start, hops) && EndsWith(hops, k, dtype, port)
  }

  // ----- what a run has made of it so far -----

  ghost predicate InputAt(s: State, k: nat, dtype: nat, port: nat) {
    k < |s.inputs| && exists x :: x in s.inputs[k] && x.dtype == dtype && x.port == port
  }

  /** The kid has all out-types that it adds for an input it has. */
  ghost predicate Filled(net: Net, s: State, k: nat, dtype: nat, port: nat) {
    k < |s.outs| && InputAt(s, k, dtype, port) ==> forall id :: id in net.adds(k, dtype, port) ==> HasOut(s.outs[k], id)
  }

  /** An out-type was declared, or the node adds it for an input it has. */
  ghost predicate Founded(net: Net, start: State, s: State, k: nat, id: (nat, nat)) {
    k < |s.outs| && HasOut(s.outs[k], id) ==>
      || (k < |start.outs| && HasOut(start.outs[k], id))
      || AddedFor(net, s, k, id)
  }

  ghost predicate AddedFor(net: Net, s: State, k: nat, id: (nat, nat)) {
    exists dtype, port :: InputAt(s, k, dtype, port) && id in net.adds(k, dtype, port)
  }

  /** A source, or a kid that has accepted an input. */
  ghost predicate Active(net: Net, s: State, k: nat) {
    k >= net.kids || (k < |s.inputs| && s.inputs[k] != [])
  }

  /** Every subscriber stands at the end of an edge of the node, which is active. */
  ghost predicate AlongEdges(net: Net, s: State, k: nat, out: Out) {
    k < |net.edges| && forall sub :: sub in out.local || sub in out.ext ==>
      Active(net, s, k) && Edge(sub.dst, sub.port, sub.tag) in net.edges[k]
  }

  ghost predicate Traced(net: Net, start: State, s: State) {
    && |start.outs| == |s.outs|
    && (forall k: nat, dtype: nat, port: nat :: Filled(net, s, k, dtype, port))
    && (forall k: nat, id: (nat, nat) :: Founded(net, start, s, k, id))
    && (forall k: nat, dtype: nat, port: nat :: InputAt(s, k, dtype, port) ==> Brought(net, start, k, dtype, port))
    && (forall k, o :: 0 <= k < |s.outs| && 0 <= o < |s.outs[k]| ==> AlongEdges(net, s, k, s.outs[k][o]))
  }

  lemma {:induction false} AddOutsHas(outs: seq<Out>, ids: seq<(nat, nat)>, id: (nat, nat))
    ensures HasOut(AddOuts(outs, ids), id) <==> HasOut(outs, id) || id in ids
    decreases |ids|
  {
    if ids != [] {
      AddOutHas(outs, ids[0], id);
      AddOutsHas(AddOut(outs, ids[0]), ids[1..], id);
    }
  }

  lemma AddOutHas(outs: seq<Out>, one: (nat, nat), id: (nat, nat))
    ensures HasOut(AddOut(outs, one), id) <==> HasOut(outs, id) || id == one
  {
    var r := AddOut(outs, one);
    if HasOut(outs, id) {
      var o :| 0 <= o < |outs| && outs[o].dtype == id.0 && outs[o].tag == id.1;
      assert r[o] == outs[o];
    }
    if r != outs {
      assert r[|outs|] == Out(one.0, one.1, [], []);
    }
  }

  lemma HopOnly(net: Net, start: State, h: Hop)
    requires HopOk(net, h) && h.from >= net.kids && Declares(start, h.from, h.dtype)
    ensures Brought(net, start, h.edge.dst, h.dtype, h.edge.port)
  {
    assert Chain(net, start, [h]) && EndsWith([h], h.edge.dst, h.dtype, h.edge.port);
  }

  lemma HopMore(net: Net, start: State, dtype: nat, port: nat, h: Hop)
    requires HopOk(net, h) && Brought(net, start, h.from, dtype, port)
    requires Declares(start, h.from, h.dtype) || exists tag :: (h.dtype, tag) in net.adds(h.from, dtype, port)
    ensures Brought(net, start, h.edge.dst, h.dtype, h.edge.port)
  {
    var hops :| Chain(net, start, hops) && EndsWith(hops, h.from, dtype, port);
    var more := hops + [h];
    assert more[..|more| - 1] == hops && more[|more| - 2] == hops[|hops| - 1];
    assert Chain(net, start, more) && EndsWith(more, h.edge.dst, h.dtype, h.edge.port);
  }

  /** What a reached node offers along an edge, and the kid there accepts, is brought by a chain. */
  lemma OfferBrought(net: Net, start: State, s: State, k: nat, o: nat, e: Edge)
    requires Shape(net, s) && Traced(net, start, s) && k < |s.outs| && o < |s.outs[k]| && e in net.edges[k]
    requires Active(net, s, k)
    requires net.accepts(e.dst, s.outs[k][o].dtype, e.port)
    ensures Brought(net, start, e.dst, s.outs[k][o].dtype, e.port)
  {
    hide Chain, AlongEdges, Filled;
    var out := s.outs[k][o];
    var id, h := (out.dtype, out.tag), Hop(k, e, out.dtype);
    assert HasOut(s.outs[k], id) && Founded(net, start, s, k, id);
    if HasOut(start.outs[k], id) {
      assert Declares(start, k, out.dtype);
      if k >= net.kids {
        HopOnly(net, start, h);
      } else {
        var x := s.inputs[k][0];
        assert InputAt(s, k, x.dtype, x.port);
        HopMore(net, start, x.dtype, x.port, h);
      }
    } else {
      var dtype, port :| InputAt(s, k, dtype, port) && id in net.adds(k, dtype, port);
      HopMore(net, start, dtype, port, h);
    }
  }

  lemma AttachHas(net: Net, s: State, k: nat, o: nat, sub: Sub, j: nat, id: (nat, nat))
    requires k < |s.outs| == |net.thread| && o < |s.outs[k]| && sub.dst < |net.thread| && j < |s.outs|
    ensures HasOut(Attach(net, s, k, o, sub).outs[j], id) <==> HasOut(s.outs[j], id)
  {
    hide AddSub;
    var t := Attach(net, s, k, o, sub);
    assert |t.outs[j]| == |s.outs[j]|;
    assert forall i :: 0 <= i < |s.outs[j]| ==>
      t.outs[j][i].dtype == s.outs[j][i].dtype && t.outs[j][i].tag == s.outs[j][i].tag;
  }

  lemma AttachTraced(net: Net, start: State, s: State, k: nat, o: nat, sub: Sub)
    requires Shape(net, s) && k < |s.outs| && o < |s.outs[k]| && sub.dst < |net.thread|
    requires Traced(net, start, s) && Active(net, s, k) && Edge(sub.dst, sub.port, sub.tag) in net.edges[k]
    ensures Traced(net, start, Attach(net, s, k, o, sub))
  {
    hide Attach, HasOut, Brought;
    var t := Attach(net, s, k, o, sub);
    AttachInputs(net, s, k, o, sub);
    forall j: nat, id: (nat, nat) | j < |s.outs|
      ensures HasOut(t.outs[j], id) <==> HasOut(s.outs[j], id)
    {
      AttachHas(net, s, k, o, sub, j, id);
    }
    forall j: nat, dtype: nat, port: nat
      ensures Filled(net, t, j, dtype, port) && InputAt(t, j, dtype, port) == InputAt(s, j, dtype, port)
    {
      assert Filled(net, s, j, dtype, port);
    }
    forall j: nat, id: (nat, nat)
      ensures Founded(net, start, t, j, id)
    {
      assert Founded(net, start, s, j, id);
      assert AddedFor(net, s, j, id) ==> AddedFor(net, t, j, id);
    }
    forall j, i | 0 <= j < |t.outs| && 0 <= i < |t.outs[j]|
      ensures AlongEdges(net, t, j, t.outs[j][i])
    {
      AttachAlong(net, s, k, o, sub, j, i);
    }
  }

  lemma AttachInputs(net: Net, s: State, k: nat, o: nat, sub: Sub)
    requires k < |s.outs| == |net.thread| && o < |s.outs[k]| && sub.dst < |net.thread|
    ensures var t := Attach(net, s, k, o, sub);
      t.inputs == s.inputs && |t.outs| == |s.outs| && forall j :: 0 <= j < |s.outs| ==> |t.outs[j]| == |s.outs[j]|
  {
  }

  lemma AttachAlong(net: Net, s: State, k: nat, o: nat, sub: Sub, j: nat, i: nat)
    requires k < |s.outs| == |net.thread| && o < |s.outs[k]| && sub.dst < |net.thread| && |net.edges| == |s.outs|
    requires j < |s.outs| && i < |s.outs[j]| && AlongEdges(net, s, j, s.outs[j][i])
    requires Active(net, s, k) && Edge(sub.dst, sub.port, sub.tag) in net.edges[k]
    ensures AlongEdges(net, Attach(net, s, k, o, sub), j, Attach(net, s, k, o, sub).outs[j][i])
  {
  }

  lemma RegisterInputs(net: Net, s: State, dst: nat, dtype: nat, port: nat, k: nat, d: nat, p: nat)
    requires dst < |s.inputs| && dst < |s.outs|
    ensures var t := Register(net, s, dst, dtype, port);
      InputAt(t, k, d, p) <==> InputAt(s, k, d, p) || (k == dst && d == dtype && p == port)
  {
    hide AddOuts;
    var t := Register(net, s, dst, dtype, port);
    assert t.inputs[dst][0] == Input(dtype, port, |s.inputs[dst]|) && t.inputs[dst][1..] == s.inputs[dst];
  }

  lemma RegisterHas(net: Net, s: State, dst: nat, dtype: nat, port: nat, k: nat, id: (nat, nat))
    requires dst < |s.inputs| && dst < |s.outs| && k < |s.outs|
    ensures var t := Register(net, s, dst, dtype, port);
      && |t.outs| == |s.outs|
      && (HasOut(t.outs[k], id) <==> HasOut(s.outs[k], id) || (k == dst && id in net.adds(dst, dtype, port)))
  {
    hide AddOuts, HasOut;
    AddOutsHas(s.outs[dst], net.adds(dst, dtype, port), id);
  }

  lemma RegisterFilled(net: Net, s: State, dst: nat, dtype: nat, port: nat, k: nat, d: nat, p: nat)
    requires dst < |s.inputs| && dst < |s.outs| && Filled(net, s, k, d, p)
    ensures Filled(net, Register(net, s, dst, dtype, port), k, d, p)
  {
    hide Register, HasOut, InputAt;
    var t := Register(net, s, dst, dtype, port);
    RegisterSizes(net, s, dst, dtype, port);
    RegisterInputs(net, s, dst, dtype, port, k, d, p);
    if k < |t.outs| && InputAt(t, k, d, p) {
      forall id: (nat, nat) | id in net.adds(k, d, p)
        ensures HasOut(t.outs[k], id)
      {
        RegisterHas(net, s, dst, dtype, port, k, id);
      }
    }
  }

  lemma RegisterFounded(net: Net, start: State, s: State, dst: nat, dtype: nat, port: nat, k: nat, id: (nat, nat))
    requires dst < |s.inputs| && dst < |s.outs| && Founded(net, start, s, k, id)
    ensures Founded(net, start, Register(net, s, dst, dtype, port), k, id)
  {
    hide Register, HasOut, InputAt;
    var t := Register(net, s, dst, dtype, port);
    RegisterSizes(net, s, dst, dtype, port);
    if k < |t.outs| && HasOut(t.outs[k], id) {
      RegisterHas(net, s, dst, dtype, port, k, id);
      RegisterInputs(net, s, dst, dtype, port, dst, dtype, port);
      if AddedFor(net, s, k, id) {
        var d, p :| InputAt(s, k, d, p) && id in net.adds(k, d, p);
        RegisterInputs(net, s, dst, dtype, port, k, d, p);
      }
    }
  }

  lemma RegisterTraced(net: Net, start: State, s: State, dst: nat, dtype: nat, port: nat)
    requires Shape(net, s) && dst < |s.inputs| && dst < |s.outs| && |net.edges| == |s.outs|
    requires Traced(net, start, s) && Brought(net, start, dst, dtype, port)
    ensures Traced(net, start, Register(net, s, dst, dtype, port))
  {
    hide Register, HasOut, Brought, InputAt, Filled, Founded;
    var t := Register(net, s, dst, dtype, port);
    RegisterSizes(net, s, dst, dtype, port);
    forall k: nat, d: nat, p: nat
      ensures Filled(net, t, k, d, p)
      ensures InputAt(t, k, d, p) ==> Brought(net, start, k, d, p)
    {
      RegisterFilled(net, s, dst, dtype, port, k, d, p);
      RegisterInputs(net, s, dst, dtype, port, k, d, p);
    }
    forall k: nat, id: (nat, nat)
      ensures Founded(net, start, t, k, id)
    {
      RegisterFounded(net, start, s, dst, dtype, port, k, id);
    }
    forall k, o | 0 <= k < |t.outs| && 0 <= o < |t.outs[k]|
      ensures AlongEdges(net, t, k, t.outs[k][o])
    {
      RegisterAlong(net, s, dst, dtype, port, k, o);
    }
  }

  lemma RegisterAlong(net: Net, s: State, dst: nat, dtype: nat, port: nat, k: nat, o: nat)
    requires dst < |s.inputs| && dst < |s.outs| == |net.edges|
    requires forall i :: 0 <= k < |s.outs| && 0 <= i < |s.outs[k]| ==> AlongEdges(net, s, k, s.outs[k][i])
    requires var t := Register(net, s, dst, dtype, port); k < |t.outs| && o < |t.outs[k]|
    ensures AlongEdges(net, Register(net, s, dst, dtype, port), k, Register(net, s, dst, dtype, port).outs[k][o])
  {
    AddOutsNew(s.outs[dst], net.adds(dst, dtype, port), o);
  }

  lemma {:induction false} AddOutsNew(outs: seq<Out>, ids: seq<(nat, nat)>, o: nat)
    ensures var r := AddOuts(outs, ids); |outs| <= o < |r| ==> r[o].local == [] && r[o].ext == []
    decreases |ids|
  {
    if ids != [] {
      AddOutsNew(AddOut(outs, ids[0]), ids[1..], o);
    }
  }

  /** An offer of a reached node keeps the account of where everything comes from. */
  lemma OfferTraced(net: Net, start: State, s: State, k: nat, o: nat, e: Edge)
    requires StateOk(net, s) && Traced(net, start, s) && k < |s.outs| && o < |s.outs[k]| && e in net.edges[k]
    requires e.dst < net.kids && e.port < net.ports && Active(net, s, k)
    ensures Traced(net, start, Offer(net, s, k, o, e).0)
  {
    hide Traced, StateOk, Attach, Register;
    StateParts(net, s, k, o);
    var dtype := s.outs[k][o].dtype;
    var found := Find(s.inputs[e.dst], dtype, e.port);
    if found.Some? {
      AttachTraced(net, start, s, k, o, Sub(e.dst, found.value, e.port, e.tag));
    } else if net.accepts(e.dst, dtype, e.port) {
      OfferBrought(net, start, s, k, o, e);
      RegisterTraced(net, start, s, e.dst, dtype, e.port);
      RegisterSizes(net, s, e.dst, dtype, e.port);
      var t := Register(net, s, e.dst, dtype, e.port);
      AttachTraced(net, start, t, k, o, Sub(e.dst, |s.inputs[e.dst]|, e.port, e.tag));
    }
  }

  lemma RegisterSizes(net: Net, s: State, dst: nat, dtype: nat, port: nat)
    requires dst < |s.inputs| && dst < |s.outs|
    ensures var t := Register(net, s, dst, dtype, port);
      |t.inputs| == |s.inputs| && |t.outs| == |s.outs| && forall k :: 0 <= k < |s.outs| ==> |s.outs[k]| <= |t.outs[k]|
    ensures forall k: nat :: Active(net, s, k) ==> Active(net, Register(net, s, dst, dtype, port), k)
  {
  }

  lemma TracedStart(net: Net, start: State)
    requires StateOk(net, start) && forall k :: 0 <= k < net.kids ==> start.inputs[k] == []
    ensures Traced(net, start, start)
  {
    hide HasOut, InputsOk;
    forall k, o | 0 <= k < |start.outs| && 0 <= o < |start.outs[k]|
      ensures AlongEdges(net, start, k, start.outs[k][o])
    {
      assert OutOk(net, start, k, start.outs[k][o]);
    }
  }

  // ----- when nothing is left to offer -----

  /** Whatever a chain brings to a kid is an input of it, once every active node has its subscribers. */
  lemma {:induction false} ChainEnds(net: Net, start: State, s: State, hops: seq<Hop>)
    requires StateOk(net, s) && Traced(net, start, s) && Grows(start, s)
    requires forall k, i :: 0 <= k < |s.outs| && Active(net, s, k) && 0 <= i < |net.edges[k]| ==>
      EdgeSettled(net, s, k, net.edges[k][i])
    requires Chain(net, start, hops)
    ensures var h := hops[|hops| - 1]; InputAt(s, h.edge.dst, h.dtype, h.edge.port)
    decreases |hops|
  {
    hide StateOk, Traced, Grows, EdgeSettled, AddsType, Declares;
    var h := hops[|hops| - 1];
    if |hops| > 1 {
      ChainEnds(net, start, s, hops[..|hops| - 1]);
      LastHop(net, start, s, hops[|hops| - 2], h);
    } else {
      DeclaredHop(net, start, s, h);
    }
  }

  lemma LastHop(net: Net, start: State, s: State, x: Hop, h: Hop)
    requires StateOk(net, s) && Traced(net, start, s) && Grows(start, s) && HopOk(net, h)
    requires InputAt(s, x.edge.dst, x.dtype, x.edge.port) && h.from == x.edge.dst
    requires Declares(start, h.from, h.dtype) || AddsType(net, h.from, x, h.dtype)
    requires forall i :: 0 <= i < |net.edges[h.from]| && h.from < |s.outs| && Active(net, s, h.from) ==>
      EdgeSettled(net, s, h.from, net.edges[h.from][i])
    ensures InputAt(s, h.edge.dst, h.dtype, h.edge.port)
  {
    hide StateOk, Grows, EdgeSettled;
    Bounds(net, s);
    if Declares(start, h.from, h.dtype) {
      DeclaredHop(net, start, s, h);
    } else {
      var tag :| (h.dtype, tag) in net.adds(h.from, x.dtype, x.edge.port);
      assert Filled(net, s, h.from, x.dtype, x.edge.port);
      SettledHop(net, s, h, tag);
    }
  }

  lemma DeclaredHop(net: Net, start: State, s: State, h: Hop)
    requires StateOk(net, s) && Grows(start, s) && HopOk(net, h) && Active(net, s, h.from)
    requires Declares(start, h.from, h.dtype)
    requires forall i :: 0 <= i < |net.edges[h.from]| && h.from < |s.outs| ==>
      EdgeSettled(net, s, h.from, net.edges[h.from][i])
    ensures InputAt(s, h.edge.dst, h.dtype, h.edge.port)
  {
    hide StateOk, EdgeSettled;
    Bounds(net, s);
    var tag :| HasOut(start.outs[h.from], (h.dtype, tag));
    var outs := start.outs[h.from];
    var o :| 0 <= o < |outs| && outs[o].dtype == h.dtype && outs[o].tag == tag;
    assert OutGrows(start.outs[h.from][o], s.outs[h.from][o]);
    SettledHop(net, s, h, tag);
  }

  lemma SettledHop(net: Net, s: State, h: Hop, tag: nat)
    requires StateOk(net, s) && HopOk(net, h) && h.from < |s.outs| && HasOut(s.outs[h.from], (h.dtype, tag))
    requires forall i :: 0 <= i < |net.edges[h.from]| ==> EdgeSettled(net, s, h.from, net.edges[h.from][i])
    ensures InputAt(s, h.edge.dst, h.dtype, h.edge.port)
  {
    var o :| 0 <= o < |s.outs[h.from]| && s.outs[h.from][o].dtype == h.dtype && s.outs[h.from][o].tag == tag;
    var i :| 0 <= i < |net.edges[h.from]| && net.edges[h.from][i] == h.edge;
    var out := s.outs[h.from][o];
    assert EdgeSettled(net, s, h.from, h.edge) && OutSettled(net, h.from, out, h.edge) && OutOk(net, s, h.from, out);
    var index :| Sub(h.edge.dst, index, h.edge.port, h.edge.tag) in
      if SameThread(net, h.from, h.edge.dst) then out.local else out.ext;
    assert SubOk(net, s, h.dtype, Sub(h.edge.dst, index, h.edge.port, h.edge.tag));
  }

  lemma Bounds(net: Net, s: State)
    requires StateOk(net, s)
    ensures NetOk(net) && Shape(net, s)
  {
  }

  /** The kids have exactly the inputs that chains bring. */
  lemma InputsAreBrought(net: Net, start: State, s: State, k: nat, dtype: nat, port: nat)
    requires StateOk(net, s) && Traced(net, start, s) && Grows(start, s)
    requires forall k, i :: 0 <= k < |s.outs| && Active(net, s, k) && 0 <= i < |net.edges[k]| ==>
      EdgeSettled(net, s, k, net.edges[k][i])
    ensures InputAt(s, k, dtype, port) <==> Brought(net, start, k, dtype, port)
  {
    hide StateOk, Grows, EdgeSettled, Chain, InputAt;
    if hops :| Chain(net, start, hops) && EndsWith(hops, k, dtype, port) {
      ChainEnds(net, start, s, hops);
    }
  }

  /** Every node has exactly the out-types it declared and those it adds for its inputs. */
  lemma OutsAreFounded(net: Net, start: State, s: State, k: nat, id: (nat, nat))
    requires Traced(net, start, s) && Grows(start, s) && k < |s.outs|
    ensures HasOut(s.outs[k], id) <==> HasOut(start.outs[k], id) || AddedFor(net, s, k, id)
  {
    hide InputAt;
    assert Founded(net, start, s, k, id);
    if HasOut(start.outs[k], id) {
      var o :| 0 <= o < |start.outs[k]| && start.outs[k][o].dtype == id.0 && start.outs[k][o].tag == id.1;
      assert OutGrows(start.outs[k][o], s.outs[k][o]);
    }
    if AddedFor(net, s, k, id) {
      var dtype, port :| InputAt(s, k, dtype, port) && id in net.adds(k, dtype, port);
      assert Filled(net, s, k, dtype, port);
    }
  }

  ghost predicate Subscribed(out: Out, e: Edge) {
    exists index :: Sub(e.dst, index, e.port, e.tag) in out.local || Sub(e.dst, index, e.port, e.tag) in out.ext
  }

  /** The kid at the end of an edge is a subscriber exactly if the node is active and the kid accepts the datatype. */
  ghost predicate Wired(net: Net, s: State, k: nat, o: nat, e: Edge)
    requires k < |s.outs| && o < |s.outs[k]| && k < |net.edges|
  {
    Subscribed(s.outs[k][o], e) <==>
      Active(net, s, k) && e in net.edges[k] && net.accepts(e.dst, s.outs[k][o].dtype, e.port)
  }

  /** Subscribers of the thread of the node, or of any when the node has none, are local, and the others external. */
  ghost predicate Sided(net: Net, k: nat, out: Out) {
    && k < |net.thread|
    && (forall sub :: sub in out.local ==>
          sub.dst < |net.thread| && (net.thread[k] == None || net.thread[k] == net.thread[sub.dst]))
    && (forall sub :: sub in out.ext ==>
          sub.dst < |net.thread| && net.thread[k].Some? && net.thread[k] != net.thread[sub.dst])
  }

  lemma AllWired(net: Net, start: State, s: State, k: nat, o: nat, e: Edge)
    requires StateOk(net, s) && Traced(net, start, s) && k < |s.outs| && o < |s.outs[k]| && k < |net.edges|
    requires forall k, i :: 0 <= k < |s.outs| && Active(net, s, k) && 0 <= i < |net.edges[k]| ==>
      EdgeSettled(net, s, k, net.edges[k][i])
    ensures Wired(net, s, k, o, e) && Sided(net, k, s.outs[k][o])
  {
    hide InputAt, Founded, Filled;
    var out := s.outs[k][o];
    assert AlongEdges(net, s, k, out) && OutOk(net, s, k, out);
    if index :| Sub(e.dst, index, e.port, e.tag) in out.local || Sub(e.dst, index, e.port, e.tag) in out.ext {
      assert SubOk(net, s, out.dtype, Sub(e.dst, index, e.port, e.tag));
    }
    if Active(net, s, k) && e in net.edges[k] && net.accepts(e.dst, out.dtype, e.port) {
      var i :| 0 <= i < |net.edges[k]| && net.edges[k][i] == e;
      assert EdgeSettled(net, s, k, e) && OutSettled(net, k, out, e);
    }
  }
}
