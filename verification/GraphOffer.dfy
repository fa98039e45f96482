/** What one offer keeps and what it settles. */
module GraphOffer {
  import opened Optional
  import opened Sequences
  import opened GraphInputs

  /** Nothing that was registered, offered or attached is lost. */
  ghost predicate Grows(s: State, t: State) {
    && |t.inputs| == |s.inputs| && |t.outs| == |s.outs|
    && (forall k, x :: 0 <= k < |s.inputs| && x in s.inputs[k] ==> x in t.inputs[k])
    && (forall k :: 0 <= k < |s.outs| ==> |s.outs[k]| <= |t.outs[k]|)
    && (forall k, o :: 0 <= k < |s.outs| && 0 <= o < |s.outs[k]| ==> OutGrows(s.outs[k][o], t.outs[k][o]))
  }

  ghost predicate OutGrows(a: Out, b: Out) {
    && b.dtype == a.dtype && b.tag == a.tag
    && (forall sub :: sub in a.local ==> sub in b.local)
    && (forall sub :: sub in a.ext ==> sub in b.ext)
  }

  lemma GrowsTransitive(s: State, t: State, u: State)
    requires Grows(s, t) && Grows(t, u)
    ensures Grows(s, u)
  {
    forall k, o | 0 <= k < |s.outs| && 0 <= o < |s.outs[k]|
      ensures OutGrows(s.outs[k][o], u.outs[k][o])
    {
      assert OutGrows(s.outs[k][o], t.outs[k][o]) && OutGrows(t.outs[k][o], u.outs[k][o]);
    }
  }

  lemma AttachGrows(net: Net, s: State, k: nat, o: nat, sub: Sub)
    requires k < |s.outs| == |net.thread| && o < |s.outs[k]| && sub.dst < |net.thread|
    ensures Grows(s, Attach(net, s, k, o, sub))
  {
  }

  lemma RegisterGrows(net: Net, s: State, dst: nat, dtype: nat, port: nat)
    requires dst < |s.inputs| && dst < |s.outs|
    ensures Grows(s, Register(net, s, dst, dtype, port))
  {
    hide AddOuts;
    var t := Register(net, s, dst, dtype, port);
    forall k, o | 0 <= k < |s.outs| && 0 <= o < |s.outs[k]|
      ensures OutGrows(s.outs[k][o], t.outs[k][o])
    {
    }
  }

  /** Out-types added by a kid have no subscribers yet. */
  lemma {:induction false} AddOutsOk(net: Net, s: State, k: nat, outs: seq<Out>, ids: seq<(nat, nat)>)
    requires k < |net.thread| && |s.inputs| <= |net.thread|
    requires forall o :: 0 <= o < |outs| ==> OutOk(net, s, k, outs[o])
    requires forall i :: 0 <= i < |ids| ==> ids[i].0 < net.types
    ensures forall o :: 0 <= o < |AddOuts(outs, ids)| ==> OutOk(net, s, k, AddOuts(outs, ids)[o])
    decreases |ids|
  {
    if ids != [] {
      AddOutsOk(net, s, k, AddOut(outs, ids[0]), ids[1..]);
    }
  }

  // More inputs do not disturb an out-type.
  lemma OutOkGrows(net: Net, s: State, t: State, k: nat, out: Out)
    requires k < |net.thread| && |s.inputs| == |t.inputs| <= |net.thread| && OutOk(net, s, k, out)
    requires forall k, x :: 0 <= k < |s.inputs| && x in s.inputs[k] ==> x in t.inputs[k]
    ensures OutOk(net, t, k, out)
  {
  }

  lemma RegisterOk(net: Net, s: State, dst: nat, dtype: nat, port: nat)
    requires StateOk(net, s) && dst < net.kids && dtype < net.types && port < net.ports
    requires net.accepts(dst, dtype, port) && Find(s.inputs[dst], dtype, port) == None
    ensures StateOk(net, Register(net, s, dst, dtype, port))
    ensures forall tag :: SubOk(net, Register(net, s, dst, dtype, port), dtype, Sub(dst, |s.inputs[dst]|, port, tag))
  {
    hide AddOuts, OutOk, Find;
    var t := Register(net, s, dst, dtype, port);
    RegisterGrows(net, s, dst, dtype, port);
    forall k, o | 0 <= k < |s.outs| && 0 <= o < |s.outs[k]|
      ensures OutOk(net, t, k, s.outs[k][o])
    {
      OutOkGrows(net, s, t, k, s.outs[k][o]);
    }
    AddOutsOk(net, t, dst, s.outs[dst], net.adds(dst, dtype, port));
    assert t.inputs[dst][0] == Input(dtype, port, |s.inputs[dst]|);
  }

  lemma AttachOk(net: Net, s: State, k: nat, o: nat, sub: Sub)
    requires StateOk(net, s) && k < |s.outs| && o < |s.outs[k]| && sub.dst < net.kids
    requires SubOk(net, s, s.outs[k][o].dtype, sub)
    ensures StateOk(net, Attach(net, s, k, o, sub))
  {
    hide SubOk, Distinct, InputsOk, AddSub, SameThread;
    var t := Attach(net, s, k, o, sub);
    AddSubOk(s.outs[k][o].local, sub);
    AddSubOk(s.outs[k][o].ext, sub);
    forall k', o' | 0 <= k' < |t.outs| && 0 <= o' < |t.outs[k']|
      ensures OutOk(net, t, k', t.outs[k'][o'])
    {
      assert OutOk(net, s, k', s.outs[k'][o']);
      SameInputs(net, s, t);
    }
  }

  lemma SameInputs(net: Net, s: State, t: State)
    requires s.inputs == t.inputs
    ensures forall dtype, sub :: SubOk(net, t, dtype, sub) == SubOk(net, s, dtype, sub)
  {
  }

  lemma AddSubOk(list: seq<Sub>, sub: Sub)
    requires Distinct(list)
    ensures Distinct(AddSub(list, sub)) && forall x :: x in AddSub(list, sub) <==> x in list || x == sub
  {
  }

  /** An offer keeps the graph in order. */
  lemma OfferOk(net: Net, s: State, k: nat, o: nat, e: Edge)
    requires StateOk(net, s) && k < |s.outs| && o < |s.outs[k]| && e.dst < net.kids && e.port < net.ports
    ensures StateOk(net, Offer(net, s, k, o, e).0) && Grows(s, Offer(net, s, k, o, e).0)
  {
    hide StateOk, Grows, Attach, Register, OutOk;
    StateParts(net, s, k, o);
    var dtype := s.outs[k][o].dtype;
    var found := Find(s.inputs[e.dst], dtype, e.port);
    if found.Some? {
      var sub := Sub(e.dst, found.value, e.port, e.tag);
      AttachOk(net, s, k, o, sub);
      AttachGrows(net, s, k, o, sub);
    } else if net.accepts(e.dst, dtype, e.port) {
      var t := Register(net, s, e.dst, dtype, e.port);
      RegisterOk(net, s, e.dst, dtype, e.port);
      RegisterGrows(net, s, e.dst, dtype, e.port);
      GrowsOut(net, s, t, k, o);
      var sub := Sub(e.dst, |s.inputs[e.dst]|, e.port, e.tag);
      AttachOk(net, t, k, o, sub);
      AttachGrows(net, t, k, o, sub);
      GrowsTransitive(s, t, Attach(net, t, k, o, sub));
    } else {
      GrowsReflexive(s);
    }
  }

  lemma GrowsReflexive(s: State)
    ensures Grows(s, s)
  {
  }

  lemma StateParts(net: Net, s: State, k: nat, o: nat)
    requires StateOk(net, s) && k < |s.outs| && o < |s.outs[k]|
    ensures Shape(net, s) && net.kids <= |net.edges| && s.outs[k][o].dtype < net.types
  {
    assert OutOk(net, s, k, s.outs[k][o]);
  }

  lemma GrowsOut(net: Net, s: State, t: State, k: nat, o: nat)
    requires Grows(s, t) && StateOk(net, t) && k < |s.outs| && o < |s.outs[k]|
    ensures Shape(net, t) && |t.outs| == |s.outs| && o < |t.outs[k]| && t.outs[k][o].dtype == s.outs[k][o].dtype
  {
    assert OutGrows(s.outs[k][o], t.outs[k][o]);
  }

  // ----- what is settled -----

  /** The kid at the end of the edge subscribes to the out-type, on the right side of the thread boundary. */
  ghost predicate Subscribes(net: Net, k: nat, out: Out, e: Edge)
    requires k < |net.thread| && e.dst < |net.thread|
  {
    exists index :: Sub(e.dst, index, e.port, e.tag) in (if SameThread(net, k, e.dst) then out.local else out.ext)
  }

  ghost predicate OutSettled(net: Net, k: nat, out: Out, e: Edge)
    requires k < |net.thread| && e.dst < |net.thread|
  {
    net.accepts(e.dst, out.dtype, e.port) ==> Subscribes(net, k, out, e)
  }

  /** Every out-type of the node that the kid at the end of the edge accepts has it as subscriber. */
  ghost predicate EdgeSettled(net: Net, s: State, k: nat, e: Edge)
    requires Shape(net, s) && k < |s.outs| && e.dst < |net.thread|
  {
    forall o :: 0 <= o < |s.outs[k]| ==> OutSettled(net, k, s.outs[k][o], e)
  }

  lemma OutSettledGrows(net: Net, k: nat, a: Out, b: Out, e: Edge)
    requires k < |net.thread| && e.dst < |net.thread| && OutGrows(a, b) && OutSettled(net, k, a, e)
    ensures OutSettled(net, k, b, e)
  {
    if net.accepts(e.dst, a.dtype, e.port) {
      var index :| Sub(e.dst, index, e.port, e.tag) in (if SameThread(net, k, e.dst) then a.local else a.ext);
      assert Sub(e.dst, index, e.port, e.tag) in (if SameThread(net, k, e.dst) then b.local else b.ext);
    }
  }

  lemma AttachSettles(net: Net, s: State, k: nat, o: nat, index: nat, e: Edge)
    requires k < |s.outs| == |net.thread| && o < |s.outs[k]| && e.dst < |net.thread|
    ensures OutSettled(net, k, Attach(net, s, k, o, Sub(e.dst, index, e.port, e.tag)).outs[k][o], e)
  {
    var out := Attach(net, s, k, o, Sub(e.dst, index, e.port, e.tag)).outs[k][o];
    assert Sub(e.dst, index, e.port, e.tag) in (if SameThread(net, k, e.dst) then out.local else out.ext);
  }

  /** After the offer the out-type is settled for the edge. */
  lemma OfferSettles(net: Net, s: State, k: nat, o: nat, e: Edge)
    requires StateOk(net, s) && k < |s.outs| && o < |s.outs[k]| && e.dst < net.kids && e.port < net.ports
    ensures var t := Offer(net, s, k, o, e).0;
      k < |t.outs| && o < |t.outs[k]| && OutSettled(net, k, t.outs[k][o], e)
  {
    hide OutSettled, OutOk, SubOk;
    OfferOk(net, s, k, o, e);
    var dtype := s.outs[k][o].dtype;
    var found := Find(s.inputs[e.dst], dtype, e.port);
    if found.Some? {
      AttachSettles(net, s, k, o, found.value, e);
    } else if net.accepts(e.dst, dtype, e.port) {
      var t := Register(net, s, e.dst, dtype, e.port);
      assert o < |t.outs[k]|;
      AttachSettles(net, t, k, o, |s.inputs[e.dst]|, e);
    } else {
      Refused(net, k, s.outs[k][o], e);
    }
  }

  lemma Refused(net: Net, k: nat, out: Out, e: Edge)
    requires k < |net.thread| && e.dst < |net.thread| && !net.accepts(e.dst, out.dtype, e.port)
    ensures OutSettled(net, k, out, e)
  {
  }

  /** Only a kid with a new input gets new out-types. */
  lemma OfferOuts(net: Net, s: State, k: nat, o: nat, e: Edge, j: nat)
    requires StateOk(net, s) && k < |s.outs| && o < |s.outs[k]| && e.dst < net.kids && e.port < net.ports &&
      j < |s.outs|
    ensures var r := Offer(net, s, k, o, e);
      j < |r.0.outs| && (r.1 <= 0 || j != e.dst ==> |r.0.outs[j]| == |s.outs[j]|)
    ensures var r := Offer(net, s, k, o, e);
      r.1 <= 0 ==> r.0.inputs == s.inputs
    ensures var r := Offer(net, s, k, o, e);
      r.1 > 0 ==> (
        && r.0.inputs == s.inputs[e.dst := [Input(s.outs[k][o].dtype, e.port, |s.inputs[e.dst]|)] + s.inputs[e.dst]]
        && Find(s.inputs[e.dst], s.outs[k][o].dtype, e.port) == None)
  {
    hide AddOuts, OutOk, InputsOk, AddSub;
  }
}
