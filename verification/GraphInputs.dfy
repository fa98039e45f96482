/** Kids, edges and the registration of one out-type with the input of a kid. */
module GraphInputs {
  import opened Optional
  import opened Sequences

  /** An edge to the kid dst; port and tag are numbers of registered labels, 0 when there is none. */
  datatype Edge = Edge(dst: nat, port: nat, tag: nat)

  /** An input a kid has accepted, with the index it was given. */
  datatype Input = Input(dtype: nat, port: nat, index: nat)

  datatype Sub = Sub(dst: nat, index: nat, port: nat, tag: nat)

  datatype Out = Out(dtype: nat, tag: nat, local: seq<Sub>, ext: seq<Sub>)

  /** The fixed part of a graph. Nodes below kids are kids, the others are sources with one out-type of their
      own; a source outside every thread has none. A kid decides by itself which datatypes it accepts on
      which port, and which out-types it then adds. */
  datatype Net = Net(
    kids: nat,
    types: nat,
    ports: nat,
    edges: seq<seq<Edge>>,
    thread: seq<Option<nat>>,
    accepts: (nat, nat, nat) -> bool,
    adds: (nat, nat, nat) -> seq<(nat, nat)>)

  /** What propagation fills in: the inputs of every kid, latest first, and the out-types of every node. */
  datatype State = State(inputs: seq<seq<Input>>, outs: seq<seq<Out>>)

  ghost predicate NetOk(net: Net) {
    && net.kids <= |net.edges| == |net.thread|
    && (forall k, i :: 0 <= k < |net.edges| && 0 <= i < |net.edges[k]| ==>
          net.edges[k][i].dst < net.kids && net.edges[k][i].port < net.ports)
    && (forall k, t, p, i :: 0 <= i < |net.adds(k, t, p)| ==> net.adds(k, t, p)[i].0 < net.types)
  }

  predicate SameThread(net: Net, k: nat, dst: nat)
    requires k < |net.thread| && dst < |net.thread|
  {
    net.thread[k] == None || net.thread[k] == net.thread[dst]
  }

  function Find(inputs: seq<Input>, dtype: nat, port: nat): (r: Option<nat>)
    ensures r.Some? <==> exists i :: 0 <= i < |inputs| && inputs[i].dtype == dtype && inputs[i].port == port
    ensures r.Some? ==> exists i :: 0 <= i < |inputs| && inputs[i] == Input(dtype, port, r.value)
  {
    if inputs == [] then None
    else if inputs[0].dtype == dtype && inputs[0].port == port then
      assert inputs[0] == Input(dtype, port, inputs[0].index);
      Some(inputs[0].index)
    else
      var r := Find(inputs[1..], dtype, port);
      assert forall i :: 0 <= i < |inputs| - 1 ==> inputs[1..][i] == inputs[i + 1];
      r
  }

  /** ws_add_outtype: an out-type is added unless it is there. */
  function AddOut(outs: seq<Out>, id: (nat, nat)): (r: seq<Out>)
    ensures outs <= r
  {
    if exists i :: 0 <= i < |outs| && outs[i].dtype == id.0 && outs[i].tag == id.1 then outs
    else outs + [Out(id.0, id.1, [], [])]
  }

  function AddOuts(outs: seq<Out>, ids: seq<(nat, nat)>): (r: seq<Out>)
    ensures outs <= r
    decreases |ids|
  {
    if ids == [] then outs else AddOuts(AddOut(outs, ids[0]), ids[1..])
  }

  function AddSub(list: seq<Sub>, sub: Sub): seq<Sub> {
    if sub in list then list else [sub] + list
  }

  /** The subscriber joins the local ones exactly if the threads match. */
  function Attach(net: Net, s: State, k: nat, o: nat, sub: Sub): State
    requires k < |s.outs| == |net.thread| && o < |s.outs[k]| && sub.dst < |net.thread|
  {
    var out := s.outs[k][o];
    var out' := if SameThread(net, k, sub.dst) then out.(local := AddSub(out.local, sub))
      else out.(ext := AddSub(out.ext, sub));
    s.(outs := s.outs[k := s.outs[k][o := out']])
  }

  ghost predicate Shape(net: Net, s: State) {
    |s.inputs| == net.kids && |s.outs| == |net.edges| == |net.thread|
  }

  /** A new input gets the next index, comes first, and brings its out-types. */
  function Register(net: Net, s: State, dst: nat, dtype: nat, port: nat): State
    requires dst < |s.inputs| && dst < |s.outs|
  {
    var index := |s.inputs[dst]|;
    State(s.inputs[dst := [Input(dtype, port, index)] + s.inputs[dst]],
          s.outs[dst := AddOuts(s.outs[dst], net.adds(dst, dtype, port))])
  }

  /** ws_init_instance_input: out-type o of node k is offered to the kid at the end of an edge. The result is
      1 for a new input, -1 for one that was there, and 0 when the kid refuses. */
  function Offer(net: Net, s: State, k: nat, o: nat, e: Edge): (r: (State, int))
    requires Shape(net, s) && k < |s.outs| && o < |s.outs[k]| && e.dst < net.kids && net.kids <= |net.edges|
  {
    var dtype := s.outs[k][o].dtype;
    match Find(s.inputs[e.dst], dtype, e.port)
    case Some(index) => (Attach(net, s, k, o, Sub(e.dst, index, e.port, e.tag)), -1)
    case None =>
      if !net.accepts(e.dst, dtype, e.port) then (s, 0)
      else
        var s' := Register(net, s, e.dst, dtype, e.port);
        (Attach(net, s', k, o, Sub(e.dst, |s.inputs[e.dst]|, e.port, e.tag)), 1)
  }

  // ----- invariants -----

  /** Inputs are accepted ones, their indexes count up, and no datatype is registered twice for a port. */
  ghost predicate InputsOk(net: Net, k: nat, inputs: seq<Input>) {
    && (forall i :: 0 <= i < |inputs| ==>
          inputs[i].index == |inputs| - 1 - i && inputs[i].dtype < net.types && inputs[i].port < net.ports
          && net.accepts(k, inputs[i].dtype, inputs[i].port))
    && (forall i, j :: 0 <= i < j < |inputs| ==> inputs[i].dtype != inputs[j].dtype || inputs[i].port != inputs[j].port)
  }

  /** A subscriber stands for an input of its kid of the datatype of the out-type. */
  ghost predicate SubOk(net: Net, s: State, dtype: nat, sub: Sub) {
    sub.dst < |s.inputs| && Input(dtype, sub.port, sub.index) in s.inputs[sub.dst]
  }

  /** Every subscriber is right, there once, and local exactly if the threads match. */
  ghost predicate OutOk(net: Net, s: State, k: nat, out: Out)
    requires k < |net.thread| && |s.inputs| <= |net.thread|
  {
    && out.dtype < net.types && Distinct(out.local) && Distinct(out.ext)
    && (forall sub :: sub in out.local ==> SubOk(net, s, out.dtype, sub) && SameThread(net, k, sub.dst))
    && (forall sub :: sub in out.ext ==> SubOk(net, s, out.dtype, sub) && !SameThread(net, k, sub.dst))
  }

  ghost predicate StateOk(net: Net, s: State) {
    && NetOk(net) && Shape(net, s)
    && (forall k :: 0 <= k < |s.inputs| ==> InputsOk(net, k, s.inputs[k]))
    && (forall k, o :: 0 <= k < |s.outs| && 0 <= o < |s.outs[k]| ==> OutOk(net, s, k, s.outs[k][o]))
  }
}
