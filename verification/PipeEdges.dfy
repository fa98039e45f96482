/** The edges of a parse graph and what is left of them once variables are collapsed (init.c). */
module PipeEdges {
  import opened Optional

  datatype Node = Proc(key: string) | Stream(name: string)

  /** The two halves of an edge's type: whether each end is a variable. */
  datatype EdgeType = EdgeType(srcVar: bool, dstVar: bool)

  const PROCPROC := EdgeType(false, false)
  const PROCVAR := EdgeType(false, true)
  const VARPROC := EdgeType(true, false)

  datatype Edge = Edge(
    edgetype: EdgeType,
    src: Node,
    dst: Node,
    port: Option<string>,
    srcLabel: Option<string>,
    threadTrans: bool,
    threadContext: int,
    twoD: bool
  )

  /** The consumer's edge, taken over by the producer's source. */
  function Join(p: Edge, c: Edge): Edge {
    c.(src := p.src, edgetype := EdgeType(p.edgetype.srcVar, c.edgetype.dstVar))
  }

  /** The edges out of a variable, in order. */
  function Consumers(es: seq<Edge>, v: Node): seq<Edge> {
    if es == [] then []
    else
      var e := es[|es| - 1];
      Consumers(es[..|es| - 1], v) + if e.edgetype.srcVar && e.src == v then [e] else []
  }

  function Joined(p: Edge, cs: seq<Edge>): seq<Edge> {
    seq(|cs|, i requires 0 <= i < |cs| => Join(p, cs[i]))
  }

  /** What an edge turns into. */
  function Becomes(e: Edge, all: seq<Edge>): seq<Edge> {
    if e.edgetype == PROCPROC then [e]
    else if e.edgetype == PROCVAR then Joined(e, Consumers(all, e.dst))
    else []
  }

  /** What the edges es turn into when all are the edges of the graph. */
  function Collapsed(es: seq<Edge>, all: seq<Edge>): seq<Edge> {
    if es == [] then [] else Collapsed(es[..|es| - 1], all) + Becomes(es[|es| - 1], all)
  }

  function Listed(dsts: map<Node, seq<Edge>>, v: Node): seq<Edge> {
    if v in dsts then dsts[v] else []
  }

  ghost predicate ListsAll(dsts: map<Node, seq<Edge>>, es: seq<Edge>) {
    forall v :: Listed(dsts, v) == Consumers(es, v)
  }

  /** Adding one edge to the list of its source keeps every list right. */
  lemma ListStep(dsts: map<Node, seq<Edge>>, es: seq<Edge>, i: nat)
    requires i < |es| && ListsAll(dsts, es[..i])
    ensures ListsAll(
              if es[i].edgetype.srcVar then dsts[es[i].src := Listed(dsts, es[i].src) + [es[i]]] else dsts,
              es[..i + 1])
  {
    var next := if es[i].edgetype.srcVar then dsts[es[i].src := Listed(dsts, es[i].src) + [es[i]]] else dsts;
    var more := es[..i + 1];
    forall v
      ensures Listed(next, v) == Consumers(more, v)
    {
      assert Listed(dsts, v) == Consumers(es[..i], v);
      assert more[..i] == es[..i];
    }
  }

  /** Some edge leads from a kid into the variable. */
  predicate Assigned(es: seq<Edge>, v: Node) {
    exists e :: e in es && e.edgetype == PROCVAR && e.dst == v
  }

  /** Every variable that an edge leads out of is assigned. */
  predicate AllAssigned(es: seq<Edge>) {
    forall e :: e in es && e.edgetype.srcVar ==> Assigned(es, e.src)
  }

  class ParseGraph {
    var edges: seq<Edge>
    /** The keys of the kids entered. */
    var procs: set<string>

    constructor ()
      ensures edges == [] && procs == {}
    {
      edges, procs := [], {};
    }

    /** collapse_edges */
    static method CollapseEdges(queue: seq<Edge>, srcEdge: Edge, dstEdges: seq<Edge>) returns (r: seq<Edge>)
      ensures r == queue + Joined(srcEdge, dstEdges)
    {
      r := queue;
      for i := 0 to |dstEdges|
        invariant r == queue + Joined(srcEdge, dstEdges)[..i]
      {
        var dstEdge := dstEdges[i];
        var newEdge := dstEdge.(src := srcEdge.src,
                                edgetype := EdgeType(srcEdge.edgetype.srcVar, dstEdge.edgetype.dstVar));
        assert newEdge == Joined(srcEdge, dstEdges)[i];
        r := r + [newEdge];
      }
    }

    /** validate_variables */
    method ValidateVariables() returns (ok: bool)
      ensures ok <==> AllAssigned(edges)
    {
      ok := true;
      for i := 0 to |edges|
        invariant ok <==> forall e :: e in edges[..i] && e.edgetype.srcVar ==> Assigned(edges, e.src)
      {
        assert edges[..i + 1] == edges[..i] + [edges[i]];
        if edges[i].edgetype.srcVar {
          var valid := HasAssignment(edges[i].src);
          if !valid {
            ok := false;
          }
        }
      }
      assert edges[..|edges|] == edges;
    }

    // The inner loop of validate_variables.
    method HasAssignment(v: Node) returns (valid: bool)
      ensures valid <==> Assigned(edges, v)
    {
      valid := false;
      for j := 0 to |edges|
        invariant !valid && forall e :: e in edges[..j] && e.edgetype == PROCVAR ==> e.dst != v
      {
        assert edges[..j + 1] == edges[..j] + [edges[j]];
        if edges[j].edgetype == PROCVAR && edges[j].dst == v {
          valid := true;
          break;
        }
      }
      if !valid {
        assert edges[..|edges|] == edges;
      }
    }

    /** The first pass: the edges out of each variable are listed with it. */
    method ListConsumers() returns (dsts: map<Node, seq<Edge>>)
      ensures ListsAll(dsts, edges)
    {
      dsts := map[];
      for i := 0 to |edges|
        invariant ListsAll(dsts, edges[..i])
      {
        var e := edges[i];
        ListStep(dsts, edges, i);
        if e.edgetype.srcVar {
          dsts := dsts[e.src := Listed(dsts, e.src) + [e]];
        }
      }
      assert edges[..|edges|] == edges;
    }

    /** collapse_parse_graph */
    method Collapse()
      modifies this`edges
      ensures edges == Collapsed(old(edges), old(edges))
    {
      var dsts := ListConsumers();
      var newEdges: seq<Edge> := [];
      for i := 0 to |edges|
        invariant edges == old(edges)
        invariant newEdges == Collapsed(edges[..i], edges)
      {
        var e := edges[i];
        var next := i + 1;
        assert edges[..next][..|edges[..next]| - 1] == edges[..i] && edges[..next][|edges[..next]| - 1] == e;
        if e.edgetype == PROCPROC {
          newEdges := newEdges + [e];
        } else if e.edgetype == PROCVAR {
          if e.dst in dsts {
            newEdges := CollapseEdges(newEdges, e, dsts[e.dst]);
          }
        }
      }
      assert edges[..|edges|] == edges;
      edges := newEdges;
    }
  }
}
