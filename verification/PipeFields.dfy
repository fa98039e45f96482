/** The edges that a program compiles to, field by field. */
module PipeFields {
  import opened Optional
  import opened PipeNames
  import opened PipeEdges
  import opened PipeItems
  import opened PipeProgram
  import PipeAssigned

  // ----- the nodes of the pipeline at position a -----

  function NodeAt(vs: seq<Visit>, a: nat, i: nat): Node
    requires a < |vs| && i < |vs[a].p.kids|
  {
    KidNode(ProgramNames(vs[..a]), vs[a].p.kids, i)
  }

  function LastAt(vs: seq<Visit>, a: nat): Node
    requires a < |vs|
  {
    NodeAt(vs, a, |vs[a].p.kids| - 1)
  }

  /** The unbundle kid made for source j. */
  function UnbundleAt(vs: seq<Visit>, a: nat, j: nat): Node
    requires a < |vs| && j < |vs[a].p.sources|
  {
    NodeOf(NamesAfterKids(vs[a], ProgramNames(vs[..a])) + Unbundles(Bundled(vs[a].p.sources[..j])), "unbundle")
  }

  /** The stream made up for source j. */
  function TempAt(vs: seq<Visit>, a: nat, j: nat): string
    requires a < |vs| && j < |vs[a].p.sources|
  {
    TempName(ProgramTemps(vs[..a]) + Bundled(vs[a].p.sources[..j]))
  }

  function BundleAt(vs: seq<Visit>, a: nat): Node
    requires a < |vs|
  {
    NodeOf(NamesAfterSources(vs[a], ProgramNames(vs[..a])), "bundle")
  }

  // ----- edges between kids of one pipeline -----

  /** From kid i to the next one: the next one says by which port and whether the thread changes. */
  predicate IsLink(vs: seq<Visit>, a: nat, i: nat, e: Edge) {
    a < |vs| && i + 1 < |vs[a].p.kids| &&
    var next := vs[a].p.kids[i + 1];
    && e.edgetype == EdgeType(false, false) && e.src == NodeAt(vs, a, i) && e.dst == NodeAt(vs, a, i + 1)
    && e.port == next.port && e.srcLabel == None && (e.threadTrans <==> next.inPipe == DOUBLEPIPE)
    && e.threadContext == vs[a].tid && e.twoD == vs[a].twoD
  }

  /** From the last kid to the bundle kid of a bundled sink. */
  predicate IsBundling(vs: seq<Visit>, a: nat, e: Edge) {
    && a < |vs| && vs[a].p.sink.Some? && vs[a].p.sink.value.bundled
    && e.edgetype == EdgeType(false, false) && e.src == LastAt(vs, a) && e.dst == BundleAt(vs, a)
    && e.port == None && e.srcLabel == None && !e.threadTrans && e.threadContext == vs[a].tid && e.twoD == vs[a].twoD
  }

  // ----- edges by way of a stream -----

  /** The node feeds the stream: it is the end of a pipeline with that sink. */
  predicate IsSinkEnd(vs: seq<Visit>, a: nat, name: string, src: Node) {
    && a < |vs| && vs[a].p.sink.Some? && vs[a].p.sink.value.name == name
    && src == if vs[a].p.sink.value.bundled then BundleAt(vs, a) else LastAt(vs, a)
  }

  /** The node feeds the stream: it is the unbundle kid that the stream was made up for. */
  predicate IsUnbundle(vs: seq<Visit>, a: nat, j: nat, name: string, src: Node) {
    && a < |vs| && j < |vs[a].p.sources| && vs[a].p.sources[j].bundled
    && name == TempAt(vs, a, j) && src == UnbundleAt(vs, a, j)
  }

  ghost predicate Feeds(vs: seq<Visit>, name: string, src: Node) {
    (exists a: nat :: IsSinkEnd(vs, a, name, src)) || (exists a: nat, j: nat :: IsUnbundle(vs, a, j, name, src))
  }

  /** A source of a pipeline that is read by its first kid. */
  predicate IsPlainSource(vs: seq<Visit>, a: nat, j: nat, name: string, e: Edge) {
    a < |vs| && j < |vs[a].p.sources| &&
    var s, kid := vs[a].p.sources[j], vs[a].p.kids[0];
    && !s.bundled && s.name == name && e.dst == NodeAt(vs, a, 0)
    && e.port == (if kid.port.Some? then kid.port else s.target)
    && e.srcLabel == s.filter && (e.threadTrans <==> kid.inPipe == DOUBLEPIPE) && e.threadContext == vs[a].tid
  }

  /** A bundled source of a pipeline, read by its unbundle kid. */
  predicate IsBundledSource(vs: seq<Visit>, a: nat, j: nat, name: string, e: Edge) {
    a < |vs| && j < |vs[a].p.sources| &&
    var s := vs[a].p.sources[j];
    && s.bundled && s.name == name && e.dst == UnbundleAt(vs, a, j) && e.port == s.target
    && e.srcLabel == s.filter && !e.threadTrans && e.threadContext == vs[a].tid
  }

  /** The stream made up for a bundled source, read by the first kid. */
  predicate IsTempSource(vs: seq<Visit>, a: nat, j: nat, name: string, e: Edge) {
    a < |vs| && j < |vs[a].p.sources| &&
    var kid := vs[a].p.kids[0];
    && vs[a].p.sources[j].bundled && TempAt(vs, a, j) == name && e.dst == NodeAt(vs, a, 0) && e.port == kid.port
    && e.srcLabel == None && (e.threadTrans <==> kid.inPipe == DOUBLEPIPE) && e.threadContext == vs[a].tid
  }

  ghost predicate Reads(vs: seq<Visit>, name: string, e: Edge) {
    || (exists a: nat, j: nat :: IsPlainSource(vs, a, j, name, e))
    || (exists a: nat, j: nat :: IsBundledSource(vs, a, j, name, e))
    || (exists a: nat, j: nat :: IsTempSource(vs, a, j, name, e))
  }

  /** From a node that feeds a stream to one that reads it: all but the start is as the reader has it. */
  ghost predicate IsFlow(vs: seq<Visit>, name: string, e: Edge) {
    Feeds(vs, name, e.src) && Reads(vs, name, e) && e.edgetype == EdgeType(false, false) && !e.twoD
  }

  // ----- what collapsing makes of edges -----

  /** The edge is the consumer's in all but its start, which is the producer's. */
  predicate Through(es: seq<Edge>, p: Edge, c: Edge, e: Edge) {
    && p in es && c in es && p.edgetype == EdgeType(false, true) && c.edgetype.srcVar && c.src == p.dst
    && e.src == p.src && e.dst == c.dst && e.edgetype == EdgeType(false, c.edgetype.dstVar)
    && e.port == c.port && e.srcLabel == c.srcLabel && e.threadTrans == c.threadTrans
    && e.threadContext == c.threadContext && e.twoD == c.twoD
  }

  lemma {:induction false} ConsumersAre(es: seq<Edge>, v: Node, c: Edge)
    ensures c in Consumers(es, v) <==> c in es && c.edgetype.srcVar && c.src == v
  {
    if es != [] {
      var n := |es| - 1;
      ConsumersAre(es[..n], v, c);
      assert es == es[..n] + [es[n]];
    }
  }

  lemma BecomesIs(p: Edge, es: seq<Edge>, e: Edge)
    requires p in es
    ensures e in Becomes(p, es) <==> (p.edgetype == PROCPROC && e == p) || exists c :: Through(es, p, c, e)
  {
    if p.edgetype == PROCVAR {
      var cs := Consumers(es, p.dst);
      if e in Joined(p, cs) {
        var i :| 0 <= i < |cs| && Joined(p, cs)[i] == e;
        ConsumersAre(es, p.dst, cs[i]);
        assert Through(es, p, cs[i], e);
      }
      if c :| Through(es, p, c, e) {
        ConsumersAre(es, p.dst, c);
        var i :| 0 <= i < |cs| && cs[i] == c;
        assert Joined(p, cs)[i] == e;
      }
    }
  }

  lemma {:induction false} CollapsedIs(some: seq<Edge>, es: seq<Edge>, e: Edge)
    requires forall p :: p in some ==> p in es
    ensures e in Collapsed(some, es) <==>
      (e in some && e.edgetype == PROCPROC) || exists p, c :: p in some && Through(es, p, c, e)
  {
    hide Becomes, Through;
    if some != [] {
      var n := |some| - 1;
      assert some == some[..n] + [some[n]];
      CollapsedIs(some[..n], es, e);
      BecomesIs(some[n], es, e);
    }
  }

  // ----- the edges a program puts in -----

  function ItemsAt(vs: seq<Visit>, a: nat): seq<Item>
    requires a < |vs|
  {
    VisitItems(vs[a], ProgramNames(vs[..a]), ProgramTemps(vs[..a]))
  }

  ghost predicate Has(its: seq<Item>, e: Edge) {
    exists i :: 0 <= i < |its| && e in its[i].Edges()
  }

  ghost predicate PutIn(vs: seq<Visit>, a: nat, e: Edge) {
    a < |vs| && Has(ItemsAt(vs, a), e)
  }

  lemma HasAppend(x: seq<Item>, y: seq<Item>, e: Edge)
    ensures Has(x + y, e) <==> Has(x, e) || Has(y, e)
  {
    assert forall i :: 0 <= i < |x| ==> (x + y)[i] == x[i];
    assert forall i :: 0 <= i < |y| ==> (x + y)[|x| + i] == y[i];
  }

  lemma PutInBefore(vs: seq<Visit>, n: nat, a: nat, e: Edge)
    requires a < n <= |vs|
    ensures PutIn(vs[..n], a, e) <==> PutIn(vs, a, e)
  {
    assert vs[..n][..a] == vs[..a];
  }

  lemma {:induction false} EdgesPutIn(vs: seq<Visit>, e: Edge)
    ensures Has(ProgramItems(vs), e) <==> exists a: nat :: a < |vs| && PutIn(vs, a, e)
  {
    hide Has, VisitItems;
    if vs == [] {
      NoneHas(e);
    } else {
      var n := |vs| - 1;
      EdgesPutIn(vs[..n], e);
      HasAppend(ProgramItems(vs[..n]), ItemsAt(vs, n), e);
      assert PutIn(vs, n, e) <==> Has(ItemsAt(vs, n), e);
      hide PutIn;
      forall a: nat | a < n
        ensures PutIn(vs, a, e) <==> PutIn(vs[..n], a, e)
      {
        PutInBefore(vs, n, a, e);
      }
    }
  }

  lemma NoneHas(e: Edge)
    ensures !Has([], e)
  {
  }

  /** The edges of the kids, of source j, and of the sink. */
  ghost predicate OfLink(vs: seq<Visit>, a: nat, i: nat, e: Edge) {
    a < |vs| && i + 1 < |vs[a].p.kids| &&
    e in Direct(ProcProc(NodeAt(vs, a, i), NodeAt(vs, a, i + 1), vs[a].p.kids[i + 1], vs[a].tid, vs[a].twoD)).Edges()
  }

  ghost predicate OfSource(vs: seq<Visit>, a: nat, j: nat, e: Edge) {
    a < |vs| && j < |vs[a].p.sources| &&
    e in SourceItem(vs[a], ProgramNames(vs[..a]), ProgramTemps(vs[..a]), j).Edges()
  }

  ghost predicate OfSink(vs: seq<Visit>, a: nat, e: Edge) {
    a < |vs| && Has(SinkItems(vs[a], ProgramNames(vs[..a])), e)
  }

  lemma PutInParts(vs: seq<Visit>, a: nat, e: Edge)
    requires a < |vs|
    ensures PutIn(vs, a, e) <==>
      (exists i: nat :: OfLink(vs, a, i, e)) || (exists j: nat :: OfSource(vs, a, j, e)) || OfSink(vs, a, e)
  {
    hide Has, KidNode, ProgramNames, ProgramTemps, LinkItems, SourceItems, SinkItems, OfLink, OfSource;
    var v, names, temps := vs[a], ProgramNames(vs[..a]), ProgramTemps(vs[..a]);
    var links, src, sink := LinkItems(v, names), SourceItems(v, names, temps), SinkItems(v, names);
    HasAppend(links + src, sink, e);
    HasAppend(links, src, e);
    LinksHave(vs, a, e);
    SourcesHave(vs, a, e);
  }

  lemma LinksHave(vs: seq<Visit>, a: nat, e: Edge)
    requires a < |vs|
    ensures Has(LinkItems(vs[a], ProgramNames(vs[..a])), e) <==> exists i: nat :: OfLink(vs, a, i, e)
  {
    hide KidNode, ProgramNames, ProcProc;
    var links := LinkItems(vs[a], ProgramNames(vs[..a]));
    forall i: nat | i < |links|
      ensures e in links[i].Edges() <==> OfLink(vs, a, i, e)
    {
    }
  }

  lemma SourcesHave(vs: seq<Visit>, a: nat, e: Edge)
    requires a < |vs|
    ensures Has(SourceItems(vs[a], ProgramNames(vs[..a]), ProgramTemps(vs[..a])), e) <==>
      exists j: nat :: OfSource(vs, a, j, e)
  {
    hide ProgramNames, ProgramTemps, SourceItem;
    var src := SourceItems(vs[a], ProgramNames(vs[..a]), ProgramTemps(vs[..a]));
    forall j: nat | j < |src|
      ensures e in src[j].Edges() <==> OfSource(vs, a, j, e)
    {
    }
  }

  lemma LinkIs(vs: seq<Visit>, a: nat, i: nat, e: Edge)
    ensures OfLink(vs, a, i, e) <==> IsLink(vs, a, i, e)
  {
    hide KidNode, ProgramNames;
  }

  lemma SinkIs(vs: seq<Visit>, a: nat, e: Edge)
    ensures OfSink(vs, a, e) <==> IsBundling(vs, a, e) || IsInto(vs, a, e)
  {
    hide KidNode, ProgramNames, NodeOf;
    if a < |vs| && vs[a].p.sink.Some? {
      var sink := SinkItems(vs[a], ProgramNames(vs[..a]));
      assert sink[0] == sink[0] && sink[|sink| - 1] == sink[|sink| - 1];
    }
  }

  /** The edge into the sink variable. */
  predicate IsInto(vs: seq<Visit>, a: nat, e: Edge) {
    && a < |vs| && vs[a].p.sink.Some? && IsSinkEnd(vs, a, vs[a].p.sink.value.name, e.src)
    && e == Edge(PROCVAR, e.src, Stream(vs[a].p.sink.value.name), None, None, false, -1, false)
  }

  /** The edge into the stream made up for source j. */
  predicate IsIntoTemp(vs: seq<Visit>, a: nat, j: nat, e: Edge) {
    && a < |vs| && j < |vs[a].p.sources| && IsUnbundle(vs, a, j, TempAt(vs, a, j), e.src)
    && e == Edge(PROCVAR, e.src, Stream(TempAt(vs, a, j)), None, None, false, -1, false)
  }

  /** The edge from a stream into a kid. */
  ghost predicate IsOut(vs: seq<Visit>, a: nat, j: nat, e: Edge) {
    && e.edgetype == EdgeType(true, false) && !e.twoD && e.src.Stream?
    && (|| IsPlainSource(vs, a, j, e.src.name, e)
        || IsBundledSource(vs, a, j, e.src.name, e)
        || IsTempSource(vs, a, j, e.src.name, e))
  }

  lemma SourceIs(vs: seq<Visit>, a: nat, j: nat, e: Edge)
    ensures OfSource(vs, a, j, e) <==> IsOut(vs, a, j, e) || IsIntoTemp(vs, a, j, e)
  {
    hide KidNode, ProgramNames, ProgramTemps, NodeOf, TempName, Bundled, Unbundles, NamesAfterKids;
  }

  /** The edges that a program puts in, one for one. */
  ghost predicate InProgram(vs: seq<Visit>, e: Edge) {
    || (exists a: nat, i: nat :: IsLink(vs, a, i, e))
    || (exists a: nat :: IsBundling(vs, a, e))
    || (exists a: nat :: IsInto(vs, a, e))
    || (exists a: nat, j: nat :: IsIntoTemp(vs, a, j, e))
    || (exists a: nat, j: nat :: IsOut(vs, a, j, e))
  }

  /** Those of the pipeline at position a. */
  ghost predicate InVisit(vs: seq<Visit>, a: nat, e: Edge) {
    || (exists i: nat :: IsLink(vs, a, i, e))
    || IsBundling(vs, a, e)
    || IsInto(vs, a, e)
    || (exists j: nat :: IsIntoTemp(vs, a, j, e))
    || (exists j: nat :: IsOut(vs, a, j, e))
  }

  lemma ProgramPutsIn(vs: seq<Visit>, e: Edge)
    ensures e in EdgesOf(ProgramItems(vs)) <==> InProgram(vs, e)
  {
    hide ProgramItems, EdgesOf, PutIn, InVisit, InProgram;
    PipeAssigned.InEdges(ProgramItems(vs), e);
    EdgesPutIn(vs, e);
    forall a: nat | a < |vs|
      ensures PutIn(vs, a, e) <==> InVisit(vs, a, e)
    {
      VisitPutsIn(vs, a, e);
    }
    SomeVisit(vs, e);
    if a: nat :| a < |vs| && PutIn(vs, a, e) {
      assert InVisit(vs, a, e);
    }
    if a: nat :| a < |vs| && InVisit(vs, a, e) {
      assert PutIn(vs, a, e);
    }
  }

  lemma VisitPutsIn(vs: seq<Visit>, a: nat, e: Edge)
    requires a < |vs|
    ensures PutIn(vs, a, e) <==> InVisit(vs, a, e)
  {
    hide PutIn, OfLink, OfSource, OfSink, IsLink, IsBundling, IsInto, IsIntoTemp, IsOut;
    PutInParts(vs, a, e);
    SinkIs(vs, a, e);
    forall i: nat
      ensures OfLink(vs, a, i, e) <==> IsLink(vs, a, i, e)
      ensures OfSource(vs, a, i, e) <==> IsOut(vs, a, i, e) || IsIntoTemp(vs, a, i, e)
    {
      LinkIs(vs, a, i, e);
      SourceIs(vs, a, i, e);
    }
  }

  lemma SomeVisit(vs: seq<Visit>, e: Edge)
    ensures InProgram(vs, e) <==> exists a: nat :: a < |vs| && InVisit(vs, a, e)
  {
    Within(vs, e);
    hide IsLink, IsBundling, IsInto, IsIntoTemp, IsOut;
    if a: nat, i: nat :| IsLink(vs, a, i, e) || IsIntoTemp(vs, a, i, e) || IsOut(vs, a, i, e) {
      assert InVisit(vs, a, e);
    }
    if a: nat :| IsBundling(vs, a, e) || IsInto(vs, a, e) {
      assert InVisit(vs, a, e);
    }
  }

  lemma Within(vs: seq<Visit>, e: Edge)
    ensures forall a: nat, i: nat :: IsLink(vs, a, i, e) || IsOut(vs, a, i, e) || IsIntoTemp(vs, a, i, e) ==> a < |vs|
    ensures forall a: nat :: IsBundling(vs, a, e) || IsInto(vs, a, e) ==> a < |vs|
  {
  }

  // ----- what a program compiles to -----

  /** An edge between kids of a pipeline, next to each other or before its bundle kid, or from a node that feeds a
      stream to one that reads it. */
  ghost predicate Expected(vs: seq<Visit>, e: Edge) {
    || (exists a: nat, i: nat :: IsLink(vs, a, i, e))
    || (exists a: nat :: IsBundling(vs, a, e))
    || (exists name :: IsFlow(vs, name, e))
  }

  /** The compiled edges of any program are exactly those. */
  lemma CompiledEdges(vs: seq<Visit>, e: Edge)
    ensures e in Compiled(vs) <==> Expected(vs, e)
  {
    hide ProgramItems, EdgesOf, Collapsed, Through, IsFlow, InProgram, IsLink, IsBundling;
    var es := EdgesOf(ProgramItems(vs));
    CollapsedIs(es, es, e);
    ProgramPutsIn(vs, e);
    KidEdges(vs, e);
    if p, c :| Through(es, p, c, e) {
      ThroughFlows(vs, p, c, e);
    }
    if name :| IsFlow(vs, name, e) {
      FlowGoesThrough(vs, name, e);
    }
    assert forall p, c :: Through(es, p, c, e) ==> p in es by {
      ThroughIn(es, e);
    }
  }

  lemma ThroughIn(es: seq<Edge>, e: Edge)
    ensures forall p, c :: Through(es, p, c, e) ==> p in es
  {
  }

  lemma KidEdges(vs: seq<Visit>, e: Edge)
    ensures InProgram(vs, e) && e.edgetype == PROCPROC <==>
      (exists a: nat, i: nat :: IsLink(vs, a, i, e)) || exists a: nat :: IsBundling(vs, a, e)
  {
    hide IsSinkEnd, IsUnbundle, IsPlainSource, IsBundledSource, IsTempSource, NodeAt, LastAt, BundleAt;
  }

  lemma ThroughFlows(vs: seq<Visit>, p: Edge, c: Edge, e: Edge)
    requires Through(EdgesOf(ProgramItems(vs)), p, c, e)
    ensures exists name :: IsFlow(vs, name, e)
  {
    hide ProgramItems, EdgesOf, NodeAt, LastAt, BundleAt, UnbundleAt, TempAt;
    ProgramPutsIn(vs, p);
    ProgramPutsIn(vs, c);
    Feeding(vs, p);
    Reading(vs, c, e);
    assert IsFlow(vs, c.src.name, e);
  }

  lemma Feeding(vs: seq<Visit>, p: Edge)
    requires InProgram(vs, p) && p.edgetype == PROCVAR
    ensures p.dst.Stream? && Feeds(vs, p.dst.name, p.src)
  {
    hide IsSinkEnd, IsUnbundle, NodeAt, LastAt, BundleAt, UnbundleAt, TempAt;
  }

  // A consumer's edge, and one that differs from it in its start and type only.
  lemma Reading(vs: seq<Visit>, c: Edge, e: Edge)
    requires InProgram(vs, c) && c.edgetype.srcVar
    requires e.dst == c.dst && e.port == c.port && e.srcLabel == c.srcLabel && e.threadTrans == c.threadTrans
    requires e.threadContext == c.threadContext && e.twoD == c.twoD
    ensures c.src.Stream? && Reads(vs, c.src.name, e) && !e.twoD && !c.edgetype.dstVar
  {
    hide NodeAt, LastAt, BundleAt, UnbundleAt, TempAt;
    var a: nat, j: nat :| IsOut(vs, a, j, c);
    var name := c.src.name;
    SameReader(vs, a, j, name, e, c);
  }

  lemma FlowGoesThrough(vs: seq<Visit>, name: string, e: Edge)
    requires IsFlow(vs, name, e)
    ensures exists p, c :: Through(EdgesOf(ProgramItems(vs)), p, c, e)
  {
    hide ProgramItems, EdgesOf, NodeAt, LastAt, BundleAt, UnbundleAt, TempAt;
    var p := Edge(PROCVAR, e.src, Stream(name), None, None, false, -1, false);
    var c := e.(src := Stream(name), edgetype := VARPROC);
    ProgramPutsIn(vs, p);
    ProgramPutsIn(vs, c);
    FeedsBy(vs, name, e.src);
    ReadsBy(vs, name, e);
    assert Through(EdgesOf(ProgramItems(vs)), p, c, e);
  }

  lemma FeedsBy(vs: seq<Visit>, name: string, src: Node)
    requires Feeds(vs, name, src)
    ensures InProgram(vs, Edge(PROCVAR, src, Stream(name), None, None, false, -1, false))
  {
    hide NodeAt, LastAt, BundleAt, UnbundleAt, TempAt;
    var p := Edge(PROCVAR, src, Stream(name), None, None, false, -1, false);
    if a: nat :| IsSinkEnd(vs, a, name, src) {
      assert IsInto(vs, a, p);
    } else {
      var a: nat, j: nat :| IsUnbundle(vs, a, j, name, src);
      assert IsIntoTemp(vs, a, j, p);
    }
  }

  lemma ReadsBy(vs: seq<Visit>, name: string, e: Edge)
    requires Reads(vs, name, e) && !e.twoD
    ensures InProgram(vs, e.(src := Stream(name), edgetype := VARPROC))
  {
    hide NodeAt, LastAt, BundleAt, UnbundleAt, TempAt;
    var c := e.(src := Stream(name), edgetype := VARPROC);
    hide IsPlainSource, IsBundledSource, IsTempSource;
    var a: nat, j: nat :|
      IsPlainSource(vs, a, j, name, e) || IsBundledSource(vs, a, j, name, e) || IsTempSource(vs, a, j, name, e);
    SameReader(vs, a, j, name, e, c);
    assert IsOut(vs, a, j, c);
  }

  lemma SameReader(vs: seq<Visit>, a: nat, j: nat, name: string, e: Edge, c: Edge)
    requires e.dst == c.dst && e.port == c.port && e.srcLabel == c.srcLabel && e.threadTrans == c.threadTrans
    requires e.threadContext == c.threadContext
    ensures IsPlainSource(vs, a, j, name, c) <==> IsPlainSource(vs, a, j, name, e)
    ensures IsBundledSource(vs, a, j, name, c) <==> IsBundledSource(vs, a, j, name, e)
    ensures IsTempSource(vs, a, j, name, c) <==> IsTempSource(vs, a, j, name, e)
  {
    hide NodeAt, UnbundleAt, TempAt;
  }

  // ----- every kid has a node of its own -----

  /** A kid of a pipeline: one that is written there, or one made for a bundled source or sink. */
  datatype Occurrence = Written(i: nat) | Unbundling(j: nat) | Bundling

  predicate Occurs(vs: seq<Visit>, a: nat, o: Occurrence) {
    a < |vs| &&
    match o
    case Written(i) => i < |vs[a].p.kids|
    case Unbundling(j) => j < |vs[a].p.sources| && vs[a].p.sources[j].bundled
    case Bundling => vs[a].p.sink.Some? && vs[a].p.sink.value.bundled
  }

  function NameOf(vs: seq<Visit>, a: nat, o: Occurrence): string
    requires Occurs(vs, a, o)
  {
    match o
    case Written(i) => vs[a].p.kids[i].name
    case Unbundling(_) => "unbundle"
    case Bundling => "bundle"
  }

  function NodeFor(vs: seq<Visit>, a: nat, o: Occurrence): Node
    requires Occurs(vs, a, o)
  {
    match o
    case Written(i) => NodeAt(vs, a, i)
    case Unbundling(j) => UnbundleAt(vs, a, j)
    case Bundling => BundleAt(vs, a)
  }

  /** How many kids are entered before it. */
  function Place(vs: seq<Visit>, a: nat, o: Occurrence): nat
    requires Occurs(vs, a, o)
  {
    |ProgramNames(vs[..a])| +
    match o
    case Written(i) => i
    case Unbundling(j) => |vs[a].p.kids| + Bundled(vs[a].p.sources[..j])
    case Bundling => |vs[a].p.kids| + Bundled(vs[a].p.sources)
  }

  lemma {:induction false} NamesGrow(vs: seq<Visit>, a: nat, b: nat)
    requires a <= b <= |vs|
    ensures ProgramNames(vs[..a]) <= ProgramNames(vs[..b])
    decreases b
  {
    if a < b {
      NamesGrow(vs, a, b - 1);
      assert vs[..b][..b - 1] == vs[..b - 1];
    }
  }

  lemma {:induction false} BundledGrows(vars: seq<Var>, j: nat, k: nat)
    requires j <= k <= |vars|
    ensures Bundled(vars[..j]) <= Bundled(vars[..k])
    ensures j < k && vars[j].bundled ==> Bundled(vars[..j]) < Bundled(vars[..k])
    decreases k
  {
    if j < k {
      BundledGrows(vars, j, k - 1);
      assert vars[..k][..k - 1] == vars[..k - 1];
    }
  }

  // Where the kid stands among the names after its pipeline.
  lemma PlaceInVisit(vs: seq<Visit>, a: nat, o: Occurrence)
    requires Occurs(vs, a, o)
    ensures var names, k := NamesAfter(vs[a], ProgramNames(vs[..a])), Place(vs, a, o);
      && |ProgramNames(vs[..a])| <= k < |names| && names[k] == NameOf(vs, a, o)
      && NodeFor(vs, a, o) == NodeOf(names[..k], NameOf(vs, a, o))
  {
    hide NodeOf, ProgramNames, Bundled;
    var v, before, names, k := vs[a], ProgramNames(vs[..a]), NamesAfter(vs[a], ProgramNames(vs[..a])), Place(vs, a, o);
    if o.Unbundling? {
      BundledGrows(v.p.sources, o.j, |v.p.sources|);
      assert v.p.sources[..|v.p.sources|] == v.p.sources;
    }
    match o
    case Written(i) => assert names[..k] == before + KidNames(v.p.kids[..i]);
    case Unbundling(j) => assert names[..k] == NamesAfterKids(v, before) + Unbundles(Bundled(v.p.sources[..j]));
    case Bundling => assert names[..k] == NamesAfterSources(v, before);
  }

  lemma PlaceIs(vs: seq<Visit>, a: nat, o: Occurrence)
    requires Occurs(vs, a, o)
    ensures var names, k := ProgramNames(vs), Place(vs, a, o);
      && |ProgramNames(vs[..a])| <= k < |ProgramNames(vs[..a + 1])| <= |names| && names[k] == NameOf(vs, a, o)
      && NodeFor(vs, a, o) == NodeOf(names[..k], NameOf(vs, a, o))
  {
    hide NodeOf, NamesAfter, Place, NodeFor;
    var next := a + 1;
    assert vs[..next][..|vs[..next]| - 1] == vs[..a] && vs[..|vs|] == vs;
    PlaceInVisit(vs, a, o);
    NamesGrow(vs, next, |vs|);
    assert ProgramNames(vs)[..Place(vs, a, o)] == ProgramNames(vs[..next])[..Place(vs, a, o)];
  }

  lemma PlacesDiffer(vs: seq<Visit>, a: nat, o: Occurrence, b: nat, p: Occurrence)
    requires Occurs(vs, a, o) && Occurs(vs, b, p) && (a != b || o != p)
    ensures Place(vs, a, o) != Place(vs, b, p)
  {
    hide ProgramNames, Bundled;
    PlaceIs(vs, a, o);
    PlaceIs(vs, b, p);
    if a < b {
      NamesGrow(vs, a + 1, b);
    } else if b < a {
      NamesGrow(vs, b + 1, a);
    } else {
      var vars := vs[a].p.sources;
      assert vars[..|vars|] == vars;
      if o.Unbundling? {
        BundledGrows(vars, o.j, |vars|);
      }
      if p.Unbundling? {
        BundledGrows(vars, p.j, |vars|);
      }
      if o.Unbundling? && p.Unbundling? {
        BundledGrows(vars, if o.j < p.j then o.j else p.j, if o.j < p.j then p.j else o.j);
      }
    }
  }

  /** Two kids of a program, written or made, have a node each, as long as their names with versions fit. */
  lemma NodesApart(vs: seq<Visit>, a: nat, o: Occurrence, b: nat, p: Occurrence)
    requires Occurs(vs, a, o) && Occurs(vs, b, p) && (a != b || o != p)
    requires var names := ProgramNames(vs);
      forall k :: 0 <= k < |names| ==> |Munged(names[k], Count(names[..k], names[k]))| <= KEY_CHARS
    ensures NodeFor(vs, a, o) != NodeFor(vs, b, p)
  {
    hide NodeOf, Place, NodeFor, ProgramNames, Munged, Count;
    var names, i, j := ProgramNames(vs), Place(vs, a, o), Place(vs, b, p);
    PlaceIs(vs, a, o);
    PlaceIs(vs, b, p);
    PlacesDiffer(vs, a, o, b, p);
    if i < j {
      NodesDiffer(names, i, j);
    } else {
      NodesDiffer(names, j, i);
    }
  }
}
