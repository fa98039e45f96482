/** The visitor of graphBuilder.cc, and the building of a collapsed graph from a parsed program. */
module PipeBuilder {
  import opened Optional
  import opened PipeNames
  import opened PipeEdges
  import opened PipeItems
  import opened PipeProgram
  import opened PipeAssigned
  import PipeFields

  lemma EdgesOfAppend(its: seq<Item>, it: Item)
    ensures EdgesOf(its + [it]) == EdgesOf(its) + it.Edges()
  {
    assert (its + [it])[..|its + [it]| - 1] == its;
  }

  predicate SourcesKnown(vars: seq<Var>, known: set<string>) {
    forall i :: 0 <= i < |vars| ==> vars[i].name in known
  }

  lemma FirstKid(v: Visit, names: seq<string>)
    ensures KidNode(names, v.p.kids, 0) == NodeOf(names, v.p.kids[0].name)
    ensures names + [v.p.kids[0].name] == names + KidNames(v.p.kids[..1])
    ensures |LinkItems(v, names)| == |v.p.kids| - 1
  {
    hide NodeOf;
    assert names + KidNames(v.p.kids[..0]) == names;
  }

  /** One more kid entered and linked. */
  lemma KidStep(v: Visit, names: seq<string>, i: nat)
    requires 1 <= i < |v.p.kids|
    ensures var kids := v.p.kids;
            && names + KidNames(kids[..i]) + [kids[i].name] == names + KidNames(kids[..i + 1])
            && KidNode(names, kids, i) == NodeOf(names + KidNames(kids[..i]), kids[i].name)
            && |LinkItems(v, names)| == |kids| - 1
            && LinkItems(v, names)[..i] == LinkItems(v, names)[..i - 1] +
               [Direct(ProcProc(KidNode(names, kids, i - 1), KidNode(names, kids, i), kids[i], v.tid, v.twoD))]
  {
    hide NodeOf, ProcProc;
  }

  lemma NoSource(v: Visit, names: seq<string>, temps: nat)
    ensures |SourceItems(v, names, temps)| == |v.p.sources| && Bundled(v.p.sources[..0]) == 0
    ensures NamesAfterKids(v, names) == NamesAfterKids(v, names) + Unbundles(0)
    ensures forall known :: SourcesKnown(v.p.sources[..0], known)
  {
    hide SourceItem;
  }

  /** One more source put in. */
  lemma SourceStep(v: Visit, names: seq<string>, temps: nat, j: nat)
    requires j < |v.p.sources|
    ensures var vars := v.p.sources;
            && Bundled(vars[..j + 1]) == Bundled(vars[..j]) + (if vars[j].bundled then 1 else 0)
            && SourceItems(v, names, temps)[..j + 1] ==
              SourceItems(v, names, temps)[..j] + [SourceItem(v, names, temps, j)]
            && (forall known :: SourcesKnown(vars[..j + 1], known) <==>
              SourcesKnown(vars[..j], known) && vars[j].name in known)
  {
    hide SourceItem;
    var vars := v.p.sources;
    assert vars[..j + 1][..j] == vars[..j] && vars[..j + 1] == vars[..j] + [vars[j]];
  }

  lemma NothingVisited(tid: int, twoD: bool)
    ensures Visits([], tid, twoD) == []
  {
  }

  /** The pipelines visited when the last statement is done before the others. */
  lemma VisitsStep(list: seq<Statement>, i: nat, tid: int, twoD: bool)
    requires i < |list|
    ensures list[i].Pipe? ==>
        Visits(list[..i + 1], tid, twoD) == [Visit(list[i].p, tid, twoD)] + Visits(list[..i], tid, twoD)
    ensures list[i].Thread? ==>
              Visits(list[..i + 1], tid, twoD) ==
                Visits(list[i].body, list[i].tid, list[i].twoD) + Visits(list[..i], -1, false)
  {
    assert list[..i + 1][..i] == list[..i];
  }

  class Dispatcher {
    const pg: ParseGraph
    /** The stream variables in the symbol table. */
    var known: set<string>
    var procCounts: map<string, nat>
    var tempStreamCount: nat
    var errors: nat
    var threadContext: int
    var twoD: bool
    /** The names of the kids entered, and the items put in so far. */
    ghost var names: seq<string>
    ghost var items: seq<Item>

    ghost predicate Counted()
      reads this`procCounts, this`names
    {
      forall n :: (if n in procCounts then procCounts[n] else 0) == Count(names, n)
    }

    ghost predicate Valid()
      reads this`procCounts, this`names, this`errors, this`items, pg
    {
      Counted() && pg.procs == Entered(names) && (errors == 0 ==> pg.edges == EdgesOf(items))
    }

    constructor (pg: ParseGraph, known: set<string>)
      requires pg.edges == [] && pg.procs == {}
      ensures Valid() && this.pg == pg && this.known == known
      ensures names == [] && items == [] && tempStreamCount == 0 && errors == 0 && threadContext == -1 && !twoD
    {
      this.pg, this.known := pg, known;
      procCounts, tempStreamCount, errors, threadContext, twoD := map[], 0, 0, -1, false;
      names, items := [], [];
    }

    /** processNode for a kid: it is entered under its name and the number of kids of that name before it. */
    method EnterKid(kid: Kid) returns (node: Node)
      requires Valid()
      modifies this`procCounts, this`names, pg`procs
      ensures Valid() && node == NodeOf(old(names), kid.name) && names == old(names) + [kid.name]
    {
      hide EdgesOf;
      var version := if kid.name in procCounts then procCounts[kid.name] else 0;
      procCounts := procCounts[kid.name := version + 1];
      node := Proc(Key(kid.name, version));
      pg.procs := pg.procs + {node.key};
      names := names + [kid.name];
      assert names[..|names| - 1] == old(names);
    }

    /** createVarProcEdge */
    method CreateVarProcEdge(v: Var, dst: Node, kid: Kid)
      modifies this`errors, pg`edges
      ensures errors == old(errors) + if v.name in known then 0 else 1
      ensures v.name in known ==> pg.edges == old(pg.edges) + [VarProc(v, dst, kid, threadContext)]
    {
      if v.name !in known {
        errors := errors + 1;
        return;
      }
      var port := v.target;
      if kid.port.Some? {
        port := kid.port;
      }
      var edge := Edge(VARPROC, Stream(v.name), dst, port, v.filter, kid.inPipe == DOUBLEPIPE, threadContext, false);
      pg.edges := pg.edges + [edge];
    }

    /** createProcVarEdge */
    method CreateProcVarEdge(src: Node, name: string)
      modifies this`errors, pg`edges
      ensures errors == old(errors) + if name in known then 0 else 1
      ensures name in known ==> pg.edges == old(pg.edges) + [ProcVar(src, name)]
    {
      if name !in known {
        errors := errors + 1;
        return;
      }
      pg.edges := pg.edges + [Edge(PROCVAR, src, Stream(name), None, None, false, -1, false)];
    }

    /** createProcProcEdge */
    method CreateProcProcEdge(src: Node, dst: Node, kid: Kid)
      requires Valid()
      modifies this`items, pg`edges
      ensures Valid() && items == old(items) + [Direct(ProcProc(src, dst, kid, threadContext, twoD))]
    {
      hide Count;
      var edge := Edge(PROCPROC, src, dst, kid.port, None, kid.inPipe == DOUBLEPIPE, threadContext, twoD);
      pg.edges := pg.edges + [edge];
      EdgesOfAppend(items, Direct(edge));
      items := items + [Direct(edge)];
    }

    /** processBundledSource: by way of an unbundle kid and a stream made up for the purpose. */
    method ProcessBundledSource(v: Var, target: Node, kid: Kid)
      requires Valid()
      modifies this`known, this`procCounts, this`tempStreamCount, this`errors, this`names, this`items, pg
      ensures Valid() && known == old(known) && tempStreamCount == old(tempStreamCount) + 1
      ensures errors == 0 <==> old(errors) == 0 && v.name in known
      ensures names == old(names) + [UNBUNDLE.name]
      ensures var unbundle, temp := NodeOf(old(names), UNBUNDLE.name), TempName(old(tempStreamCount));
              items == old(items) + [Bundle(VarProc(v, unbundle, UNBUNDLE, threadContext), ProcVar(unbundle, temp),
                                            VarProc(Var(temp, None, None, false), target, kid, threadContext))]
    {
      hide Count, EdgesOf, VarProc, ProcVar, TempName;
      var temp := TempName(tempStreamCount);
      tempStreamCount := tempStreamCount + 1;
      var unbundle := EnterKid(UNBUNDLE);
      CreateVarProcEdge(v, unbundle, UNBUNDLE);
      var was := known;
      known := known + {temp};
      CreateProcVarEdge(unbundle, temp);
      CreateVarProcEdge(Var(temp, None, None, false), target, kid);
      known := was;
      ghost var it := Bundle(VarProc(v, unbundle, UNBUNDLE, threadContext), ProcVar(unbundle, temp),
                             VarProc(Var(temp, None, None, false), target, kid, threadContext));
      EdgesOfAppend(items, it);
      items := items + [it];
    }

    /** processNode for the list of kids: each is entered and linked to the one before. */
    method ProcessKids(v: Visit) returns (first: Node, last: Node)
      requires Valid() && threadContext == v.tid && twoD == v.twoD
      modifies this`procCounts, this`names, this`items, pg
      ensures Valid() && names == NamesAfterKids(v, old(names)) && items == old(items) + LinkItems(v, old(names))
      ensures first == KidNode(old(names), v.p.kids, 0)
      ensures last == KidNode(old(names), v.p.kids, |v.p.kids| - 1)
    {
      hide Counted, EdgesOf, Valid, NodeOf, ProcProc, KidNode, LinkItems;
      var kids := v.p.kids;
      assert old(names) + KidNames(kids[..0]) == old(names);
      first := EnterKid(kids[0]);
      last := first;
      FirstKid(v, old(names));
      for i := 1 to |kids|
        invariant Valid() && names == old(names) + KidNames(kids[..i])
        invariant |LinkItems(v, old(names))| == |kids| - 1
        invariant items == old(items) + LinkItems(v, old(names))[..i - 1]
        invariant last == KidNode(old(names), kids, i - 1)
      {
        KidStep(v, old(names), i);
        var node := EnterKid(kids[i]);
        CreateProcProcEdge(last, node, kids[i]);
        last := node;
      }
      assert kids[..|kids|] == kids;
    }

    /** The sources of a pipeline. */
    method ProcessSources(v: Visit, target: Node, ghost names0: seq<string>)
      requires Valid() && threadContext == v.tid && names == NamesAfterKids(v, names0)
      requires target == KidNode(names0, v.p.kids, 0)
      modifies this`known, this`procCounts, this`tempStreamCount, this`errors, this`names, this`items, pg
      ensures Valid() && known == old(known) && names == NamesAfterSources(v, names0)
      ensures tempStreamCount == old(tempStreamCount) + Bundled(v.p.sources)
      ensures items == old(items) + SourceItems(v, names0, old(tempStreamCount))
      ensures errors == 0 <==> old(errors) == 0 && SourcesKnown(v.p.sources, known)
    {
      hide Counted, EdgesOf, NodeOf, KidNode, VarProc, ProcVar, TempName, Bundled, SourceItems, SourcesKnown;
      NoSource(v, names0, tempStreamCount);
      var vars, kid := v.p.sources, v.p.kids[0];
      for j := 0 to |vars|
        invariant Valid() && known == old(known)
        invariant names == NamesAfterKids(v, names0) + Unbundles(Bundled(vars[..j]))
        invariant tempStreamCount == old(tempStreamCount) + Bundled(vars[..j])
        invariant items == old(items) + SourceItems(v, names0, old(tempStreamCount))[..j]
        invariant errors == 0 <==> old(errors) == 0 && SourcesKnown(vars[..j], known)
      {
        SourceStep(v, names0, old(tempStreamCount), j);
        var s := vars[j];
        if s.bundled {
          ProcessBundledSource(s, target, kid);
        } else {
          CreateVarProcEdge(s, target, kid);
          ghost var it := Consume(VarProc(s, target, kid, threadContext));
          EdgesOfAppend(items, it);
          items := items + [it];
        }
      }
      assert vars[..|vars|] == vars;
    }

    /** The sink of a pipeline. */
    method ProcessSink(v: Visit, last: Node, ghost names0: seq<string>)
      requires Valid() && threadContext == v.tid && twoD == v.twoD && names == NamesAfterSources(v, names0)
      requires last == KidNode(names0, v.p.kids, |v.p.kids| - 1)
      modifies this`procCounts, this`errors, this`names, this`items, pg
      ensures Valid() && names == NamesAfter(v, names0) && items == old(items) + SinkItems(v, names0)
      ensures errors == 0 <==> old(errors) == 0 && (v.p.sink.Some? ==> v.p.sink.value.name in known)
    {
      hide Counted, EdgesOf, NodeOf, KidNode, ProcVar, ProcProc;
      if v.p.sink.Some? {
        var sink, lastKid := v.p.sink.value, last;
        if sink.bundled {
          var bundle := EnterKid(BUNDLE);
          CreateProcProcEdge(lastKid, bundle, BUNDLE);
          lastKid := bundle;
        }
        CreateProcVarEdge(lastKid, sink.name);
        ghost var it := Produce(ProcVar(lastKid, sink.name));
        EdgesOfAppend(items, it);
        items := items + [it];
      }
    }

    /** processNode for a pipeline. */
    method ProcessPipeline(v: Visit)
      requires Valid() && threadContext == v.tid && twoD == v.twoD
      modifies this`known, this`procCounts, this`tempStreamCount, this`errors, this`names, this`items, pg
      ensures Valid() && known == old(known) && names == NamesAfter(v, old(names))
      ensures items == old(items) + VisitItems(v, old(names), old(tempStreamCount))
      ensures tempStreamCount == old(tempStreamCount) + Bundled(v.p.sources)
      ensures errors == 0 <==> old(errors) == 0 && AllKnown([v], known)
    {
      hide Valid, LinkItems, SourceItems, SinkItems, NamesAfter, NamesAfterSources, KidNode;
      ghost var names0 := names;
      var first, last := ProcessKids(v);
      ProcessSources(v, first, names0);
      ProcessSink(v, last, names0);
    }

    /** What is built so far comes of the pipelines visited so far. */
    ghost predicate Built(vs: seq<Visit>)
      reads this`procCounts, this`names, this`errors, this`items, this`tempStreamCount, this`known, pg
    {
      Valid() && names == ProgramNames(vs) && items == ProgramItems(vs) && tempStreamCount == ProgramTemps(vs) &&
      (errors == 0 <==> AllKnown(vs, known))
    }

    /** A pipeline, after those visited. */
    method VisitPipeline(p: Pipeline, ghost vs: seq<Visit>)
      requires Built(vs)
      modifies this`known, this`procCounts, this`tempStreamCount, this`errors, this`names, this`items, pg
      ensures Built(vs + [Visit(p, threadContext, twoD)]) && known == old(known)
    {
      hide Valid, NamesAfter, VisitItems;
      ghost var v := Visit(p, threadContext, twoD);
      assert (vs + [v])[..|vs + [v]| - 1] == vs;
      ProcessPipeline(Visit(p, threadContext, twoD));
    }

    /** processNode for a list of statements, last one first, and for a thread declaration. */
    method ProcessStatements(list: seq<Statement>, ghost vs: seq<Visit>)
      requires Built(vs)
      modifies this, pg
      ensures Built(vs + Visits(list, old(threadContext), old(twoD))) && known == old(known)
      ensures old(threadContext) == -1 && !old(twoD) ==> threadContext == -1 && !twoD
      decreases list
    {
      hide Built, Visits;
      ghost var done := vs;
      var i := |list|;
      assert list[..i] == list;
      while i > 0
        invariant i <= |list| && Built(done) && known == old(known)
        invariant old(threadContext) == -1 && !old(twoD) ==> threadContext == -1 && !twoD
        invariant done + Visits(list[..i], threadContext, twoD) == vs + Visits(list, old(threadContext), old(twoD))
      {
        i := i - 1;
        VisitsStep(list, i, threadContext, twoD);
        match list[i]
        case Pipe(p) =>
          VisitPipeline(p, done);
          done := done + [Visit(p, threadContext, twoD)];
        case Thread(t, d, body) =>
          threadContext, twoD := t, d;
          ProcessStatements(body, done);
          done := done + Visits(body, t, d);
          threadContext, twoD := -1, false;
      }
      NothingVisited(threadContext, twoD);
      assert list[..0] == [] && done + [] == done;
    }
  }

  /** The pipelines of several files, in order. */
  function RootVisits(lists: seq<seq<Statement>>): seq<Visit> {
    if lists == [] then [] else RootVisits(lists[..|lists| - 1]) + Visits(lists[|lists| - 1], -1, false)
  }

  /** buildGraph: there is a graph if and only if something was parsed and every variable is in the symbol table. */
  method BuildGraph(lists: seq<seq<Statement>>, known: set<string>) returns (r: Option<ParseGraph>)
    ensures r.Some? <==> lists != [] && AllKnown(RootVisits(lists), known)
    ensures r.Some? ==> fresh(r.value) && r.value.edges == EdgesOf(ProgramItems(RootVisits(lists)))
    ensures r.Some? ==> r.value.procs == Entered(ProgramNames(RootVisits(lists)))
  {
    hide EdgesOf, ProgramItems;
    if lists == [] {
      return None;
    }
    var pg := new ParseGraph();
    var builder := new Dispatcher(pg, known);
    assert builder.Built([]) by {
      NothingBuilt();
    }
    for i := 0 to |lists|
      invariant builder.Built(RootVisits(lists[..i])) && builder.known == known && builder.pg == pg
      invariant builder.threadContext == -1 && !builder.twoD
    {
      builder.ProcessStatements(lists[i], RootVisits(lists[..i]));
      assert lists[..i + 1][..i] == lists[..i];
    }
    assert lists[..|lists|] == lists;
    if builder.errors > 0 {
      return None;
    }
    return Some(pg);
  }

  lemma NothingBuilt()
    ensures ProgramItems([]) == []
  {
  }

  /** Building a program, validating its variables and collapsing them: there is a graph if and only if something
      was parsed, every variable is in the symbol table, there is a pipeline, and every variable read is assigned. */
  method Compile(lists: seq<seq<Statement>>, known: set<string>) returns (r: Option<ParseGraph>)
    ensures var vs := RootVisits(lists);
      r.Some? <==> lists != [] && AllKnown(vs, known) && vs != [] && SourcesAssigned(vs)
    ensures r.Some? ==> r.value.edges == Compiled(RootVisits(lists))
    ensures r.Some? ==> forall e :: e in r.value.edges <==> PipeFields.Expected(RootVisits(lists), e)
  {
    hide EdgesOf, AllAssigned, SourcesAssigned, Compiled, PipeFields.Expected, ProgramItems;
    KidsEntered(RootVisits(lists));
    r := BuildGraph(lists, known);
    if r.None? || r.value.procs == {} {
      return None;
    }
    AssignedIff(RootVisits(lists));
    var ok := r.value.ValidateVariables();
    if !ok {
      return None;
    }
    r.value.Collapse();
    CompiledIs(RootVisits(lists));
    forall e
      ensures e in Compiled(RootVisits(lists)) <==> PipeFields.Expected(RootVisits(lists), e)
    {
      PipeFields.CompiledEdges(RootVisits(lists), e);
    }
  }

  lemma CompiledIs(vs: seq<Visit>)
    ensures Compiled(vs) == Collapsed(EdgesOf(ProgramItems(vs)), EdgesOf(ProgramItems(vs)))
  {
  }
}
