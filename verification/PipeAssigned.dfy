/** When every variable that a program reads is assigned somewhere, as mimo.c validates it on the edges. */
module PipeAssigned {
  import opened Optional
  import opened PipeNames
  import opened PipeEdges
  import opened PipeItems
  import opened PipeProgram

  /** An item reads the stream for the program. */
  ghost predicate Reads(its: seq<Item>, v: Node) {
    exists i :: 0 <= i < |its| && ReadBy(its[i], v)
  }

  predicate ReadBy(it: Item, v: Node) {
    it.UserEdge().Some? && it.UserEdge().value.src == v
  }

  /** An item assigns to the stream for the program. */
  ghost predicate Writes(its: seq<Item>, v: Node) {
    exists i :: 0 <= i < |its| && WrittenBy(its[i], v)
  }

  predicate WrittenBy(it: Item, v: Node) {
    it.Produce? && it.p.dst == v
  }

  /** The stream is made up for one of the items. */
  ghost predicate MadeUp(its: seq<Item>, v: Node) {
    exists i :: 0 <= i < |its| && its[i].Bundle? && its[i].t.src == v
  }

  lemma {:induction false} InEdges(its: seq<Item>, e: Edge)
    ensures e in EdgesOf(its) <==> exists i :: 0 <= i < |its| && e in its[i].Edges()
  {
    if its != [] {
      var init, it := its[..|its| - 1], its[|its| - 1];
      InEdges(init, e);
      assert its == init + [it];
    }
  }

  lemma ItemAssigns(it: Item, e: Edge)
    requires it.Valid() && e in it.Edges()
    ensures e.edgetype == PROCVAR ==> WrittenBy(it, e.dst) || (it.Bundle? && it.t.src == e.dst)
    ensures e.edgetype.srcVar ==> ReadBy(it, e.src) || (it.Bundle? && it.t.src == e.src)
  {
  }

  lemma AssignedHas(its: seq<Item>, v: Node)
    requires AllValid(its)
    ensures Assigned(EdgesOf(its), v) <==> Writes(its, v) || MadeUp(its, v)
  {
    if Assigned(EdgesOf(its), v) {
      var e :| e in EdgesOf(its) && e.edgetype == PROCVAR && e.dst == v;
      InEdges(its, e);
      var i :| 0 <= i < |its| && e in its[i].Edges();
      assert its[i].Valid();
      ItemAssigns(its[i], e);
    }
    if i :| 0 <= i < |its| && (WrittenBy(its[i], v) || (its[i].Bundle? && its[i].t.src == v)) {
      assert its[i].Valid() && its[i].p in its[i].Edges();
      InEdges(its, its[i].p);
    }
  }

  lemma ReadsAssigned(its: seq<Item>)
    requires AllValid(its)
    ensures AllAssigned(EdgesOf(its)) <==> forall v :: Reads(its, v) ==> Writes(its, v) || MadeUp(its, v)
  {
    hide Assigned;
    if AllAssigned(EdgesOf(its)) {
      forall v | Reads(its, v)
        ensures Writes(its, v) || MadeUp(its, v)
      {
        var i :| 0 <= i < |its| && ReadBy(its[i], v);
        var e := its[i].UserEdge().value;
        assert its[i].Valid() && e in its[i].Edges();
        InEdges(its, e);
        AssignedHas(its, v);
      }
    }
    if forall v :: Reads(its, v) ==> Writes(its, v) || MadeUp(its, v) {
      forall e | e in EdgesOf(its) && e.edgetype.srcVar
        ensures Assigned(EdgesOf(its), e.src)
      {
        InEdges(its, e);
        var i :| 0 <= i < |its| && e in its[i].Edges();
        assert its[i].Valid();
        ItemAssigns(its[i], e);
        AssignedHas(its, e.src);
      }
    }
  }

  // ----- programs -----

  predicate IsSource(v: Visit, name: string) {
    exists s :: s in v.p.sources && s.name == name
  }

  predicate IsSink(v: Visit, name: string) {
    v.p.sink.Some? && v.p.sink.value.name == name
  }

  lemma ReadsJoin(a: seq<Item>, b: seq<Item>, v: Node)
    ensures Reads(a + b, v) <==> Reads(a, v) || Reads(b, v)
    ensures Writes(a + b, v) <==> Writes(a, v) || Writes(b, v)
  {
    hide ReadBy, WrittenBy;
    assert forall i :: 0 <= i < |a| ==> (a + b)[i] == a[i];
    assert forall i :: 0 <= i < |b| ==> (a + b)[|a| + i] == b[i];
  }

  lemma SourceReads(v: Visit, names: seq<string>, temps: nat, u: Node)
    ensures Reads(SourceItems(v, names, temps), u) <==> u.Stream? && IsSource(v, u.name)
    ensures !Writes(SourceItems(v, names, temps), u)
  {
    hide NodeOf, KidNode, TempName, Bundled;
    var its := SourceItems(v, names, temps);
    forall j: nat | j < |its|
      ensures ReadBy(its[j], u) <==> u == Stream(v.p.sources[j].name)
      ensures !WrittenBy(its[j], u)
    {
      assert its[j] == SourceItem(v, names, temps, j);
    }
    if u.Stream? && IsSource(v, u.name) {
      var s :| s in v.p.sources && s.name == u.name;
      var j :| 0 <= j < |v.p.sources| && v.p.sources[j] == s;
      assert ReadBy(its[j], u);
    }
  }

  lemma VisitReads(v: Visit, names: seq<string>, temps: nat, u: Node)
    ensures Reads(VisitItems(v, names, temps), u) <==> u.Stream? && IsSource(v, u.name)
    ensures Writes(VisitItems(v, names, temps), u) <==> u.Stream? && IsSink(v, u.name)
  {
    hide NodeOf, KidNode, IsSource, SourceItems, SourceItem, TempName;
    var links, src, sink := LinkItems(v, names), SourceItems(v, names, temps), SinkItems(v, names);
    SourceReads(v, names, temps, u);
    ReadsJoin(links, src, u);
    ReadsJoin(links + src, sink, u);
    assert !Reads(links, u) && !Writes(links, u) && !Reads(sink, u);
    assert Writes(sink, u) <==> u.Stream? && IsSink(v, u.name) by {
      if v.p.sink.Some? {
        var last := sink[|sink| - 1];
        assert WrittenBy(last, u) <==> u == Stream(v.p.sink.value.name);
      }
    }
  }

  lemma {:induction false} ProgramReads(vs: seq<Visit>, u: Node)
    ensures Reads(ProgramItems(vs), u) <==> u.Stream? && exists v :: v in vs && IsSource(v, u.name)
    ensures Writes(ProgramItems(vs), u) <==> u.Stream? && exists v :: v in vs && IsSink(v, u.name)
  {
    hide VisitItems, IsSource, IsSink, ReadBy, WrittenBy;
    if vs != [] {
      var init, v := vs[..|vs| - 1], vs[|vs| - 1];
      ProgramReads(init, u);
      VisitReads(v, ProgramNames(init), ProgramTemps(init), u);
      ReadsJoin(ProgramItems(init), VisitItems(v, ProgramNames(init), ProgramTemps(init)), u);
      assert vs == init + [v];
    }
  }

  lemma ProgramMakesUp(vs: seq<Visit>, u: Node)
    ensures MadeUp(ProgramItems(vs), u) <==> exists k: nat :: k < ProgramTemps(vs) && u == Stream(TempName(k))
  {
    hide TempName, ProgramItems;
    var its := ProgramItems(vs);
    ProgramTempsApart(vs);
    if MadeUp(its, u) {
      var i :| 0 <= i < |its| && its[i].Bundle? && its[i].t.src == u;
      assert IsTemp(its[i], 0, ProgramTemps(vs));
    }
    if k: nat :| k < ProgramTemps(vs) && u == Stream(TempName(k)) {
      ProgramUses(vs, k, "");
    }
  }

  /** Every source of a pipeline is the sink of some pipeline, or called like one of the made-up streams. */
  ghost predicate SourcesAssigned(vs: seq<Visit>) {
    forall v, name :: v in vs && IsSource(v, name) ==> HasSink(vs, name) || LikeTemp(vs, name)
  }

  ghost predicate HasSink(vs: seq<Visit>, name: string) {
    exists v :: v in vs && IsSink(v, name)
  }

  ghost predicate LikeTemp(vs: seq<Visit>, name: string) {
    exists k: nat :: k < ProgramTemps(vs) && name == TempName(k)
  }

  /** What is checked on the edges, in terms of the program. */
  lemma AssignedIff(vs: seq<Visit>)
    ensures AllAssigned(EdgesOf(ProgramItems(vs))) <==> SourcesAssigned(vs)
  {
    hide Reads, Writes, MadeUp, AllAssigned, TempName, IsSource, IsSink;
    var its := ProgramItems(vs);
    ProgramValid(vs);
    ReadsAssigned(its);
    forall v: Node
      ensures Writes(its, v) || MadeUp(its, v) <==> v.Stream? && (HasSink(vs, v.name) || LikeTemp(vs, v.name))
      ensures Reads(its, v) <==> v.Stream? && exists u :: u in vs && IsSource(u, v.name)
    {
      ProgramReads(vs, v);
      ProgramMakesUp(vs, v);
    }
    if AllAssigned(EdgesOf(its)) {
      forall v, name | v in vs && IsSource(v, name)
        ensures HasSink(vs, name) || LikeTemp(vs, name)
      {
        assert Reads(its, Stream(name));
      }
    }
  }

  /** Kids are entered exactly if there is a pipeline. */
  lemma {:induction false} KidsEntered(vs: seq<Visit>)
    ensures Entered(ProgramNames(vs)) == {} <==> vs == []
  {
    if vs != [] {
      KidsEntered(vs[..|vs| - 1]);
    }
  }
}
