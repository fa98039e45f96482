/** Programs of pipelines and the items that building them puts into a parse graph (graphBuilder.cc). */
module PipeProgram {
  import opened Optional
  import opened PipeNames
  import opened PipeEdges
  import opened PipeItems

  datatype InPipe = NONE | PIPE | DOUBLEPIPE

  datatype Kid = Kid(name: string, port: Option<string>, inPipe: InPipe)

  datatype Var = Var(name: string, filter: Option<string>, target: Option<string>, bundled: bool)

  type Pipeline = p: RawPipeline | p.kids != [] witness RawPipeline([], [Kid("", None, NONE)], None)
  datatype RawPipeline = RawPipeline(sources: seq<Var>, kids: seq<Kid>, sink: Option<Var>)

  datatype Statement = Pipe(p: Pipeline) | Thread(tid: int, twoD: bool, body: seq<Statement>)

  /** A pipeline with the thread placement in force where it stands. */
  datatype Visit = Visit(p: Pipeline, tid: int, twoD: bool)

  const UNBUNDLE := Kid("unbundle", None, PIPE)
  const BUNDLE := Kid("bundle", None, PIPE)

  /** The pipelines in the order they are visited: lists run backwards, and a thread's end resets the placement. */
  function Visits(list: seq<Statement>, tid: int, twoD: bool): seq<Visit>
    decreases list
  {
    if list == [] then []
    else
      var init := list[..|list| - 1];
      match list[|list| - 1]
      case Pipe(p) => [Visit(p, tid, twoD)] + Visits(init, tid, twoD)
      case Thread(t, d, body) => Visits(body, t, d) + Visits(init, -1, false)
  }

  predicate HasThread(list: seq<Statement>) {
    exists i :: 0 <= i < |list| && list[i].Thread?
  }

  /** What comes later in a list is visited first, and a thread declaration in it takes the placement away from what
      comes before. */
  lemma {:induction false} VisitsSplit(a: seq<Statement>, b: seq<Statement>, tid: int, twoD: bool)
    ensures Visits(a + b, tid, twoD) ==
      Visits(b, tid, twoD) + if HasThread(b) then Visits(a, -1, false) else Visits(a, tid, twoD)
    decreases |b|
  {
    if b == [] {
      assert a + b == a;
    } else {
      var n := |b| - 1;
      assert (a + b)[..|a + b| - 1] == a + b[..n] && b == b[..n] + [b[n]];
      match b[n]
      case Pipe(_) => VisitsSplit(a, b[..n], tid, twoD);
      case Thread(_, _, _) => VisitsSplit(a, b[..n], -1, false);
    }
  }

  /** A pipeline is visited with the placement in force, the body of a thread declaration with the one declared. */
  lemma VisitsOne(s: Statement, tid: int, twoD: bool)
    ensures Visits([], tid, twoD) == []
    ensures Visits([s], tid, twoD) == if s.Pipe? then [Visit(s.p, tid, twoD)] else Visits(s.body, s.tid, s.twoD)
  {
    assert [s][..0] == [];
  }

  function Count(names: seq<string>, name: string): nat {
    if names == [] then 0
    else Count(names[..|names| - 1], name) + if names[|names| - 1] == name then 1 else 0
  }

  /** The keys of the kids entered, in order, under the given names. */
  function Entered(names: seq<string>): set<string> {
    if names == [] then {}
    else Entered(names[..|names| - 1]) + {NodeOf(names[..|names| - 1], names[|names| - 1]).key}
  }

  /** The node of a kid that is entered after kids of the given names. */
  function NodeOf(names: seq<string>, name: string): Node {
    Proc(Key(name, Count(names, name)))
  }

  function KidNames(kids: seq<Kid>): seq<string> {
    seq(|kids|, i requires 0 <= i < |kids| => kids[i].name)
  }

  function KidNode(names: seq<string>, kids: seq<Kid>, i: nat): Node
    requires i < |kids|
  {
    NodeOf(names + KidNames(kids[..i]), kids[i].name)
  }

  function Bundled(vars: seq<Var>): nat {
    if vars == [] then 0 else Bundled(vars[..|vars| - 1]) + if vars[|vars| - 1].bundled then 1 else 0
  }

  function Unbundles(n: nat): seq<string> {
    seq(n, _ => "unbundle")
  }

  function ProcProc(src: Node, dst: Node, kid: Kid, tid: int, twoD: bool): Edge {
    Edge(PROCPROC, src, dst, kid.port, None, kid.inPipe == DOUBLEPIPE, tid, twoD)
  }

  function VarProc(v: Var, dst: Node, kid: Kid, tid: int): Edge {
    Edge(VARPROC, Stream(v.name), dst, if kid.port.Some? then kid.port else v.target, v.filter,
         kid.inPipe == DOUBLEPIPE, tid, false)
  }

  function ProcVar(src: Node, name: string): Edge {
    Edge(PROCVAR, src, Stream(name), None, None, false, -1, false)
  }

  /** The edges between adjacent kids. */
  function LinkItems(v: Visit, names: seq<string>): seq<Item> {
    var kids := v.p.kids;
    seq(|kids| - 1, i requires 0 <= i < |kids| - 1 =>
      Direct(ProcProc(KidNode(names, kids, i), KidNode(names, kids, i + 1), kids[i + 1], v.tid, v.twoD)))
  }

  function NamesAfterKids(v: Visit, names: seq<string>): seq<string> {
    names + KidNames(v.p.kids)
  }

  /** What a source variable puts in, given what is entered before the sources. */
  function SourceItem(v: Visit, names: seq<string>, temps: nat, j: nat): Item
    requires j < |v.p.sources|
  {
    var s, first := v.p.sources[j], KidNode(names, v.p.kids, 0);
    if !s.bundled then Consume(VarProc(s, first, v.p.kids[0], v.tid))
    else
      var before := Bundled(v.p.sources[..j]);
      var unbundle := NodeOf(NamesAfterKids(v, names) + Unbundles(before), UNBUNDLE.name);
      var temp := TempName(temps + before);
      Bundle(VarProc(s, unbundle, UNBUNDLE, v.tid), ProcVar(unbundle, temp),
             VarProc(Var(temp, None, None, false), first, v.p.kids[0], v.tid))
  }

  function SourceItems(v: Visit, names: seq<string>, temps: nat): seq<Item> {
    seq(|v.p.sources|, j requires 0 <= j < |v.p.sources| => SourceItem(v, names, temps, j))
  }

  function NamesAfterSources(v: Visit, names: seq<string>): seq<string> {
    NamesAfterKids(v, names) + Unbundles(Bundled(v.p.sources))
  }

  function SinkItems(v: Visit, names: seq<string>): seq<Item> {
    var last := KidNode(names, v.p.kids, |v.p.kids| - 1);
    match v.p.sink
    case None => []
    case Some(s) =>
      if !s.bundled then [Produce(ProcVar(last, s.name))]
      else
        var bundle := NodeOf(NamesAfterSources(v, names), BUNDLE.name);
        [Direct(ProcProc(last, bundle, BUNDLE, v.tid, v.twoD)), Produce(ProcVar(bundle, s.name))]
  }

  function NamesAfter(v: Visit, names: seq<string>): seq<string> {
    NamesAfterSources(v, names) + if v.p.sink.Some? && v.p.sink.value.bundled then [BUNDLE.name] else []
  }

  function VisitItems(v: Visit, names: seq<string>, temps: nat): seq<Item> {
    LinkItems(v, names) + SourceItems(v, names, temps) + SinkItems(v, names)
  }

  /** The names of the kids entered, in order. */
  function ProgramNames(vs: seq<Visit>): seq<string> {
    if vs == [] then [] else NamesAfter(vs[|vs| - 1], ProgramNames(vs[..|vs| - 1]))
  }

  /** How many streams are made up. */
  function ProgramTemps(vs: seq<Visit>): nat {
    if vs == [] then 0 else ProgramTemps(vs[..|vs| - 1]) + Bundled(vs[|vs| - 1].p.sources)
  }

  function ProgramItems(vs: seq<Visit>): seq<Item> {
    if vs == [] then []
    else
      var init := vs[..|vs| - 1];
      ProgramItems(init) + VisitItems(vs[|vs| - 1], ProgramNames(init), ProgramTemps(init))
  }

  /** The variable is one of the pipeline's. */
  predicate Names(v: Visit, name: string) {
    (exists s :: s in v.p.sources && s.name == name) || (v.p.sink.Some? && v.p.sink.value.name == name)
  }

  predicate AllKnown(vs: seq<Visit>, known: set<string>) {
    forall v :: v in vs ==>
      (forall s :: s in v.p.sources ==> s.name in known) && (v.p.sink.Some? ==> v.p.sink.value.name in known)
  }

  /** A variable of the program is called like one of the made-up streams. */
  ghost predicate NamesTemp(vs: seq<Visit>) {
    exists v, k: nat :: v in vs && k < ProgramTemps(vs) && Names(v, TempName(k))
  }

  lemma {:induction false} CountGrows(names: seq<string>, i: nat, j: nat)
    requires i < j <= |names|
    ensures Count(names[..i], names[i]) < Count(names[..j], names[i])
  {
    assert names[..j][..j - 1] == names[..j - 1];
    if i < j - 1 {
      CountGrows(names, i, j - 1);
    }
  }

  /** Which two kids are entered as one node: exactly those that share a key. Names that fit keep kids apart. */
  lemma NodesDiffer(names: seq<string>, i: nat, j: nat)
    requires i < j < |names|
    ensures var v, w := Count(names[..i], names[i]), Count(names[..j], names[j]);
      && (NodeOf(names[..i], names[i]) == NodeOf(names[..j], names[j]) <==> Shared(names[i], v, names[j], w))
      && (|Munged(names[i], v)| <= KEY_CHARS && |Munged(names[j], w)| <= KEY_CHARS ==>
            NodeOf(names[..i], names[i]) != NodeOf(names[..j], names[j]))
  {
    hide Count, Key, Munged, Shared;
    KeysDiffer(names[i], Count(names[..i], names[i]), names[j], Count(names[..j], names[j]));
    CountGrows(names, i, j);
  }

  /** The made-up streams of some items are numbered from lo up to hi and differ. */
  ghost predicate TempsWithin(its: seq<Item>, lo: nat, hi: nat) {
    TempsApart(its) && forall i :: 0 <= i < |its| && its[i].Bundle? ==> IsTemp(its[i], lo, hi)
  }

  ghost predicate IsTemp(it: Item, lo: nat, hi: nat)
    requires it.Bundle?
  {
    exists k: nat :: lo <= k < hi && it.t.src == Stream(TempName(k))
  }

  lemma TempsJoin(a: seq<Item>, b: seq<Item>, lo: nat, mid: nat, hi: nat)
    requires TempsWithin(a, lo, mid) && TempsWithin(b, mid, hi) && lo <= mid <= hi
    ensures TempsWithin(a + b, lo, hi)
  {
    hide TempName;
    forall i, j | 0 <= i < j < |a + b| && (a + b)[i].Bundle? && (a + b)[j].Bundle?
      ensures (a + b)[i].t.src != (a + b)[j].t.src
    {
      if i < |a| <= j {
        assert IsTemp(a[i], lo, mid) && IsTemp(b[j - |a|], mid, hi);
        var k: nat :| lo <= k < mid && a[i].t.src == Stream(TempName(k));
        var m: nat :| mid <= m < hi && b[j - |a|].t.src == Stream(TempName(m));
        if TempName(k) == TempName(m) {
          TempNamesDiffer(k, m);
        }
      }
    }
    forall i | 0 <= i < |a + b| && (a + b)[i].Bundle?
      ensures IsTemp((a + b)[i], lo, hi)
    {
      if i < |a| {
        assert IsTemp(a[i], lo, mid);
      } else {
        assert IsTemp(b[i - |a|], mid, hi);
      }
    }
  }

  lemma {:induction false} SourceTemps(v: Visit, names: seq<string>, temps: nat, n: nat)
    requires n <= |v.p.sources|
    ensures TempsWithin(SourceItems(v, names, temps)[..n], temps, temps + Bundled(v.p.sources[..n]))
  {
    hide TempName, NodeOf, KidNode, VarProc;
    if n > 0 {
      SourceTemps(v, names, temps, n - 1);
      var all := SourceItems(v, names, temps);
      var it := all[n - 1];
      assert v.p.sources[..n][..n - 1] == v.p.sources[..n - 1];
      var mid, hi := temps + Bundled(v.p.sources[..n - 1]), temps + Bundled(v.p.sources[..n]);
      OneTemp(v, names, temps, n - 1);
      TempsJoin(all[..n - 1], [it], temps, mid, hi);
      assert all[..n] == all[..n - 1] + [it];
    }
  }

  lemma OneTemp(v: Visit, names: seq<string>, temps: nat, j: nat)
    requires j < |v.p.sources|
    ensures var lo := temps + Bundled(v.p.sources[..j]);
            TempsWithin([SourceItem(v, names, temps, j)], lo, lo + if v.p.sources[j].bundled then 1 else 0)
  {
    hide TempName, NodeOf, KidNode;
    var it := SourceItem(v, names, temps, j);
    var lo := temps + Bundled(v.p.sources[..j]);
    if it.Bundle? {
      assert it.t.src == Stream(TempName(lo));
    }
  }

  lemma VisitTemps(v: Visit, names: seq<string>, temps: nat)
    ensures TempsWithin(VisitItems(v, names, temps), temps, temps + Bundled(v.p.sources))
  {
    hide TempName, NodeOf, KidNode, SourceItem;
    SourceTemps(v, names, temps, |v.p.sources|);
    var src := SourceItems(v, names, temps);
    assert src[..|src|] == src && v.p.sources[..|v.p.sources|] == v.p.sources;
    var hi := temps + Bundled(v.p.sources);
    TempsJoin(LinkItems(v, names), src, temps, temps, hi);
    TempsJoin(LinkItems(v, names) + src, SinkItems(v, names), temps, hi, hi);
  }

  /** The made-up streams of a program all differ. */
  lemma {:induction false} ProgramTempsApart(vs: seq<Visit>)
    ensures TempsWithin(ProgramItems(vs), 0, ProgramTemps(vs))
  {
    hide VisitItems;
    if vs != [] {
      var init, v := vs[..|vs| - 1], vs[|vs| - 1];
      ProgramTempsApart(init);
      VisitTemps(v, ProgramNames(init), ProgramTemps(init));
      TempsJoin(ProgramItems(init), VisitItems(v, ProgramNames(init), ProgramTemps(init)),
                0, ProgramTemps(init), ProgramTemps(vs));
    }
  }

  lemma {:induction false} ProgramValid(vs: seq<Visit>)
    ensures AllValid(ProgramItems(vs))
  {
    hide NodeOf, KidNode, TempName;
    if vs != [] {
      ProgramValid(vs[..|vs| - 1]);
    }
  }

  /** One of the items goes through the k-th made-up stream. */
  ghost predicate UsesTemp(its: seq<Item>, k: nat) {
    exists i :: 0 <= i < |its| && its[i].Bundle? && its[i].t.src == Stream(TempName(k))
  }

  /** One of the items is for a variable that the program calls by the name. */
  ghost predicate UsesName(its: seq<Item>, name: string) {
    exists i :: 0 <= i < |its| && its[i].UserStream() == Some(Stream(name))
  }

  lemma UsesJoin(a: seq<Item>, b: seq<Item>, k: nat, name: string)
    ensures UsesTemp(a + b, k) <==> UsesTemp(a, k) || UsesTemp(b, k)
    ensures UsesName(a + b, name) <==> UsesName(a, name) || UsesName(b, name)
  {
    hide TempName;
    assert forall i :: 0 <= i < |a| ==> (a + b)[i] == a[i];
    assert forall i :: 0 <= i < |b| ==> (a + b)[|a| + i] == b[i];
  }

  lemma {:induction false} SourceUses(v: Visit, names: seq<string>, temps: nat, n: nat, k: nat, name: string)
    requires n <= |v.p.sources|
    ensures UsesTemp(SourceItems(v, names, temps)[..n], k) <==> temps <= k < temps + Bundled(v.p.sources[..n])
    ensures UsesName(SourceItems(v, names, temps)[..n], name) <==> exists s :: s in v.p.sources[..n] && s.name == name
  {
    hide TempName, NodeOf, KidNode, VarProc, SourceItem;
    if n > 0 {
      SourceUses(v, names, temps, n - 1, k, name);
      var all := SourceItems(v, names, temps);
      var vars := v.p.sources;
      assert vars[..n][..n - 1] == vars[..n - 1] && vars[..n] == vars[..n - 1] + [vars[n - 1]];
      UsesJoin(all[..n - 1], [all[n - 1]], k, name);
      assert all[..n] == all[..n - 1] + [all[n - 1]];
      OneUses(v, names, temps, n - 1, k, name);
    }
  }

  lemma OneUses(v: Visit, names: seq<string>, temps: nat, j: nat, k: nat, name: string)
    requires j < |v.p.sources|
    ensures var it := SourceItem(v, names, temps, j);
            && (UsesTemp([it], k) <==> v.p.sources[j].bundled && k == temps + Bundled(v.p.sources[..j]))
            && (UsesName([it], name) <==> v.p.sources[j].name == name)
  {
    hide TempName, NodeOf, KidNode;
    var it := SourceItem(v, names, temps, j);
    assert [it][0] == it;
    if it.Bundle? && it.t.src == Stream(TempName(k)) {
      TempNamesDiffer(k, temps + Bundled(v.p.sources[..j]));
    }
  }

  lemma VisitUses(v: Visit, names: seq<string>, temps: nat, k: nat, name: string)
    ensures UsesTemp(VisitItems(v, names, temps), k) <==> temps <= k < temps + Bundled(v.p.sources)
    ensures UsesName(VisitItems(v, names, temps), name) <==> Names(v, name)
  {
    hide TempName, NodeOf, KidNode, SourceItem;
    SourceUses(v, names, temps, |v.p.sources|, k, name);
    var links, src, sink := LinkItems(v, names), SourceItems(v, names, temps), SinkItems(v, names);
    assert src[..|src|] == src && v.p.sources[..|v.p.sources|] == v.p.sources;
    UsesJoin(links, src, k, name);
    UsesJoin(links + src, sink, k, name);
    assert !UsesTemp(links, k) && !UsesName(links, name) && !UsesTemp(sink, k);
    assert UsesName(sink, name) <==> v.p.sink.Some? && v.p.sink.value.name == name by {
      if v.p.sink.Some? {
        assert sink[|sink| - 1].UserStream() == Some(Stream(v.p.sink.value.name));
      }
    }
  }

  lemma {:induction false} ProgramUses(vs: seq<Visit>, k: nat, name: string)
    ensures UsesTemp(ProgramItems(vs), k) <==> k < ProgramTemps(vs)
    ensures UsesName(ProgramItems(vs), name) <==> exists v :: v in vs && Names(v, name)
  {
    hide TempName, VisitItems, Names, UsesTemp, UsesName;
    if vs == [] {
      NoUses(k, name);
    } else {
      var init, v := vs[..|vs| - 1], vs[|vs| - 1];
      ProgramUses(init, k, name);
      VisitUses(v, ProgramNames(init), ProgramTemps(init), k, name);
      UsesJoin(ProgramItems(init), VisitItems(v, ProgramNames(init), ProgramTemps(init)), k, name);
      assert vs == init + [v];
    }
  }

  lemma NoUses(k: nat, name: string)
    ensures !UsesTemp([], k) && !UsesName([], name)
  {
  }

  /** The items clash exactly if the program calls one of its variables like one of the made-up streams. */
  lemma ClashIffNamesTemp(vs: seq<Visit>)
    ensures Clash(ProgramItems(vs)) <==> NamesTemp(vs)
  {
    hide TempName, ProgramItems, Names;
    var its := ProgramItems(vs);
    ProgramTempsApart(vs);
    if Clash(its) {
      var i, j :| 0 <= i < |its| && 0 <= j < |its| && its[i].Bundle? && its[j].UserStream() == Some(its[i].t.src);
      assert IsTemp(its[i], 0, ProgramTemps(vs));
      var k: nat :| k < ProgramTemps(vs) && its[i].t.src == Stream(TempName(k));
      ProgramUses(vs, k, TempName(k));
      assert UsesName(its, TempName(k));
    }
    if NamesTemp(vs) {
      var v, k: nat :| v in vs && k < ProgramTemps(vs) && Names(v, TempName(k));
      ProgramUses(vs, k, TempName(k));
      assert UsesTemp(its, k) && UsesName(its, TempName(k));
    }
  }

  /** What building a program and collapsing its variables makes. */
  function Compiled(vs: seq<Visit>): seq<Edge> {
    Collapsed(EdgesOf(ProgramItems(vs)), EdgesOf(ProgramItems(vs)))
  }

  /** The edges are those wanted, each as often as wanted, if and only if no variable is named like a made-up stream. */
  lemma CompiledIsWanted(vs: seq<Visit>)
    ensures multiset(Compiled(vs)) == Wanted(ProgramItems(vs), ProgramItems(vs)) <==> !NamesTemp(vs)
  {
    hide ProgramItems, Collapsed, EdgesOf, Wanted;
    ProgramValid(vs);
    ProgramTempsApart(vs);
    CollapseIsWanted(ProgramItems(vs));
    ClashIffNamesTemp(vs);
  }

  /** And an edge is made exactly if an item of the program accounts for it. */
  lemma CompiledIff(vs: seq<Visit>, e: Edge)
    requires !NamesTemp(vs)
    ensures e in Compiled(vs) <==>
            exists i: nat :: i < |ProgramItems(vs)| && ComesFrom(ProgramItems(vs), i, e)
  {
    hide ProgramItems, Compiled, Wanted, NamesTemp;
    var its := ProgramItems(vs);
    CompiledIsWanted(vs);
    ProgramValid(vs);
    WantedIff(its, |its|, e);
    assert its[..|its|] == its;
    assert e in Compiled(vs) <==> e in multiset(Compiled(vs));
  }
}
