/** What a program puts into a parse graph, item by item, and what collapsing makes of it. */
module PipeItems {
  import opened Optional
  import opened PipeEdges

  /** The edges put in by one step of building a pipeline. */
  datatype Item =
    | Direct(e: Edge)                       // from a kid to the next
    | Consume(c: Edge)                      // from a source variable to the first kid
    | Bundle(c: Edge, p: Edge, t: Edge)     // from a bundled source through unbundle and a made-up stream
    | Produce(p: Edge)                      // from the last kid to the sink variable
  {
    predicate Valid() {
      match this
      case Direct(e) => e.edgetype == PROCPROC
      case Consume(c) => c.edgetype == VARPROC
      case Bundle(c, p, t) => c.edgetype == VARPROC && p.edgetype == PROCVAR && t.edgetype == VARPROC && p.dst == t.src
      case Produce(p) => p.edgetype == PROCVAR
    }

    function Edges(): seq<Edge> {
      match this
      case Direct(e) => [e]
      case Consume(c) => [c]
      case Bundle(c, p, t) => [c, p, t]
      case Produce(p) => [p]
    }

    /** The edge out of a variable that the program names. */
    function UserEdge(): Option<Edge> {
      match this
      case Consume(c) => Some(c)
      case Bundle(c, _, _) => Some(c)
      case _ => None
    }

    /** The variable that the program names. */
    function UserStream(): Option<Node> {
      match this
      case Direct(_) => None
      case Consume(c) => Some(c.src)
      case Bundle(c, _, _) => Some(c.src)
      case Produce(p) => Some(p.dst)
    }
  }

  function EdgesOf(its: seq<Item>): seq<Edge> {
    if its == [] then [] else EdgesOf(its[..|its| - 1]) + its[|its| - 1].Edges()
  }

  predicate AllValid(its: seq<Item>) {
    forall i :: 0 <= i < |its| ==> its[i].Valid()
  }

  /** No two bundled sources share a made-up stream. */
  predicate TempsApart(its: seq<Item>) {
    forall i, j :: 0 <= i < j < |its| && its[i].Bundle? && its[j].Bundle? ==> its[i].t.src != its[j].t.src
  }

  /** The program itself names a made-up stream. */
  predicate Clash(its: seq<Item>) {
    exists i, j :: 0 <= i < |its| && 0 <= j < |its| && its[i].Bundle? && its[j].UserStream() == Some(its[i].t.src)
  }

  /** The edge that a producer and a consumer of one variable make. */
  function Meets(p: Edge, c: Edge): multiset<Edge> {
    if c.edgetype.srcVar && c.src == p.dst then multiset{Join(p, c)} else multiset{}
  }

  function Joins(p: Edge, cs: seq<Edge>): multiset<Edge> {
    if cs == [] then multiset{} else Joins(p, cs[..|cs| - 1]) + Meets(p, cs[|cs| - 1])
  }

  function UserMeets(p: Edge, it: Item): multiset<Edge> {
    match it.UserEdge()
    case Some(c) => Meets(p, c)
    case None => multiset{}
  }

  /** The joins of a producer with the consumers that the program names. */
  function UserJoins(p: Edge, its: seq<Item>): multiset<Edge> {
    if its == [] then multiset{}
    else UserJoins(p, its[..|its| - 1]) + UserMeets(p, its[|its| - 1])
  }

  /** The joins of a producer with the consumers of made-up streams. */
  function TempJoins(p: Edge, its: seq<Item>): multiset<Edge> {
    if its == [] then multiset{}
    else TempJoins(p, its[..|its| - 1]) + if its[|its| - 1].Bundle? then Meets(p, its[|its| - 1].t) else multiset{}
  }

  /** What an item should become: its own edge, or one edge for every consumer of what it produces. */
  function ItemWanted(it: Item, all: seq<Item>): multiset<Edge> {
    match it
    case Direct(e) => multiset{e}
    case Consume(_) => multiset{}
    case Bundle(_, p, t) => multiset{Join(p, t)}
    case Produce(p) => UserJoins(p, all)
  }

  /** What it becomes beside that when a made-up stream is also named by the program. */
  function ItemExtra(it: Item, all: seq<Item>): multiset<Edge> {
    match it
    case Direct(_) => multiset{}
    case Consume(_) => multiset{}
    case Bundle(_, p, _) => UserJoins(p, all)
    case Produce(p) => TempJoins(p, all)
  }

  function Wanted(its: seq<Item>, all: seq<Item>): multiset<Edge> {
    if its == [] then multiset{} else Wanted(its[..|its| - 1], all) + ItemWanted(its[|its| - 1], all)
  }

  function Extra(its: seq<Item>, all: seq<Item>): multiset<Edge> {
    if its == [] then multiset{} else Extra(its[..|its| - 1], all) + ItemExtra(its[|its| - 1], all)
  }

  lemma {:induction false} JoinsAppend(p: Edge, a: seq<Edge>, b: seq<Edge>)
    ensures Joins(p, a + b) == Joins(p, a) + Joins(p, b)
  {
    if b == [] {
      assert a + b == a;
    } else {
      var n := |b| - 1;
      assert (a + b)[..|a + b| - 1] == a + b[..n];
      JoinsAppend(p, a, b[..n]);
    }
  }

  lemma {:induction false} CollapsedAppend(a: seq<Edge>, b: seq<Edge>, all: seq<Edge>)
    ensures Collapsed(a + b, all) == Collapsed(a, all) + Collapsed(b, all)
  {
    hide Becomes;
    if b == [] {
      assert a + b == a;
    } else {
      var n := |b| - 1;
      assert (a + b)[..|a + b| - 1] == a + b[..n];
      CollapsedAppend(a, b[..n], all);
    }
  }

  /** The edges joined with the consumers of a variable are the joins over all edges. */
  lemma {:induction false} JoinedIsJoins(p: Edge, cs: seq<Edge>)
    ensures multiset(Joined(p, Consumers(cs, p.dst))) == Joins(p, cs)
  {
    hide Joined;
    if cs == [] {
      JoinedAppend(p, [], []);
    } else {
      var init, c := cs[..|cs| - 1], cs[|cs| - 1];
      JoinedIsJoins(p, init);
      JoinedAppend(p, Consumers(init, p.dst), []);
      JoinedAppend(p, Consumers(init, p.dst), [c]);
    }
  }

  lemma JoinedAppend(p: Edge, a: seq<Edge>, b: seq<Edge>)
    ensures Joined(p, a + b) == Joined(p, a) + Joined(p, b)
    ensures b == [] ==> Joined(p, b) == [] && a + b == a
    ensures |b| == 1 ==> Joined(p, b) == [Join(p, b[0])]
  {
  }

  /** The consumers are those the program names and those of made-up streams. */
  lemma {:induction false} JoinsSplit(p: Edge, its: seq<Item>)
    requires AllValid(its)
    ensures Joins(p, EdgesOf(its)) == UserJoins(p, its) + TempJoins(p, its)
  {
    if its != [] {
      var init, it := its[..|its| - 1], its[|its| - 1];
      JoinsSplit(p, init);
      JoinsAppend(p, EdgesOf(init), it.Edges());
      ItemJoins(p, it);
    }
  }

  lemma ItemJoins(p: Edge, it: Item)
    requires it.Valid()
    ensures Joins(p, it.Edges()) ==
            UserMeets(p, it) + if it.Bundle? then Meets(p, it.t) else multiset{}
  {
    match it
    case Direct(e) => JoinsOne(p, e);
    case Consume(c) => JoinsOne(p, c);
    case Produce(q) => JoinsOne(p, q);
    case Bundle(c, q, t) =>
      JoinsOne(p, c);
      JoinsOne(p, q);
      JoinsOne(p, t);
      assert [c, q, t] == [c] + [q] + [t];
      JoinsAppend(p, [c], [q]);
      JoinsAppend(p, [c] + [q], [t]);
  }

  lemma JoinsOne(p: Edge, c: Edge)
    ensures Joins(p, [c]) == Meets(p, c)
  {
    assert Joins(p, [c][..0]) == multiset{};
  }

  /** No made-up stream but that of item i has consumers that the producer of item i meets. */
  lemma {:induction false} TempJoinsOne(all: seq<Item>, n: nat, i: nat)
    requires AllValid(all) && TempsApart(all) && n <= |all| && i < |all| && all[i].Bundle?
    ensures TempJoins(all[i].p, all[..n]) == if i < n then multiset{Join(all[i].p, all[i].t)} else multiset{}
  {
    if n > 0 {
      TempJoinsOne(all, n - 1, i);
      assert all[..n][..n - 1] == all[..n - 1];
      assert all[i].Valid() && all[n - 1].Valid();
    }
  }

  /** An edge into a variable collapses to its joins. */
  lemma ProducerCollapsed(p: Edge, all: seq<Item>)
    requires AllValid(all) && p.edgetype == PROCVAR
    ensures multiset(Collapsed([p], EdgesOf(all))) == UserJoins(p, all) + TempJoins(p, all)
  {
    hide Joined, Consumers, Joins, UserJoins, TempJoins, EdgesOf;
    CollapsedOne(p, EdgesOf(all));
    JoinedIsJoins(p, EdgesOf(all));
    JoinsSplit(p, all);
  }

  /** Edges out of variables collapse to nothing of their own. */
  lemma BundleCollapsed(c: Edge, p: Edge, t: Edge, es: seq<Edge>)
    requires c.edgetype == VARPROC && t.edgetype == VARPROC
    ensures Collapsed([c, p, t], es) == Collapsed([p], es)
  {
    hide Joined, Consumers;
    assert [c, p, t] == [c] + [p] + [t];
    CollapsedAppend([c], [p], es);
    CollapsedAppend([c] + [p], [t], es);
    CollapsedOne(c, es);
    CollapsedOne(t, es);
  }

  /** What the edges of one item collapse to. */
  lemma ItemCollapsed(all: seq<Item>, i: nat)
    requires AllValid(all) && TempsApart(all) && i < |all|
    ensures multiset(Collapsed(all[i].Edges(), EdgesOf(all))) == ItemWanted(all[i], all) + ItemExtra(all[i], all)
  {
    hide Joined, Consumers, Joins, UserJoins, TempJoins, EdgesOf, Collapsed;
    var es := EdgesOf(all);
    assert all[i].Valid();
    match all[i]
    case Direct(e) => CollapsedOne(e, es);
    case Consume(c) => CollapsedOne(c, es);
    case Produce(p) => ProducerCollapsed(p, all);
    case Bundle(c, p, t) =>
      BundleCollapsed(c, p, t, es);
      ProducerCollapsed(p, all);
      TempJoinsOne(all, |all|, i);
      assert all[..|all|] == all;
  }

  lemma CollapsedOne(e: Edge, all: seq<Edge>)
    ensures Collapsed([e], all) == Becomes(e, all)
  {
    assert Collapsed([e][..0], all) == [];
  }

  lemma {:induction false} CollapsedPrefix(all: seq<Item>, n: nat)
    requires AllValid(all) && TempsApart(all) && n <= |all|
    ensures multiset(Collapsed(EdgesOf(all[..n]), EdgesOf(all))) == Wanted(all[..n], all) + Extra(all[..n], all)
  {
    hide ItemWanted, ItemExtra, Becomes;
    if n > 0 {
      CollapsedPrefix(all, n - 1);
      assert all[..n][..n - 1] == all[..n - 1];
      CollapsedAppend(EdgesOf(all[..n - 1]), all[n - 1].Edges(), EdgesOf(all));
      ItemCollapsed(all, n - 1);
    }
  }

  /** Something extra is made exactly if the program names a made-up stream. */
  lemma ExtraIffClash(all: seq<Item>)
    requires AllValid(all)
    ensures Extra(all, all) == multiset{} <==> !Clash(all)
  {
    assert all[..|all|] == all;
    if Clash(all) {
      var i, j :| 0 <= i < |all| && 0 <= j < |all| && all[i].Bundle? && all[j].UserStream() == Some(all[i].t.src);
      assert all[i].Valid() && all[j].Valid();
      if all[j].Produce? {
        TempJoinsHas(all[j].p, all, |all|, i);
        ExtraHas(all, |all|, j, Join(all[j].p, all[i].t));
      } else {
        UserJoinsHas(all[i].p, all, |all|, j);
        ExtraHas(all, |all|, i, Join(all[i].p, all[j].UserEdge().value));
      }
    } else {
      NoExtra(all, |all|);
    }
  }

  lemma {:induction false} UserJoinsHas(p: Edge, all: seq<Item>, n: nat, j: nat)
    requires j < n <= |all| && all[j].UserEdge().Some?
    requires all[j].UserEdge().value.edgetype.srcVar && all[j].UserEdge().value.src == p.dst
    ensures Join(p, all[j].UserEdge().value) in UserJoins(p, all[..n])
  {
    assert all[..n][..n - 1] == all[..n - 1];
    if j < n - 1 {
      UserJoinsHas(p, all, n - 1, j);
    }
  }

  lemma {:induction false} TempJoinsHas(p: Edge, all: seq<Item>, n: nat, j: nat)
    requires j < n <= |all| && all[j].Bundle? && all[j].t.edgetype.srcVar && all[j].t.src == p.dst
    ensures Join(p, all[j].t) in TempJoins(p, all[..n])
  {
    assert all[..n][..n - 1] == all[..n - 1];
    if j < n - 1 {
      TempJoinsHas(p, all, n - 1, j);
    }
  }

  lemma {:induction false} ExtraHas(all: seq<Item>, n: nat, i: nat, e: Edge)
    requires i < n <= |all| && e in ItemExtra(all[i], all)
    ensures e in Extra(all[..n], all)
  {
    assert all[..n][..n - 1] == all[..n - 1];
    if i < n - 1 {
      ExtraHas(all, n - 1, i, e);
    }
  }

  lemma {:induction false} NoExtra(all: seq<Item>, n: nat)
    requires AllValid(all) && !Clash(all) && n <= |all|
    ensures Extra(all[..n], all) == multiset{}
  {
    if n > 0 {
      NoExtra(all, n - 1);
      assert all[..n][..n - 1] == all[..n - 1];
      var it := all[n - 1];
      assert it.Valid() && all[..|all|] == all;
      if it.Bundle? {
        NoUserJoins(all, n - 1, |all|);
      } else if it.Produce? {
        NoTempJoins(all, n - 1, |all|);
      }
    }
  }

  lemma {:induction false} NoUserJoins(all: seq<Item>, i: nat, n: nat)
    requires AllValid(all) && !Clash(all) && n <= |all| && i < |all| && all[i].Bundle?
    ensures UserJoins(all[i].p, all[..n]) == multiset{}
  {
    if n > 0 {
      NoUserJoins(all, i, n - 1);
      assert all[..n][..n - 1] == all[..n - 1];
      assert all[i].Valid() && all[n - 1].UserStream() != Some(all[i].t.src);
    }
  }

  lemma {:induction false} NoTempJoins(all: seq<Item>, j: nat, n: nat)
    requires AllValid(all) && !Clash(all) && n <= |all| && j < |all| && all[j].Produce?
    ensures TempJoins(all[j].p, all[..n]) == multiset{}
  {
    if n > 0 {
      NoTempJoins(all, j, n - 1);
      assert all[..n][..n - 1] == all[..n - 1];
      assert all[n - 1].Bundle? ==> all[j].UserStream() != Some(all[n - 1].t.src);
    }
  }

  /** Collapsing yields exactly the edges wanted, as often as wanted, if and only if no made-up stream is named. */
  lemma CollapseIsWanted(all: seq<Item>)
    requires AllValid(all) && TempsApart(all)
    ensures multiset(Collapsed(EdgesOf(all), EdgesOf(all))) == Wanted(all, all) <==> !Clash(all)
  {
    assert all[..|all|] == all;
    CollapsedPrefix(all, |all|);
    ExtraIffClash(all);
    var w, x := Wanted(all, all), Extra(all, all);
    assert |w + x| == |w| + |x|;
  }

  /** An edge made by a producer and the j-th item, a consumer of what is produced. */
  predicate Pairs(p: Edge, all: seq<Item>, j: nat, e: Edge) {
    j < |all| && all[j].UserEdge().Some? && all[j].UserEdge().value.src == p.dst &&
    e == Join(p, all[j].UserEdge().value)
  }

  /** An edge that item i accounts for. */
  ghost predicate ComesFrom(all: seq<Item>, i: nat, e: Edge) {
    i < |all| &&
    match all[i]
    case Direct(d) => e == d
    case Consume(_) => false
    case Bundle(_, p, t) => e == Join(p, t)
    case Produce(p) => exists j: nat :: Pairs(p, all, j, e)
  }

  lemma {:induction false} UserJoinsIff(p: Edge, all: seq<Item>, n: nat, e: Edge)
    requires AllValid(all) && n <= |all|
    ensures e in UserJoins(p, all[..n]) <==> exists j: nat :: j < n && Pairs(p, all, j, e)
  {
    hide Pairs, UserMeets;
    if n > 0 {
      UserJoinsIff(p, all, n - 1, e);
      assert all[..n][..n - 1] == all[..n - 1];
      UserMeetsIff(p, all, n - 1, e);
      assert e in UserJoins(p, all[..n]) <==> e in UserJoins(p, all[..n - 1]) || Pairs(p, all, n - 1, e);
    }
  }

  lemma UserMeetsIff(p: Edge, all: seq<Item>, j: nat, e: Edge)
    requires AllValid(all) && j < |all|
    ensures e in UserMeets(p, all[j]) <==> Pairs(p, all, j, e)
  {
    assert all[j].Valid();
  }

  lemma ItemWantedIff(all: seq<Item>, i: nat, e: Edge)
    requires AllValid(all) && i < |all|
    ensures e in ItemWanted(all[i], all) <==> ComesFrom(all, i, e)
  {
    hide Join, Pairs;
    if all[i].Produce? {
      UserJoinsIff(all[i].p, all, |all|, e);
      assert all[..|all|] == all;
      if j: nat :| Pairs(all[i].p, all, j, e) {
        PairsInRange(all[i].p, all, j, e);
      }
    }
  }

  lemma PairsInRange(p: Edge, all: seq<Item>, j: nat, e: Edge)
    requires Pairs(p, all, j, e)
    ensures j < |all|
  {
  }

  /** What is wanted holds an edge exactly if some item accounts for it. */
  lemma {:induction false} WantedIff(all: seq<Item>, n: nat, e: Edge)
    requires AllValid(all) && n <= |all|
    ensures e in Wanted(all[..n], all) <==> exists i: nat :: i < n && ComesFrom(all, i, e)
  {
    hide ItemWanted, ComesFrom;
    if n > 0 {
      WantedIff(all, n - 1, e);
      assert all[..n][..n - 1] == all[..n - 1];
      ItemWantedIff(all, n - 1, e);
      assert e in Wanted(all[..n], all) <==> e in Wanted(all[..n - 1], all) || ComesFrom(all, n - 1, e);
    }
  }
}
