/** Red-black balance and in-order sequences of zippers, free of any store. */
module RbBalance {
  import opened RbStore

  predicate Red(t: Tree) {
    t.Node? && t.red
  }

  /** No red node has a red child and every path to a leaf meets h black nodes. */
  ghost predicate Bal(t: Tree, h: nat) {
    match t
    case Leaf => h == 0
    case Node(l, red, _, r) =>
      if red then !Red(l) && !Red(r) && Bal(l, h) && Bal(r, h)
      else h > 0 && Bal(l, h - 1) && Bal(r, h - 1)
  }

  function Rise(red: bool, h: nat): nat {
    if red then h else h + 1
  }

  /** The context is balanced around a hole that contributes h black nodes to every path. */
  ghost predicate BalCtx(c: Ctx, h: nat) {
    c.In? ==> (
      && Bal(c.sib, h)
      && (c.red ==> c.up.In? && !c.up.red && !Red(c.sib))
      && BalCtx(c.up, Rise(c.red, h)))
  }

  ghost predicate BalAt(c: Ctx, t: Tree, h: nat) {
    Bal(t, h) && BalCtx(c, h) && (Red(t) ==> c.In? && !c.red)
  }

  ghost predicate Balanced(t: Tree) {
    !Red(t) && exists h: nat :: Bal(t, h)
  }

  lemma BalZoom(c: Ctx, t: Tree, h: nat)
    requires c.In? && BalAt(c, t, h)
    ensures BalAt(c.up, Join(c.side, t, c.red, c.n, c.sib), Rise(c.red, h))
  {
  }

  function Depth(c: Ctx): nat {
    if c.Top? then 0 else 1 + Depth(c.up)
  }

  function Fill(c: Ctx, t: Tree): Tree {
    if c.Top? then t else Fill(c.up, Join(c.side, t, c.red, c.n, c.sib))
  }

  lemma {:induction false} FillNode(c: Ctx, t: Tree)
    requires t.Node? || c.In?
    ensures Fill(c, t).Node?
  {
    if c.In? {
      FillNode(c.up, Join(c.side, t, c.red, c.n, c.sib));
    }
  }

  lemma {:induction false} BalFill(c: Ctx, t: Tree, h: nat)
    requires BalAt(c, t, h)
    ensures Balanced(Fill(c, t))
  {
    if c.In? {
      BalZoom(c, t, h);
      BalFill(c.up, Join(c.side, t, c.red, c.n, c.sib), Rise(c.red, h));
    }
  }

  lemma {:induction false} BalUnfill(c: Ctx, t: Tree) returns (h: nat)
    requires Balanced(Fill(c, t))
    ensures BalAt(c, t, h)
  {
    if c.Top? {
      h :| Bal(t, h);
    } else {
      var h' := BalUnfill(c.up, Join(c.side, t, c.red, c.n, c.sib));
      h := if c.red then h' else h' - 1;
    }
  }

  lemma {:induction false} AtFill(m: Store, pos: Pos, c: Ctx, t: Tree)
    ensures At(m, pos, c, t) <==> At(m, pos, Top, Fill(c, t))
  {
    if c.In? {
      Zoom(m, pos, c, t);
      AtFill(m, pos, c.up, Join(c.side, t, c.red, c.n, c.sib));
    }
  }

  // The three ways the insertion loop keeps heights: red uncle, inner child, outer child.
  lemma InsertRecolorBal(c: Ctx, t: Tree, h: nat)
    requires Bal(t, h) && BalCtx(c, h) && c.In? && c.red && Red(c.up.sib)
    ensures Bal(Join(c.up.side, Join(c.side, t, false, c.n, c.sib), true, c.up.n, c.up.sib.(red := false)), h + 1)
    ensures BalCtx(c.up.up, h + 1)
  {
    assert BalCtx(c.up, h);
    assert Bal(c.up.sib.(red := false), h + 1);
    assert Bal(Join(c.side, t, false, c.n, c.sib), h + 1);
  }

  lemma InsertInnerBal(c: Ctx, t: Tree, h: nat)
    requires Bal(t, h) && BalCtx(c, h) && c.In? && c.red && Red(t)
    ensures Bal(Node(c.sib, true, c.n, t.l), h) && BalCtx(In(L, c.up, true, t.n, t.r), h)
    ensures Bal(Node(t.r, true, c.n, c.sib), h) && BalCtx(In(R, c.up, true, t.n, t.l), h)
  {
  }

  lemma InsertOuterBal(c: Ctx, h: nat)
    requires BalCtx(c, h) && c.In? && c.red && !Red(c.up.sib)
    ensures BalCtx(In(L, c.up.up, false, c.n, Node(c.sib, true, c.up.n, c.up.sib)), h)
    ensures BalCtx(In(R, c.up.up, false, c.n, Node(c.up.sib, true, c.up.n, c.sib)), h)
  {
    assert BalCtx(c.up, h);
  }

  // ----- in-order sequences -----

  function InOrder(t: Tree): seq<Ref> {
    if t.Leaf? then [] else InOrder(t.l) + [t.n] + InOrder(t.r)
  }

  function Before(c: Ctx): seq<Ref> {
    if c.Top? then [] else if c.side == L then Before(c.up) else Before(c.up) + InOrder(c.sib) + [c.n]
  }

  function After(c: Ctx): seq<Ref> {
    if c.Top? then [] else if c.side == R then After(c.up) else [c.n] + InOrder(c.sib) + After(c.up)
  }

  function Order(c: Ctx, t: Tree): seq<Ref> {
    Before(c) + InOrder(t) + After(c)
  }

  lemma OrderZoom(c: Ctx, t: Tree)
    requires c.In?
    ensures Order(c, t) == Order(c.up, Join(c.side, t, c.red, c.n, c.sib))
  {
    if c.side == L {
      assert Before(c) + InOrder(t) + ([c.n] + InOrder(c.sib) + After(c.up)) ==
        Before(c) + (InOrder(t) + [c.n] + InOrder(c.sib)) + After(c.up);
    } else {
      assert Before(c.up) + InOrder(c.sib) + [c.n] + InOrder(t) + After(c) ==
        Before(c.up) + (InOrder(c.sib) + [c.n] + InOrder(t)) + After(c);
    }
  }

  lemma {:induction false} OrderFill(c: Ctx, t: Tree)
    ensures Order(c, t) == InOrder(Fill(c, t))
  {
    if c.In? {
      OrderZoom(c, t);
      OrderFill(c.up, Join(c.side, t, c.red, c.n, c.sib));
    }
  }

  lemma HoleOrder(c: Ctx)
    ensures InOrder(Fill(c, Leaf)) == Before(c) + After(c)
  {
    OrderFill(c, Leaf);
    assert Before(c) + [] == Before(c);
  }

  function RotatedLeft(t: Tree): Tree
    requires t.Node? && t.r.Node?
  {
    Node(Node(t.l, t.red, t.n, t.r.l), t.r.red, t.r.n, t.r.r)
  }

  function RotatedRight(t: Tree): Tree
    requires t.Node? && t.l.Node?
  {
    Node(t.l.l, t.l.red, t.l.n, Node(t.l.r, t.red, t.n, t.r))
  }

  lemma Regroup(a: seq<Ref>, x: Ref, b: seq<Ref>, y: Ref, d: seq<Ref>)
    ensures a + [x] + (b + [y] + d) == (a + [x] + b) + [y] + d
  {
  }

  lemma Flatten(a: seq<Ref>, b: seq<Ref>, n: Ref, d: seq<Ref>, e: seq<Ref>)
    ensures a + (b + [n] + d) + e == (a + b) + [n] + (d + e)
    ensures b == [] ==> a + d + e == (a + b) + (d + e)
    ensures d == [] ==> a + b + e == (a + b) + (d + e)
  {
  }

  lemma RotationKeepsOrder(t: Tree)
    ensures t.Node? && t.r.Node? ==> InOrder(RotatedLeft(t)) == InOrder(t)
    ensures t.Node? && t.l.Node? ==> InOrder(RotatedRight(t)) == InOrder(t)
  {
    if t.Node? && t.r.Node? {
      assert InOrder(RotatedLeft(t).l) == InOrder(t.l) + [t.n] + InOrder(t.r.l);
      Regroup(InOrder(t.l), t.n, InOrder(t.r.l), t.r.n, InOrder(t.r.r));
    }
    if t.Node? && t.l.Node? {
      assert InOrder(RotatedRight(t).r) == InOrder(t.l.r) + [t.n] + InOrder(t.r);
      Regroup(InOrder(t.l.l), t.l.n, InOrder(t.l.r), t.n, InOrder(t.r));
    }
  }

  lemma {:induction false} FilledRoot(pos: Pos, c: Ctx, t: Tree)
    requires c.In? && PlacedCtx(pos, c)
    ensures Root(Fill(c, t)) in Before(c) + After(c)
  {
    if c.up.In? {
      FilledRoot(pos, c.up, Join(c.side, t, c.red, c.n, c.sib));
    }
  }

  /** The zipper of node n inside the zipper (c, t). */
  ghost function Locate(c: Ctx, t: Tree, n: Ref): (r: (Ctx, Tree))
    requires n in InOrder(t)
    ensures r.1.Node? && r.1.n == n
    ensures Fill(r.0, r.1) == Fill(c, t)
    decreases t
  {
    if t.n == n then (c, t)
    else if n in InOrder(t.l) then Locate(In(L, c, t.red, t.n, t.r), t.l, n)
    else Locate(In(R, c, t.red, t.n, t.l), t.r, n)
  }

  lemma {:induction false} InOrderPlaced(pos: Pos, t: Tree, lo: real, hi: real)
    requires Placed(pos, t, lo, hi)
    ensures forall n :: n in InOrder(t) ==> lo < P(pos, n) < hi
    ensures forall i, j :: 0 <= i < j < |InOrder(t)| ==> P(pos, InOrder(t)[i]) < P(pos, InOrder(t)[j])
  {
    if t.Node? {
      InOrderPlaced(pos, t.l, lo, P(pos, t.n));
      InOrderPlaced(pos, t.r, P(pos, t.n), hi);
    }
  }

  // ----- the deletion loop -----

  /** Paths through the subtree meet one black node too few, unless its red root turns black. */
  ghost predicate Short(c: Ctx, t: Tree, h: nat) {
    BalCtx(c, h + 1) && if Red(t) then Bal(t.(red := false), h + 1) else Bal(t, h)
  }

  lemma {:induction false} RootFill(c: Ctx, t: Tree, t': Tree)
    requires c.In? || Root(t) == Root(t')
    ensures Root(Fill(c, t)) == Root(Fill(c, t'))
  {
    if c.In? {
      RootFill(c.up, Join(c.side, t, c.red, c.n, c.sib), Join(c.side, t', c.red, c.n, c.sib));
    }
  }

  // Rotating the red sibling up leaves the cached root on top or turns it into the parent of the focus.
  lemma SunkRoot(c: Ctx, c': Ctx, t: Tree)
    requires c.In? && c'.In? && c'.up.In? && c'.up.up == c.up && c'.n == c.n
    ensures Root(Fill(c, t)) in {c.n, Root(Fill(c', t))}
  {
    var t1 := Join(c'.side, t, c'.red, c'.n, c'.sib);
    RootFill(c.up, Join(c.side, t, c.red, c.n, c.sib),
      if c.up.Top? then Join(c.side, t, c.red, c.n, c.sib) else Join(c'.up.side, t1, c'.up.red, c'.up.n, c'.up.sib));
  }

  lemma SpliceBal(c: Ctx, t: Tree, s: Tree, h: nat)
    requires BalAt(c, t, h) && t.Node? && ((t.l.Leaf? && s == t.r) || (t.r.Leaf? && s == t.l))
    ensures t.red ==> BalAt(c, s, h)
    ensures !t.red ==> h > 0 && Short(c, s, h - 1)
  {
    assert Bal(s, if t.red then h else h - 1);
  }

  lemma SiblingIsNode(c: Ctx, t: Tree, h: nat)
    requires Short(c, t, h) && c.In?
    ensures c.sib.Node? && (Red(c.sib) ==> !c.red && c.sib.l.Node? && c.sib.r.Node?)
  {
    assert Red(c.sib) ==> Bal(c.sib.l, h + 1) && Bal(c.sib.r, h + 1);
  }

  lemma ShortRedSibling(c: Ctx, t: Tree, h: nat)
    requires Short(c, t, h) && c.In? && Red(c.sib)
    ensures Short(In(L, In(L, c.up, false, c.sib.n, c.sib.r), true, c.n, c.sib.l), t, h) && !Red(c.sib.l)
    ensures Short(In(R, In(R, c.up, false, c.sib.n, c.sib.l), true, c.n, c.sib.r), t, h) && !Red(c.sib.r)
  {
  }

  lemma ShortUp(c: Ctx, t: Tree, h: nat)
    requires Short(c, t, h) && c.In? && !Red(t) && c.sib.Node? && !c.sib.red && !Red(c.sib.l) && !Red(c.sib.r)
    ensures Short(c.up, Join(c.side, t, c.red, c.n, c.sib.(red := true)), Rise(c.red, h))
  {
    assert Bal(c.sib.(red := true), h);
  }

  lemma ShortNear(c: Ctx, t: Tree, h: nat)
    requires Short(c, t, h) && c.In? && c.sib.Node? && !c.sib.red
    ensures Red(c.sib.l) && !Red(c.sib.r) ==>
      Short(c.(sib := Node(c.sib.l.l, false, c.sib.l.n, Node(c.sib.l.r, true, c.sib.n, c.sib.r))), t, h)
    ensures Red(c.sib.r) && !Red(c.sib.l) ==>
      Short(c.(sib := Node(Node(c.sib.l, true, c.sib.n, c.sib.r.l), false, c.sib.r.n, c.sib.r.r)), t, h)
  {
    assert Bal(c.sib.l, h) && Bal(c.sib.r, h);
    if Red(c.sib.l) && !Red(c.sib.r) {
      assert Bal(Node(c.sib.l.r, true, c.sib.n, c.sib.r), h);
    }
    if Red(c.sib.r) && !Red(c.sib.l) {
      assert Bal(Node(c.sib.l, true, c.sib.n, c.sib.r.l), h);
    }
  }

  lemma ShortFar(c: Ctx, t: Tree, h: nat)
    requires Short(c, t, h) && c.In? && !Red(t) && c.sib.Node? && !c.sib.red
    ensures Red(c.sib.r) ==>
      BalAt(c.up, Node(Node(t, false, c.n, c.sib.l), c.red, c.sib.n, c.sib.r.(red := false)), Rise(c.red, h + 1))
    ensures Red(c.sib.l) ==>
      BalAt(c.up, Node(c.sib.l.(red := false), c.red, c.sib.n, Node(c.sib.r, false, c.n, t)), Rise(c.red, h + 1))
  {
    assert Bal(c.sib.l, h) && Bal(c.sib.r, h);
    if Red(c.sib.r) {
      assert Bal(c.sib.r.(red := false), h + 1) && Bal(Node(t, false, c.n, c.sib.l), h + 1);
    }
    if Red(c.sib.l) {
      assert Bal(c.sib.l.(red := false), h + 1) && Bal(Node(c.sib.r, false, c.n, t), h + 1);
    }
  }
}
