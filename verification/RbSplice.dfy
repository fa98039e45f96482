/** What attaching a node, splicing one out and putting one in another's stead do to a stored zipper. */
module RbSplice {
  import opened RbStore
  import opened RbBalance

  lemma {:induction false} PlacedWiden(pos: Pos, t: Tree, lo: real, hi: real, lo': real, hi': real)
    requires Placed(pos, t, lo, hi) && lo' <= lo && hi <= hi'
    ensures Placed(pos, t, lo', hi')
  {
    if t.Node? {
      PlacedWiden(pos, t.l, lo, P(pos, t.n), lo', P(pos, t.n));
      PlacedWiden(pos, t.r, P(pos, t.n), hi, P(pos, t.n), hi');
    }
  }

  ghost predicate SamePlaces(pos: Pos, pos': Pos, s: seq<Ref>) {
    forall n :: n in s ==> P(pos', n) == P(pos, n)
  }

  lemma {:induction false} PlacedSame(pos: Pos, pos': Pos, t: Tree, lo: real, hi: real)
    requires Placed(pos, t, lo, hi) && SamePlaces(pos, pos', InOrder(t))
    ensures Placed(pos', t, lo, hi)
  {
    if t.Node? {
      PlacedSame(pos, pos', t.l, lo, P(pos, t.n));
      PlacedSame(pos, pos', t.r, P(pos, t.n), hi);
    }
  }

  lemma {:induction false} PlacedCtxSame(pos: Pos, pos': Pos, c: Ctx)
    requires PlacedCtx(pos, c) && SamePlaces(pos, pos', Before(c)) && SamePlaces(pos, pos', After(c))
    ensures PlacedCtx(pos', c) && Lo(pos', c) == Lo(pos, c) && Hi(pos', c) == Hi(pos, c)
  {
    if c.In? {
      PlacedCtxSame(pos, pos', c.up);
      if c.side == L {
        PlacedSame(pos, pos', c.sib, P(pos, c.n), Hi(pos, c.up));
      } else {
        PlacedSame(pos, pos', c.sib, Lo(pos, c.up), P(pos, c.n));
      }
    }
  }

  // The nodes around the hole lie outside its interval, and inside the unit interval.
  lemma {:induction false} CtxPlaced(pos: Pos, c: Ctx)
    requires PlacedCtx(pos, c)
    ensures forall n :: n in Before(c) ==> 0.0 < P(pos, n) <= Lo(pos, c)
    ensures forall n :: n in After(c) ==> Hi(pos, c) <= P(pos, n)
  {
    CtxInterval(pos, c);
    if c.In? {
      CtxPlaced(pos, c.up);
      if c.side == L {
        InOrderPlaced(pos, c.sib, P(pos, c.n), Hi(pos, c.up));
      } else {
        InOrderPlaced(pos, c.sib, Lo(pos, c.up), P(pos, c.n));
      }
    }
  }

  lemma OrderPlaced(m: Store, pos: Pos, c: Ctx, t: Tree)
    requires At(m, pos, c, t)
    ensures forall n :: n in Order(c, t) ==> 0.0 < P(pos, n) && n !in {ROOT, NIL}
  {
    CtxInterval(pos, c);
    CtxPlaced(pos, c);
    InOrderPlaced(pos, t, Lo(pos, c), Hi(pos, c));
  }

  lemma {:induction false} TreeInStore(m: Store, t: Tree, p: Ref)
    requires Rep(m, t, p)
    ensures forall n :: n in InOrder(t) ==> n in m
  {
    if t.Node? {
      TreeInStore(m, t.l, t.n);
      TreeInStore(m, t.r, t.n);
    }
  }

  lemma InStore(m: Store, pos: Pos, c: Ctx, t: Tree)
    requires At(m, pos, c, t)
    ensures forall n :: n in Order(c, t) ==> n in m && n !in {ROOT, NIL} && 0.0 < P(pos, n)
  {
    AtFill(m, pos, c, t);
    OrderFill(c, t);
    TreeInStore(m, Fill(c, t), ROOT);
    OrderPlaced(m, pos, c, t);
  }

  lemma Repos(m: Store, pos: Pos, pos': Pos, c: Ctx, t: Tree)
    requires At(m, pos, c, t) && SamePlaces(pos, pos', Order(c, t))
    requires P(pos', ROOT) == 0.0 && P(pos', NIL) == 0.0
    ensures At(m, pos', c, t)
  {
    PlacedCtxSame(pos, pos', c);
    PlacedSame(pos, pos', t, Lo(pos, c), Hi(pos, c));
  }

  // A cell that is not in the tree is overwritten.
  lemma StrayWrite(m: Store, m': Store, pos: Pos, c: Ctx, t: Tree, z: Ref)
    requires At(m, pos, c, t) && P(pos, z) == 0.0 && z !in {ROOT, NIL}
    requires forall n :: n in m && n != z ==> n in m' && m'[n] == m[n]
    ensures At(m', pos, c, t)
  {
    CtxInterval(pos, c);
    RepCtxFrame(m, m', pos, c, Root(t));
    RepFrame(m, m', pos, t, Par(c), Lo(pos, c), Hi(pos, c), z);
  }

  lemma AttachAt(m: Store, m': Store, pos: Pos, pos': Pos, c: Ctx, z: Ref, red: bool)
    requires At(m, pos, c, Leaf) && P(pos, z) == 0.0 && z !in {ROOT, NIL}
    requires z in m' && m'[z] == Cell(red, NIL, NIL, Par(c))
    requires Par(c) in m && Par(c) in m' && m'[Par(c)] == WithHole(m[Par(c)], c, z)
    requires forall n :: n in m && n !in {z, Par(c)} ==> n in m' && m'[n] == m[n]
    requires pos' == pos[z := (Lo(pos, c) + Hi(pos, c)) / 2.0]
    ensures At(m', pos', c, Node(Leaf, red, z, Leaf))
  {
    CtxInterval(pos, c);
    assert PlacedCtx(pos', c) && Lo(pos', c) == Lo(pos, c) && Hi(pos', c) == Hi(pos, c) by {
      OrderPlaced(m, pos, c, Leaf);
      PlacedCtxSame(pos, pos', c);
    }
    assert RepCtx(m', c, z) by {
      Rehole(m, m', pos, c, NIL, z);
    }
  }

  lemma SpliceAt(m: Store, m': Store, pos: Pos, c: Ctx, t: Tree, s: Tree)
    requires At(m, pos, c, t) && t.Node?
    requires (t.l.Leaf? && s == t.r) || (t.r.Leaf? && s == t.l)
    requires Root(s) in m && Root(s) in m' && m'[Root(s)] == m[Root(s)].(parent := Par(c))
    requires Par(c) in m && Par(c) in m' && m'[Par(c)] == WithHole(m[Par(c)], c, Root(s))
    requires forall n :: n in m && n !in {Root(s), Par(c)} ==> n in m' && m'[n] == m[n]
    ensures At(m', pos, c, s)
  {
    CtxInterval(pos, c);
    var lo, hi := Lo(pos, c), Hi(pos, c);
    if s == t.r {
      Reparent(m, m', pos, s, t.n, Par(c), P(pos, t.n), hi);
      PlacedWiden(pos, s, P(pos, t.n), hi, lo, hi);
    } else {
      Reparent(m, m', pos, s, t.n, Par(c), lo, P(pos, t.n));
      PlacedWiden(pos, s, lo, P(pos, t.n), lo, hi);
    }
    Rehole(m, m', pos, c, t.n, Root(s));
  }

  // Node y, which is not in the tree, takes the place of the node at the focus.
  lemma TransplantAt(m: Store, m': Store, pos: Pos, pos': Pos, c: Ctx, t: Tree, y: Ref)
    requires At(m, pos, c, t) && t.Node? && P(pos, y) == 0.0 && y !in {ROOT, NIL}
    requires y in m' && m'[y] == Cell(t.red, Root(t.l), Root(t.r), Par(c))
    requires t.l.Node? ==> t.l.n in m && t.l.n in m' && m'[t.l.n] == m[t.l.n].(parent := y)
    requires t.r.Node? ==> t.r.n in m && t.r.n in m' && m'[t.r.n] == m[t.r.n].(parent := y)
    requires Par(c) in m && Par(c) in m' && m'[Par(c)] == WithHole(m[Par(c)], c, y)
    requires NIL in m' && !m'[NIL].red
    requires forall n :: n in m && n !in {y, Root(t.l), Root(t.r), Par(c), NIL} ==> n in m' && m'[n] == m[n]
    requires pos' == pos[y := P(pos, t.n)][t.n := 0.0]
    ensures At(m', pos', c, t.(n := y))
  {
    CtxInterval(pos, c);
    var lo, hi, pz := Lo(pos, c), Hi(pos, c), P(pos, t.n);
    assert Placed(pos, t.l, lo, pz) && Placed(pos, t.r, pz, hi);
    assert Rep(m', t.l, y) by { Reparent(m, m', pos, t.l, t.n, y, lo, pz); }
    assert Rep(m', t.r, y) by { Reparent(m, m', pos, t.r, t.n, y, pz, hi); }
    assert RepCtx(m', c, y) by { Rehole(m, m', pos, c, t.n, y); }
    TransplantPlaces(pos, pos', c, t, y);
  }

  lemma TransplantPlaces(pos: Pos, pos': Pos, c: Ctx, t: Tree, y: Ref)
    requires PlacedCtx(pos, c) && Placed(pos, t, Lo(pos, c), Hi(pos, c)) && t.Node? && P(pos, y) == 0.0
    requires pos' == pos[y := P(pos, t.n)][t.n := 0.0]
    ensures PlacedCtx(pos', c) && Placed(pos', t.(n := y), Lo(pos', c), Hi(pos', c))
  {
    CtxInterval(pos, c);
    CtxPlaced(pos, c);
    InOrderPlaced(pos, t.l, Lo(pos, c), P(pos, t.n));
    InOrderPlaced(pos, t.r, P(pos, t.n), Hi(pos, c));
    PlacedCtxSame(pos, pos', c);
    PlacedSame(pos, pos', t.l, Lo(pos, c), P(pos, t.n));
    PlacedSame(pos, pos', t.r, P(pos, t.n), Hi(pos, c));
  }

  lemma FilledRootIsNotHole(m: Store, pos: Pos, c: Ctx, t: Tree)
    requires At(m, pos, c, t) && c.In?
    ensures Root(Fill(c, t)) != Root(t)
  {
    CtxInterval(pos, c);
    CtxPlaced(pos, c);
    FilledRoot(pos, c, t);
  }

  // A node spliced out is gone from the in-order sequence.
  lemma SplicedOut(m: Store, pos: Pos, c: Ctx, t: Tree, s: Tree)
    requires At(m, pos, c, t) && t.Node?
    requires (t.l.Leaf? && s == t.r) || (t.r.Leaf? && s == t.l)
    ensures t.n !in Order(c, s)
    ensures Order(c, t) == (Before(c) + InOrder(t.l)) + [t.n] + (InOrder(t.r) + After(c))
    ensures Order(c, s) == (Before(c) + InOrder(t.l)) + (InOrder(t.r) + After(c))
  {
    assert t.n !in Order(c, s) by {
      CtxPlaced(pos, c);
      InOrderPlaced(pos, s,
        if t.l.Leaf? then P(pos, t.n) else Lo(pos, c), if t.l.Leaf? then Hi(pos, c) else P(pos, t.n));
    }
    Flatten(Before(c), InOrder(t.l), t.n, InOrder(t.r), After(c));
  }

  // Another node at the focus changes neither the balance nor the rest of the in-order sequence.
  lemma Renamed(c: Ctx, t: Tree, y: Ref)
    requires t.Node? && Balanced(Fill(c, t))
    ensures Balanced(Fill(c, t.(n := y)))
    ensures InOrder(Fill(c, t.(n := y))) == (Before(c) + InOrder(t.l)) + [y] + (InOrder(t.r) + After(c))
  {
    OrderFill(c, t.(n := y));
    Flatten(Before(c), InOrder(t.l), y, InOrder(t.r), After(c));
    var h := BalUnfill(c, t);
    assert Bal(t.(n := y), h);
    BalFill(c, t.(n := y), h);
  }

  lemma TransplantLocal(m: Store, pos: Pos, c: Ctx, t: Tree, y: Ref)
    requires At(m, pos, c, t) && t.Node? && P(pos, y) == 0.0 && y in m && y !in {ROOT, NIL}
    ensures t.n in m && m[t.n] == Cell(t.red, Root(t.l), Root(t.r), Par(c)) && NIL in m && !m[NIL].red
    ensures Root(t.l) in m && Root(t.r) in m && Par(c) in m
    ensures {t.n, y, Par(c)} !! {Root(t.l), Root(t.r)} && t.n !in {y, Par(c)} && y != Par(c) && Par(c) != NIL
    ensures t.l.Node? ==> t.l.n != Root(t.r) && t.l.n != NIL
    ensures t.r.Node? ==> t.r.n != NIL
    ensures t.n == m[Par(c)].left <==> c.Top? || c.side == L
  {
    CtxInterval(pos, c);
    assert Rep(m, t.l, t.n) && Rep(m, t.r, t.n);
    assert Placed(pos, t.l, Lo(pos, c), P(pos, t.n)) && Placed(pos, t.r, P(pos, t.n), Hi(pos, c));
    Local(m, pos, c, t);
  }
}
