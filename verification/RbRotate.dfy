/** What the two rotations do to a stored zipper. */
module RbRotate {
  import opened RbStore
  import opened RbBalance

  // The cells a left rotation touches are distinct.
  lemma LeftRotateLocal(m: Store, pos: Pos, c: Ctx, t: Tree)
    requires At(m, pos, c, t) && t.Node? && t.r.Node?
    ensures t.n in m && t.r.n in m && Par(c) in m && NIL in m
    ensures t.n != t.r.n && Par(c) !in {t.n, t.r.n} && NIL !in {t.n, t.r.n, Par(c)}
    ensures m[t.n] == Cell(t.red, Root(t.l), t.r.n, Par(c))
    ensures m[t.r.n] == Cell(t.r.red, Root(t.r.l), Root(t.r.r), t.n)
    ensures t.r.l.Node? ==> t.r.l.n in m && t.r.l.n !in {t.n, t.r.n, Par(c), NIL}
    ensures t.n == m[Par(c)].left <==> c.Top? || c.side == L
  {
    CtxInterval(pos, c);
    assert Rep(m, t.r, t.n) && Rep(m, t.r.l, t.r.n);
    assert Placed(pos, t.r, P(pos, t.n), Hi(pos, c)) && Placed(pos, t.r.l, P(pos, t.n), P(pos, t.r.n));
  }

  lemma LeftRotateAt(m: Store, m': Store, pos: Pos, c: Ctx, t: Tree)
    requires At(m, pos, c, t) && t.Node? && t.r.Node?
    requires t.n in m' && m'[t.n] == Cell(t.red, Root(t.l), Root(t.r.l), t.r.n)
    requires t.r.n in m' && m'[t.r.n] == Cell(t.r.red, t.n, Root(t.r.r), Par(c))
    requires t.r.l.Node? ==> t.r.l.n in m && t.r.l.n in m' && m'[t.r.l.n] == m[t.r.l.n].(parent := t.n)
    requires Par(c) in m && Par(c) in m' && m'[Par(c)] == WithHole(m[Par(c)], c, t.r.n)
    requires forall n :: n in m && n !in {t.n, t.r.n, Root(t.r.l), Par(c)} ==> n in m' && m'[n] == m[n]
    requires NIL in m && NIL in m' && m'[NIL] == m[NIL]
    ensures At(m', pos, c, RotatedLeft(t))
  {
    CtxInterval(pos, c);
    var px, py, lo, hi := P(pos, t.n), P(pos, t.r.n), Lo(pos, c), Hi(pos, c);
    assert Rep(m, t.r, t.n) && Rep(m, t.r.l, t.r.n);
    assert Placed(pos, t.r, px, hi) && Placed(pos, t.r.l, px, py);
    assert Rep(m', t.r.l, t.n) by { Reparent(m, m', pos, t.r.l, t.r.n, t.n, px, py); }
    assert Rep(m', t.l, t.n) by { RepFrame(m, m', pos, t.l, t.n, lo, px, t.n); }
    assert Rep(m', t.r.r, t.r.n) by { RepFrame(m, m', pos, t.r.r, t.r.n, py, hi, t.r.n); }
    assert RepCtx(m', c, t.r.n) by { Rehole(m, m', pos, c, t.n, t.r.n); }
  }

  lemma RightRotateLocal(m: Store, pos: Pos, c: Ctx, t: Tree)
    requires At(m, pos, c, t) && t.Node? && t.l.Node?
    ensures t.n in m && t.l.n in m && Par(c) in m && NIL in m
    ensures t.n != t.l.n && Par(c) !in {t.n, t.l.n} && NIL !in {t.n, t.l.n, Par(c)}
    ensures m[t.n] == Cell(t.red, t.l.n, Root(t.r), Par(c))
    ensures m[t.l.n] == Cell(t.l.red, Root(t.l.l), Root(t.l.r), t.n)
    ensures t.l.r.Node? ==> t.l.r.n in m && t.l.r.n !in {t.n, t.l.n, Par(c), NIL}
    ensures t.n == m[Par(c)].left <==> c.Top? || c.side == L
  {
    CtxInterval(pos, c);
    assert Rep(m, t.l, t.n) && Rep(m, t.l.r, t.l.n);
    assert Placed(pos, t.l, Lo(pos, c), P(pos, t.n)) && Placed(pos, t.l.r, P(pos, t.l.n), P(pos, t.n));
  }

  lemma RightRotateAt(m: Store, m': Store, pos: Pos, c: Ctx, t: Tree)
    requires At(m, pos, c, t) && t.Node? && t.l.Node?
    requires t.n in m' && m'[t.n] == Cell(t.red, Root(t.l.r), Root(t.r), t.l.n)
    requires t.l.n in m' && m'[t.l.n] == Cell(t.l.red, Root(t.l.l), t.n, Par(c))
    requires t.l.r.Node? ==> t.l.r.n in m && t.l.r.n in m' && m'[t.l.r.n] == m[t.l.r.n].(parent := t.n)
    requires Par(c) in m && Par(c) in m' && m'[Par(c)] == WithHole(m[Par(c)], c, t.l.n)
    requires forall n :: n in m && n !in {t.n, t.l.n, Root(t.l.r), Par(c)} ==> n in m' && m'[n] == m[n]
    requires NIL in m && NIL in m' && m'[NIL] == m[NIL]
    ensures At(m', pos, c, RotatedRight(t))
  {
    CtxInterval(pos, c);
    var px, py, lo, hi := P(pos, t.n), P(pos, t.l.n), Lo(pos, c), Hi(pos, c);
    assert Rep(m, t.l, t.n) && Rep(m, t.l.r, t.l.n);
    assert Placed(pos, t.l, lo, px) && Placed(pos, t.l.r, py, px);
    assert Rep(m', t.l.r, t.n) by { Reparent(m, m', pos, t.l.r, t.l.n, t.n, py, px); }
    assert Rep(m', t.r, t.n) by { RepFrame(m, m', pos, t.r, t.n, px, hi, t.n); }
    assert Rep(m', t.l.l, t.l.n) by { RepFrame(m, m', pos, t.l.l, t.l.n, lo, py, t.l.n); }
    assert RepCtx(m', c, t.l.n) by { Rehole(m, m', pos, c, t.n, t.l.n); }
  }
}
