/** The node store of the red-black tree: nodes are cells reached through references, with the
    two sentinels of the source. A tree is described by a zipper (the context of a focus and the
    subtree at the focus) that the links in the store must follow. */
module RbStore {
  type Ref = int

  const NULL: Ref := -1
  const ROOT: Ref := 0
  const NIL: Ref := 1

  datatype Cell = Cell(red: bool, left: Ref, right: Ref, parent: Ref)
  type Store = map<Ref, Cell>

  /** A ghost place on the real line for every node of the tree. In-order neighbours have
      increasing places, so intervals of places say which cells a subtree may use. */
  type Pos = map<Ref, real>

  datatype Side = L | R
  datatype Tree = Leaf | Node(l: Tree, red: bool, n: Ref, r: Tree)
  datatype Ctx = Top | In(side: Side, up: Ctx, red: bool, n: Ref, sib: Tree)

  function Root(t: Tree): Ref {
    if t.Leaf? then NIL else t.n
  }

  function Par(c: Ctx): Ref {
    if c.Top? then ROOT else c.n
  }

  function Join(side: Side, t: Tree, red: bool, n: Ref, sib: Tree): Tree {
    if side == L then Node(t, red, n, sib) else Node(sib, red, n, t)
  }

  // ----- places -----

  ghost function P(pos: Pos, n: Ref): real {
    if n in pos then pos[n] else 0.0
  }

  ghost function Lo(pos: Pos, c: Ctx): real {
    if c.Top? then 0.0 else if c.side == L then Lo(pos, c.up) else P(pos, c.n)
  }

  ghost function Hi(pos: Pos, c: Ctx): real {
    if c.Top? then 1.0 else if c.side == R then Hi(pos, c.up) else P(pos, c.n)
  }

  ghost predicate Placed(pos: Pos, t: Tree, lo: real, hi: real) {
    t.Node? ==> (
      && lo < P(pos, t.n) < hi
      && Placed(pos, t.l, lo, P(pos, t.n)) && Placed(pos, t.r, P(pos, t.n), hi))
  }

  ghost predicate PlacedCtx(pos: Pos, c: Ctx) {
    c.In? ==> (
      && Lo(pos, c.up) < P(pos, c.n) < Hi(pos, c.up)
      && PlacedCtx(pos, c.up)
      && (if c.side == L then Placed(pos, c.sib, P(pos, c.n), Hi(pos, c.up))
          else Placed(pos, c.sib, Lo(pos, c.up), P(pos, c.n))))
  }

  lemma {:induction false} CtxInterval(pos: Pos, c: Ctx)
    requires PlacedCtx(pos, c)
    ensures 0.0 <= Lo(pos, c) < Hi(pos, c) <= 1.0
    ensures c.In? ==> 0.0 < P(pos, c.n) == (if c.side == L then Hi(pos, c) else Lo(pos, c))
    ensures c.In? ==> 0.0 <= Lo(pos, c.up) < P(pos, c.n) < Hi(pos, c.up) <= 1.0
  {
    if c.In? {
      CtxInterval(pos, c.up);
    }
  }

  // ----- links -----

  ghost predicate Rep(m: Store, t: Tree, p: Ref) {
    t.Node? ==> (
      && t.n in m && m[t.n] == Cell(t.red, Root(t.l), Root(t.r), p)
      && Rep(m, t.l, t.n) && Rep(m, t.r, t.n))
  }

  ghost predicate RepCtx(m: Store, c: Ctx, hole: Ref) {
    match c
    case Top => ROOT in m && m[ROOT].left == hole && m[ROOT].right == NIL && !m[ROOT].red
    case In(side, up, red, n, sib) =>
      && n in m
      && m[n] == (if side == L then Cell(red, hole, Root(sib), Par(up)) else Cell(red, Root(sib), hole, Par(up)))
      && Rep(m, sib, n) && RepCtx(m, up, n)
  }

  /** The store holds the tree with subtree t in context c. */
  ghost predicate At(m: Store, pos: Pos, c: Ctx, t: Tree) {
    && NIL in m && !m[NIL].red && P(pos, ROOT) == 0.0 && P(pos, NIL) == 0.0
    && PlacedCtx(pos, c) && Placed(pos, t, Lo(pos, c), Hi(pos, c))
    && RepCtx(m, c, Root(t)) && Rep(m, t, Par(c))
  }

  // ----- frames -----

  ghost predicate SameInside(m: Store, m': Store, pos: Pos, lo: real, hi: real, but: Ref) {
    forall n :: n in m && lo < P(pos, n) < hi && n != but ==> n in m' && m'[n] == m[n]
  }

  ghost predicate SameOutside(m: Store, m': Store, pos: Pos, c: Ctx, but: Ref) {
    forall n :: n in m && (n == ROOT || 0.0 < P(pos, n) <= Lo(pos, c) || Hi(pos, c) <= P(pos, n)) && n != but ==>
      n in m' && m'[n] == m[n]
  }

  lemma {:induction false} RepFrame(m: Store, m': Store, pos: Pos, t: Tree, p: Ref, lo: real, hi: real, but: Ref)
    requires Rep(m, t, p) && Placed(pos, t, lo, hi)
    requires SameInside(m, m', pos, lo, hi, but)
    requires !(lo < P(pos, but) < hi)
    ensures Rep(m', t, p)
  {
    if t.Node? {
      RepFrame(m, m', pos, t.l, t.n, lo, P(pos, t.n), but);
      RepFrame(m, m', pos, t.r, t.n, P(pos, t.n), hi, but);
    }
  }

  lemma {:induction false} RepCtxFrame(m: Store, m': Store, pos: Pos, c: Ctx, hole: Ref)
    requires RepCtx(m, c, hole) && PlacedCtx(pos, c) && P(pos, ROOT) == 0.0
    requires SameOutside(m, m', pos, c, NIL) && P(pos, NIL) == 0.0
    ensures RepCtx(m', c, hole)
  {
    CtxInterval(pos, c);
    if c.In? {
      SiblingFrame(m, m', pos, c, NIL);
      RepCtxFrame(m, m', pos, c.up, c.n);
    }
  }

  lemma SiblingFrame(m: Store, m': Store, pos: Pos, c: Ctx, but: Ref)
    requires c.In? && Rep(m, c.sib, c.n) && PlacedCtx(pos, c)
    requires SameOutside(m, m', pos, c, but) && but in {c.n, NIL} && P(pos, NIL) == 0.0
    ensures Rep(m', c.sib, c.n)
  {
    CtxInterval(pos, c);
    if c.side == L {
      RepFrame(m, m', pos, c.sib, c.n, P(pos, c.n), Hi(pos, c.up), but);
    } else {
      RepFrame(m, m', pos, c.sib, c.n, Lo(pos, c.up), P(pos, c.n), but);
    }
  }

  // Only the parent link of the root of t changes, from p to q.
  lemma Reparent(m: Store, m': Store, pos: Pos, t: Tree, p: Ref, q: Ref, lo: real, hi: real)
    requires Rep(m, t, p) && Placed(pos, t, lo, hi)
    requires t.Node? ==> t.n in m' && m'[t.n] == m[t.n].(parent := q)
    requires SameInside(m, m', pos, lo, hi, Root(t))
    ensures Rep(m', t, q)
  {
    if t.Node? {
      RepFrame(m, m', pos, t.l, t.n, lo, P(pos, t.n), t.n);
      RepFrame(m, m', pos, t.r, t.n, P(pos, t.n), hi, t.n);
    }
  }

  function WithHole(cell: Cell, c: Ctx, hole: Ref): Cell {
    if c.Top? || c.side == L then cell.(left := hole) else cell.(right := hole)
  }

  // Only the link to the hole changes, in the innermost context node or in the root sentinel.
  lemma Rehole(m: Store, m': Store, pos: Pos, c: Ctx, hole: Ref, hole': Ref)
    requires RepCtx(m, c, hole) && PlacedCtx(pos, c) && P(pos, ROOT) == 0.0 && P(pos, NIL) == 0.0
    requires Par(c) in m && Par(c) in m' && m'[Par(c)] == WithHole(m[Par(c)], c, hole')
    requires SameOutside(m, m', pos, c, Par(c))
    ensures RepCtx(m', c, hole')
  {
    CtxInterval(pos, c);
    if c.In? {
      SiblingFrame(m, m', pos, c, c.n);
      RepCtxFrame(m, m', pos, c.up, c.n);
    }
  }

  // ----- moving the focus -----

  lemma Zoom(m: Store, pos: Pos, c: Ctx, t: Tree)
    requires c.In?
    ensures At(m, pos, c, t) <==> At(m, pos, c.up, Join(c.side, t, c.red, c.n, c.sib))
  {
  }

  function Other(s: Side): Side {
    if s == L then R else L
  }

  // From a subtree to its sibling.
  function Across(c: Ctx, t: Tree): Ctx
    requires c.In?
  {
    In(Other(c.side), c.up, c.red, c.n, t)
  }

  lemma Swing(m: Store, pos: Pos, c: Ctx, t: Tree)
    requires c.In?
    ensures At(m, pos, c, t) <==> At(m, pos, Across(c, t), c.sib)
  {
    Zoom(m, pos, c, t);
    Zoom(m, pos, Across(c, t), c.sib);
  }

  lemma {:induction false} RootSentinel(m: Store, c: Ctx, hole: Ref)
    requires RepCtx(m, c, hole)
    ensures ROOT in m && !m[ROOT].red && m[ROOT].right == NIL
  {
    if c.In? {
      RootSentinel(m, c.up, c.n);
    }
  }

  // Around the focus, the links can be followed.
  lemma Local(m: Store, pos: Pos, c: Ctx, t: Tree)
    requires At(m, pos, c, t)
    ensures Root(t) in m && Par(c) in m && NIL in m && !m[NIL].red
    ensures c.Top? ==> !m[ROOT].red
    ensures t.Node? ==> m[t.n] == Cell(t.red, Root(t.l), Root(t.r), Par(c)) && t.n !in {ROOT, NIL}
    ensures t.Node? ==> Root(t.l) in m && Root(t.r) in m
    ensures c.In? ==> m[c.n].red == c.red && m[c.n].parent == Par(c.up) && c.n !in {ROOT, NIL} && Par(c.up) in m
    ensures c.In? ==> Root(c.sib) in m
    ensures c.In? && c.side == L ==> m[c.n].left == Root(t) && m[c.n].right == Root(c.sib)
    ensures c.In? && c.side == R ==> m[c.n].right == Root(t) && m[c.n].left == Root(c.sib)
    ensures c.In? && t.Node? ==> c.n != t.n
    ensures c.In? && t.Node? ==> (t.n == m[c.n].left <==> c.side == L) && (t.n == m[c.n].right <==> c.side == R)
    ensures c.Top? ==> m[ROOT].left == Root(t)
  {
    CtxInterval(pos, c);
    if t.Node? {
      assert Rep(m, t.l, t.n) && Rep(m, t.r, t.n);
    }
    if c.In? {
      assert RepCtx(m, c.up, c.n) && Rep(m, c.sib, c.n);
      assert c.sib.Node? && t.Node? ==> c.sib.n != t.n;
    }
  }

  // The colours of the two children can be read off the store.
  lemma ChildColours(m: Store, pos: Pos, c: Ctx, t: Tree)
    requires At(m, pos, c, t) && t.Node?
    ensures t.n in m && m[t.n].left in m && m[t.n].right in m
    ensures m[t.n].left == Root(t.l) && m[t.n].right == Root(t.r)
    ensures m[m[t.n].left].red == (t.l.Node? && t.l.red) && m[m[t.n].right].red == (t.r.Node? && t.r.red)
    ensures m[t.n].left == NIL <==> t.l.Leaf?
    ensures m[t.n].right == NIL <==> t.r.Leaf?
  {
    CtxInterval(pos, c);
    assert Rep(m, t.l, t.n) && Rep(m, t.r, t.n);
    assert Placed(pos, t.l, Lo(pos, c), P(pos, t.n)) && Placed(pos, t.r, P(pos, t.n), Hi(pos, c));
  }

  // The cell at the focus changes colour.
  lemma Recolor(m: Store, m': Store, pos: Pos, c: Ctx, t: Tree, red: bool)
    requires At(m, pos, c, t) && t.Node?
    requires t.n in m && m' == m[t.n := m[t.n].(red := red)]
    ensures At(m', pos, c, t.(red := red))
  {
    CtxInterval(pos, c);
    RepFrame(m, m', pos, t.l, t.n, Lo(pos, c), P(pos, t.n), t.n);
    RepFrame(m, m', pos, t.r, t.n, P(pos, t.n), Hi(pos, c), t.n);
    RepCtxFrame(m, m', pos, c, t.n);
  }
}
