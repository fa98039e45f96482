/** The red-black tree itself: the links are rewritten in place, ghost zippers say which tree they describe, and a
    ghost tree gives the in-order sequence of nodes. */
module RbTree {
  import opened Sequences
  import opened RbStore
  import opened RbBalance
  import opened RbRotate
  import opened RbSplice
  import opened RbKeys

  function Compare(a: int, b: int): int {
    if a > b then 1 else if a < b then -1 else 0
  }

  function InitialCell(n: Ref): Cell {
    if n == ROOT || n == NIL then Cell(false, NIL, NIL, NIL) else Cell(false, NULL, NULL, NULL)
  }

  function Reversed(s: seq<Ref>): seq<Ref> {
    if s == [] then [] else Reversed(s[1..]) + [s[0]]
  }

  function Inserted(s: seq<Ref>, i: int, x: Ref): seq<Ref>
    requires 0 <= i <= |s|
  {
    s[..i] + [x] + s[i..]
  }

  /** Where the deletion loop stands: still short at a zipper, or finished with a whole tree. */
  datatype Fixing = Shorter(c: Ctx, t: Tree, h: nat) | Done(whole: Tree)

  function Measure(s: Fixing): nat {
    if s.Done? || Red(s.t) then 0 else 1 + Depth(s.c)
  }

  // The deletion loop ends at a red focus, which turns black, or at the cached root.
  lemma LastColour(m: Store, m': Store, pos: Pos, x: Ref, root: Ref, c: Ctx, t: Tree, h: nat) returns (whole: Tree)
    requires At(m, pos, c, t) && Root(t) == x && x in m && Short(c, t, h)
    requires Red(t) || (root == Root(Fill(c, t)) && root == x)
    requires m' == m[x := m[x].(red := false)]
    ensures At(m', pos, Top, whole) && Balanced(whole) && InOrder(whole) == Order(c, t)
  {
    var t' := if t.Leaf? then t else t.(red := false);
    if t.Node? {
      Recolor(m, m', pos, c, t, false);
    } else {
      assert m' == m;
    }
    if !Red(t) && c.In? {
      AtFill(m, pos, c, t);
      FilledRootIsNotHole(m, pos, c, t);
    }
    assert InOrder(t') == InOrder(t);
    assert Red(t) ==> BalAt(c, t', h + 1);
    assert c.Top? && !Red(t) ==> BalAt(c, t', h);
    BalFill(c, t', if Red(t) then h + 1 else h);
    AtFill(m', pos, c, t');
    OrderFill(c, t');
    whole := Fill(c, t');
  }

  class RbTree {
    // node links, node keys, the pool of unused nodes
    var mem: Store
    var key: Keys
    var free: seq<Ref>

    var minNode: Ref
    var maxNode: Ref
    var lastNode: Ref
    var numNodes: nat

    ghost var pos: Pos
    ghost var tree: Tree

    /** The nodes of the tree in order. */
    ghost function Contents(): seq<Ref>
      reads this
    {
      InOrder(tree)
    }

    ghost predicate PoolOk()
      reads this
    {
      && (forall i :: 0 <= i < |free| ==> free[i] in mem && free[i] !in {NULL, ROOT, NIL} && P(pos, free[i]) == 0.0)
      && (forall i, j :: 0 <= i < j < |free| ==> free[i] != free[j])
    }

    /** Red-black, consistently linked, sorted by key, and apart from the unused nodes. */
    ghost predicate Valid()
      reads this
    {
      && At(mem, pos, Top, tree) && Balanced(tree)
      && Sorted(key, Contents()) && numNodes == |Contents()|
      && PoolOk() && NULL !in mem
    }

    /** The cached maximum is the last node and the last inserted node is in the tree. */
    ghost predicate FingersOk()
      reads this
    {
      && Contents() != [] && maxNode == Contents()[|Contents()| - 1]
      && lastNode in Contents()
    }

    /** The cached minimum is the first node. */
    ghost predicate MinOk()
      reads this
    {
      if Contents() == [] then minNode in {NULL, NIL} else minNode == Contents()[0]
    }

    // The constructor follows RBTreeCreate with maxsize + 1 pooled nodes.
    constructor (maxSize: nat)
      ensures Valid() && Contents() == [] && MinOk() && |free| == maxSize + 1 && maxNode == NULL
    {
      mem := map n | NULL < n < maxSize + 3 :: InitialCell(n);
      key := map[];
      free := seq(maxSize + 1, i => i + 2);
      minNode, maxNode, lastNode, numNodes := NULL, NULL, NULL, 0;
      pos := map[];
      tree := Leaf;
      new;
      assert Bal(Leaf, 0);
    }

    ghost predicate DeleteFix(x: Ref, c: Ctx, t: Tree, h: nat)
      reads this
    {
      At(mem, pos, c, t) && Root(t) == x && x in mem && mem[x].parent == Par(c) && Short(c, t, h)
    }

    ghost predicate Fixes(x: Ref, r0: Ref, s: Fixing, order: seq<Ref>)
      reads this
    {
      match s
      case Shorter(c, t, h) =>
        DeleteFix(x, c, t, h) && Order(c, t) == order && (Red(t) || r0 == Root(Fill(c, t)))
      case Done(whole) =>
        && x == r0 && r0 in mem && !mem[r0].red
        && At(mem, pos, Top, whole) && Balanced(whole) && InOrder(whole) == order
    }

    ghost predicate InsertFix(x: Ref, c: Ctx, t: Tree, h: nat)
      reads this
    {
      At(mem, pos, c, t) && Red(t) && t.n == x && Bal(t, h) && BalCtx(c, h)
    }

    method LeftRotate(x: Ref, ghost c: Ctx, ghost t: Tree)
      requires At(mem, pos, c, t) && t.Node? && t.r.Node? && t.n == x
      modifies this`mem
      ensures At(mem, pos, c, RotatedLeft(t))
      ensures mem.Keys == old(mem.Keys) && mem[NIL] == old(mem[NIL])
    {
      hide At;
      ghost var m0 := mem;
      LeftRotateLocal(m0, pos, c, t);
      var y := mem[x].right;
      mem := mem[x := mem[x].(right := mem[y].left)];
      if mem[y].left != NIL {
        mem := mem[mem[y].left := mem[mem[y].left].(parent := x)];
      }
      mem := mem[y := mem[y].(parent := mem[x].parent)];
      if x == mem[mem[x].parent].left {
        mem := mem[mem[x].parent := mem[mem[x].parent].(left := y)];
      } else {
        mem := mem[mem[x].parent := mem[mem[x].parent].(right := y)];
      }
      mem := mem[y := mem[y].(left := x)];
      mem := mem[x := mem[x].(parent := y)];
      LeftRotateAt(m0, mem, pos, c, t);
    }

    method RightRotate(y: Ref, ghost c: Ctx, ghost t: Tree)
      requires At(mem, pos, c, t) && t.Node? && t.l.Node? && t.n == y
      modifies this`mem
      ensures At(mem, pos, c, RotatedRight(t))
      ensures mem.Keys == old(mem.Keys) && mem[NIL] == old(mem[NIL])
    {
      hide At;
      ghost var m0 := mem;
      RightRotateLocal(m0, pos, c, t);
      var x := mem[y].left;
      mem := mem[y := mem[y].(left := mem[x].right)];
      if NIL != mem[x].right {
        mem := mem[mem[x].right := mem[mem[x].right].(parent := y)];
      }
      mem := mem[x := mem[x].(parent := mem[y].parent)];
      if y == mem[mem[y].parent].left {
        mem := mem[mem[y].parent := mem[mem[y].parent].(left := x)];
      } else {
        mem := mem[mem[y].parent := mem[mem[y].parent].(right := x)];
      }
      mem := mem[x := mem[x].(right := y)];
      mem := mem[y := mem[y].(parent := x)];
      RightRotateAt(m0, mem, pos, c, t);
    }

    method SetRed(n: Ref, red: bool, ghost c: Ctx, ghost t: Tree)
      requires At(mem, pos, c, t) && t.Node? && t.n == n
      modifies this`mem
      ensures At(mem, pos, c, t.(red := red))
      ensures mem.Keys == old(mem.Keys) && mem[NIL] == old(mem[NIL])
    {
      Local(mem, pos, c, t);
      Recolor(mem, mem[n := mem[n].(red := red)], pos, c, t, red);
      mem := mem[n := mem[n].(red := red)];
    }

    // The uncle y of x is red: parent and uncle become black, the grandparent red.
    method RecolorUncle(x: Ref, y: Ref, ghost c: Ctx, ghost t: Tree) returns (g: Ref)
      requires At(mem, pos, c, t) && t.Node? && t.n == x
      requires c.In? && c.up.In? && c.up.sib.Node? && c.up.sib.n == y
      modifies this`mem
      ensures At(mem, pos, c.up.up,
        Join(c.up.side, Join(c.side, t, false, c.n, c.sib), true, c.up.n, c.up.sib.(red := false)))
      ensures g == c.up.n
      ensures mem.Keys == old(mem.Keys)
    {
      ghost var parent := Join(c.side, t, c.red, c.n, c.sib);
      Local(mem, pos, c, t);
      Zoom(mem, pos, c, t);
      g := mem[mem[x].parent].parent;
      SetRed(mem[x].parent, false, c.up, parent);
      parent := parent.(red := false);
      Swing(mem, pos, c.up, parent);
      SetRed(y, false, Across(c.up, parent), c.up.sib);
      ghost var c' := Across(c.up, parent);
      ghost var grand := Join(c'.side, c.up.sib.(red := false), c'.red, c'.n, c'.sib);
      Zoom(mem, pos, c', c.up.sib.(red := false));
      SetRed(g, true, c.up.up, grand);
    }

    // x and its parent are left children: recolour and rotate the grandparent.
    method InsertOuterLeft(x: Ref, ghost c: Ctx, ghost t: Tree, ghost h: nat)
      returns (ghost c': Ctx, ghost t': Tree, ghost h': nat)
      requires InsertFix(x, c, t, h) && c.In? && c.red && c.side == L && c.up.side == L && !Red(c.up.sib)
      modifies this`mem
      ensures InsertFix(x, c', t', h') && mem.Keys == old(mem.Keys)
      ensures Order(c', t') == Order(c, t) && Depth(c') < Depth(c)
    {
      Local(mem, pos, c, t);
      ghost var parent := Node(t, true, c.n, c.sib);
      Zoom(mem, pos, c, t);
      OrderZoom(c, t);
      Local(mem, pos, c.up, parent);
      var p := mem[x].parent;
      var g := mem[p].parent;
      SetRed(p, false, c.up, parent);
      parent := parent.(red := false);
      Zoom(mem, pos, c.up, parent);
      OrderZoom(c.up, parent);
      ghost var grand := Node(parent, false, c.up.n, c.up.sib);
      SetRed(g, true, c.up.up, grand);
      grand := grand.(red := true);
      RightRotate(g, c.up.up, grand);
      RotationKeepsOrder(grand);
      c', t', h' := In(L, c.up.up, false, c.n, Node(c.sib, true, c.up.n, c.up.sib)), t, h;
      Zoom(mem, pos, c', t');
      OrderZoom(c', t');
      InsertOuterBal(c, h);
    }

    // One turn of the loop in RBTreeInsert when the parent of x is a left child.
    method InsertFixLeft(x: Ref, ghost c: Ctx, ghost t: Tree, ghost h: nat)
      returns (x': Ref, ghost c': Ctx, ghost t': Tree, ghost h': nat)
      requires InsertFix(x, c, t, h) && c.In? && c.red && c.up.side == L
      modifies this`mem
      ensures InsertFix(x', c', t', h') && mem.Keys == old(mem.Keys)
      ensures Order(c', t') == Order(c, t) && Depth(c') < Depth(c)
    {
      Local(mem, pos, c, t);
      ghost var parent := Join(c.side, t, c.red, c.n, c.sib);
      Zoom(mem, pos, c, t);
      OrderZoom(c, t);
      Local(mem, pos, c.up, parent);
      OrderZoom(c.up, parent);
      var y := mem[mem[mem[x].parent].parent].right;
      if mem[y].red {
        x' := RecolorUncle(x, y, c, t);
        c', t', h' := c.up.up, Node(parent.(red := false), true, c.up.n, c.up.sib.(red := false)), h + 1;
        InsertRecolorBal(c, t, h);
        assert InOrder(t'.l) == InOrder(parent) && InOrder(t'.r) == InOrder(c.up.sib);
      } else {
        ghost var c1, t1 := c, t;
        x' := x;
        if x == mem[mem[x].parent].right {
          x' := mem[x].parent;
          LeftRotate(x', c.up, parent);
          RotationKeepsOrder(parent);
          c1, t1 := In(L, c.up, true, t.n, t.r), Node(c.sib, true, c.n, t.l);
          Zoom(mem, pos, c1, t1);
          OrderZoom(c1, t1);
          InsertInnerBal(c, t, h);
        }
        c', t', h' := InsertOuterLeft(x', c1, t1, h);
      }
    }

    // x and its parent are right children: recolour and rotate the grandparent.
    method InsertOuterRight(x: Ref, ghost c: Ctx, ghost t: Tree, ghost h: nat)
      returns (ghost c': Ctx, ghost t': Tree, ghost h': nat)
      requires InsertFix(x, c, t, h) && c.In? && c.red && c.side == R && c.up.side == R && !Red(c.up.sib)
      modifies this`mem
      ensures InsertFix(x, c', t', h') && mem.Keys == old(mem.Keys)
      ensures Order(c', t') == Order(c, t) && Depth(c') < Depth(c)
    {
      Local(mem, pos, c, t);
      ghost var parent := Node(c.sib, true, c.n, t);
      Zoom(mem, pos, c, t);
      OrderZoom(c, t);
      Local(mem, pos, c.up, parent);
      var p := mem[x].parent;
      var g := mem[p].parent;
      SetRed(p, false, c.up, parent);
      parent := parent.(red := false);
      Zoom(mem, pos, c.up, parent);
      OrderZoom(c.up, parent);
      ghost var grand := Node(c.up.sib, false, c.up.n, parent);
      SetRed(g, true, c.up.up, grand);
      grand := grand.(red := true);
      LeftRotate(g, c.up.up, grand);
      RotationKeepsOrder(grand);
      c', t', h' := In(R, c.up.up, false, c.n, Node(c.up.sib, true, c.up.n, c.sib)), t, h;
      Zoom(mem, pos, c', t');
      OrderZoom(c', t');
      InsertOuterBal(c, h);
    }

    // One turn of the loop in RBTreeInsert when the parent of x is a right child.
    method InsertFixRight(x: Ref, ghost c: Ctx, ghost t: Tree, ghost h: nat)
      returns (x': Ref, ghost c': Ctx, ghost t': Tree, ghost h': nat)
      requires InsertFix(x, c, t, h) && c.In? && c.red && c.up.side == R
      modifies this`mem
      ensures InsertFix(x', c', t', h') && mem.Keys == old(mem.Keys)
      ensures Order(c', t') == Order(c, t) && Depth(c') < Depth(c)
    {
      Local(mem, pos, c, t);
      ghost var parent := Join(c.side, t, c.red, c.n, c.sib);
      Zoom(mem, pos, c, t);
      OrderZoom(c, t);
      Local(mem, pos, c.up, parent);
      OrderZoom(c.up, parent);
      var y := mem[mem[mem[x].parent].parent].left;
      if mem[y].red {
        x' := RecolorUncle(x, y, c, t);
        c', t', h' := c.up.up, Node(c.up.sib.(red := false), true, c.up.n, parent.(red := false)), h + 1;
        InsertRecolorBal(c, t, h);
        assert InOrder(t'.r) == InOrder(parent) && InOrder(t'.l) == InOrder(c.up.sib);
      } else {
        ghost var c1, t1 := c, t;
        x' := x;
        if x == mem[mem[x].parent].left {
          x' := mem[x].parent;
          RightRotate(x', c.up, parent);
          RotationKeepsOrder(parent);
          c1, t1 := In(R, c.up, true, t.n, t.l), Node(t.r, true, c.n, c.sib);
          Zoom(mem, pos, c1, t1);
          OrderZoom(c1, t1);
          InsertInnerBal(c, t, h);
        }
        c', t', h' := InsertOuterRight(x', c1, t1, h);
      }
    }

    // The loop of RBTreeInsert and the final blackening of the root.
    method InsertFixUp(z: Ref, ghost c0: Ctx, ghost t0: Tree, ghost h0: nat) returns (ghost whole: Tree)
      requires InsertFix(z, c0, t0, h0)
      modifies this`mem
      ensures At(mem, pos, Top, whole) && Balanced(whole) && InOrder(whole) == Order(c0, t0)
      ensures mem.Keys == old(mem.Keys)
    {
      var x := z;
      ghost var c, t, h := c0, t0, h0;
      Local(mem, pos, c, t);
      while mem[mem[x].parent].red
        invariant InsertFix(x, c, t, h) && Order(c, t) == Order(c0, t0)
        invariant x in mem && mem[x].parent == Par(c) && Par(c) in mem && mem[Par(c)].red == (c.In? && c.red)
        invariant mem.Keys == old(mem.Keys)
        decreases Depth(c)
      {
        Zoom(mem, pos, c, t);
        Local(mem, pos, c.up, Join(c.side, t, c.red, c.n, c.sib));
        if mem[x].parent == mem[mem[mem[x].parent].parent].left {
          x, c, t, h := InsertFixLeft(x, c, t, h);
        } else {
          x, c, t, h := InsertFixRight(x, c, t, h);
        }
        Local(mem, pos, c, t);
      }
      whole := Fill(c, t);
      AtFill(mem, pos, c, t);
      OrderFill(c, t);
      FillNode(c, t);
      Local(mem, pos, Top, whole);
      SetRed(mem[ROOT].left, false, Top, whole);
      if c.Top? {
        assert Bal(t.(red := false), h + 1);
      } else {
        BalFill(c, t, h);
      }
      whole := whole.(red := false);
    }

    // Both children of the sibling w are black: w becomes red and the shortage moves to the parent.
    method BlackNephews(x: Ref, w: Ref, ghost c: Ctx, ghost t: Tree, ghost h: nat)
      returns (x': Ref, ghost t': Tree)
      requires DeleteFix(x, c, t, h) && c.In? && !Red(t)
      requires c.sib.Node? && c.sib.n == w && !c.sib.red && !Red(c.sib.l) && !Red(c.sib.r)
      modifies this`mem
      ensures t' == Join(c.side, t, c.red, c.n, c.sib.(red := true))
      ensures DeleteFix(x', c.up, t', Rise(c.red, h)) && Order(c.up, t') == Order(c, t)
      ensures mem.Keys == old(mem.Keys)
    {
      ShortUp(c, t, h);
      Local(mem, pos, c, t);
      Swing(mem, pos, c, t);
      SetRed(w, true, Across(c, t), c.sib);
      ghost var c1 := c.(sib := c.sib.(red := true));
      Swing(mem, pos, c1, t);
      Zoom(mem, pos, c1, t);
      OrderZoom(c1, t);
      OrderZoom(c, t);
      assert InOrder(c1.sib) == InOrder(c.sib);
      x' := mem[x].parent;
      t' := Join(c.side, t, c.red, c.n, c1.sib);
      Local(mem, pos, c.up, t');
    }

    // The sibling w of x is red: it becomes black and is rotated above the parent.
    method RedSiblingLeft(x: Ref, w: Ref, ghost c: Ctx, ghost t: Tree, ghost h: nat)
      returns (ghost c': Ctx)
      requires DeleteFix(x, c, t, h) && c.In? && c.side == L && Red(c.sib) && c.sib.n == w
      modifies this`mem
      ensures c' == In(L, In(L, c.up, false, c.sib.n, c.sib.r), true, c.n, c.sib.l)
      ensures DeleteFix(x, c', t, h) && !Red(c'.sib) && Order(c', t) == Order(c, t)
      ensures mem.Keys == old(mem.Keys)
    {
      SiblingIsNode(c, t, h);
      ShortRedSibling(c, t, h);
      Local(mem, pos, c, t);
      Swing(mem, pos, c, t);
      SetRed(w, false, Across(c, t), c.sib);
      ghost var w1 := c.sib.(red := false);
      ghost var c1 := c.(sib := w1);
      Swing(mem, pos, c1, t);
      Zoom(mem, pos, c1, t);
      ghost var p1 := Node(t, c.red, c.n, w1);
      SetRed(mem[x].parent, true, c.up, p1);
      p1 := p1.(red := true);
      Zoom(mem, pos, c1.(red := true), t);
      Local(mem, pos, c1.(red := true), t);
      LeftRotate(mem[x].parent, c.up, p1);
      c' := In(L, In(L, c.up, false, c.sib.n, c.sib.r), true, c.n, c.sib.l);
      ghost var pt := Node(t, true, c.n, c.sib.l);
      Zoom(mem, pos, c'.up, pt);
      Zoom(mem, pos, c', t);
      OrderZoom(c', t);
      OrderZoom(c'.up, pt);
      OrderZoom(c, t);
      RotationKeepsOrder(p1);
      assert InOrder(w1) == InOrder(c.sib);
      Local(mem, pos, c', t);
    }

    // Only the near child of the sibling w is red: it is rotated above w.
    method NearNephewLeft(x: Ref, w: Ref, ghost c: Ctx, ghost t: Tree, ghost h: nat)
      returns (ghost c': Ctx)
      requires DeleteFix(x, c, t, h) && c.In? && c.side == L
      requires c.sib.Node? && c.sib.n == w && !c.sib.red && Red(c.sib.l) && !Red(c.sib.r)
      modifies this`mem
      ensures c' == c.(sib := Node(c.sib.l.l, false, c.sib.l.n, Node(c.sib.l.r, true, c.sib.n, c.sib.r)))
      ensures DeleteFix(x, c', t, h) && Order(c', t) == Order(c, t)
      ensures mem.Keys == old(mem.Keys)
    {
      ShortNear(c, t, h);
      Local(mem, pos, c, t);
      Swing(mem, pos, c, t);
      ghost var cw := Across(c, t);
      ghost var w1 := c.sib;
      Local(mem, pos, cw, w1);
      Zoom(mem, pos, In(L, cw, w1.red, w1.n, w1.r), w1.l);
      SetRed(mem[w].left, false, In(L, cw, w1.red, w1.n, w1.r), w1.l);
      w1 := w1.(l := w1.l.(red := false));
      Zoom(mem, pos, In(L, cw, w1.red, w1.n, w1.r), w1.l);
      SetRed(w, true, cw, w1);
      w1 := w1.(red := true);
      RightRotate(w, cw, w1);
      c' := c.(sib := RotatedRight(w1));
      Swing(mem, pos, c', t);
      RotationKeepsOrder(w1);
      assert InOrder(w1.l) == InOrder(c.sib.l);
      assert InOrder(w1) == InOrder(c.sib);
      Local(mem, pos, c', t);
    }

    // The far child of the sibling w is red: one rotation of the parent ends the shortage.
    method FarNephewLeft(x: Ref, w: Ref, ghost c: Ctx, ghost t: Tree, ghost h: nat)
      returns (ghost t': Tree)
      requires DeleteFix(x, c, t, h) && c.In? && c.side == L && !Red(t)
      requires c.sib.Node? && c.sib.n == w && !c.sib.red && Red(c.sib.r)
      modifies this`mem
      ensures At(mem, pos, c.up, t') && BalAt(c.up, t', Rise(c.red, h + 1)) && Order(c.up, t') == Order(c, t)
      ensures c.n in mem && !mem[c.n].red && t'.Node?
      ensures mem.Keys == old(mem.Keys)
    {
      ShortFar(c, t, h);
      Local(mem, pos, c, t);
      Swing(mem, pos, c, t);
      ghost var cw := Across(c, t);
      ghost var w1 := c.sib;
      Local(mem, pos, cw, w1);
      var p := mem[x].parent;
      SetRed(w, mem[p].red, cw, w1);
      w1 := w1.(red := c.red);
      FarNephewRestLeft(x, w, c, t, w1);
      ghost var p1 := Node(t, false, c.n, w1.(r := w1.r.(red := false)));
      LeftRotate(p, c.up, p1);
      t' := RotatedLeft(p1);
      RotationKeepsOrder(p1);
      OrderZoom(c, t);
      assert InOrder(p1.r) == InOrder(c.sib) by { assert InOrder(p1.r.r) == InOrder(c.sib.r); }
      Zoom(mem, pos, In(L, c.up, t'.red, t'.n, t'.r), t'.l);
      Local(mem, pos, In(L, c.up, t'.red, t'.n, t'.r), t'.l);
    }

    method FarNephewRestLeft(x: Ref, w: Ref, ghost c: Ctx, ghost t: Tree, ghost w1: Tree)
      requires c.In? && c.side == L && At(mem, pos, Across(c, t), w1) && w1.Node? && Red(w1.r)
      requires x in mem && mem[x].parent == c.n && x == Root(t) && w == w1.n
      modifies this`mem
      ensures At(mem, pos, c.up, Node(t, false, c.n, w1.(r := w1.r.(red := false))))
      ensures mem.Keys == old(mem.Keys) && mem[NIL] == old(mem[NIL])
    {
      ghost var cw := Across(c, t);
      Zoom(mem, pos, cw, w1);
      Local(mem, pos, cw, w1);
      SetRed(mem[x].parent, false, c.up, Node(t, c.red, c.n, w1));
      ghost var cw1 := cw.(red := false);
      Zoom(mem, pos, cw1, w1);
      Local(mem, pos, cw1, w1);
      ghost var cr := In(R, cw1, w1.red, w1.n, w1.l);
      Zoom(mem, pos, cr, w1.r);
      SetRed(mem[w].right, false, cr, w1.r);
      Zoom(mem, pos, cr, w1.r.(red := false));
      Zoom(mem, pos, cw1, w1.(r := w1.r.(red := false)));
    }

    // A nephew is red: up to two rotations end the loop, and x is set to the cached root r0.
    method RedNephewLeft(x: Ref, w0: Ref, r0: Ref, ghost c0: Ctx, ghost t: Tree, ghost h: nat)
      returns (ghost whole: Tree)
      requires DeleteFix(x, c0, t, h) && c0.In? && c0.side == L && !Red(t)
      requires c0.sib.Node? && c0.sib.n == w0 && !c0.sib.red && (Red(c0.sib.l) || Red(c0.sib.r))
      requires r0 == c0.n || r0 == Root(Fill(c0, t))
      modifies this`mem
      ensures Fixes(r0, r0, Done(whole), Order(c0, t)) && mem.Keys == old(mem.Keys)
    {
      var w := w0;
      ghost var c := c0;
      Swing(mem, pos, c, t);
      ChildColours(mem, pos, Across(c, t), c.sib);
      if !mem[mem[w].right].red {
        c := NearNephewLeft(x, w, c, t, h);
        Local(mem, pos, c, t);
        w := mem[mem[x].parent].right;
      }
      ghost var t' := FarNephewLeft(x, w, c, t, h);
      whole := Fill(c.up, t');
      AtFill(mem, pos, c.up, t');
      OrderFill(c.up, t');
      BalFill(c.up, t', Rise(c.red, h + 1));
      FillNode(c.up, t');
      Local(mem, pos, Top, whole);
      RootFill(c0.up, Join(c0.side, t, c0.red, c0.n, c0.sib),
        if c0.up.Top? then Join(c0.side, t, c0.red, c0.n, c0.sib) else t');
    }

    // One turn of the loop in RBDeleteFixUp when x is a left child; r0 is the cached root.
    method DeleteStepLeft(x: Ref, r0: Ref, ghost c: Ctx, ghost t: Tree, ghost h: nat)
      returns (x': Ref, ghost s: Fixing)
      requires DeleteFix(x, c, t, h) && c.In? && c.side == L && !Red(t) && r0 == Root(Fill(c, t))
      modifies this`mem
      ensures Fixes(x', r0, s, Order(c, t)) && Measure(s) < 1 + Depth(c)
      ensures mem.Keys == old(mem.Keys)
    {
      Local(mem, pos, c, t);
      SiblingIsNode(c, t, h);
      Swing(mem, pos, c, t);
      Local(mem, pos, Across(c, t), c.sib);
      var w := mem[mem[x].parent].right;
      ghost var c1 := c;
      if mem[w].red {
        c1 := RedSiblingLeft(x, w, c, t, h);
        SiblingIsNode(c1, t, h);
        Local(mem, pos, c1, t);
        w := mem[mem[x].parent].right;
        SunkRoot(c, c1, t);
      }
      Swing(mem, pos, c1, t);
      ChildColours(mem, pos, Across(c1, t), c1.sib);
      if !mem[mem[w].right].red && !mem[mem[w].left].red {
        ghost var t';
        x', t' := BlackNephews(x, w, c1, t, h);
        s := Shorter(c1.up, t', Rise(c1.red, h));
        RootFill(c1.up, t', Join(c1.side, t, c1.red, c1.n, c1.sib));
      } else {
        ghost var whole := RedNephewLeft(x, w, r0, c1, t, h);
        x' := r0;
        s := Done(whole);
      }
    }

    // The sibling w of x is red: it becomes black and is rotated above the parent.
    method RedSiblingRight(x: Ref, w: Ref, ghost c: Ctx, ghost t: Tree, ghost h: nat)
      returns (ghost c': Ctx)
      requires DeleteFix(x, c, t, h) && c.In? && c.side == R && Red(c.sib) && c.sib.n == w
      modifies this`mem
      ensures c' == In(R, In(R, c.up, false, c.sib.n, c.sib.l), true, c.n, c.sib.r)
      ensures DeleteFix(x, c', t, h) && !Red(c'.sib) && Order(c', t) == Order(c, t)
      ensures mem.Keys == old(mem.Keys)
    {
      SiblingIsNode(c, t, h);
      ShortRedSibling(c, t, h);
      Local(mem, pos, c, t);
      Swing(mem, pos, c, t);
      SetRed(w, false, Across(c, t), c.sib);
      ghost var w1 := c.sib.(red := false);
      ghost var c1 := c.(sib := w1);
      Swing(mem, pos, c1, t);
      Zoom(mem, pos, c1, t);
      ghost var p1 := Node(w1, c.red, c.n, t);
      SetRed(mem[x].parent, true, c.up, p1);
      p1 := p1.(red := true);
      Zoom(mem, pos, c1.(red := true), t);
      Local(mem, pos, c1.(red := true), t);
      RightRotate(mem[x].parent, c.up, p1);
      c' := In(R, In(R, c.up, false, c.sib.n, c.sib.l), true, c.n, c.sib.r);
      ghost var pt := Node(c.sib.r, true, c.n, t);
      Zoom(mem, pos, c'.up, pt);
      Zoom(mem, pos, c', t);
      OrderZoom(c', t);
      OrderZoom(c'.up, pt);
      OrderZoom(c, t);
      RotationKeepsOrder(p1);
      assert InOrder(w1) == InOrder(c.sib);
      Local(mem, pos, c', t);
    }

    // Only the near child of the sibling w is red: it is rotated above w.
    method NearNephewRight(x: Ref, w: Ref, ghost c: Ctx, ghost t: Tree, ghost h: nat)
      returns (ghost c': Ctx)
      requires DeleteFix(x, c, t, h) && c.In? && c.side == R
      requires c.sib.Node? && c.sib.n == w && !c.sib.red && Red(c.sib.r) && !Red(c.sib.l)
      modifies this`mem
      ensures c' == c.(sib := Node(Node(c.sib.l, true, c.sib.n, c.sib.r.l), false, c.sib.r.n, c.sib.r.r))
      ensures DeleteFix(x, c', t, h) && Order(c', t) == Order(c, t)
      ensures mem.Keys == old(mem.Keys)
    {
      ShortNear(c, t, h);
      Local(mem, pos, c, t);
      Swing(mem, pos, c, t);
      ghost var cw := Across(c, t);
      ghost var w1 := c.sib;
      Local(mem, pos, cw, w1);
      Zoom(mem, pos, In(R, cw, w1.red, w1.n, w1.l), w1.r);
      SetRed(mem[w].right, false, In(R, cw, w1.red, w1.n, w1.l), w1.r);
      w1 := w1.(r := w1.r.(red := false));
      Zoom(mem, pos, In(R, cw, w1.red, w1.n, w1.l), w1.r);
      SetRed(w, true, cw, w1);
      w1 := w1.(red := true);
      LeftRotate(w, cw, w1);
      c' := c.(sib := RotatedLeft(w1));
      Swing(mem, pos, c', t);
      RotationKeepsOrder(w1);
      assert InOrder(w1.r) == InOrder(c.sib.r);
      assert InOrder(w1) == InOrder(c.sib);
      Local(mem, pos, c', t);
    }

    // The far child of the sibling w is red: one rotation of the parent ends the shortage.
    method FarNephewRight(x: Ref, w: Ref, ghost c: Ctx, ghost t: Tree, ghost h: nat)
      returns (ghost t': Tree)
      requires DeleteFix(x, c, t, h) && c.In? && c.side == R && !Red(t)
      requires c.sib.Node? && c.sib.n == w && !c.sib.red && Red(c.sib.l)
      modifies this`mem
      ensures At(mem, pos, c.up, t') && BalAt(c.up, t', Rise(c.red, h + 1)) && Order(c.up, t') == Order(c, t)
      ensures c.n in mem && !mem[c.n].red && t'.Node?
      ensures mem.Keys == old(mem.Keys)
    {
      ShortFar(c, t, h);
      Local(mem, pos, c, t);
      Swing(mem, pos, c, t);
      ghost var cw := Across(c, t);
      ghost var w1 := c.sib;
      Local(mem, pos, cw, w1);
      var p := mem[x].parent;
      SetRed(w, mem[p].red, cw, w1);
      w1 := w1.(red := c.red);
      FarNephewRestRight(x, w, c, t, w1);
      ghost var p1 := Node(w1.(l := w1.l.(red := false)), false, c.n, t);
      RightRotate(p, c.up, p1);
      t' := RotatedRight(p1);
      RotationKeepsOrder(p1);
      OrderZoom(c, t);
      assert InOrder(p1.l) == InOrder(c.sib) by { assert InOrder(p1.l.l) == InOrder(c.sib.l); }
      Zoom(mem, pos, In(R, c.up, t'.red, t'.n, t'.l), t'.r);
      Local(mem, pos, In(R, c.up, t'.red, t'.n, t'.l), t'.r);
    }

    method FarNephewRestRight(x: Ref, w: Ref, ghost c: Ctx, ghost t: Tree, ghost w1: Tree)
      requires c.In? && c.side == R && At(mem, pos, Across(c, t), w1) && w1.Node? && Red(w1.l)
      requires x in mem && mem[x].parent == c.n && x == Root(t) && w == w1.n
      modifies this`mem
      ensures At(mem, pos, c.up, Node(w1.(l := w1.l.(red := false)), false, c.n, t))
      ensures mem.Keys == old(mem.Keys) && mem[NIL] == old(mem[NIL])
    {
      ghost var cw := Across(c, t);
      Zoom(mem, pos, cw, w1);
      Local(mem, pos, cw, w1);
      SetRed(mem[x].parent, false, c.up, Node(w1, c.red, c.n, t));
      ghost var cw1 := cw.(red := false);
      Zoom(mem, pos, cw1, w1);
      Local(mem, pos, cw1, w1);
      ghost var cr := In(L, cw1, w1.red, w1.n, w1.r);
      Zoom(mem, pos, cr, w1.l);
      SetRed(mem[w].left, false, cr, w1.l);
      Zoom(mem, pos, cr, w1.l.(red := false));
      Zoom(mem, pos, cw1, w1.(l := w1.l.(red := false)));
    }

    // A nephew is red: up to two rotations end the loop, and x is set to the cached root r0.
    method RedNephewRight(x: Ref, w0: Ref, r0: Ref, ghost c0: Ctx, ghost t: Tree, ghost h: nat)
      returns (ghost whole: Tree)
      requires DeleteFix(x, c0, t, h) && c0.In? && c0.side == R && !Red(t)
      requires c0.sib.Node? && c0.sib.n == w0 && !c0.sib.red && (Red(c0.sib.r) || Red(c0.sib.l))
      requires r0 == c0.n || r0 == Root(Fill(c0, t))
      modifies this`mem
      ensures Fixes(r0, r0, Done(whole), Order(c0, t)) && mem.Keys == old(mem.Keys)
    {
      var w := w0;
      ghost var c := c0;
      Swing(mem, pos, c, t);
      ChildColours(mem, pos, Across(c, t), c.sib);
      if !mem[mem[w].left].red {
        c := NearNephewRight(x, w, c, t, h);
        Local(mem, pos, c, t);
        w := mem[mem[x].parent].left;
      }
      ghost var t' := FarNephewRight(x, w, c, t, h);
      whole := Fill(c.up, t');
      AtFill(mem, pos, c.up, t');
      OrderFill(c.up, t');
      BalFill(c.up, t', Rise(c.red, h + 1));
      FillNode(c.up, t');
      Local(mem, pos, Top, whole);
      RootFill(c0.up, Join(c0.side, t, c0.red, c0.n, c0.sib),
        if c0.up.Top? then Join(c0.side, t, c0.red, c0.n, c0.sib) else t');
    }

    // One turn of the loop in RBDeleteFixUp when x is a right child; r0 is the cached root.
    method DeleteStepRight(x: Ref, r0: Ref, ghost c: Ctx, ghost t: Tree, ghost h: nat)
      returns (x': Ref, ghost s: Fixing)
      requires DeleteFix(x, c, t, h) && c.In? && c.side == R && !Red(t) && r0 == Root(Fill(c, t))
      modifies this`mem
      ensures Fixes(x', r0, s, Order(c, t)) && Measure(s) < 1 + Depth(c)
      ensures mem.Keys == old(mem.Keys)
    {
      Local(mem, pos, c, t);
      SiblingIsNode(c, t, h);
      Swing(mem, pos, c, t);
      Local(mem, pos, Across(c, t), c.sib);
      var w := mem[mem[x].parent].left;
      ghost var c1 := c;
      if mem[w].red {
        c1 := RedSiblingRight(x, w, c, t, h);
        SiblingIsNode(c1, t, h);
        Local(mem, pos, c1, t);
        w := mem[mem[x].parent].left;
        SunkRoot(c, c1, t);
      }
      Swing(mem, pos, c1, t);
      ChildColours(mem, pos, Across(c1, t), c1.sib);
      if !mem[mem[w].left].red && !mem[mem[w].right].red {
        ghost var t';
        x', t' := BlackNephews(x, w, c1, t, h);
        s := Shorter(c1.up, t', Rise(c1.red, h));
        RootFill(c1.up, t', Join(c1.side, t, c1.red, c1.n, c1.sib));
      } else {
        ghost var whole := RedNephewRight(x, w, r0, c1, t, h);
        x' := r0;
        s := Done(whole);
      }
    }

    method RBDeleteFixUp(x0: Ref, ghost c0: Ctx, ghost t0: Tree, ghost h0: nat) returns (ghost whole: Tree)
      requires DeleteFix(x0, c0, t0, h0)
      modifies this`mem
      ensures At(mem, pos, Top, whole) && Balanced(whole) && InOrder(whole) == Order(c0, t0)
      ensures mem.Keys == old(mem.Keys)
    {
      var x := x0;
      ghost var s := Shorter(c0, t0, h0);
      AtFill(mem, pos, c0, t0);
      Local(mem, pos, Top, Fill(c0, t0));
      var root := mem[ROOT].left;
      while !mem[x].red && root != x
        invariant Fixes(x, root, s, Order(c0, t0))
        invariant x in mem && mem.Keys == old(mem.Keys)
        decreases Measure(s)
      {
        ghost var c, t, h := s.c, s.t, s.h;
        Local(mem, pos, c, t);
        SiblingIsNode(c, t, h);
        Swing(mem, pos, c, t);
        Local(mem, pos, Across(c, t), c.sib);
        if x == mem[mem[x].parent].left {
          x, s := DeleteStepLeft(x, root, c, t, h);
        } else {
          x, s := DeleteStepRight(x, root, c, t, h);
        }
      }
      ghost var m := mem;
      mem := mem[x := mem[x].(red := false)];
      if s.Done? {
        assert mem == m;
        whole := s.whole;
      } else {
        whole := LastColour(m, mem, pos, x, root, s.c, s.t, s.h);
      }
    }

    // ----- insertion -----

    // The pointer writes that hang z below y, the parent of the hole of c.
    method Attach(z: Ref, y: Ref, left: bool, ghost c: Ctx)
      requires At(mem, pos, c, Leaf) && z in mem && P(pos, z) == 0.0 && z !in {ROOT, NIL}
      requires y == Par(c) && mem[z].left == NIL && mem[z].right == NIL && (left <==> c.Top? || c.side == L)
      modifies this`mem, this`pos
      ensures At(mem, pos, c, Node(Leaf, old(mem[z].red), z, Leaf))
      ensures pos == old(pos)[z := P(pos, z)] && mem.Keys == old(mem.Keys)
    {
      ghost var m := mem;
      Local(mem, pos, c, Leaf);
      CtxInterval(pos, c);
      mem := mem[z := mem[z].(parent := y)];
      if left {
        mem := mem[y := mem[y].(left := z)];
      } else {
        mem := mem[y := mem[y].(right := z)];
      }
      ghost var pos' := pos[z := (Lo(pos, c) + Hi(pos, c)) / 2.0];
      AttachAt(m, mem, pos, pos', c, z, m[z].red);
      pos := pos';
    }

    // Climbs from the last inserted node to a subtree that must hold the new key k.
    method Climb(k: int) returns (y: Ref, ghost c: Ctx, ghost t: Tree)
      requires Valid() && lastNode in Contents()
      ensures At(mem, pos, c, t) && t.Node? && t.n == y && Fill(c, t) == tree
      ensures Fits(key, c, k) && (FrontOk(key, c, k) || K(key, y) == k)
    {
      y := lastNode;
      ghost var z := Locate(Top, tree, y);
      c, t := z.0, z.1;
      AtFill(mem, pos, c, t);
      OrderFill(c, t);
      Local(mem, pos, c, t);
      var result := Compare(K(key, lastNode), k);
      if result == 0 {
        EqualFits(key, c, t);
      } else if result == 1 {
        while mem[y].parent != ROOT
          invariant ClimbedTo(y, c, t)
          decreases Depth(c)
        {
          var x := mem[y].parent;
          if Compare(K(key, x), k) == -1 {
            ClimbStopLow(key, c, t, lastNode, k);
            break;
          }
          y, c, t := ClimbOne(y, c, t);
        }
      } else {
        while mem[y].parent != ROOT
          invariant ClimbedTo(y, c, t)
          decreases Depth(c)
        {
          var x := mem[y].parent;
          if Compare(K(key, x), k) == 1 {
            ClimbStopHigh(key, c, t, lastNode, k);
            break;
          }
          y, c, t := ClimbOne(y, c, t);
        }
      }
    }

    ghost predicate ClimbedTo(y: Ref, c: Ctx, t: Tree)
      reads this
    {
      && At(mem, pos, c, t) && t.Node? && t.n == y && Fill(c, t) == tree
      && Order(c, t) == Contents() && lastNode in InOrder(t)
      && y in mem && mem[y].parent == Par(c) && (c.In? ==> c.n != ROOT)
    }

    method ClimbOne(y: Ref, ghost c: Ctx, ghost t: Tree) returns (y': Ref, ghost c': Ctx, ghost t': Tree)
      requires ClimbedTo(y, c, t) && c.In?
      ensures ClimbedTo(y', c', t') && y' == c.n && Depth(c') < Depth(c)
    {
      y' := mem[y].parent;
      c', t' := c.up, Join(c.side, t, c.red, c.n, c.sib);
      Zoom(mem, pos, c, t);
      OrderZoom(c, t);
      Local(mem, pos, c', t');
      assert lastNode in InOrder(t');
    }

    // Descends from y to the hole for the new key k.
    method Descend(y0: Ref, k: int, ghost c0: Ctx, ghost t0: Tree) returns (y: Ref, ghost c: Ctx)
      requires Valid() && At(mem, pos, c0, t0) && t0.Node? && t0.n == y0 && Fill(c0, t0) == tree
      requires Fits(key, c0, k) && (FrontOk(key, c0, k) || K(key, y0) == k)
      ensures At(mem, pos, c, Leaf) && Fill(c, Leaf) == tree
      ensures Fits(key, c, k) && FrontOk(key, c, k)
      ensures c.In? && y == c.n && y != ROOT && (c.side == L <==> Compare(K(key, y), k) == 1)
    {
      var x := y0;
      y := y0;
      ghost var t := t0;
      c := c0;
      OrderFill(c, t);
      while x != NIL
        invariant At(mem, pos, c, t) && Root(t) == x && Fill(c, t) == tree && Order(c, t) == Contents()
        invariant Fits(key, c, k) && (FrontOk(key, c, k) || (t.Node? && K(key, t.n) == k))
        invariant t.Node? || (c.In? && y == c.n && (c.side == L <==> Compare(K(key, y), k) == 1))
        decreases t
      {
        Local(mem, pos, c, t);
        DescendFits(key, c, t, k);
        y := x;
        if Compare(K(key, x), k) == 1 {
          x := mem[x].left;
          c, t := In(L, c, t.red, t.n, t.r), t.l;
        } else {
          x := mem[x].right;
          c, t := In(R, c, t.red, t.n, t.l), t.r;
        }
        Zoom(mem, pos, c, t);
      }
      Local(mem, pos, c, t);
    }

    /** Node z is allocated and not in the tree. */
    ghost predicate Unused(z: Ref)
      reads this
    {
      z in mem && z !in {NULL, ROOT, NIL} && P(pos, z) == 0.0
    }

    // Hangs z below the node found from the fingers.
    method TreeInsertHelp(z: Ref) returns (ghost c: Ctx)
      requires Valid() && FingersOk() && Unused(z)
      modifies this`mem, this`pos, this`maxNode, this`lastNode
      ensures At(mem, pos, c, Node(Leaf, old(mem[z].red), z, Leaf)) && Fill(c, Leaf) == tree
      ensures Fits(key, c, K(key, z)) && FrontOk(key, c, K(key, z))
      ensures pos == old(pos)[z := P(pos, z)] && mem.Keys == old(mem.Keys)
      ensures lastNode == z && maxNode == if After(c) == [] then z else old(maxNode)
    {
      StrayWrite(mem, mem[z := mem[z].(left := NIL, right := NIL)], pos, Top, tree, z);
      mem := mem[z := mem[z].(left := NIL, right := NIL)];
      var y := maxNode;
      if 1 != Compare(K(key, y), K(key, z)) {
        c := MaxHole(mem, pos, key, tree, y);
        MaxFits(key, c, K(key, z));
        Attach(z, y, false, c);
        maxNode := z;
        lastNode := z;
      } else {
        c := InsertByFinger(z);
        NotLast(key, c, maxNode, K(key, z));
        lastNode := z;
      }
    }

    method InsertByFinger(z: Ref) returns (ghost c: Ctx)
      requires Valid() && lastNode in Contents() && Unused(z) && mem[z].left == NIL && mem[z].right == NIL
      modifies this`mem, this`pos
      ensures At(mem, pos, c, Node(Leaf, old(mem[z].red), z, Leaf)) && Fill(c, Leaf) == tree
      ensures Order(c, Leaf) == Contents()
      ensures Fits(key, c, K(key, z)) && FrontOk(key, c, K(key, z))
      ensures pos == old(pos)[z := P(pos, z)] && mem.Keys == old(mem.Keys)
    {
      ghost var t;
      var y;
      y, c, t := Climb(K(key, z));
      y, c := Descend(y, K(key, z), c, t);
      OrderFill(c, Leaf);
      Attach(z, y, y == ROOT || 1 == Compare(K(key, y), K(key, z)), c);
    }

    lemma PoolApart()
      requires Valid()
      ensures forall n :: n in Contents() ==> n !in free && n in mem && n !in {NULL, ROOT, NIL}
    {
      InStore(mem, pos, Top, tree);
      assert Order(Top, tree) == Contents();
    }

    // node_list_alloc and the assignment of the key.
    method Alloc(k: int) returns (x: Ref)
      requires Valid() && free != []
      modifies this`free, this`key
      ensures Valid() && Unused(x) && x !in free && x !in Contents() && K(key, x) == k
      ensures old(free) == free + [x]
      ensures forall n :: n != x ==> K(key, n) == K(old(key), n)
    {
      x := free[|free| - 1];
      free := free[..|free| - 1];
      key := key[x := k];
      OrderPlaced(mem, pos, Top, tree);
      assert Order(Top, tree) == Contents();
    }

    // Reddens the hung node x and restores the balance.
    method Rebalance(x: Ref, ghost c: Ctx, ghost red: bool)
      requires At(mem, pos, c, Node(Leaf, red, x, Leaf)) && Fill(c, Leaf) == tree && Balanced(tree)
      requires numNodes == |Before(c) + After(c)|
      modifies this`mem, this`tree, this`numNodes
      ensures At(mem, pos, Top, tree) && Balanced(tree) && Contents() == Before(c) + [x] + After(c)
      ensures numNodes == |Contents()| && mem.Keys == old(mem.Keys)
    {
      ghost var t := Node(Leaf, red, x, Leaf);
      SetRed(x, true, c, t);
      t := t.(red := true);
      ghost var h := BalUnfill(c, Leaf);
      assert InOrder(t) == [x];
      tree := InsertFixUp(x, c, t, 0);
      numNodes := numNodes + 1;
    }

    /** The sequence s grew to Contents() by the node x, in a place that its key allows. */
    ghost predicate Grown(s: seq<Ref>, x: Ref)
      reads this
    {
      exists i :: 0 <= i <= |s| && Inserted(s, i, x) == Contents()
    }

    // What hanging x in the hole of c means for the whole tree.
    lemma GrownAt(c: Ctx, x: Ref, s: seq<Ref>, oldMax: Ref)
      requires Before(c) + After(c) == s && Contents() == Before(c) + [x] + After(c)
      requires Sorted(key, s) && Fits(key, c, K(key, x)) && FrontOk(key, c, K(key, x))
      ensures Sorted(key, Contents()) && Grown(s, x)
      ensures s != [] && oldMax == s[|s| - 1] && lastNode == x && maxNode == (if After(c) == [] then x else oldMax) ==>
          FingersOk()
      ensures s != [] ==> Contents()[0] == if K(key, s[0]) <= K(key, x) then s[0] else x
    {
      FitsSorted(key, c, x);
      assert Inserted(s, |Before(c)|, x) == Contents();
      if Before(c) == [] {
        assert s == After(c);
      }
    }

    // TreeInsertHelp and the rebalancing that follows it.
    method Hang(x: Ref)
      requires Valid() && FingersOk() && Unused(x) && x !in free
      modifies this`mem, this`pos, this`tree, this`maxNode, this`lastNode, this`numNodes
      ensures Valid() && FingersOk() && Grown(old(Contents()), x) && lastNode == x
      ensures Contents()[0] == if K(key, old(Contents())[0]) <= K(key, x) then old(Contents())[0] else x
    {
      hide At, Balanced, Sorted;
      ghost var s, m0, red := Contents(), maxNode, mem[x].red;
      ghost var c := TreeInsertHelp(x);
      HoleOrder(c);
      maxNode := if 1 == Compare(K(key, x), K(key, maxNode)) then x else maxNode;
      Rebalance(x, c, red);
      GrownAt(c, x, s, m0);
    }

    // The first node of an empty tree.
    method HangFirst(x: Ref)
      requires Valid() && Contents() == [] && Unused(x) && x !in free
      modifies this`mem, this`pos, this`tree, this`maxNode, this`lastNode, this`numNodes
      ensures Valid() && FingersOk() && Contents() == [x] && lastNode == x
    {
      ghost var red := mem[x].red;
      HangAtRoot(x);
      Rebalance(x, Top, red);
      maxNode := x;
      lastNode := x;
    }

    method HangAtRoot(x: Ref)
      requires Valid() && Contents() == [] && Unused(x)
      modifies this`mem, this`pos
      ensures At(mem, pos, Top, Node(Leaf, old(mem[x].red), x, Leaf)) && tree == Leaf
      ensures pos == old(pos)[x := P(pos, x)] && mem.Keys == old(mem.Keys)
    {
      StrayWrite(mem, mem[x := mem[x].(left := NIL, right := NIL)], pos, Top, tree, x);
      mem := mem[x := mem[x].(left := NIL, right := NIL)];
      Attach(x, ROOT, true, Top);
    }

    method UpdateMin(x: Ref, ghost s: seq<Ref>)
      requires if s == [] then minNode in {NULL, NIL} else minNode == s[0] && minNode !in {NULL, NIL}
      requires Contents() != [] && Contents()[0] == if s != [] && K(key, s[0]) <= K(key, x) then s[0] else x
      modifies this`minNode
      ensures MinOk()
    {
      if NULL == minNode || NIL == minNode || 1 == Compare(K(key, minNode), K(key, x)) {
        minNode := x;
      }
    }

    method RBTreeInsert(k: int) returns (x: Ref)
      requires Valid() && FingersOk()
      modifies this
      ensures Valid() && FingersOk()
      ensures old(free) == [] ==> x == NULL && unchanged(this)
      ensures old(free) != [] ==>
          old(free) == free + [x] && K(key, x) == k && Grown(old(Contents()), x) && lastNode == x
      ensures forall n :: n in old(Contents()) ==> K(key, n) == K(old(key), n)
      ensures minNode == old(minNode)
      ensures old(free) != [] && old(MinOk()) ==> (MinOk() <==> old(K(key, minNode)) <= k)
    {
      if |free| == 0 {
        return NULL;
      }
      x := Alloc(k);
      Hang(x);
    }

    // Hangs x in a tree that may be empty.
    method HangInitial(x: Ref)
      requires Valid() && Unused(x) && x !in free && if maxNode == NULL then Contents() == [] else FingersOk()
      modifies this`mem, this`pos, this`tree, this`maxNode, this`lastNode, this`numNodes
      ensures Valid() && FingersOk() && Grown(old(Contents()), x) && lastNode == x
      ensures var s := old(Contents()); Contents()[0] == if s != [] && K(key, s[0]) <= K(key, x) then s[0] else x
    {
      if NULL != maxNode {
        Hang(x);
      } else {
        HangFirst(x);
        assert Inserted([], 0, x) == Contents();
      }
    }

    method RBTreeInsertInitial(k: int) returns (x: Ref)
      requires Valid() && MinOk() && if maxNode == NULL then Contents() == [] else FingersOk()
      modifies this
      ensures Valid() && MinOk()
      ensures old(free) == [] ==> x == NULL && unchanged(this)
      ensures old(free) != [] ==>
          old(free) == free + [x] && K(key, x) == k && Grown(old(Contents()), x) && lastNode == x
      ensures old(free) != [] ==> FingersOk()
      ensures forall n :: n in old(Contents()) ==> K(key, n) == K(old(key), n)
    {
      if |free| == 0 {
        return NULL;
      }
      ghost var s := Contents();
      PoolApart();
      x := Alloc(k);
      HangInitial(x);
      UpdateMin(x, s);
    }

    // ----- neighbours -----

    /** The node at the focus of a zipper of the whole tree. */
    ghost predicate Focused(y: Ref, c: Ctx, t: Tree)
      reads this
    {
      At(mem, pos, c, t) && t.Node? && t.n == y && Fill(c, t) == tree
    }

    lemma FocusOn(z: Ref, i: nat) returns (c: Ctx, t: Tree)
      requires Valid() && i < |Contents()| && Contents()[i] == z
      ensures Focused(z, c, t)
      ensures Contents()[..i] == Before(c) + InOrder(t.l) && Contents()[i + 1..] == InOrder(t.r) + After(c)
    {
      var f := Locate(Top, tree, z);
      c, t := f.0, f.1;
      TreeDistinct(pos, tree);
      AtFill(mem, pos, c, t);
      LocateOrder(tree, z);
      IndexIs(Contents(), Before(c) + InOrder(t.l), z, InOrder(t.r) + After(c), i);
    }

    method Leftmost(x: Ref, ghost c: Ctx, ghost t: Tree) returns (y: Ref, ghost c': Ctx, ghost t': Tree)
      requires Focused(x, c, t) && t.r.Node? && x in mem && mem[x].right == t.r.n
      ensures Focused(y, c', t') && t'.l.Leaf? && y == InOrder(t.r)[0]
    {
      y := mem[x].right;
      c', t' := In(R, c, t.red, t.n, t.l), t.r;
      Zoom(mem, pos, c', t');
      ChildColours(mem, pos, c', t');
      while mem[y].left != NIL
        invariant Focused(y, c', t') && InOrder(t')[0] == InOrder(t.r)[0]
        invariant y in mem && mem[y].left == Root(t'.l) && (mem[y].left == NIL <==> t'.l.Leaf?)
        decreases t'
      {
        c', t' := In(L, c', t'.red, t'.n, t'.r), t'.l;
        y := mem[y].left;
        Zoom(mem, pos, c', t');
        Local(mem, pos, c', t');
        ChildColours(mem, pos, c', t');
      }
    }

    method Rightmost(x: Ref, ghost c: Ctx, ghost t: Tree) returns (y: Ref)
      requires Focused(x, c, t) && t.l.Node? && x in mem && mem[x].left == t.l.n
      ensures y == Last(InOrder(t.l))
    {
      y := mem[x].left;
      ghost var c', t' := In(L, c, t.red, t.n, t.r), t.l;
      Zoom(mem, pos, c', t');
      ChildColours(mem, pos, c', t');
      while mem[y].right != NIL
        invariant Focused(y, c', t') && Last(InOrder(t')) == Last(InOrder(t.l))
        invariant y in mem && mem[y].right == Root(t'.r) && (mem[y].right == NIL <==> t'.r.Leaf?)
        decreases t'
      {
        c', t' := In(R, c', t'.red, t'.n, t'.l), t'.r;
        y := mem[y].right;
        Zoom(mem, pos, c', t');
        Local(mem, pos, c', t');
        ChildColours(mem, pos, c', t');
      }
    }

    // The nearest ancestor that x lies to the left of.
    method ClimbRight(x0: Ref, ghost c: Ctx, ghost t: Tree) returns (y: Ref)
      requires Focused(x0, c, t)
      ensures y == First(After(c))
    {
      var x := x0;
      ghost var c', t' := c, t;
      Local(mem, pos, c, t);
      RootSentinel(mem, c, x);
      y := mem[x].parent;
      while x == mem[y].right
        invariant Focused(x, c', t') && y == Par(c') && After(c') == After(c)
        invariant x in mem && y in mem && x != NIL && mem[ROOT].right == NIL
        invariant c'.In? ==> (x == mem[y].right <==> c'.side == R) && y != ROOT
        decreases Depth(c')
      {
        Zoom(mem, pos, c', t');
        c', t' := c'.up, Join(c'.side, t', c'.red, c'.n, c'.sib);
        x := y;
        y := mem[y].parent;
        Local(mem, pos, c', t');
      }
      if y == ROOT {
        return NIL;
      }
    }

    // The nearest ancestor that x lies to the right of.
    method ClimbLeft(x0: Ref, ghost c: Ctx, ghost t: Tree) returns (y: Ref)
      requires Focused(x0, c, t)
      ensures y == Last(Before(c))
    {
      var x := x0;
      ghost var c', t' := c, t;
      Local(mem, pos, c, t);
      y := mem[x].parent;
      while x == mem[y].left
        invariant Focused(x, c', t') && y == Par(c') && Before(c') == Before(c)
        invariant x in mem && y in mem && (c'.Top? ==> mem[ROOT].left == x)
        invariant c'.In? ==> (x == mem[y].left <==> c'.side == L) && y != ROOT
        decreases Depth(c')
      {
        if y == ROOT {
          return NIL;
        }
        Zoom(mem, pos, c', t');
        c', t' := c'.up, Join(c'.side, t', c'.red, c'.n, c'.sib);
        x := y;
        y := mem[y].parent;
        Local(mem, pos, c', t');
      }
    }

    // The successor of x, with its zipper when it lies below x.
    method TreeSuccessor(x: Ref, ghost c: Ctx, ghost t: Tree) returns (y: Ref, ghost c': Ctx, ghost t': Tree)
      requires Focused(x, c, t)
      ensures y == First(InOrder(t.r) + After(c))
      ensures t.r.Node? ==> Focused(y, c', t') && t'.l.Leaf?
    {
      Local(mem, pos, c, t);
      ChildColours(mem, pos, c, t);
      c', t' := c, t;
      if NIL != mem[x].right {
        y, c', t' := Leftmost(x, c, t);
      } else {
        y := ClimbRight(x, c, t);
      }
    }

    method TreePredecessor(x: Ref, ghost i: nat) returns (y: Ref)
      requires Valid() && i < |Contents()| && Contents()[i] == x
      ensures y == if i > 0 then Contents()[i - 1] else NIL
    {
      ghost var c, t := FocusOn(x, i);
      assert Last(Before(c) + InOrder(t.l)) == if i > 0 then Contents()[i - 1] else NIL;
      Local(mem, pos, c, t);
      ChildColours(mem, pos, c, t);
      if NIL != mem[x].left {
        y := Rightmost(x, c, t);
      } else {
        y := ClimbLeft(x, c, t);
      }
    }

    // The last node with a key of at most high.
    method LastAtMost(high: int) returns (best: Ref, ghost cut: nat)
      requires Valid()
      ensures cut <= |Contents()| && best == if cut > 0 then Contents()[cut - 1] else NIL
      ensures forall i :: 0 <= i < |Contents()| ==> (i < cut <==> K(key, Contents()[i]) <= high)
    {
      best := NIL;
      ghost var c, t := Top, tree;
      Local(mem, pos, Top, tree);
      var x := mem[ROOT].left;
      while NIL != x
        invariant At(mem, pos, c, t) && Root(t) == x && Fill(c, t) == tree
        invariant best == Last(Before(c)) && Splits(key, c, high)
        invariant x == NIL <==> t.Leaf?
        decreases t
      {
        ChildColours(mem, pos, c, t);
        CutStep(key, c, t, tree, high);
        if 1 == Compare(K(key, x), high) {
          x := mem[x].left;
          c, t := In(L, c, t.red, t.n, t.r), t.l;
        } else {
          best := x;
          x := mem[x].right;
          c, t := In(R, c, t.red, t.n, t.l), t.r;
        }
        Zoom(mem, pos, c, t);
      }
      cut := |Before(c)|;
      HoleOrder(c);
      CutAt(key, Before(c), After(c), high);
    }

    lemma NilNotIn()
      requires Valid()
      ensures NIL !in Contents()
    {
      InStore(mem, pos, Top, tree);
      assert Order(Top, tree) == Contents();
    }

    /** The nodes with low <= key <= high, pushed from the highest to the lowest. */
    method RBEnumerate(low: int, high: int) returns (stack: seq<Ref>)
      requires Valid()
      ensures stack == Reversed(Within(key, Contents(), low, high))
    {
      var best;
      ghost var lo, hi;
      best, hi := LastAtMost(high);
      stack, lo := PopDown(low, best, hi);
      ghost var s := Contents();
      assert forall i :: 0 <= i < lo ==> K(key, s[i]) <= K(key, s[lo - 1]);
      WithinIsSlice(key, s, low, high, lo, hi);
    }

    method PopDown(low: int, best0: Ref, ghost hi: nat) returns (stack: seq<Ref>, ghost lo: nat)
      requires Valid() && hi <= |Contents()| && best0 == if hi > 0 then Contents()[hi - 1] else NIL
      ensures lo <= hi && stack == Reversed(Contents()[lo..hi])
      ensures forall i :: lo <= i < hi ==> low <= K(key, Contents()[i])
      ensures lo > 0 ==> K(key, Contents()[lo - 1]) < low
    {
      stack := [];
      lo := hi;
      var best := best0;
      ghost var s := Contents();
      NilNotIn();
      while best != NIL && 1 != Compare(low, K(key, best))
        invariant lo <= hi && stack == Reversed(s[lo..hi])
        invariant best == if lo > 0 then s[lo - 1] else NIL
        invariant forall i :: lo <= i < hi ==> low <= K(key, s[i])
        decreases lo
      {
        stack := stack + [best];
        best := TreePredecessor(best, lo - 1);
        lo := lo - 1;
        assert s[lo..hi][1..] == s[lo + 1..hi];
      }
    }

    // ----- deletion -----

    // Splices out y, which has at most one child x.
    method Splice(y: Ref, ghost c: Ctx, ghost t: Tree) returns (x: Ref, ghost s: Tree)
      requires At(mem, pos, c, t) && t.Node? && t.n == y && (t.l.Leaf? || t.r.Leaf?)
      modifies this`mem
      ensures s == if t.l.Leaf? then t.r else t.l
      ensures At(mem, pos, c, s) && x == Root(s) && x in mem && mem[x].parent == Par(c)
      ensures mem.Keys == old(mem.Keys) && y in mem && mem[y].red == t.red
    {
      ghost var m := mem;
      Local(mem, pos, c, t);
      ChildColours(mem, pos, c, t);
      CtxInterval(pos, c);
      x := if mem[y].left == NIL then mem[y].right else mem[y].left;
      s := if t.l.Leaf? then t.r else t.l;
      assert s.Node? ==> s.n != t.n && s.n != Par(c) by {
        assert Placed(pos, t.l, Lo(pos, c), P(pos, t.n)) && Placed(pos, t.r, P(pos, t.n), Hi(pos, c));
      }
      mem := mem[x := mem[x].(parent := mem[y].parent)];
      if ROOT == mem[x].parent {
        mem := mem[ROOT := mem[ROOT].(left := x)];
      } else if y == mem[mem[y].parent].left {
        mem := mem[mem[y].parent := mem[mem[y].parent].(left := x)];
      } else {
        mem := mem[mem[y].parent := mem[mem[y].parent].(right := x)];
      }
      SpliceAt(m, mem, pos, c, t, s);
    }

    // Splices out y and repairs the balance.
    method Unlink(y: Ref, ghost c: Ctx, ghost t: Tree) returns (ghost whole: Tree)
      requires Focused(y, c, t) && Balanced(tree) && (t.l.Leaf? || t.r.Leaf?)
      modifies this`mem, this`pos
      ensures At(mem, pos, Top, whole) && Balanced(whole) && mem.Keys == old(mem.Keys)
      ensures pos == old(pos)[y := 0.0]
      ensures InOrder(whole) == (Before(c) + InOrder(t.l)) + (InOrder(t.r) + After(c))
    {
      ghost var h := BalUnfill(c, t);
      Local(mem, pos, c, t);
      ghost var s := if t.l.Leaf? then t.r else t.l;
      SplicedOut(mem, pos, c, t, s);
      SpliceBal(c, t, s, h);
      var x;
      x, s := Splice(y, c, t);
      Repos(mem, pos, pos[y := 0.0], c, s);
      pos := pos[y := 0.0];
      if !mem[y].red {
        whole := RBDeleteFixUp(x, c, s, h - 1);
      } else {
        whole := Fill(c, s);
        AtFill(mem, pos, c, s);
        OrderFill(c, s);
        BalFill(c, s, h);
      }
    }

    // Puts y, which is not in the tree, in the stead of z.
    method Transplant(z: Ref, y: Ref, ghost c: Ctx, ghost t: Tree)
      requires At(mem, pos, c, t) && t.Node? && t.n == z && P(pos, y) == 0.0 && y in mem && y !in {ROOT, NIL}
      modifies this`mem, this`pos
      ensures At(mem, pos, c, t.(n := y)) && mem.Keys == old(mem.Keys)
      ensures pos == old(pos[y := P(pos, z)][z := 0.0])
    {
      hide At, Lo, Hi, Placed, PlacedCtx, Rep, RepCtx;
      ghost var m := mem;
      TransplantLocal(mem, pos, c, t, y);
      var left, right, parent := mem[z].left, mem[z].right, mem[z].parent;
      assert left == Root(t.l) && right == Root(t.r) && parent == Par(c);
      mem := mem[y := Cell(mem[z].red, left, right, parent)];
      mem := mem[right := mem[right].(parent := y)];
      mem := mem[left := mem[left].(parent := y)];
      if z == mem[parent].left {
        mem := mem[parent := mem[parent].(left := y)];
      } else {
        mem := mem[parent := mem[parent].(right := y)];
      }
      ghost var pos' := pos[y := P(pos, t.n)][t.n := 0.0];
      TransplantAt(m, mem, pos, pos', c, t, y);
      pos := pos';
    }

    // node_list_free: the node is wiped and goes back to the pool.
    method Release(z: Ref)
      requires At(mem, pos, Top, tree) && PoolOk()
      requires z in mem && z !in {NULL, ROOT, NIL} && P(pos, z) == 0.0 && z !in free
      requires z !in Contents()
      modifies this`mem, this`key, this`free
      ensures At(mem, pos, Top, tree) && PoolOk() && free == old(free) + [z] && mem.Keys == old(mem.Keys)
      ensures mem[z] == InitialCell(z)
      ensures forall n :: n != z ==> K(key, n) == K(old(key), n)
    {
      StrayWrite(mem, mem[z := InitialCell(z)], pos, Top, tree, z);
      mem := mem[z := InitialCell(z)];
      key := key[z := 0];
      free := free + [z];
    }

    // z has at most one child and is itself spliced out.
    method DeleteDirect(z: Ref, ghost i: nat, ghost c: Ctx, ghost t: Tree)
      requires Valid() && Focused(z, c, t) && (t.l.Leaf? || t.r.Leaf?)
      requires i < |Contents()| && Contents()[i] == z
      modifies this`mem, this`pos, this`tree
      ensures At(mem, pos, Top, tree) && Balanced(tree) && Contents() == Without(old(Contents()), i)
      ensures pos == old(pos)[z := 0.0] && mem.Keys == old(mem.Keys)
    {
      TreeDistinct(pos, tree);
      OrderFill(c, t);
      SplicedOut(mem, pos, c, t, if t.l.Leaf? then t.r else t.l);
      IndexIs(Contents(), Before(c) + InOrder(t.l), z, InOrder(t.r) + After(c), i);
      tree := Unlink(z, c, t);
    }

    // y, which came after z and is spliced out, takes the place of z.
    method Substitute(z: Ref, y: Ref, ghost s: seq<Ref>, ghost i: nat, ghost whole: Tree)
      requires At(mem, pos, Top, whole) && Balanced(whole) && P(pos, y) == 0.0 && y in mem && y !in {ROOT, NIL}
      requires Distinct(s) && i + 1 < |s| && s[i] == z && s[i + 1] == y && InOrder(whole) == Without(s, i + 1)
      modifies this`mem, this`pos, this`tree
      ensures At(mem, pos, Top, tree) && Balanced(tree) && Contents() == Without(s, i)
      ensures pos == old(pos)[y := P(old(pos), z)][z := 0.0] && mem.Keys == old(mem.Keys)
    {
      hide Balanced, Distinct, P;
      assert InOrder(whole)[i] == z;
      ghost var f := Locate(Top, whole, z);
      AtFill(mem, pos, f.0, f.1);
      LocateOrder(whole, z);
      DropSuccessor(s, i, Before(f.0) + InOrder(f.1.l), z, InOrder(f.1.r) + After(f.0), y);
      Transplant(z, y, f.0, f.1);
      tree := Fill(f.0, f.1.(n := y));
      AtFill(mem, pos, f.0, f.1.(n := y));
      Renamed(f.0, f.1, y);
    }

    // z has two children: its successor y is spliced out and takes its place.
    method DeleteBySuccessor(z: Ref, y: Ref, ghost i: nat, ghost c: Ctx, ghost t: Tree)
      requires Valid() && Focused(y, c, t) && t.l.Leaf?
      requires i + 1 < |Contents()| && Contents()[i] == z && Contents()[i + 1] == y
      modifies this`mem, this`pos, this`tree
      ensures At(mem, pos, Top, tree) && Balanced(tree) && Contents() == Without(old(Contents()), i)
      ensures P(pos, z) == 0.0 && mem.Keys == old(mem.Keys)
      ensures forall n :: n !in {y, z} ==> P(pos, n) == P(old(pos), n)
    {
      hide Balanced, Sorted;
      ghost var s := Contents();
      TreeDistinct(pos, tree);
      OrderFill(c, t);
      InStore(mem, pos, c, t);
      SplicedOut(mem, pos, c, t, t.r);
      IndexIs(s, Before(c) + InOrder(t.l), y, InOrder(t.r) + After(c), i + 1);
      ghost var whole := Unlink(y, c, t);
      assert y in mem && y !in {ROOT, NIL};
      Substitute(z, y, s, i, whole);
    }

    // Both ways of taking z out of the tree.
    method Remove(z: Ref, ghost i: nat)
      requires Valid() && i < |Contents()| && Contents()[i] == z
      modifies this`mem, this`pos, this`tree, this`minNode
      ensures At(mem, pos, Top, tree) && Balanced(tree) && Contents() == Without(old(Contents()), i)
      ensures P(pos, z) == 0.0 && mem.Keys == old(mem.Keys)
      ensures forall n :: n !in old(Contents()) ==> P(pos, n) == P(old(pos), n)
      ensures minNode == if z == old(minNode) then First(old(Contents())[i + 1..]) else old(minNode)
    {
      ghost var c, t := FocusOn(z, i);
      ChildColours(mem, pos, c, t);
      ghost var c', t';
      var successor;
      successor, c', t' := TreeSuccessor(z, c, t);
      if z == minNode {
        minNode := successor;
      }
      var y := if mem[z].left == NIL || mem[z].right == NIL then z else successor;
      if y != z {
        DeleteBySuccessor(z, y, i, c', t');
      } else {
        DeleteDirect(z, i, c, t);
      }
    }

    method RBDelete(z: Ref, ghost i: nat)
      requires Valid() && i < |Contents()| && Contents()[i] == z
      modifies this
      ensures Valid() && Contents() == Without(old(Contents()), i) && free == old(free) + [z]
      ensures forall n :: n != z ==> K(key, n) == K(old(key), n)
      ensures maxNode == old(maxNode) && lastNode == old(lastNode)
      ensures old(MinOk()) ==> MinOk()
      ensures old(FingersOk()) ==> (FingersOk() <==> z != old(maxNode) && z != old(lastNode))
    {
      ghost var s := Contents();
      PoolApart();
      TreeDistinct(pos, tree);
      WithoutSorted(key, s, i);
      Remove(z, i);
      Release(z);
      numNodes := numNodes - 1;
    }
  }

  /** Deleting the only node leaves the cached maximum and the last inserted node in the pool, where the next
      insertion would follow them. */
  method FingersLost() returns (t: RbTree)
    ensures fresh(t) && t.Valid() && t.Contents() == [] && !t.FingersOk()
  {
    t := new RbTree(1);
    var x := t.RBTreeInsertInitial(0);
    assert t.Contents() == [x];
    t.RBDelete(x, 0);
  }
}
