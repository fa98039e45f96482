/** Keys along the in-order sequence, and where a new key may go. */
module RbKeys {
  import opened Sequences
  import opened RbStore
  import opened RbBalance

  type Keys = map<Ref, int>

  function K(key: Keys, n: Ref): int {
    if n in key then key[n] else 0
  }

  ghost predicate Sorted(key: Keys, s: seq<Ref>) {
    forall i, j :: 0 <= i < j < |s| ==> K(key, s[i]) <= K(key, s[j])
  }

  ghost predicate AllAtMost(key: Keys, s: seq<Ref>, k: int) {
    forall n :: n in s ==> K(key, n) <= k
  }

  ghost predicate AllAtLeast(key: Keys, s: seq<Ref>, k: int) {
    forall n :: n in s ==> k <= K(key, n)
  }

  /** A node with key k may be put in the hole of c without breaking the order. */
  ghost predicate Fits(key: Keys, c: Ctx, k: int) {
    AllAtMost(key, Before(c), k) && AllAtLeast(key, After(c), k)
  }

  /** Only a key below all others goes to the front. */
  ghost predicate FrontOk(key: Keys, c: Ctx, k: int) {
    Before(c) == [] ==> AllAtLeast(key, After(c), k + 1)
  }

  lemma SortedSplit(key: Keys, a: seq<Ref>, b: seq<Ref>)
    requires Sorted(key, a + b)
    ensures Sorted(key, a) && Sorted(key, b)
    ensures forall x, y :: x in a && y in b ==> K(key, x) <= K(key, y)
  {
    var s := a + b;
    assert forall i :: 0 <= i < |a| ==> s[i] == a[i];
    assert forall i :: 0 <= i < |b| ==> s[|a| + i] == b[i];
    forall x, y | x in a && y in b
      ensures K(key, x) <= K(key, y)
    {
      var i :| 0 <= i < |a| && a[i] == x;
      var j :| 0 <= j < |b| && b[j] == y;
      assert s[i] == x && s[|a| + j] == y;
    }
  }

  lemma SortedParts(key: Keys, c: Ctx, t: Tree)
    requires Sorted(key, Order(c, t))
    ensures Sorted(key, Before(c)) && Sorted(key, InOrder(t)) && Sorted(key, After(c))
    ensures forall x, y :: x in Before(c) && y in InOrder(t) ==> K(key, x) <= K(key, y)
    ensures forall x, y :: x in InOrder(t) && y in After(c) ==> K(key, x) <= K(key, y)
  {
    SortedSplit(key, Before(c) + InOrder(t), After(c));
    SortedSplit(key, Before(c), InOrder(t));
  }

  // Climbing from a node with a larger key, stopped at a parent with a smaller one.
  lemma ClimbStopLow(key: Keys, c: Ctx, t: Tree, last: Ref, k: int)
    requires Sorted(key, Order(c, t)) && last in InOrder(t) && k < K(key, last)
    requires c.In? && K(key, c.n) < k
    ensures Fits(key, c, k) && FrontOk(key, c, k)
  {
    SortedParts(key, c, t);
    SortedSplit(key, Before(c.up) + InOrder(c.sib), [c.n]);
  }

  // Climbing from a node with a smaller key, stopped at a parent with a larger one.
  lemma ClimbStopHigh(key: Keys, c: Ctx, t: Tree, last: Ref, k: int)
    requires Sorted(key, Order(c, t)) && last in InOrder(t) && K(key, last) < k
    requires c.In? && k < K(key, c.n)
    ensures Fits(key, c, k) && FrontOk(key, c, k)
  {
    SortedParts(key, c, t);
    assert After(c) == [c.n] + (InOrder(c.sib) + After(c.up));
    SortedSplit(key, [c.n], InOrder(c.sib) + After(c.up));
  }

  lemma EqualFits(key: Keys, c: Ctx, t: Tree)
    requires Sorted(key, Order(c, t)) && t.Node?
    ensures Fits(key, c, K(key, t.n))
  {
    SortedParts(key, c, t);
    assert t.n in InOrder(t);
  }

  // One step down keeps the hole fitting.
  lemma DescendFits(key: Keys, c: Ctx, t: Tree, k: int)
    requires Sorted(key, Order(c, t)) && t.Node?
    requires Fits(key, c, k) && (FrontOk(key, c, k) || K(key, t.n) == k)
    ensures k < K(key, t.n) ==> (
      var c' := In(L, c, t.red, t.n, t.r);
      Fits(key, c', k) && FrontOk(key, c', k) && Order(c', t.l) == Order(c, t))
    ensures K(key, t.n) <= k ==> (
      var c' := In(R, c, t.red, t.n, t.l);
      Fits(key, c', k) && FrontOk(key, c', k) && Order(c', t.r) == Order(c, t))
  {
    SortedParts(key, c, t);
    assert InOrder(t) == InOrder(t.l) + [t.n] + InOrder(t.r);
    SortedSplit(key, InOrder(t.l) + [t.n], InOrder(t.r));
    SortedSplit(key, InOrder(t.l), [t.n]);
    OrderZoom(In(L, c, t.red, t.n, t.r), t.l);
    OrderZoom(In(R, c, t.red, t.n, t.l), t.r);
  }

  // Putting a fitting key in the hole keeps the sequence sorted.
  lemma FitsSorted(key: Keys, c: Ctx, z: Ref)
    requires Sorted(key, Before(c) + After(c)) && Fits(key, c, K(key, z))
    ensures Sorted(key, Before(c) + [z] + After(c))
  {
    SortedSplit(key, Before(c), After(c));
  }

  // In a sequence without repetition nothing follows the last element.
  lemma NothingAfterLast(a: seq<Ref>, n: Ref, b: seq<Ref>)
    requires (a + [n] + b)[|a + [n] + b| - 1] == n
    requires forall i, j :: 0 <= i < j < |a + [n] + b| ==> (a + [n] + b)[i] != (a + [n] + b)[j]
    ensures b == []
  {
    assert (a + [n] + b)[|a|] == n;
  }

  lemma LocateOrder(t: Tree, n: Ref)
    requires n in InOrder(t)
    ensures var z := Locate(Top, t, n);
      InOrder(t) == (Before(z.0) + InOrder(z.1.l)) + [n] + (InOrder(z.1.r) + After(z.0))
  {
    var z := Locate(Top, t, n);
    OrderFill(z.0, z.1);
    Flatten(Before(z.0), InOrder(z.1.l), n, InOrder(z.1.r), After(z.0));
  }

  // The hole to the right of the last node.
  lemma MaxHole(m: Store, pos: Pos, key: Keys, tree: Tree, n: Ref) returns (c: Ctx)
    requires At(m, pos, Top, tree) && Sorted(key, InOrder(tree))
    requires InOrder(tree) != [] && n == InOrder(tree)[|InOrder(tree)| - 1]
    ensures At(m, pos, c, Leaf) && Fill(c, Leaf) == tree && After(c) == []
    ensures c.In? && c.side == R && c.n == n && Order(c, Leaf) == InOrder(tree) && Sorted(key, Before(c))
    ensures n in Before(c) && Before(c)[|Before(c)| - 1] == n
  {
    var z := Locate(Top, tree, n);
    var a, b := Before(z.0) + InOrder(z.1.l), InOrder(z.1.r) + After(z.0);
    InOrderPlaced(pos, tree, 0.0, 1.0);
    LocateOrder(tree, n);
    NothingAfterLast(a, n, b);
    assert z.1.r.Leaf? by {
      assert InOrder(z.1.r) == [];
    }
    AtFill(m, pos, z.0, z.1);
    c := In(R, z.0, z.1.red, n, z.1.l);
    Zoom(m, pos, c, Leaf);
    OrderFill(c, Leaf);
    assert Before(c) == Order(c, Leaf);
  }

  lemma MaxFits(key: Keys, c: Ctx, k: int)
    requires Sorted(key, Before(c)) && Before(c) != [] && After(c) == []
    requires K(key, Before(c)[|Before(c)| - 1]) <= k
    ensures Fits(key, c, k) && FrontOk(key, c, k)
  {
  }

  lemma NotLast(key: Keys, c: Ctx, n: Ref, k: int)
    requires Fits(key, c, k) && n in Order(c, Leaf) && k < K(key, n)
    ensures After(c) != []
  {
  }

  function First(s: seq<Ref>): Ref {
    if s == [] then NIL else s[0]
  }

  function Last(s: seq<Ref>): Ref {
    if s == [] then NIL else s[|s| - 1]
  }

  /** Exactly the nodes before the hole have keys of at most high. */
  ghost predicate Splits(key: Keys, c: Ctx, high: int) {
    AllAtMost(key, Before(c), high) && AllAtLeast(key, After(c), high + 1)
  }

  // One step of the search for the last key of at most high.
  lemma CutStep(key: Keys, c: Ctx, t: Tree, tree: Tree, high: int)
    requires Fill(c, t) == tree && Sorted(key, InOrder(tree)) && t.Node? && Splits(key, c, high)
    ensures high < K(key, t.n) ==> Splits(key, In(L, c, t.red, t.n, t.r), high)
    ensures K(key, t.n) <= high ==> (
      var c' := In(R, c, t.red, t.n, t.l);
      Splits(key, c', high) && Last(Before(c')) == t.n)
  {
    OrderFill(c, t);
    SortedParts(key, c, t);
    assert InOrder(t) == InOrder(t.l) + [t.n] + InOrder(t.r);
    SortedSplit(key, InOrder(t.l) + [t.n], InOrder(t.r));
    SortedSplit(key, InOrder(t.l), [t.n]);
  }

  lemma CutAt(key: Keys, a: seq<Ref>, b: seq<Ref>, high: int)
    requires AllAtMost(key, a, high) && AllAtLeast(key, b, high + 1)
    ensures forall i :: 0 <= i < |a + b| ==> (i < |a| <==> K(key, (a + b)[i]) <= high)
  {
    forall i | 0 <= i < |a + b|
      ensures i < |a| <==> K(key, (a + b)[i]) <= high
    {
      if i < |a| {
        assert (a + b)[i] == a[i];
      } else {
        assert (a + b)[i] == b[i - |a|];
      }
    }
  }

  /** The nodes with low <= key <= high, in the same order. */
  function Within(key: Keys, s: seq<Ref>, low: int, high: int): seq<Ref> {
    if s == [] then []
    else (if low <= K(key, s[0]) <= high then [s[0]] else []) + Within(key, s[1..], low, high)
  }

  lemma {:induction false} WithinIsSlice(key: Keys, s: seq<Ref>, low: int, high: int, lo: nat, hi: nat)
    requires lo <= hi <= |s| && forall i :: 0 <= i < |s| ==> (lo <= i < hi <==> low <= K(key, s[i]) <= high)
    ensures Within(key, s, low, high) == s[lo..hi]
  {
    if s != [] {
      var lo', hi' := if lo == 0 then 0 else lo - 1, if hi == 0 then 0 else hi - 1;
      WithinIsSlice(key, s[1..], low, high, lo', hi');
      SliceOfRest(s, lo, hi);
    }
  }

  lemma SliceOfRest(s: seq<Ref>, lo: nat, hi: nat)
    requires lo <= hi <= |s| && s != []
    ensures 0 < lo ==> s[lo..hi] == s[1..][lo - 1..hi - 1]
    ensures lo == 0 < hi ==> s[lo..hi] == [s[0]] + s[1..][..hi - 1]
  {
    assert s[1..] == s[1..|s|];
    if 0 < lo {
      assert forall i :: lo <= i < hi ==> s[1..][i - 1] == s[i];
    }
  }

  function Without(s: seq<Ref>, i: int): seq<Ref>
    requires 0 <= i < |s|
  {
    s[..i] + s[i + 1..]
  }

  lemma IndexIs(s: seq<Ref>, a: seq<Ref>, n: Ref, b: seq<Ref>, i: nat)
    requires s == a + [n] + b && Distinct(s) && i < |s| && s[i] == n
    ensures i == |a| && Without(s, i) == a + b && s[..i] == a && s[i + 1..] == b
  {
    assert s[|a|] == n;
  }

  // Dropping y right after z and then putting y in the stead of z drops just z.
  lemma DropSuccessor(s: seq<Ref>, i: nat, a: seq<Ref>, z: Ref, b: seq<Ref>, y: Ref)
    requires Distinct(s) && i + 1 < |s| && s[i] == z && s[i + 1] == y
    requires Without(s, i + 1) == a + [z] + b
    ensures a + [y] + b == Without(s, i)
  {
    var w := Without(s, i + 1);
    assert w[i] == z;
    assert forall j :: 0 <= j < |w| && j != i ==> w[j] != z;
    assert w[|a|] == z;
    assert |a| == i;
    assert a == w[..i] && b == w[i + 1..];
  }

  lemma WithoutSorted(key: Keys, s: seq<Ref>, i: nat)
    requires Sorted(key, s) && i < |s|
    ensures Sorted(key, Without(s, i))
  {
  }

  lemma TreeDistinct(pos: Pos, t: Tree)
    requires Placed(pos, t, 0.0, 1.0)
    ensures Distinct(InOrder(t))
  {
    InOrderPlaced(pos, t, 0.0, 1.0);
  }
}
