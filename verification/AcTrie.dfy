/** Keyword tries: nodes, the words that lead to them, and the set of trie paths. */
module AcTrie {
  import opened Optional
  import opened AcSuffix

  type Kids = seq<map<Char, nat>>

  /** The node reached from the root (node 0) along w. */
  ghost function Walk(kids: Kids, w: Word): Option<nat> {
    if w == [] then Some(0)
    else
      match Walk(kids, w[..|w| - 1])
      case None => None
      case Some(n) => if n < |kids| && w[|w| - 1] in kids[n] then Some(kids[n][w[|w| - 1]]) else None
  }

  ghost predicate IsPath(kids: Kids, w: Word) {
    Walk(kids, w).Some?
  }

  ghost predicate NodeOk(kids: Kids, path: seq<Word>, n: nat)
    requires |kids| == |path|
  {
    n < |kids| ==> Walk(kids, path[n]) == Some(n)
  }

  ghost predicate EdgeOk(kids: Kids, path: seq<Word>, n: nat, c: Char)
    requires |kids| == |path|
  {
    n < |kids| && c in kids[n] ==> kids[n][c] < |kids| && path[kids[n][c]] == path[n] + [c]
  }

  /** path gives for every node the only word that leads to it. */
  ghost predicate IsTrie(kids: Kids, path: seq<Word>) {
    && |kids| == |path| > 0 && path[0] == []
    && (forall n: nat :: NodeOk(kids, path, n))
    && (forall n: nat, c :: EdgeOk(kids, path, n, c))
  }

  lemma {:induction false} WalkInside(kids: Kids, path: seq<Word>, w: Word)
    requires IsTrie(kids, path) && IsPath(kids, w)
    ensures Walk(kids, w).value < |kids| && path[Walk(kids, w).value] == w
  {
    if w != [] {
      WalkInside(kids, path, w[..|w| - 1]);
      var n, c := Walk(kids, w[..|w| - 1]).value, w[|w| - 1];
      assert EdgeOk(kids, path, n, c);
      assert w == w[..|w| - 1] + [w[|w| - 1]];
    }
  }

  lemma WalkStep(kids: Kids, path: seq<Word>, n: nat, c: Char)
    requires IsTrie(kids, path) && n < |kids|
    ensures Walk(kids, path[n] + [c]) == if c in kids[n] then Some(kids[n][c]) else None
    ensures Walk(kids, path[n]) == Some(n)
    ensures c in kids[n] ==> kids[n][c] < |kids| && path[kids[n][c]] == path[n] + [c]
  {
    assert NodeOk(kids, path, n) && EdgeOk(kids, path, n, c);
    assert (path[n] + [c])[..|path[n]|] == path[n];
  }

  /** All trie paths. */
  ghost function Paths(kids: Kids): iset<Word> {
    iset w | IsPath(kids, w)
  }

  lemma PathsClosed(kids: Kids)
    ensures PrefixClosed(Paths(kids))
  {
    forall w, c | w + [c] in Paths(kids)
      ensures w in Paths(kids)
    {
      assert (w + [c])[..|w|] == w;
    }
  }

  // Where the path of a node continues, in terms of its children.
  lemma PathStep(kids: Kids, path: seq<Word>, n: nat, c: Char)
    requires IsTrie(kids, path) && n < |kids|
    ensures path[n] in Paths(kids) && (path[n] + [c] in Paths(kids) <==> c in kids[n])
    ensures c in kids[n] ==> kids[n][c] < |kids| && path[kids[n][c]] == path[n] + [c]
    ensures path[n] == [] <==> n == 0
  {
    WalkStep(kids, path, n, c);
    assert NodeOk(kids, path, 0);
  }
}
