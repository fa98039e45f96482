/** Growing a trie by one node, and the paths along one keyword. */
module AcGrow {
  import opened Optional
  import opened AcSuffix
  import opened AcTrie

  function Grown(kids: Kids, cur: nat, c: Char): Kids
    requires cur < |kids|
  {
    var next: nat := |kids|;
    var cell: map<Char, nat> := kids[cur][c := next];
    kids[cur := cell] + [map[]]
  }

  // Only the word of the new node becomes a path.
  lemma {:induction false} WalkGrown(kids: Kids, path: seq<Word>, cur: nat, c: Char, w: Word)
    requires IsTrie(kids, path) && cur < |kids| && c !in kids[cur]
    ensures Walk(Grown(kids, cur, c), w) == if w == path[cur] + [c] then Some(|kids|) else Walk(kids, w)
  {
    var kids' := Grown(kids, cur, c);
    if w != [] {
      var v, d := w[..|w| - 1], w[|w| - 1];
      assert w == v + [d];
      WalkGrown(kids, path, cur, c, v);
      if v == path[cur] + [c] {
        assert kids'[|kids|] == map[];
        WalkStep(kids, path, cur, c);
        assert !IsPath(kids, v);
        assert |w| == |path[cur]| + 2;
      } else if IsPath(kids, v) {
        WalkInside(kids, path, v);
        WalkStep(kids, path, cur, c);
        var n := Walk(kids, v).value;
        assert w == path[cur] + [c] <==> n == cur && d == c by {
          if w == path[cur] + [c] {
            assert v == path[cur];
          }
        }
        if n != cur {
          assert kids'[n] == kids[n];
        }
      } else {
        WalkStep(kids, path, cur, c);
      }
    }
  }

  lemma GrownIsTrie(kids: Kids, path: seq<Word>, cur: nat, c: Char)
    requires IsTrie(kids, path) && cur < |kids| && c !in kids[cur]
    ensures IsTrie(Grown(kids, cur, c), path + [path[cur] + [c]])
    ensures forall w :: Walk(Grown(kids, cur, c), w) == if w == path[cur] + [c] then Some(|kids|) else Walk(kids, w)
  {
    var kids', path' := Grown(kids, cur, c), path + [path[cur] + [c]];
    forall w
      ensures Walk(kids', w) == if w == path[cur] + [c] then Some(|kids|) else Walk(kids, w)
    {
      WalkGrown(kids, path, cur, c, w);
    }
    forall n: nat
      ensures NodeOk(kids', path', n)
    {
      if n < |kids| {
        assert NodeOk(kids, path, n);
        WalkStep(kids, path, cur, c);
      }
    }
    forall n: nat, d
      ensures EdgeOk(kids', path', n, d)
    {
      assert EdgeOk(kids, path, n, d);
    }
  }
}
