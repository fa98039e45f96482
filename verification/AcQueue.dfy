/** The breadth-first queue over the nodes of a trie. */
module AcQueue {
  import opened Sequences
  import opened AcSuffix
  import opened AcTrie

  /** The node n hangs below, for every node but the root. */
  ghost function ParentOf(kids: Kids, path: seq<Word>, n: nat): (p: nat)
    requires IsTrie(kids, path) && 0 < n < |kids|
    ensures p < |kids| && path[n] != [] && path[p] == path[n][..|path[n]| - 1]
    ensures path[n][|path[n]| - 1] in kids[p] && kids[p][path[n][|path[n]| - 1]] == n
  {
    assert NodeOk(kids, path, n) && NodeOk(kids, path, 0);
    WalkInside(kids, path, path[n][..|path[n]| - 1]);
    Walk(kids, path[n][..|path[n]| - 1]).value
  }

  lemma ParentOfKid(kids: Kids, path: seq<Word>, n: nat, c: Char)
    requires IsTrie(kids, path) && n < |kids| && c in kids[n]
    ensures 0 < kids[n][c] < |kids| && ParentOf(kids, path, kids[n][c]) == n
    ensures path[kids[n][c]] == path[n] + [c]
  {
    WalkStep(kids, path, n, c);
    assert NodeOk(kids, path, kids[n][c]);
    assert (path[n] + [c])[..|path[n]|] == path[n];
  }

  ghost predicate Handled(queue: seq<nat>, qi: nat, n: nat)
    requires qi <= |queue|
  {
    n == 0 || n in queue[..qi]
  }

  ghost predicate ByDepth(path: seq<Word>, queue: seq<nat>)
    requires forall j :: 0 <= j < |queue| ==> queue[j] < |path|
  {
    forall i, j :: 0 <= i <= j < |queue| ==> |path[queue[i]]| <= |path[queue[j]]|
  }

  ghost predicate KidsQueued(kids: Kids, queue: seq<nat>, n: nat) {
    n < |kids| ==> forall c :: c in kids[n] ==> kids[n][c] in queue
  }

  ghost predicate ParentHandled(kids: Kids, path: seq<Word>, queue: seq<nat>, qi: nat, j: nat)
    requires IsTrie(kids, path) && qi <= |queue| && forall j :: 0 <= j < |queue| ==> 0 < queue[j] < |kids|
  {
    j < |queue| ==> Handled(queue, qi, ParentOf(kids, path, queue[j]))
  }

  ghost predicate HandledOk(kids: Kids, queue: seq<nat>, qi: nat, n: nat)
    requires qi <= |queue|
  {
    Handled(queue, qi, n) ==> KidsQueued(kids, queue, n)
  }

  /** The first qi queued nodes are handled: the queue holds exactly the children of the root and of those. */
  ghost predicate QueueOk(kids: Kids, path: seq<Word>, queue: seq<nat>, qi: nat) {
    && IsTrie(kids, path) && qi <= |queue| && Distinct(queue)
    && (forall j :: 0 <= j < |queue| ==> 0 < queue[j] < |kids|)
    && ByDepth(path, queue)
    && (forall j :: qi <= j < |queue| ==> |path[queue[j]]| <= |path[queue[qi]]| + 1)
    && (forall j: nat :: ParentHandled(kids, path, queue, qi, j))
    && (forall n: nat :: HandledOk(kids, queue, qi, n))
  }

  // Nodes no deeper than the next one to handle are queued already.
  lemma {:induction false} ShallowQueued(kids: Kids, path: seq<Word>, queue: seq<nat>, qi: nat, n: nat)
    requires QueueOk(kids, path, queue, qi) && 0 < n < |kids|
    requires qi < |queue| ==> |path[n]| <= |path[queue[qi]]|
    ensures n in queue
    decreases |path[n]|
  {
    var p := ParentOf(kids, path, n);
    if p != 0 {
      ShallowQueued(kids, path, queue, qi, p);
      var k :| 0 <= k < |queue| && queue[k] == p;
      assert k < qi && queue[..qi][k] == p;
    }
    var c := path[n][|path[n]| - 1];
    assert HandledOk(kids, queue, qi, p);
    assert c in kids[p] && kids[p][c] in queue;
  }

  /** added lists the children of n, each once. */
  ghost predicate Lists(kids: Kids, n: nat, added: seq<nat>)
    requires n < |kids|
  {
    && Distinct(added)
    && (forall c :: c in kids[n] ==> kids[n][c] in added)
    && (forall a :: a in added ==> exists c :: c in kids[n] && kids[n][c] == a)
  }

  lemma SeedQueue(kids: Kids, path: seq<Word>, added: seq<nat>)
    requires IsTrie(kids, path) && Lists(kids, 0, added)
    ensures QueueOk(kids, path, added, 0)
  {
    forall j | 0 <= j < |added|
      ensures 0 < added[j] < |kids| && |path[added[j]]| == 1 && ParentOf(kids, path, added[j]) == 0
    {
      assert added[j] in added;
      var c :| c in kids[0] && kids[0][c] == added[j];
      ParentOfKid(kids, path, 0, c);
    }
    assert forall n: nat :: HandledOk(kids, added, 0, n);
    assert forall j: nat :: ParentHandled(kids, path, added, 0, j);
  }

  lemma ListedKid(kids: Kids, path: seq<Word>, n: nat, added: seq<nat>, a: nat)
    requires IsTrie(kids, path) && n < |kids| && Lists(kids, n, added) && a in added
    ensures 0 < a < |kids| && |path[a]| == |path[n]| + 1 && ParentOf(kids, path, a) == n
  {
    var c :| c in kids[n] && kids[n][c] == a;
    ParentOfKid(kids, path, n, c);
  }

  lemma NewInQueue(kids: Kids, path: seq<Word>, queue: seq<nat>, qi: nat, added: seq<nat>)
    requires QueueOk(kids, path, queue, qi) && qi < |queue| && Lists(kids, queue[qi], added)
    ensures forall j :: 0 <= j < |added| ==>
      0 < added[j] < |kids| && |path[added[j]]| == |path[queue[qi]]| + 1 && ParentOf(kids, path, added[j]) == queue[qi]
    ensures Distinct(queue + added)
  {
    forall j | 0 <= j < |added|
      ensures 0 < added[j] < |kids| && |path[added[j]]| == |path[queue[qi]]| + 1
      ensures ParentOf(kids, path, added[j]) == queue[qi] && added[j] !in queue
    {
      ListedKid(kids, path, queue[qi], added, added[j]);
      forall k | 0 <= k < |queue|
        ensures queue[k] != added[j]
      {
        assert ParentHandled(kids, path, queue, qi, k);
      }
    }
  }

  lemma ExtendQueue(kids: Kids, path: seq<Word>, queue: seq<nat>, qi: nat, added: seq<nat>)
    requires QueueOk(kids, path, queue, qi) && qi < |queue| && Lists(kids, queue[qi], added)
    ensures QueueOk(kids, path, queue + added, qi + 1)
  {
    var q, q1 := queue + added, qi + 1;
    NewInQueue(kids, path, queue, qi, added);
    assert q[..qi + 1] == queue[..qi] + [queue[qi]];
    forall j: nat
      ensures ParentHandled(kids, path, q, q1, j)
    {
      assert ParentHandled(kids, path, queue, qi, j);
    }
    forall n: nat
      ensures HandledOk(kids, q, q1, n)
    {
      assert HandledOk(kids, queue, qi, n);
    }
  }

  // A sequence of distinct numbers below n has at most n elements.
  lemma {:induction false} DistinctBound(s: seq<nat>, n: nat)
    requires Distinct(s) && forall j :: 0 <= j < |s| ==> s[j] < n
    ensures |s| <= n
  {
    if n > 0 {
      if n - 1 in s {
        var k :| 0 <= k < |s| && s[k] == n - 1;
        DistinctBound(s[..k] + s[k + 1..], n - 1);
      } else {
        DistinctBound(s, n - 1);
      }
    }
  }
}
