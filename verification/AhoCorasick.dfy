/** The keyword automaton: loading, failure links and search. */
module AhoCorasick {
  import opened Optional
  import opened Sequences
  import opened AcSuffix
  import opened AcTrie
  import opened AcGrow
  import opened AcQueue
  import opened AcSearch
  import opened AsciiCase

  /** What the source keeps for a keyword: the caller's value, the keyword as given, and a length. */
  datatype Term = Term(keymapval: int, key: Word, len: nat)

  function Fold(caseInsensitive: bool, c: Char): Char {
    if caseInsensitive && 'A' as int <= c <= 'Z' as int then c + 32 else c
  }

  function Folded(caseInsensitive: bool, w: Word): (f: Word)
    ensures |f| == |w|
    ensures forall i :: 0 <= i < |w| ==> f[i] == Fold(caseInsensitive, w[i])
  {
    seq(|w|, i requires 0 <= i < |w| => Fold(caseInsensitive, w[i]))
  }

  ghost predicate Alike(caseInsensitive: bool, a: Char, b: Char) {
    a == b || (caseInsensitive && SameLetter(a, b))
  }

  /** Two words fold alike exactly if they differ in the case of ASCII letters only, and that only in the mode without
      regard to case; in the other mode folding changes nothing, and in this one it leaves no capital letter. */
  lemma FoldsAlike(caseInsensitive: bool, v: Word, w: Word)
    ensures Folded(caseInsensitive, v) == Folded(caseInsensitive, w) <==>
      |v| == |w| && forall i :: 0 <= i < |v| ==> Alike(caseInsensitive, v[i], w[i])
    ensures Folded(false, v) == v
    ensures forall i :: 0 <= i < |v| ==> !(65 <= Folded(true, v)[i] <= 90)
  {
    forall a, b
      ensures Fold(caseInsensitive, a) == Fold(caseInsensitive, b) <==> Alike(caseInsensitive, a, b)
    {
      FoldAlike(caseInsensitive, a, b);
    }
    if Folded(caseInsensitive, v) == Folded(caseInsensitive, w) {
      forall i | 0 <= i < |v|
        ensures Alike(caseInsensitive, v[i], w[i])
      {
        assert Folded(caseInsensitive, v)[i] == Folded(caseInsensitive, w)[i];
      }
    }
  }

  lemma FoldAlike(caseInsensitive: bool, a: Char, b: Char)
    ensures Fold(caseInsensitive, a) == Fold(caseInsensitive, b) <==> Alike(caseInsensitive, a, b)
  {
    if caseInsensitive && a != b && Fold(true, a) == Fold(true, b) {
      assert OneLetter(a, b, Fold(true, a) - 97);
    }
  }

  ghost predicate IsPrefix(p: Word, w: Word) {
    |p| <= |w| && w[..|p|] == p
  }

  class AhoCorasick {
    const alphabet: nat
    const caseInsensitive: bool

    // node attributes, by node number; the root is node 0
    var kids: Kids
    var children: seq<nat>
    var fail: seq<nat>
    var term: seq<Option<Term>>

    var lenCount: nat
    var numKeywords: nat

    ghost var path: seq<Word>

    ghost predicate Valid()
      reads this
    {
      && IsTrie(kids, path)
      && |children| == |fail| == |term| == |kids|
      && (forall n :: 0 <= n < |kids| ==> children[n] == |kids[n]|)
      && (forall n, c :: 0 <= n < |kids| && c in kids[n] ==> 0 <= c < alphabet)
      && (forall n :: 0 <= n < |kids| ==> fail[n] < |kids|)
      && term[0] == None
    }

    ghost function Snapshot(): Snap
      reads this
    {
      Snap(kids, path, term)
    }

    /** Every stored keyword is kept as it was given, at the node for its folded form. */
    ghost predicate KeysFolded()
      requires Valid()
      reads this
    {
      forall w :: w in Terms(Snapshot()) ==> Folded(caseInsensitive, Terms(Snapshot())[w].key) == w
    }

    constructor (alphabet: nat, caseInsensitive: bool)
      requires alphabet <= 255
      ensures Valid() && this.alphabet == alphabet && this.caseInsensitive == caseInsensitive
      ensures Paths(kids) == iset{[]} && Terms(Snapshot()) == imap[] && KeysFolded()
    {
      this.alphabet := alphabet;
      this.caseInsensitive := caseInsensitive;
      kids, children, fail, term := [map[]], [0], [0], [None];
      lenCount, numKeywords := 0, 0;
      path := [[]];
      new;
      forall w
        ensures IsPath(kids, w) <==> w == []
      {
        OnlyRoot(kids, w);
      }
    }

    // ----- loading -----

    // Gives node cur a fresh child for c.
    method AddChild(cur: nat, c: Char)
      requires Valid() && cur < |kids| && c !in kids[cur] && 0 <= c < alphabet
      modifies this`kids, this`children, this`fail, this`term, this`path
      ensures Valid() && kids == Grown(old(kids), cur, c) && path == old(path) + [old(path[cur]) + [c]]
      ensures Paths(kids) == Paths(old(kids)) + iset{old(path[cur]) + [c]} &&
        Terms(Snapshot()) == Terms(old(Snapshot()))
    {
      GrownIsTrie(kids, path, cur, c);
      WalkStep(kids, path, cur, c);
      ghost var s := Snapshot();
      children := children[cur := children[cur] + 1] + [0];
      path := path + [path[cur] + [c]];
      kids := Grown(kids, cur, c);
      fail := fail + [0];
      term := term + [None];
      GrownTerms(s, Snapshot(), cur, c);
    }

    // The child of cur for c, made when it is missing.
    method ChildFor(cur: nat, c: Char) returns (next: nat)
      requires Valid() && cur < |kids| && 0 <= c < alphabet
      modifies this`kids, this`children, this`fail, this`term, this`path
      ensures Valid() && next < |kids| && path[next] == old(path[cur]) + [c]
      ensures Paths(kids) == Paths(old(kids)) + iset{path[next]} && Terms(Snapshot()) == Terms(old(Snapshot()))
    {
      WalkStep(kids, path, cur, c);
      if c in kids[cur] {
        next := kids[cur][c];
      } else {
        next := |kids|;
        AddChild(cur, c);
      }
    }

    /** A new keyword is counted and the length counter starts again at 0; a keyword that was there
        leaves its length behind, so that the next one is stored with both lengths added up. */
    ghost predicate Counts(duplicate: bool, len: nat, before: nat)
      reads this
    {
      if duplicate then lenCount == len && numKeywords == before else lenCount == 0 && numKeywords == before + 1
    }

    // loadkeyword_helper: cur is the node for the first k characters of the folded keyword f.
    method LoadHelper(cur: nat, keyword: Word, k: nat, keymapval: int, ghost f: Word, ghost len: nat)
      requires Valid() && cur < |kids| && k <= |keyword| == |f| && keyword != [] && path[cur] == f[..k]
      requires len == lenCount + (|keyword| - k) + 1
      requires forall i :: 0 <= i < |f| ==> 0 <= f[i] == Fold(caseInsensitive, keyword[i]) < alphabet
      modifies this`kids, this`children, this`fail, this`term, this`path, this`lenCount, this`numKeywords
      ensures Valid() && Paths(kids) == Paths(old(kids)) + PrefixesBeyond(f, k)
      ensures Terms(Snapshot()) == Recorded(Terms(old(Snapshot())), f, Term(keymapval, keyword, len))
      ensures Counts(f in Terms(old(Snapshot())), len, old(numKeywords))
      decreases |keyword| - k
    {
      hide Terms, Recorded, Paths;
      lenCount := lenCount + 1;
      if k < |keyword| {
        assert f[..k] + [f[k]] == f[..k + 1];
        PrefixesStep(f, k, Paths(kids));
        var next := ChildFor(cur, Fold(caseInsensitive, keyword[k]));
        LoadHelper(next, keyword, k + 1, keymapval, f, len);
      } else {
        assert path[cur] == f;
        NoPrefixBeyond(f);
        LoadEnd(cur, keyword, keymapval);
      }
    }

    // The whole keyword has been walked.
    method LoadEnd(cur: nat, keyword: Word, keymapval: int)
      requires Valid() && cur < |kids| && path[cur] != []
      modifies this`term, this`lenCount, this`numKeywords
      ensures Valid()
      ensures Terms(Snapshot()) == Recorded(Terms(old(Snapshot())), path[cur], Term(keymapval, keyword, old(lenCount)))
      ensures Counts(path[cur] in Terms(old(Snapshot())), old(lenCount), old(numKeywords))
    {
      assert NodeOk(kids, path, cur);
      if term[cur] == None {
        MarkTerm(cur, Term(keymapval, keyword, lenCount));
        lenCount := 0;
        numKeywords := numKeywords + 1;
      }
    }

    method MarkTerm(cur: nat, t: Term)
      requires Valid() && cur < |kids| && path[cur] != []
      modifies this`term
      ensures Valid() && Terms(Snapshot()) == Terms(old(Snapshot()))[path[cur] := t]
    {
      ghost var s := Snapshot();
      term := term[cur := Some(t)];
      MarkedTerms(s, Snapshot(), cur, t);
    }

    /** ac_loadkeyword: an empty keyword is refused; a keyword that is there already is left alone. */
    method LoadKeyword(keyword: Word, keymapval: int) returns (ok: bool)
      requires Valid()
      requires forall i :: 0 <= i < |keyword| ==> 0 <= Folded(caseInsensitive, keyword)[i] < alphabet
      modifies this`kids, this`children, this`fail, this`term, this`path, this`lenCount, this`numKeywords
      ensures Valid() && ok == (keyword != [])
      ensures !ok ==> unchanged(this)
      ensures ok ==> Paths(kids) == Paths(old(kids)) + PrefixesBeyond(Folded(caseInsensitive, keyword), 0)
      ensures ok ==> Terms(Snapshot()) == Recorded(Terms(old(Snapshot())), Folded(caseInsensitive, keyword),
        Term(keymapval, keyword, old(lenCount) + |keyword| + 1))
      ensures ok ==> Counts(Folded(caseInsensitive, keyword) in Terms(old(Snapshot())),
        old(lenCount) + |keyword| + 1, old(numKeywords))
      ensures old(KeysFolded()) ==> KeysFolded()
    {
      if |keyword| == 0 {
        return false;
      }
      LoadHelper(0, keyword, 0, keymapval, Folded(caseInsensitive, keyword), lenCount + |keyword| + 1);
      return true;
    }

    // ----- failure links -----

    /** Every failure link leads to the longest proper suffix that is a trie path. */
    ghost predicate FailsRight()
      requires Valid()
      reads this
    {
      forall n: nat :: FailRight(kids, path, fail, n)
    }

    // What one look at the children of a state says about Step.
    lemma Probe(state: nat, c: Char)
      requires Valid() && state < |kids|
      ensures c in kids[state] ==> kids[state][c] < |kids| && path[kids[state][c]] == Step(Paths(kids), path[state], c)
      ensures c !in kids[state] && state == 0 ==> Step(Paths(kids), path[state], c) == path[0]
      ensures c !in kids[state] && state != 0 ==>
        && path[state] != []
        && Step(Paths(kids), path[state], c) == Step(Paths(kids), FailWord(Paths(kids), path[state]), c)
    {
      PathStep(kids, path, state, c);
      PathStep(kids, path, 0, c);
    }

    // Follows failure links from a state until c can be read.
    method FailTarget(state0: nat, c: Char, ghost d: nat) returns (target: nat)
      requires Valid() && state0 < |kids| && |path[state0]| <= d && ShallowRight(kids, path, fail, d)
      ensures target < |kids| && path[target] == Step(Paths(kids), path[state0], c)
    {
      var state: nat := state0;
      while c !in kids[state] && state != 0
        invariant Valid() && state < |kids| && |path[state]| <= d
        invariant Step(Paths(kids), path[state], c) == Step(Paths(kids), path[state0], c)
        decreases |path[state]|
      {
        Probe(state, c);
        assert FailRight(kids, path, fail, state);
        state := fail[state];
      }
      Probe(state, c);
      target := if c in kids[state] then kids[state][c] else 0;
    }

    // ResetFailNodes
    method ResetFailNodes()
      requires Valid()
      modifies this`fail
      ensures Valid() && fail == seq(|kids|, _ => 0)
    {
      fail := seq(|kids|, _ => 0);
    }

    // Queues the children of cur in character order and sets their failure links.
    method Expand(cur: nat) returns (added: seq<nat>)
      requires Valid() && cur < |kids| && ShallowRight(kids, path, fail, |path[cur]|)
      modifies this`fail
      ensures Valid() && Lists(kids, cur, added)
      ensures FailsExtend(kids, path, old(fail), fail, added)
    {
      hide ShallowRight, KeysUpTo, Terms, Lists;
      added := [];
      var i: nat, num: nat := 0, 0;
      ghost var m, fail0 := kids[cur], fail;
      KeysBelow(m, alphabet, 0);
      while num < children[cur]
        invariant Valid() && kids[cur] == m && |fail0| == |kids|
        invariant ShallowRight(kids, path, fail, |path[cur]|)
        invariant i <= alphabet && num == |KeysUpTo(m, i)|
        invariant ListsUpTo(kids, cur, added, i) && FailsExtend(kids, path, fail0, fail, added)
        decreases alphabet - i
      {
        KeysBelow(m, alphabet, i);
        if i in kids[cur] {
          num := num + 1;
          added := SetFail(cur, i, added, fail0);
        } else {
          ListSame(kids, cur, added, i);
        }
        i := i + 1;
      }
      KeysBelow(m, alphabet, i);
      ListAll(kids, cur, added, i);
    }

    // The child of cur for c joins the queue with its failure link.
    method SetFail(cur: nat, c: Char, added0: seq<nat>, ghost fail0: seq<nat>) returns (added: seq<nat>)
      requires Valid() && cur < |kids| && c in kids[cur] && ShallowRight(kids, path, fail, |path[cur]|)
      requires ListsUpTo(kids, cur, added0, c) && |fail0| == |kids| && FailsExtend(kids, path, fail0, fail, added0)
      modifies this`fail
      ensures Valid() && ShallowRight(kids, path, fail, |path[cur]|)
      ensures added == added0 + [kids[cur][c]] && ListsUpTo(kids, cur, added, c + 1)
      ensures FailsExtend(kids, path, fail0, fail, added)
    {
      var kid := kids[cur][c];
      added := added0 + [kid];
      ListMore(kids, path, cur, added0, c);
      var target: nat := 0;
      if cur != 0 {
        assert FailRight(kids, path, fail, cur);
        target := FailTarget(fail[cur], c, |path[cur]|);
      }
      FailSet(kids, path, fail, cur, c, target);
      FailsExtendMore(kids, path, fail0, fail, added0, kid, target);
      fail := fail[kid := target];
    }

    /** ac_finalize: breadth-first over the trie, setting every failure link. */
    method Finalize()
      requires Valid()
      modifies this`fail
      ensures Valid() && FailsRight() && fail[0] == 0
    {
      hide Distinct, Terms, Lists, QueuedRight, FailsExtend;
      ResetFailNodes();
      PathStep(kids, path, 0, 0);
      assert ShallowRight(kids, path, fail, |path[0]|) by {
        RootsOnly();
      }
      ghost var reset := fail;
      var queue := Expand(0);
      SeedRight(kids, path, reset, fail, queue);
      SeedQueue(kids, path, queue);
      var qi: nat := 0;
      while qi < |queue|
        invariant Valid() && QueueOk(kids, path, queue, qi)
        invariant QueuedRight(kids, path, fail, queue) && fail[0] == 0
        decreases |kids| - qi
      {
        DistinctBound(queue, |kids|);
        QueuedShallow(kids, path, fail, queue, qi);
        ghost var fail0 := fail;
        var added := Expand(queue[qi]);
        QueuedStillRight(kids, path, fail0, fail, queue, qi, added);
        ExtendQueue(kids, path, queue, qi, added);
        queue := queue + added;
        qi := qi + 1;
      }
      QueuedAll(kids, path, fail, queue);
    }

    lemma RootsOnly()
      requires Valid()
      ensures forall n: nat :: n < |kids| && |path[n]| <= 0 ==> n == 0
    {
      forall n: nat | n < |kids| && |path[n]| <= 0
        ensures n == 0
      {
        PathStep(kids, path, n, 0);
      }
    }

    // ----- search -----

    /** The stored keywords, by the word that leads to them. */
    ghost function KeyMap(): imap<Word, Word>
      requires Valid()
      reads this
    {
      imap w | w in Terms(Snapshot()) :: Terms(Snapshot())[w].key
    }

    lemma TermOf(n: nat)
      requires Valid() && n < |kids|
      ensures path[n] in KeyMap() <==> term[n].Some?
      ensures term[n].Some? ==> KeyMap()[path[n]] == term[n].value.key && path[n] != [] && n != 0
    {
      assert NodeOk(kids, path, n);
      PathStep(kids, path, n, 0);
      assert Stored(Snapshot(), path[n]) == term[n];
    }

    /** Different nodes hold different keywords, so what searches report tells which one was found;
        and no search of any text misses a keyword exactly if no path ends in a third keyword. */
    lemma MissesNothingIff()
      requires Valid() && KeysFolded()
      ensures PrefixClosed(Paths(kids)) && [] !in KeyMap() && KeysDiffer(KeyMap())
      ensures forall w :: w in KeyMap() ==> w in Paths(kids)
      ensures (forall text: Word :: text != [] ==> NoneMissed(Paths(kids), KeyMap(), text)) <==>
        (forall v :: v in Paths(kids) ==> AtMostTwo(Paths(kids), KeyMap(), v))
    {
      hide NoneMissed, AtMostTwo;
      PathsClosed(kids);
      forall v, w | v in KeyMap() && w in KeyMap() && KeyMap()[v] == KeyMap()[w]
        ensures v == w
      {
        assert Folded(caseInsensitive, KeyMap()[v]) == v && Folded(caseInsensitive, KeyMap()[w]) == w;
      }
      assert [] !in KeyMap() by {
        PathStep(kids, path, 0, 0);
        TermOf(0);
      }
      NothingMissedIff(Paths(kids), KeyMap());
    }

    /** The automaton is ready for searching. */
    ghost predicate Ready()
      reads this
    {
      Valid() && FailsRight() && fail[0] == 0
    }

    // The callbacks for the failure chain of cur; all name the keyword of its failure node.
    method ReportChain(cur: nat, at: nat, events0: seq<Event>, stop: seq<Event> -> bool)
      returns (stopped: bool, events: seq<Event>)
      requires Ready() && 0 < cur < |kids| && NeverStops(stop, events0)
      ensures var all := events0 + Stamped(Chain(Paths(kids), KeyMap(), FailWord(Paths(kids), path[cur])), at);
        if stopped then |events0| < |events| && events <= all && StopsAt(stop, events)
        else events == all && NeverStops(stop, events)
    {
      assert FailRight(kids, path, fail, cur);
      events := events0;
      stopped := false;
      var first: nat, failstate: nat := fail[cur], fail[cur];
      TermOf(first);
      if term[first] == None {
        assert Stamped([], at) == [];
        return;
      }
      var k := term[first].value.key;
      ghost var m := ChainLength(Paths(kids), KeyMap(), path[first]);
      ghost var n := 0;
      assert Stamped(Repeat(k, 0), at) == [];
      while term[failstate].Some?
        invariant failstate < |kids| && n + ChainLength(Paths(kids), KeyMap(), path[failstate]) == m
        invariant events == events0 + Stamped(Repeat(k, n), at) && NeverStops(stop, events)
        decreases m - n
      {
        TermOf(failstate);
        assert FailRight(kids, path, fail, failstate);
        RepeatMore(events0, k, n, m, at);
        OneMore(stop, events, Event(k, at));
        events := events + [Event(k, at)];
        n := n + 1;
        if stop(events) {
          return true, events;
        }
        failstate := fail[failstate];
      }
      TermOf(failstate);
    }

    // The callbacks on arriving in cur.
    method Report(cur: nat, at: nat, events0: seq<Event>, stop: seq<Event> -> bool)
      returns (stopped: bool, events: seq<Event>)
      requires Ready() && 0 < cur < |kids| && NeverStops(stop, events0)
      ensures var all := events0 + Stamped(Reports(Paths(kids), KeyMap(), path[cur]), at);
        if stopped then |events0| < |events| && events <= all && StopsAt(stop, events)
        else events == all && NeverStops(stop, events)
    {
      TermOf(cur);
      PathStep(kids, path, cur, 0);
      events := events0;
      ghost var own, chain := Own(KeyMap(), path[cur]), Chain(Paths(kids), KeyMap(), FailWord(Paths(kids), path[cur]));
      StampedAppend(events0, own, chain, at);
      if term[cur].Some? {
        var k := term[cur].value.key;
        OneMore(stop, events, Event(k, at));
        events := events + [Event(k, at)];
        if stop(events) {
          return true, events;
        }
      }
      stopped, events := ReportChain(cur, at, events, stop);
    }

    /** The search from the state for v has made the callbacks for i characters and works on the next. */
    ghost predicate Searching(state: nat, i: nat, events: seq<Event>, v: Word, buf: Word, stop: seq<Event> -> bool)
      requires Valid()
      reads this
    {
      && i <= |buf| && state < |kids| && Tracks(Paths(kids), v, buf, i, path[state])
      && events == Run(Paths(kids), KeyMap(), v, buf, i) && NeverStops(stop, events)
    }

    lemma FailStep(state: nat, i: nat, events: seq<Event>, v: Word, buf: Word, stop: seq<Event> -> bool)
      requires Ready() && Searching(state, i, events, v, buf, stop)
      requires i < |buf| && buf[i] !in kids[state] && state != 0
      ensures Searching(fail[state], i, events, v, buf, stop) && |path[fail[state]]| < |path[state]|
    {
      Probe(state, buf[i]);
      assert FailRight(kids, path, fail, state);
    }

    lemma SkipStep(i: nat, events: seq<Event>, v: Word, buf: Word, stop: seq<Event> -> bool)
      requires Ready() && Searching(0, i, events, v, buf, stop) && i < |buf| && buf[i] !in kids[0]
      ensures Searching(0, i + 1, events, v, buf, stop)
    {
      Probe(0, buf[i]);
      RunNext(Paths(kids), KeyMap(), v, buf, i);
      TracksFrom(Paths(kids), v, buf, i + 1);
    }

    // The character at index i can be read from state0.
    method ReadStep(state0: nat, i: nat, events0: seq<Event>, ghost v: Word, ghost buf: Word,
                    stop: seq<Event> -> bool, c: Char)
      returns (stopped: bool, state: nat, events: seq<Event>)
      requires Ready() && Searching(state0, i, events0, v, buf, stop) && i < |buf| && buf[i] == c && c in kids[state0]
      ensures !stopped ==> Searching(state, i + 1, events, v, buf, stop)
      ensures stopped ==> Found(state, events, v, buf, stop)
    {
      ghost var p, keys := Paths(kids), KeyMap();
      Probe(state0, c);
      PathStep(kids, path, state0, c);
      state := kids[state0][c];
      PathStep(kids, path, state, 0);
      RunNext(p, keys, v, buf, i);
      TracksFrom(p, v, buf, i + 1);
      stopped, events := Report(state, i + 1, events0, stop);
      if stopped {
        LastStamp(events0, Reports(p, keys, path[state]), i + 1, events);
      }
    }

    /** The search ended at a callback that asked to stop, in the state it had then. */
    ghost predicate Found(state: nat, events: seq<Event>, v: Word, buf: Word, stop: seq<Event> -> bool)
      requires Valid()
      reads this
    {
      && state < |kids| && StopsAt(stop, events) && events[|events| - 1].at <= |buf|
      && events <= Run(Paths(kids), KeyMap(), v, buf, |buf|)
      && path[state] == StateAt(Paths(kids), v, buf, events[|events| - 1].at)
    }

    /** ac_searchstr from the state state0; stop tells whether a callback asks to stop. */
    method SearchStr(state0: nat, buf: Word, stop: seq<Event> -> bool)
      returns (found: bool, state: nat, events: seq<Event>)
      requires Ready() && state0 < |kids|
      ensures state < |kids|
      ensures !found ==>
        && events == Run(Paths(kids), KeyMap(), path[state0], buf, |buf|) && NeverStops(stop, events)
        && path[state] == StateAt(Paths(kids), path[state0], buf, |buf|)
      ensures found ==> Found(state, events, path[state0], buf, stop)
    {
      ghost var v := path[state0];
      events := [];
      state := state0;
      found := false;
      TracksFrom(Paths(kids), v, buf, 0);
      var i: nat := 0;
      while i < |buf|
        invariant Searching(state, i, events, v, buf, stop)
        decreases |buf| - i, |path[state]|
      {
        var c := buf[i];
        if c in kids[state] {
          found, state, events := ReadStep(state, i, events, v, buf, stop, c);
          if found {
            return;
          }
        } else if state != 0 {
          FailStep(state, i, events, v, buf, stop);
          state := fail[state];
          continue;
        } else {
          SkipStep(i, events, v, buf, stop);
        }
        i := i + 1;
      }
    }
  }

  datatype Snap = Snap(kids: Kids, path: seq<Word>, term: seq<Option<Term>>)

  ghost predicate Sound(s: Snap) {
    IsTrie(s.kids, s.path) && |s.term| == |s.kids|
  }

  ghost function Stored(s: Snap, w: Word): Option<Term>
    requires Sound(s)
  {
    if IsPath(s.kids, w) then WalkInside(s.kids, s.path, w); s.term[Walk(s.kids, w).value] else None
  }

  /** The keywords and what is stored for them. */
  ghost function Terms(s: Snap): imap<Word, Term>
    requires Sound(s)
  {
    imap w | Stored(s, w).Some? :: Stored(s, w).value
  }

  ghost function PrefixesBeyond(f: Word, k: nat): iset<Word> {
    iset w | IsPrefix(w, f) && |w| > k
  }

  /** A keyword is recorded once; len is what the source puts in the length field. */
  ghost function Recorded(terms: imap<Word, Term>, f: Word, t: Term): imap<Word, Term> {
    if f in terms then terms else terms[f := t]
  }

  lemma GrownTerms(s: Snap, s': Snap, cur: nat, c: Char)
    requires Sound(s) && Sound(s') && cur < |s.kids| && c !in s.kids[cur]
    requires s'.kids == Grown(s.kids, cur, c) && s'.term == s.term + [None]
    ensures Paths(s'.kids) == Paths(s.kids) + iset{s.path[cur] + [c]} && Terms(s') == Terms(s)
  {
    WalkStep(s.kids, s.path, cur, c);
    forall v
      ensures IsPath(s'.kids, v) <==> IsPath(s.kids, v) || v == s.path[cur] + [c]
      ensures Stored(s', v) == Stored(s, v)
    {
      WalkGrown(s.kids, s.path, cur, c, v);
      if IsPath(s.kids, v) {
        WalkInside(s.kids, s.path, v);
      }
    }
  }

  lemma MarkedTerms(s: Snap, s': Snap, cur: nat, t: Term)
    requires Sound(s) && cur < |s.kids| && s' == s.(term := s.term[cur := Some(t)])
    ensures Terms(s') == Terms(s)[s.path[cur] := t]
  {
    assert NodeOk(s.kids, s.path, cur);
    forall v
      ensures Stored(s', v) == if v == s.path[cur] then Some(t) else Stored(s, v)
    {
      if IsPath(s.kids, v) {
        WalkInside(s.kids, s.path, v);
      }
    }
  }

  lemma PrefixesStep(f: Word, k: nat, paths: iset<Word>)
    requires k < |f|
    ensures (paths + iset{f[..k + 1]}) + PrefixesBeyond(f, k + 1) == paths + PrefixesBeyond(f, k)
  {
  }

  lemma NoPrefixBeyond(f: Word)
    ensures PrefixesBeyond(f, |f|) == iset{}
  {
  }

  ghost predicate FailRight(kids: Kids, path: seq<Word>, fail: seq<nat>, n: nat)
    requires IsTrie(kids, path) && |fail| == |kids|
  {
    0 < n < |kids| ==> fail[n] < |kids| && path[n] != [] && path[fail[n]] == FailWord(Paths(kids), path[n])
  }

  ghost predicate ShallowRight(kids: Kids, path: seq<Word>, fail: seq<nat>, d: nat)
    requires IsTrie(kids, path) && |fail| == |kids|
  {
    forall n: nat :: n < |kids| && |path[n]| <= d ==> FailRight(kids, path, fail, n)
  }

  /** fail differs from fail0 only at the added nodes, and is right there. */
  ghost predicate FailsExtend(kids: Kids, path: seq<Word>, fail0: seq<nat>, fail: seq<nat>, added: seq<nat>)
    requires IsTrie(kids, path) && |fail0| == |fail| == |kids|
  {
    && (forall n: nat :: n < |kids| && n !in added ==> fail[n] == fail0[n])
    && (forall a :: a in added ==> FailRight(kids, path, fail, a))
  }

  lemma LastStamp(before: seq<Event>, words: seq<Word>, at: nat, events: seq<Event>)
    requires |before| < |events| && events <= before + Stamped(words, at)
    ensures events[|events| - 1].at == at
  {
  }

  lemma StampedAppend(events: seq<Event>, a: seq<Word>, b: seq<Word>, at: nat)
    ensures events + Stamped(a + b, at) == (events + Stamped(a, at)) + Stamped(b, at)
    ensures |a| == 0 ==> events + Stamped(a, at) == events
    ensures |a| == 1 ==> events + Stamped(a, at) == events + [Event(a[0], at)]
  {
  }

  ghost predicate QueuedRight(kids: Kids, path: seq<Word>, fail: seq<nat>, queue: seq<nat>)
    requires IsTrie(kids, path) && |fail| == |kids|
  {
    forall n :: n in queue ==> FailRight(kids, path, fail, n)
  }

  lemma QueuedShallow(kids: Kids, path: seq<Word>, fail: seq<nat>, queue: seq<nat>, qi: nat)
    requires QueueOk(kids, path, queue, qi) && qi < |queue| && |fail| == |kids|
    requires QueuedRight(kids, path, fail, queue)
    ensures ShallowRight(kids, path, fail, |path[queue[qi]]|)
  {
    forall n: nat | n < |kids| && |path[n]| <= |path[queue[qi]]|
      ensures FailRight(kids, path, fail, n)
    {
      if n > 0 {
        ShallowQueued(kids, path, queue, qi, n);
      }
    }
  }

  lemma QueuedAll(kids: Kids, path: seq<Word>, fail: seq<nat>, queue: seq<nat>)
    requires QueueOk(kids, path, queue, |queue|) && |fail| == |kids| && QueuedRight(kids, path, fail, queue)
    ensures forall n: nat :: FailRight(kids, path, fail, n)
  {
    forall n: nat
      ensures FailRight(kids, path, fail, n)
    {
      if 0 < n < |kids| {
        ShallowQueued(kids, path, queue, |queue|, n);
      }
    }
  }

  lemma SeedRight(kids: Kids, path: seq<Word>, fail0: seq<nat>, fail: seq<nat>, added: seq<nat>)
    requires IsTrie(kids, path) && |fail0| == |fail| == |kids|
    requires Lists(kids, 0, added) && FailsExtend(kids, path, fail0, fail, added)
    ensures QueuedRight(kids, path, fail, added) && fail[0] == fail0[0]
  {
    if 0 in added {
      ListedKid(kids, path, 0, added, 0);
    }
  }

  lemma QueuedStillRight(kids: Kids, path: seq<Word>, fail0: seq<nat>, fail: seq<nat>, queue: seq<nat>, qi: nat,
                         added: seq<nat>)
    requires QueueOk(kids, path, queue, qi) && qi < |queue| && |fail0| == |fail| == |kids|
    requires QueuedRight(kids, path, fail0, queue) && FailsExtend(kids, path, fail0, fail, added)
    requires Lists(kids, queue[qi], added)
    ensures QueuedRight(kids, path, fail, queue + added) && fail[0] == fail0[0]
  {
    NewInQueue(kids, path, queue, qi, added);
    forall n | n in queue + added
      ensures FailRight(kids, path, fail, n)
    {
      if n !in added {
        assert FailRight(kids, path, fail0, n);
      }
    }
  }

  // The link that the search for a target gives to the child of cur.
  lemma FailSet(kids: Kids, path: seq<Word>, fail: seq<nat>, cur: nat, c: Char, target: nat)
    requires IsTrie(kids, path) && |fail| == |kids| && cur < |kids| && c in kids[cur] && target < |kids|
    requires ShallowRight(kids, path, fail, |path[cur]|)
    requires if cur == 0 then target == 0
      else fail[cur] < |kids| && path[target] == Step(Paths(kids), path[fail[cur]], c)
    ensures kids[cur][c] < |kids| && FailRight(kids, path, fail[kids[cur][c] := target], kids[cur][c])
    ensures ShallowRight(kids, path, fail[kids[cur][c] := target], |path[cur]|)
  {
    ParentOfKid(kids, path, cur, c);
    assert NodeOk(kids, path, 0) && NodeOk(kids, path, cur);
    PathStep(kids, path, cur, c);
    PathsClosed(kids);
    FailWordOfChild(Paths(kids), path[cur], c);
    assert FailRight(kids, path, fail, cur);
    var kid := kids[cur][c];
    forall n: nat | n < |kids| && |path[n]| <= |path[cur]|
      ensures FailRight(kids, path, fail[kid := target], n)
    {
      assert FailRight(kids, path, fail, n);
    }
  }

  lemma FailsExtendMore(kids: Kids, path: seq<Word>, fail0: seq<nat>, fail: seq<nat>, added: seq<nat>, kid: nat,
                        target: nat)
    requires IsTrie(kids, path) && |fail0| == |fail| == |kids| && kid < |kids| && kid !in added
    requires FailsExtend(kids, path, fail0, fail, added) && FailRight(kids, path, fail[kid := target], kid)
    ensures FailsExtend(kids, path, fail0, fail[kid := target], added + [kid])
  {
    forall a | a in added + [kid]
      ensures FailRight(kids, path, fail[kid := target], a)
    {
      if a != kid {
        assert FailRight(kids, path, fail, a);
      }
    }
  }

  lemma ListSame(kids: Kids, n: nat, added: seq<nat>, c: Char)
    requires n < |kids| && c !in kids[n] && ListsUpTo(kids, n, added, c)
    ensures ListsUpTo(kids, n, added, c + 1)
  {
  }

  lemma ListAll(kids: Kids, n: nat, added: seq<nat>, i: int)
    requires n < |kids| && ListsUpTo(kids, n, added, i) && KeysUpTo(kids[n], i) == kids[n].Keys
    ensures Lists(kids, n, added)
  {
  }

  lemma ListMore(kids: Kids, path: seq<Word>, n: nat, added: seq<nat>, c: Char)
    requires IsTrie(kids, path) && n < |kids| && c in kids[n] && ListsUpTo(kids, n, added, c)
    ensures kids[n][c] !in added && ListsUpTo(kids, n, added + [kids[n][c]], c + 1)
  {
    forall a | a in added
      ensures a != kids[n][c]
    {
      var d :| d in kids[n] && d < c && kids[n][d] == a;
      ParentOfKid(kids, path, n, c);
      ParentOfKid(kids, path, n, d);
    }
  }

  ghost function KeysUpTo(m: map<Char, nat>, i: int): set<Char> {
    set c | c in m && c < i
  }

  // Counting children finds them all before the characters run out.
  lemma KeysBelow(m: map<Char, nat>, alphabet: nat, i: int)
    requires forall c :: c in m ==> 0 <= c < alphabet
    ensures KeysUpTo(m, 0) == {}
    ensures |KeysUpTo(m, i)| < |m| ==> i < alphabet
    ensures |KeysUpTo(m, i)| >= |m| ==> KeysUpTo(m, i) == m.Keys
    ensures |KeysUpTo(m, i + 1)| == |KeysUpTo(m, i)| + if i in m then 1 else 0
  {
    assert KeysUpTo(m, i + 1) == KeysUpTo(m, i) + if i in m then {i} else {};
    assert KeysUpTo(m, i) <= m.Keys;
    if KeysUpTo(m, i) != m.Keys {
      var c :| c in m && c !in KeysUpTo(m, i);
      SmallerSet(KeysUpTo(m, i), m.Keys, c);
    }
  }

  lemma SmallerSet<T>(a: set<T>, b: set<T>, x: T)
    requires a <= b && x in b && x !in a
    ensures |a| < |b|
  {
    assert a <= b - {x};
    SetSize(a, b - {x});
  }

  ghost predicate ListsUpTo(kids: Kids, n: nat, added: seq<nat>, i: int)
    requires n < |kids|
  {
    && Distinct(added)
    && (forall c :: c in kids[n] && c < i ==> kids[n][c] in added)
    && (forall a :: a in added ==> exists c :: c in kids[n] && c < i && kids[n][c] == a)
  }

  lemma {:induction false} OnlyRoot(kids: Kids, w: Word)
    requires kids == [map[]]
    ensures IsPath(kids, w) <==> w == []
  {
    if w != [] {
      OnlyRoot(kids, w[..|w| - 1]);
    }
  }
}
