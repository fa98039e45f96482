/** What holds over every interleaving of add_tuple_member calls. */
module TupleSafety {
  import opened Optional
  import opened TupleSize
  import opened TupleProtocol
  import opened TupleSteps

  /** A run: the calls take steps in the order of the schedule. */
  function Run(s: State, schedule: seq<nat>): State {
    if schedule == [] then s
    else
      var r := Run(s, schedule[..|schedule| - 1]);
      var t := schedule[|schedule| - 1];
      if t < |r.threads| then Step(r, t) else r
  }

  lemma {:induction false} RunInv(n: nat, isptr: bool, schedule: seq<nat>)
    ensures Inv(Run(Init(n, isptr), schedule)) && |Run(Init(n, isptr), schedule).threads| == n
    decreases |schedule|
  {
    if schedule == [] {
      InitInv(n, isptr);
    } else {
      var before, t := schedule[..|schedule| - 1], schedule[|schedule| - 1];
      RunInv(n, isptr, before);
      if t < n {
        StepKeepsInv(Run(Init(n, isptr), before), t);
      }
    }
  }

  /** The call is between drawing a ticket inside the tuple and publishing its slot. */
  predicate Owns(s: State, t: nat, k: nat, slot: nat) {
    && t < |s.threads| && s.threads[t].pc in {Write, CommitWait, Commit}
    && s.threads[t].tuple == k && s.threads[t].tmp == slot
  }

  /** No slot is claimed twice, and none that is published is claimed again. */
  lemma NoSlotClaimedTwice(n: nat, isptr: bool, schedule: seq<nat>, t: nat, v: nat, k: nat, slot: nat)
    requires var s := Run(Init(n, isptr), schedule); Owns(s, t, k, slot) && Owns(s, v, k, slot)
    ensures t == v
    ensures var u := T(Run(Init(n, isptr), schedule), k); u.len <= slot < u.max
  {
    var s := Run(Init(n, isptr), schedule);
    RunInv(n, isptr, schedule);
    assert NoClash(s, t, v) && ThreadOk(s, t);
  }

  /** Every slot below the published length of the current tuple holds the member of a call that
      returned success. */
  lemma PublishedSlotsAreWritten(n: nat, isptr: bool, schedule: seq<nat>, slot: nat)
    requires var s := Run(Init(n, isptr), schedule); slot < T(s, s.data).len
    ensures var s := Run(Init(n, isptr), schedule);
      M(T(s, s.data), slot).Some? && Succeeded(s, M(T(s, s.data), slot).value, slot)
  {
    RunInv(n, isptr, schedule);
    var s := Run(Init(n, isptr), schedule);
    assert SlotOk(s, s.data, slot);
  }

  /** A call that returned success has its member in exactly one published slot of the current tuple. */
  lemma SuccessHasOneSlot(n: nat, isptr: bool, schedule: seq<nat>, t: nat)
    requires var s := Run(Init(n, isptr), schedule); t < |s.threads| && s.threads[t].pc == Done(true)
    ensures var s := Run(Init(n, isptr), schedule);
      forall slot: nat :: slot < T(s, s.data).len ==> (M(T(s, s.data), slot) == Some(t) <==> slot == s.threads[t].tmp)
    ensures var s := Run(Init(n, isptr), schedule); s.threads[t].tmp < T(s, s.data).len
  {
    RunInv(n, isptr, schedule);
    var s := Run(Init(n, isptr), schedule);
    assert ThreadOk(s, t);
    forall slot: nat | slot < T(s, s.data).len
      ensures M(T(s, s.data), slot) == Some(t) <==> slot == s.threads[t].tmp
    {
      assert SlotOk(s, s.data, slot);
    }
  }

  /** A growing call copies only members that are published in a full tuple. */
  lemma GrowthCopiesPublished(n: nat, isptr: bool, schedule: seq<nat>, t: nat)
    requires var s := Run(Init(n, isptr), schedule); t < |s.threads| && s.threads[t].pc == Copy
    ensures var s := Run(Init(n, isptr), schedule);
      var th, u := s.threads[t], T(s, s.threads[t].tuple);
      && th.tuple == s.data && u.len == u.max
      && (th.i < u.max ==> M(u, th.i).Some? && Succeeded(s, M(u, th.i).value, th.i))
  {
    RunInv(n, isptr, schedule);
    var s := Run(Init(n, isptr), schedule);
    assert ThreadOk(s, t) && SlotOk(s, s.data, s.threads[t].i);
  }

  // ----- refinement of an append-only list -----

  /** What readers see: the published members of the current tuple. */
  function View(s: State): seq<Option<nat>> {
    var u := T(s, s.data);
    if u.len <= |u.member| then u.member[..u.len] else []
  }

  /** Every step leaves the view alone, except that a commit appends the member of its call. */
  lemma StepAppends(s: State, t: nat)
    requires Inv(s) && t < |s.threads|
    ensures View(Step(s, t)) == View(s) + if s.threads[t].pc == Commit then [Some(t)] else []
  {
    assert ThreadOk(s, t) && TupleOk(s, s.data) && TupleOk(s, s.threads[t].tuple) && TupleOk(s, s.data + 1);
    match s.threads[t].pc
    case Publish => PublishView(s, t);
    case Commit => CommitView(s, t);
    case _ =>
  }

  lemma PublishView(s: State, t: nat)
    requires Inv(s) && t < |s.threads| && s.threads[t].pc == Publish
    ensures View(Step(s, t)) == View(s)
  {
    assert ThreadOk(s, t) && TupleOk(s, s.data) && TupleOk(s, s.data + 1);
    var u, v := T(s, s.data), T(s, s.data + 1);
    forall i | 0 <= i < u.len
      ensures u.member[i] == v.member[i]
    {
      assert M(v, i) == M(u, i);
    }
  }

  lemma CommitView(s: State, t: nat)
    requires Inv(s) && t < |s.threads| && s.threads[t].pc == Commit
    ensures View(Step(s, t)) == View(s) + [Some(t)]
  {
    assert ThreadOk(s, t) && TupleOk(s, s.data) && TupleOk(s, s.threads[t].tuple);
  }

  /** The calls that commit during a run, in order. */
  function Commits(s: State, schedule: seq<nat>): seq<Option<nat>> {
    if schedule == [] then []
    else
      var r := Run(s, schedule[..|schedule| - 1]);
      var t := schedule[|schedule| - 1];
      Commits(s, schedule[..|schedule| - 1]) + if t < |r.threads| && r.threads[t].pc == Commit then [Some(t)] else []
  }

  /** Over any run, however often the tuple grows, the view is the list of commits in order. */
  lemma {:induction false} ViewIsCommits(n: nat, isptr: bool, schedule: seq<nat>)
    ensures View(Run(Init(n, isptr), schedule)) == Commits(Init(n, isptr), schedule)
    decreases |schedule|
  {
    if schedule != [] {
      var before, t := schedule[..|schedule| - 1], schedule[|schedule| - 1];
      ViewIsCommits(n, isptr, before);
      RunInv(n, isptr, before);
      if t < n {
        StepAppends(Run(Init(n, isptr), before), t);
      }
    }
  }

  // ----- a call that never returns -----
}
