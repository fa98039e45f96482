/** Which calls of add_tuple_member return: all but those that wait on the largest tuple with too late a ticket. */
module TupleReturn {
  import opened Optional
  import opened TupleSize
  import opened TupleProtocol
  import opened TupleSteps
  import opened TupleLive
  import opened TupleSafety

  lemma {:induction false} RunAppend(s: State, a: seq<nat>, b: seq<nat>)
    ensures Run(s, a + b) == Run(Run(s, a), b)
    decreases |b|
  {
    if b == [] {
      assert a + b == a;
    } else {
      assert (a + b)[..|a + b| - 1] == a + b[..|b| - 1];
      RunAppend(s, a, b[..|b| - 1]);
    }
  }

  lemma RunOne(s: State, t: nat)
    requires t < |s.threads|
    ensures Run(s, [t]) == Step(s, t)
  {
    assert Run(s, [t][..0]) == s;
  }

  lemma {:induction false} RunLive(s: State, schedule: seq<nat>)
    requires Live(s)
    ensures var r := Run(s, schedule); Live(r) && |r.threads| == |s.threads| && r.isptr == s.isptr
    decreases |schedule|
  {
    hide Live;
    if schedule != [] {
      var before, v := schedule[..|schedule| - 1], schedule[|schedule| - 1];
      RunLive(s, before);
      if v < |Run(s, before).threads| {
        StepShape(Run(s, before), v);
      }
    }
  }

  lemma StepShape(s: State, t: nat)
    requires Live(s) && t < |s.threads|
    ensures Live(Step(s, t)) && |Step(s, t).threads| == |s.threads| && Step(s, t).isptr == s.isptr
    ensures forall v :: 0 <= v < |s.threads| && v != t ==> Step(s, t).threads[v] == s.threads[v]
  {
    StepKeepsLive(s, t);
    NowAfter(s, t);
  }

  /** The call waits on a tuple that cannot grow, with a ticket behind the one that will make the container fail. */
  predicate Stranded(s: State, t: nat) {
    Beyond(s, t) && !s.isptr && NewLen(Now(s).max) == None
  }

  // ----- what other calls can be made to do -----

  /** The schedule s ran under leaves a call as it was. */
  predicate Kept(s: State, r: State, v: nat) {
    v < |s.threads| == |r.threads| && r.threads[v] == s.threads[v]
  }

  /** The call owns no slot below the target. */
  predicate Aside(s: State, v: nat, target: nat) {
    v < |s.threads| && !(s.threads[v].tuple == s.data && Claims(s.threads[v], Now(s)) && s.threads[v].tmp < target)
  }

  function FillRank(pc: Pc): nat {
    if pc == Test then 4 else if pc == Write then 3 else if pc == CommitWait then 2 else 1
  }

  /** The current tuple is the same one, with the same tickets drawn, and the lock is where it was. */
  predicate SameTuple(s: State, r: State) {
    r.data == s.data && r.lock == s.lock && r.isptr == s.isptr && |r.threads| == |s.threads|
    && Now(r).max == Now(s).max && Now(r).addLen == Now(s).addLen
  }

  /** Whoever is not the call v is left as it was. */
  ghost predicate KeepsOthers(s: State, r: State, v: nat) {
    forall w :: 0 <= w < |s.threads| && w != v ==> Kept(s, r, w)
  }

  lemma FillStep(s: State, v: nat)
    requires Live(s) && Fills(s, v, Now(s).len)
    ensures var s' := Step(s, v);
            && SameTuple(s, s') && KeepsOthers(s, s', v)
            && if s.threads[v].pc == Commit then Now(s').len == Now(s).len + 1
               else
                 && Now(s').len == Now(s).len && Fills(s', v, Now(s).len)
                 && FillRank(s'.threads[v].pc) < FillRank(s.threads[v].pc)
  {
    StepShape(s, v);
    NowAfter(s, v);
    assert ThreadOk(s, v);
  }

  lemma KeepsMore(s: State, m: State, r: State, v: nat)
    requires KeepsOthers(s, m, v) && KeepsOthers(m, r, v) && |m.threads| == |s.threads|
    ensures KeepsOthers(s, r, v)
  {
    forall w | 0 <= w < |s.threads| && w != v
      ensures Kept(s, r, w)
    {
      assert Kept(s, m, w) && Kept(m, r, w);
    }
  }

  /** The owner of the next slot can publish it by itself. */
  lemma {:induction false} CommitNext(s: State, v: nat) returns (schedule: seq<nat>)
    requires Live(s) && Fills(s, v, Now(s).len)
    ensures var r := Run(s, schedule);
            Live(r) && SameTuple(s, r) && Now(r).len == Now(s).len + 1 && KeepsOthers(s, r, v)
    decreases FillRank(s.threads[v].pc)
  {
    hide Live, Step, Claims, KeepsOthers, Run;
    FillStep(s, v);
    StepShape(s, v);
    RunOne(s, v);
    schedule := [v];
    if s.threads[v].pc != Commit {
      var rest := CommitNext(Step(s, v), v);
      schedule := [v] + rest;
      RunAppend(s, [v], rest);
      KeepsMore(s, Step(s, v), Run(s, schedule), v);
    }
  }

  /** All drawn slots up to the target can be published. */
  lemma {:induction false} FillUpTo(s: State, target: nat) returns (schedule: seq<nat>)
    requires Live(s) && Now(s).len <= target <= Now(s).addLen && target <= Now(s).max
    ensures var r := Run(s, schedule);
            Live(r) && SameTuple(s, r) && Now(r).len == target && (forall w :: Aside(s, w, target) ==> Kept(s, r, w))
    decreases target - Now(s).len
  {
    hide Live, Run;
    schedule := [];
    if Now(s).len == target {
      NoRun(s);
    } else {
      var v := NextOwner(s);
      var first := CommitNext(s, v);
      var m := Run(s, first);
      var rest := FillUpTo(m, target);
      schedule := first + rest;
      RunAppend(s, first, rest);
      forall w | Aside(s, w, target)
        ensures Kept(s, Run(s, schedule), w)
      {
        assert Kept(s, m, w) && Aside(m, w, target);
      }
    }
  }

  lemma NoRun(s: State)
    ensures Run(s, []) == s
  {
  }

  lemma NextOwner(s: State) returns (v: nat)
    requires Live(s) && Now(s).len < Now(s).addLen && Now(s).len < Now(s).max
    ensures Fills(s, v, Now(s).len)
  {
    assert SlotFilled(s, Now(s).len);
    v :| Fills(s, v, Now(s).len);
  }

  function LockRank(pc: Pc): nat {
    match pc
    case Check => 9
    case SetLen => 8
    case SetAdd => 7
    case Grow => 6
    case Copy => 5
    case Publish => 4
    case Reload => 3
    case _ => 2
  }

  /** How many members a growing call has yet to copy. */
  function ToCopy(s: State, v: nat): nat {
    var left := if v < |s.threads| && s.threads[v].pc == Copy then T(s, s.data + 1).len - s.threads[v].i else 0;
    if left > 0 then left else 0
  }

  /** The tuple is the same size, or the next. */
  predicate NotSmaller(s: State, r: State) {
    r.isptr == s.isptr && |r.threads| == |s.threads|
    && (|| (r.data == s.data && Now(r).max == Now(s).max)
        || (r.data == s.data + 1 && NewLen(Now(s).max) == Some(Now(r).max)))
  }

  lemma LockStep(s: State, l: nat)
    requires Live(s) && s.lock == Some(l)
    ensures l < |s.threads|
    ensures var s', pc := Step(s, l), s.threads[l].pc;
            && KeepsOthers(s, s', l) && NotSmaller(s, s')
            && (pc in {Unlock, FailUnlock} ==> s'.lock == None && s'.data == s.data)
            && (pc !in {Unlock, FailUnlock} ==> s'.lock == Some(l))
            && (pc !in {Unlock, FailUnlock} ==>
                  || LockRank(s'.threads[l].pc) < LockRank(pc)
                  || (pc == Copy == s'.threads[l].pc && ToCopy(s', l) < ToCopy(s, l)))
            && (s'.data != s.data ==> pc == Publish && s'.threads[l].pc == Reload)
            && (pc == Publish ==> s'.data != s.data)
            && (pc in {Grow, Copy} && NewLen(Now(s).max).Some? ==> s'.threads[l].pc in {Copy, Publish})
            && (pc == Reload ==> s'.threads[l].pc == Unlock)
  {
    StepShape(s, l);
    NowAfter(s, l);
    assert ThreadOk(s, l) && TupleOk(s, s.data);
  }

  lemma NotSmallerMore(s: State, m: State, r: State)
    requires NotSmaller(s, m) && NotSmaller(m, r) && (m.data == s.data || r.data == m.data)
    ensures NotSmaller(s, r)
  {
  }

  /** The holder of the lock can let go of it by itself, and publishes the larger tuple if it was about to. */
  lemma {:induction false} FreeLock(s: State, l: nat) returns (schedule: seq<nat>)
    requires Live(s) && s.lock == Some(l) && l < |s.threads|
    ensures var r := Run(s, schedule);
            && Live(r) && r.lock == None && NotSmaller(s, r) && KeepsOthers(s, r, l)
            && (s.threads[l].pc in {Grow, Copy, Publish} && NewLen(Now(s).max).Some? ==> r.data == s.data + 1)
            && (s.threads[l].pc in {Reload, Unlock, FailUnlock} ==> r.data == s.data)
    decreases LockRank(s.threads[l].pc), ToCopy(s, l)
  {
    hide Live, Step, KeepsOthers, Run, LockRank, ToCopy, Now;
    LockStep(s, l);
    StepShape(s, l);
    RunOne(s, l);
    schedule := [l];
    if s.threads[l].pc !in {Unlock, FailUnlock} {
      var m := Step(s, l);
      var rest := FreeLock(m, l);
      schedule := [l] + rest;
      RunAppend(s, [l], rest);
      KeepsMore(s, m, Run(s, schedule), l);
      NotSmallerMore(s, m, Run(s, schedule));
    }
  }

  /** The call neither owns a slot of the current tuple nor the lock. */
  predicate Idle(s: State, v: nat) {
    v < |s.threads| && !Locked(s.threads[v].pc) && !(s.threads[v].tuple == s.data && Claims(s.threads[v], Now(s)))
  }

  ghost predicate KeepsIdle(s: State, r: State, h: nat) {
    forall v :: v != h && Idle(s, v) ==> Kept(s, r, v)
  }

  function ResetRank(pc: Pc): nat {
    match pc
    case Test => 9
    case Full => 8
    case WaitData => 7
    case WaitLen => 6
    case Lock => 5
    case Check => 4
    case SetLen => 3
    case _ => 2
  }

  /** The tuple has grown, or it cannot grow and its tickets have been reset. */
  predicate Opened(s: State, r: State) {
    NotSmaller(s, r)
    && (r.data == s.data ==> NewLen(Now(s).max) == None && Now(r).addLen == Now(r).max)
  }

  /** What a call that resets the tickets can do next by itself. */
  predicate Ready(s: State, h: nat)
    requires h < |s.threads|
  {
    (s.threads[h].pc == WaitLen ==> Now(s).len == Now(s).max) && (s.threads[h].pc == Lock ==> s.lock == None)
  }

  lemma ResetStep(s: State, h: nat)
    requires Live(s) && Resets(s, h) && !s.isptr && Ready(s, h)
    ensures var s', pc := Step(s, h), s.threads[h].pc;
            && KeepsOthers(s, s', h) && NotSmaller(s, s') && s'.data == s.data
            && (pc != SetAdd ==> Resets(s', h) && ResetRank(s'.threads[h].pc) < ResetRank(pc))
            && (pc == SetAdd ==> Now(s').addLen == Now(s').max && s'.lock == Some(h) && s'.threads[h].pc == Grow)
  {
    StepShape(s, h);
    NowAfter(s, h);
    assert ThreadOk(s, h) && TupleOk(s, s.data);
  }

  lemma WaitFacts(s: State, h: nat)
    requires Live(s) && Resets(s, h)
    ensures s.threads[h].pc == WaitLen ==> Now(s).len <= Now(s).max <= Now(s).addLen && Idle(s, h)
  {
    assert Drawn(s, h) && TupleOk(s, s.data);
  }

  /** All slots can be published, without the calls that do not own one. */
  lemma FillAll(s: State) returns (schedule: seq<nat>)
    requires Live(s) && Now(s).addLen >= Now(s).max >= Now(s).len
    ensures var r := Run(s, schedule);
            && Live(r) && SameTuple(s, r) && Now(r).len == Now(r).max
            && (forall v :: Idle(s, v) ==> Kept(s, r, v))
  {
    hide Live, Run, Now, Claims;
    schedule := FillUpTo(s, Now(s).max);
    forall v | Idle(s, v)
      ensures Kept(s, Run(s, schedule), v)
    {
      assert Aside(s, v, Now(s).max);
    }
  }

  /** The lock can be let go, without the calls that do not hold it. */
  lemma AwaitLock(s: State) returns (schedule: seq<nat>)
    requires Live(s) && s.lock.Some?
    ensures var r := Run(s, schedule);
            && Live(r) && NotSmaller(s, r) && r.lock == None
            && (forall v :: 0 <= v < |s.threads| && !Locked(s.threads[v].pc) ==> Kept(s, r, v))
            && (Renews(s) && NewLen(Now(s).max).Some? ==> r.data == s.data + 1)
  {
    hide Run, Now, KeepsOthers;
    var l := s.lock.value;
    assert Sized(s) && ThreadOk(s, l);
    schedule := FreeLock(s, l);
    forall v | 0 <= v < |s.threads| && !Locked(s.threads[v].pc)
      ensures Kept(s, Run(s, schedule), v)
    {
      KeptOther(s, Run(s, schedule), l, v);
    }
  }

  lemma KeptOther(s: State, r: State, l: nat, v: nat)
    requires KeepsOthers(s, r, l) && v < |s.threads| && v != l
    ensures Kept(s, r, v)
  {
  }

  /** What makes a call that resets the tickets ready: all slots published, or the lock let go. */
  lemma MakeReady(s: State, h: nat) returns (schedule: seq<nat>)
    requires Live(s) && Resets(s, h) && !s.isptr
    ensures var r := Run(s, schedule);
            && Live(r) && NotSmaller(s, r) && KeepsIdle(s, r, h) && Kept(s, r, h)
            && (r.data == s.data ==> Resets(r, h) && Ready(r, h))
  {
    hide Live, Run, Now, Claims;
    NoRun(s);
    schedule := [];
    WaitFacts(s, h);
    if s.threads[h].pc == WaitLen {
      schedule := FillAll(s);
    } else if s.threads[h].pc == Lock && s.lock.Some? {
      schedule := AwaitLock(s);
    }
  }

  /** A call that resets the tickets can do so, with the help of those it waits for. */
  lemma {:induction false} OpenUp(s: State, h: nat) returns (schedule: seq<nat>)
    requires Live(s) && Resets(s, h) && !s.isptr
    ensures var r := Run(s, schedule); Live(r) && Opened(s, r) && KeepsIdle(s, r, h)
    decreases ResetRank(s.threads[h].pc)
  {
    hide Live, Run, Now, Claims, Step, Resets, Ready, KeepsOthers;
    var first := MakeReady(s, h);
    var m := Run(s, first);
    schedule := first;
    if m.data == s.data {
      ResetStep(m, h);
      StepShape(m, h);
      RunOne(m, h);
      var n := Step(m, h);
      var rest: seq<nat>;
      if m.threads[h].pc != SetAdd {
        rest := OpenUp(n, h);
      } else {
        rest := Grown(n, h);
      }
      schedule := first + [h] + rest;
      RunAppend(s, first, [h]);
      RunAppend(s, first + [h], rest);
      OpenedMore(s, m, n, Run(s, schedule), h);
    }
  }

  lemma Grown(n: State, h: nat) returns (schedule: seq<nat>)
    requires Live(n) && n.lock == Some(h) && h < |n.threads| && n.threads[h].pc == Grow && Now(n).addLen == Now(n).max
    ensures var r := Run(n, schedule); Live(r) && Opened(n, r) && KeepsIdle(n, r, h)
  {
    hide Live, Run, Now, Claims, Step;
    schedule := [];
    NoRun(n);
    if NewLen(Now(n).max).Some? {
      schedule := FreeLock(n, h);
    }
  }

  lemma OpenedMore(s: State, m: State, n: State, r: State, h: nat)
    requires NotSmaller(s, m) && m.data == s.data && KeepsIdle(s, m, h)
    requires NotSmaller(m, n) && n.data == m.data && KeepsOthers(m, n, h)
    requires Opened(n, r) && KeepsIdle(n, r, h)
    ensures Opened(s, r) && KeepsIdle(s, r, h)
  {
    forall v | v != h && Idle(s, v)
      ensures Kept(s, r, v)
    {
      assert Kept(s, m, v) && Kept(m, n, v) && Idle(n, v);
    }
  }

  // ----- a call that is not stranded returns -----

  /** How far a call is from its return, as long as the current tuple stays the same. */
  function Rank(s: State, t: nat): nat
    requires t < |s.threads|
  {
    var current := s.threads[t].tuple == s.data;
    match s.threads[t].pc
    case Start => 60
    case Claim => if current then 30 else 59
    case Test => if current then 29 else 58
    case Full => if current then 28 else 57
    case WaitData => if current then 27 else 55
    case WaitLen => if current then 26 else 56
    case Lock => if current then 25 else 54
    case Check => if current then 24 else 53
    case Reload => 52
    case Unlock => 31
    case SetLen => 23
    case SetAdd => 22
    case Grow => 21
    case Copy => 20
    case Publish => 19
    case Write => 3
    case CommitWait => 2
    case Commit => 1
    case FailUnlock => 1
    case Done(_) => 0
  }

  /** The current tuple is larger, or the call is nearer to its return. */
  predicate Nearer(s: State, r: State, t: nat) {
    && t < |s.threads| == |r.threads| && !Stranded(r, t) && Now(s).max <= Now(r).max
    && (Now(r).max == Now(s).max ==>
          Rank(r, t) < Rank(s, t) || (Rank(r, t) == Rank(s, t) && ToCopy(r, t) < ToCopy(s, t)))
  }

  /** The call waits for the length, the lock, or for tickets to be reset. */
  predicate Blocked(s: State, t: nat)
    requires t < |s.threads|
  {
    var th := s.threads[t];
    match th.pc
    case CommitWait => Now(s).len != th.tmp
    case WaitLen => th.tuple == s.data && Now(s).len != th.tmp
    case WaitData => Beyond(s, t)
    case Lock => s.lock.Some?
    case Claim => th.tuple == s.data && !s.isptr && Now(s).addLen > Now(s).max && NewLen(Now(s).max) == None
    case Done(_) => true
    case _ => false
  }

  /** What the invariant says of one call and the current tuple. */
  ghost predicate Local(s: State, t: nat) {
    Here(s, t) && Placed(s, t) && Sized(s)
  }

  lemma LiveLocal(s: State, t: nat)
    requires Live(s) && t < |s.threads|
    ensures Local(s, t)
  {
    assert ThreadOk(s, t) && TupleOk(s, s.threads[t].tuple) && TupleOk(s, s.data);
  }

  /** Only a ticket drawn too late strands a call. */
  lemma OwnStepFree(s: State, t: nat)
    requires Live(s) && t < |s.threads| && !Blocked(s, t) && !Stranded(s, t)
    ensures !Stranded(Step(s, t), t)
  {
    NowAfter(s, t);
    if Beyond(Step(s, t), t) {
      BeyondBefore(s, t, t);
    }
  }

  lemma OwnStepRank(s: State, t: nat)
    requires Local(s, t) && !Blocked(s, t) && s.threads[t].pc != Publish
    ensures var r := Step(s, t);
            && t < |r.threads|
            && (Rank(r, t) < Rank(s, t) || (Rank(r, t) == Rank(s, t) && ToCopy(r, t) < ToCopy(s, t)))
  {
  }

  /** A call that is not blocked gets nearer by a step of its own. */
  lemma OwnStep(s: State, t: nat)
    requires Live(s) && t < |s.threads| && !Blocked(s, t) && !Stranded(s, t)
    ensures Nearer(s, Step(s, t), t)
  {
    hide Rank, ToCopy, Step;
    NowAfter(s, t);
    LiveLocal(s, t);
    OwnStepFree(s, t);
    if s.threads[t].pc != Publish {
      OwnStepRank(s, t);
    } else {
      assert ThreadOk(s, t) && s.lock == Some(t);
      LockStep(s, t);
    }
  }

  /** The current tuple is larger, or the call is where it was and no longer blocked. */
  predicate Freed(s: State, r: State, t: nat) {
    && Kept(s, r, t) && NotSmaller(s, r) && !Stranded(r, t)
    && (r.data == s.data ==> !Blocked(r, t))
  }

  lemma KeptFree(s: State, r: State, t: nat)
    requires Live(s) && Kept(s, r, t) && NotSmaller(s, r) && !Stranded(s, t)
    ensures !Stranded(r, t) && (r.data != s.data ==> Now(r).max > Now(s).max)
  {
    assert ThreadOk(s, t);
  }

  lemma UnblockCommit(s: State, t: nat) returns (schedule: seq<nat>)
    requires Live(s) && t < |s.threads| && s.threads[t].pc == CommitWait && Blocked(s, t)
    ensures var r := Run(s, schedule); Live(r) && Freed(s, r, t)
  {
    hide Run;
    assert ThreadOk(s, t) && TupleOk(s, s.threads[t].tuple);
    schedule := FillUpTo(s, s.threads[t].tmp);
    assert Aside(s, t, s.threads[t].tmp);
  }

  lemma UnblockLock(s: State, t: nat) returns (schedule: seq<nat>)
    requires Live(s) && t < |s.threads| && s.threads[t].pc == Lock && Blocked(s, t)
    ensures var r := Run(s, schedule); Live(r) && Freed(s, r, t)
  {
    hide Live, Run;
    schedule := AwaitLock(s);
    assert Kept(s, Run(s, schedule), t);
  }

  lemma UnblockWait(s: State, t: nat) returns (schedule: seq<nat>)
    requires Live(s) && Resets(s, t) && s.threads[t].pc == WaitLen && Blocked(s, t)
    ensures var r := Run(s, schedule); Live(r) && Freed(s, r, t)
  {
    hide Live, Run;
    WaitFacts(s, t);
    schedule := FillAll(s);
    assert Kept(s, Run(s, schedule), t);
  }

  /** A ticket drawn too late is good for waiting until the tuple has grown. */
  lemma UnblockBeyond(s: State, t: nat) returns (schedule: seq<nat>)
    requires Live(s) && Beyond(s, t) && !Stranded(s, t) && s.threads[t].pc in {WaitLen, WaitData}
    ensures var r := Run(s, schedule); Live(r) && Freed(s, r, t)
  {
    hide Run, Now;
    assert Relieved(s, t) && Placed(s, t);
    if HasReset(s) {
      var h: nat :| Resets(s, h);
      assert t != h && Idle(s, t);
      schedule := OpenUp(s, h);
    } else {
      schedule := AwaitLock(s);
    }
    assert Kept(s, Run(s, schedule), t);
    KeptFree(s, Run(s, schedule), t);
  }

  lemma UnblockClaim(s: State, t: nat) returns (schedule: seq<nat>)
    requires Live(s) && t < |s.threads| && s.threads[t].pc == Claim && Blocked(s, t)
    ensures var r := Run(s, schedule); Live(r) && Freed(s, r, t)
  {
    hide Run, Now;
    assert HasReset(s);
    var h: nat :| Resets(s, h);
    assert t != h && Idle(s, t);
    schedule := OpenUp(s, h);
    assert Kept(s, Run(s, schedule), t);
  }

  lemma Unblock(s: State, t: nat) returns (schedule: seq<nat>)
    requires Live(s) && t < |s.threads| && Blocked(s, t) && !Stranded(s, t) && !s.threads[t].pc.Done?
    ensures var r := Run(s, schedule); Live(r) && Freed(s, r, t)
  {
    hide Live, Run, Freed;
    match s.threads[t].pc
    case CommitWait => schedule := UnblockCommit(s, t);
    case Lock => schedule := UnblockLock(s, t);
    case Claim => schedule := UnblockClaim(s, t);
    case _ =>
      LiveLocal(s, t);
      if Beyond(s, t) {
        schedule := UnblockBeyond(s, t);
      } else {
        schedule := UnblockWait(s, t);
      }
  }

  /** A call that is not stranded can be brought to return. */
  lemma {:induction false} Finish(s: State, t: nat) returns (schedule: seq<nat>)
    requires Live(s) && t < |s.threads| && !Stranded(s, t)
    ensures var r := Run(s, schedule); t < |r.threads| && r.threads[t].pc.Done?
    decreases 2 * MAX_LEN - Now(s).max, Rank(s, t), ToCopy(s, t)
  {
    hide Run, Step, Rank, ToCopy, Blocked, Now;
    schedule := [];
    NoRun(s);
    if !s.threads[t].pc.Done? {
      var first := Nearing(s, t);
      var r := Run(s, first);
      assert Sized(r);
      var rest := Finish(r, t);
      schedule := first + rest;
      RunAppend(s, first, rest);
    }
  }

  /** A call that has not returned and is not stranded can be brought nearer to its return. */
  lemma Nearing(s: State, t: nat) returns (schedule: seq<nat>)
    requires Live(s) && t < |s.threads| && !Stranded(s, t) && !s.threads[t].pc.Done?
    ensures var r := Run(s, schedule); Live(r) && Nearer(s, r, t)
  {
    hide Live, Run, Step;
    schedule := [];
    NoRun(s);
    if Blocked(s, t) {
      schedule := Unblock(s, t);
    }
    var m := Run(s, schedule);
    KeptFree(s, m, t);
    if m.data == s.data {
      OwnStep(m, t);
      StepShape(m, t);
      RunOne(m, t);
      RunAppend(s, schedule, [t]);
      schedule := schedule + [t];
    }
  }

  // ----- a stranded call does not -----

  lemma StillStranded(s: State, v: nat, t: nat)
    requires Live(s) && Stranded(s, t) && v < |s.threads|
    ensures Stranded(Step(s, v), t)
  {
    NowAfter(s, v);
    assert ThreadOk(s, v) && TupleOk(s, s.data) && Sized(s);
  }

  /** Once stranded, a call waits forever: no schedule makes it return. */
  lemma {:induction false} StrandedForever(s: State, t: nat, schedule: seq<nat>)
    requires Live(s) && Stranded(s, t)
    ensures Live(Run(s, schedule)) && Stranded(Run(s, schedule), t)
    decreases |schedule|
  {
    hide Live, Stranded, Step;
    if schedule != [] {
      var before, v := schedule[..|schedule| - 1], schedule[|schedule| - 1];
      StrandedForever(s, t, before);
      var r := Run(s, before);
      if v < |r.threads| {
        StepShape(r, v);
        StillStranded(r, v, t);
      }
    }
  }

  /** The call has returned after the schedule. */
  predicate ReturnsBy(s: State, t: nat, schedule: seq<nat>) {
    var r := Run(s, schedule);
    t < |r.threads| && r.threads[t].pc.Done?
  }

  /** In every reachable state a call can still return if and only if it is not stranded. */
  lemma ReturnsIff(n: nat, isptr: bool, schedule: seq<nat>, t: nat)
    requires t < n
    ensures var s := Run(Init(n, isptr), schedule); (exists more :: ReturnsBy(s, t, more)) <==> !Stranded(s, t)
  {
    hide Live, Stranded, Run, Step;
    InitLive(n, isptr);
    RunLive(Init(n, isptr), schedule);
    var s := Run(Init(n, isptr), schedule);
    if Stranded(s, t) {
      forall more
        ensures !ReturnsBy(s, t, more)
      {
        StrandedForever(s, t, more);
        StrandedWaits(Run(s, more), t);
      }
    } else {
      var more := Finish(s, t);
      assert ReturnsBy(s, t, more);
    }
  }

  lemma StrandedWaits(s: State, t: nat)
    requires Stranded(s, t)
    ensures t < |s.threads| && !s.threads[t].pc.Done?
  {
  }

  /** In every reachable state a slot whose ticket is drawn and which is not published has exactly one owner. */
  lemma OneOwner(n: nat, isptr: bool, schedule: seq<nat>, slot: nat)
    requires var s := Run(Init(n, isptr), schedule); Now(s).len <= slot < Now(s).addLen && slot < Now(s).max
    ensures var s := Run(Init(n, isptr), schedule);
            exists v: nat :: Fills(s, v, slot) && forall w: nat :: Fills(s, w, slot) ==> w == v
  {
    InitLive(n, isptr);
    RunLive(Init(n, isptr), schedule);
    var s := Run(Init(n, isptr), schedule);
    assert SlotFilled(s, slot);
    var v: nat :| Fills(s, v, slot);
    forall w: nat | Fills(s, w, slot)
      ensures w == v
    {
      assert NoClash(s, v, w);
    }
  }

  // ----- stranded calls are real -----

  /** Calls before j have returned, those behind have not begun, and j is on its way in a tuple with room or growth. */
  predicate Alone(s: State, j: nat) {
    j < |s.threads| && !s.isptr && (s.lock == None || s.lock == Some(j))
    && (forall v :: j < v < |s.threads| ==> s.threads[v].pc == Start)
    && (var th, u := s.threads[j], Now(s);
        && u.len == (if th.pc == Done(true) then j + 1 else j)
        && u.addLen == (if th.pc in {Start, Claim, Grow, Copy, Publish, Reload, Unlock} then j else j + 1)
        && th.pc !in {WaitData, FailUnlock, Done(false)}
        && (th.pc !in {Start, Reload, Done(true)} ==> th.tuple == s.data)
        && (th.pc in {Test, Full, WaitLen, Lock, Check, SetLen, SetAdd, Write, CommitWait, Commit} ==> th.tmp == j)
        && (th.pc in {Full, WaitLen, Lock, Check, SetLen, SetAdd, Grow, Copy, Publish} ==> j == u.max)
        && (th.pc !in {Done(true)} && j == u.max ==> NewLen(u.max).Some?))
  }

  lemma AloneStep(s: State, j: nat)
    requires Live(s) && Alone(s, j) && s.threads[j].pc != Done(true)
    ensures Alone(Step(s, j), j) && !Blocked(s, j) && !Stranded(s, j)
  {
    NowAfter(s, j);
    StepShape(s, j);
    LiveLocal(s, j);
    assert ThreadOk(s, j);
  }

  /** Left alone, the call returns with its member. */
  lemma {:induction false} OneCall(s: State, j: nat) returns (schedule: seq<nat>)
    requires Live(s) && Alone(s, j)
    ensures var r := Run(s, schedule);
            Live(r) && Alone(r, j) && r.threads[j].pc == Done(true) && |r.threads| == |s.threads|
    decreases 2 * MAX_LEN - Now(s).max, Rank(s, j), ToCopy(s, j)
  {
    hide Run, Step, Rank, ToCopy, Blocked, Now;
    schedule := [];
    NoRun(s);
    if s.threads[j].pc != Done(true) {
      AloneStep(s, j);
      OwnStep(s, j);
      StepShape(s, j);
      RunOne(s, j);
      assert Sized(Step(s, j));
      var rest := OneCall(Step(s, j), j);
      schedule := [j] + rest;
      RunAppend(s, [j], rest);
    }
  }

  /** Then the next one can be left alone, unless the tuple is full and cannot grow. */
  lemma NextAlone(s: State, j: nat)
    requires Live(s) && Alone(s, j) && s.threads[j].pc == Done(true) && j + 1 < |s.threads|
    ensures s.threads[j + 1].pc == Start && Now(s).addLen == j + 1 <= Now(s).max <= 2 * MAX_LEN
    ensures (j + 1 == Now(s).max ==> NewLen(Now(s).max).Some?) ==> Alone(s, j + 1)
  {
    assert ThreadOk(s, j) && TupleOk(s, s.data) && Sized(s);
  }

  /** One call after the other, the largest tuple gets full. */
  lemma {:induction false} FillLargest(s: State, j: nat) returns (schedule: seq<nat>, k: nat)
    requires Live(s) && Alone(s, j) && s.threads[j].pc == Start && j <= 2 * MAX_LEN && |s.threads| >= 2 * MAX_LEN + 2
    ensures var r := Run(s, schedule);
            && Live(r) && !r.isptr && k + 1 < |r.threads| == |s.threads|
            && r.threads[k].pc == Start == r.threads[k + 1].pc
            && Now(r).addLen == Now(r).max && NewLen(Now(r).max) == None
    decreases 2 * MAX_LEN - j
  {
    hide Live, Run, Now;
    var first := OneCall(s, j);
    var m := Run(s, first);
    NextAlone(m, j);
    k := j + 1;
    schedule := first;
    if j + 1 != Now(m).max || NewLen(Now(m).max).Some? {
      var rest;
      rest, k := FillLargest(m, j + 1);
      schedule := first + rest;
      RunAppend(s, first, rest);
    }
  }

  // A new call draws the next ticket of the current tuple.
  lemma Draw(s: State, t: nat)
    requires Live(s) && t < |s.threads| && s.threads[t].pc == Start
    ensures var r := Run(s, [t, t]);
            && Live(r) && r.isptr == s.isptr && r.data == s.data && |r.threads| == |s.threads|
            && Now(r).max == Now(s).max && Now(r).addLen == Now(s).addLen + 1 && KeepsOthers(s, r, t)
            && r.threads[t].pc == Test && r.threads[t].tuple == s.data && r.threads[t].tmp == Now(s).addLen
  {
    var m := Step(s, t);
    StepShape(s, t);
    StepShape(m, t);
    NowAfter(s, t);
    NowAfter(m, t);
    RunOne(s, t);
    RunOne(m, t);
    RunAppend(s, [t], [t]);
  }

  /** When the largest tuple is full and two calls begin, the second is stranded if the first has drawn the ticket
      that could still fail. */
  lemma TwoCallsStrandOne(s: State, t: nat, v: nat)
    requires Live(s) && t < |s.threads| && v < |s.threads| && t != v && !s.isptr
    requires s.threads[t].pc == Start && s.threads[v].pc == Start
    requires Now(s).addLen >= Now(s).max && NewLen(Now(s).max) == None
    ensures Stranded(Run(s, [t, t] + [v, v]), v)
  {
    hide Run, Live, Now;
    var m := Run(s, [t, t]);
    Draw(s, t);
    KeptOther(s, m, t, v);
    Draw(m, v);
    RunAppend(s, [t, t], [v, v]);
  }

  /** Given calls enough to fill the largest tuple and two more, some run strands one of them. */
  lemma StrandingRun(n: nat) returns (schedule: seq<nat>, t: nat)
    requires n >= 2 * MAX_LEN + 2
    ensures Stranded(Run(Init(n, false), schedule), t)
  {
    hide Run, Live, Stranded;
    var s := Init(n, false);
    InitLive(n, false);
    FirstAlone(n);
    var first, k := FillLargest(s, 0);
    var m := Run(s, first);
    TwoCallsStrandOne(m, k, k + 1);
    RunAppend(s, first, [k, k] + [k + 1, k + 1]);
    schedule, t := first + ([k, k] + [k + 1, k + 1]), k + 1;
  }

  lemma FirstAlone(n: nat)
    requires n > 0
    ensures Alone(Init(n, false), 0) && Init(n, false).threads[0].pc == Start
  {
  }
}
