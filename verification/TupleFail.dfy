/** When a call of add_tuple_member returns 0. */
module TupleFail {
  import opened Optional
  import opened TupleSize
  import opened TupleProtocol
  import opened TupleSteps
  import opened TupleSafety
  import opened TupleLive
  import opened TupleReturn

  /** The tuple can take no more members: it is full, and no larger one is made. */
  predicate Exhausted(s: State) {
    Now(s).len == Now(s).max && NewLen(Now(s).max) == None
  }

  /** Behind a pointer nothing grows, and a call on its way to fail has a ticket beyond the last slot. */
  predicate PointerOk(s: State, t: nat) {
    s.isptr && t < |s.threads| ==>
      var th := s.threads[t];
      && s.data == 0 && th.tuple == 0 && s.lock == None
      && th.pc in {Start, Claim, Test, Full, Write, CommitWait, Commit, Done(true), Done(false)}
      && (th.pc in {Test, Full} ==> th.tmp < Now(s).addLen)
      && (th.pc == Done(false) ==> Now(s).addLen > Now(s).max)
  }

  /** Otherwise a call that fails has met the largest tuple full. */
  predicate FailOk(s: State, t: nat) {
    !s.isptr && t < |s.threads| && s.threads[t].pc in {FailUnlock, Done(false)} ==> Exhausted(s)
  }

  lemma PointerKept(s: State, t: nat, v: nat)
    requires Inv(s) && t < |s.threads| && PointerOk(s, v) && PointerOk(s, t)
    ensures PointerOk(Step(s, t), v)
  {
    NowAfter(s, t);
    assert ThreadOk(s, t);
  }

  lemma FailKept(s: State, t: nat, v: nat)
    requires Inv(s) && Sized(s) && t < |s.threads| && FailOk(s, v)
    ensures FailOk(Step(s, t), v)
  {
    NowAfter(s, t);
    assert ThreadOk(s, t) && TupleOk(s, s.data) && Here(s, t);
    if s.threads[t].pc == Publish {
      Publishing(s, t);
    }
  }

  lemma Publishing(s: State, t: nat)
    requires Inv(s) && Sized(s) && t < |s.threads| && s.threads[t].pc == Publish
    ensures NewLen(Now(s).max).Some?
  {
    assert ThreadOk(s, t);
  }

  lemma {:induction false} RunFails(n: nat, isptr: bool, schedule: seq<nat>)
    ensures var s := Run(Init(n, isptr), schedule);
      Live(s) && (forall v: nat :: PointerOk(s, v)) && forall v: nat :: FailOk(s, v)
    decreases |schedule|
  {
    hide Live, Step;
    if schedule == [] {
      InitLive(n, isptr);
    } else {
      var before, t := schedule[..|schedule| - 1], schedule[|schedule| - 1];
      RunFails(n, isptr, before);
      var s := Run(Init(n, isptr), before);
      if t < |s.threads| {
        StepKeepsLive(s, t);
        StepFails(s, t);
      }
    }
  }

  lemma StepFails(s: State, t: nat)
    requires Live(s) && t < |s.threads| && (forall v: nat :: PointerOk(s, v)) && forall v: nat :: FailOk(s, v)
    ensures (forall v: nat :: PointerOk(Step(s, t), v)) && forall v: nat :: FailOk(Step(s, t), v)
  {
    hide PointerOk, FailOk, Step;
    LiveParts(s);
    forall v: nat
      ensures PointerOk(Step(s, t), v) && FailOk(Step(s, t), v)
    {
      PointerKept(s, t, v);
      FailKept(s, t, v);
    }
  }

  lemma LiveParts(s: State)
    requires Live(s)
    ensures Inv(s) && Sized(s)
  {
  }

  /** In every run a call returns 0 only when the tuple is full and of the largest size, or, behind a pointer, when
      more tickets have been drawn than the tuple has slots. */
  lemma FailsOnlyWhenFull(n: nat, isptr: bool, schedule: seq<nat>, t: nat)
    requires var s := Run(Init(n, isptr), schedule); t < |s.threads| && s.threads[t].pc == Done(false)
    ensures var s := Run(Init(n, isptr), schedule);
      if isptr then Now(s).addLen > Now(s).max else Now(s).len == Now(s).max && NewLen(Now(s).max) == None
  {
    hide Run, Live;
    RunFails(n, isptr, schedule);
    var s := Run(Init(n, isptr), schedule);
    assert PointerOk(s, t) && FailOk(s, t);
    PointerSame(n, isptr, schedule);
  }

  lemma {:induction false} PointerSame(n: nat, isptr: bool, schedule: seq<nat>)
    ensures Run(Init(n, isptr), schedule).isptr == isptr
    decreases |schedule|
  {
    if schedule != [] {
      PointerSame(n, isptr, schedule[..|schedule| - 1]);
    }
  }
}
