/** Every step of every call keeps the invariant, one part of it at a time. */
module TupleSteps {
  import opened Optional
  import opened TupleSize
  import opened TupleProtocol

  /** What a step needs to know about the call that takes it. */
  ghost predicate Here(s: State, t: nat) {
    && t < |s.threads| && s.data < |s.tuples| <= s.data + 2
    && ThreadOk(s, t) && TupleOk(s, s.threads[t].tuple) && TupleOk(s, s.data)
  }

  /** The step reads shared memory or moves the lock, and writes no tuple. */
  predicate Reads(pc: Pc) {
    pc in {Start, Test, Full, WaitLen, WaitData, Lock, Check, Reload, Unlock, FailUnlock, CommitWait, Publish}
  }

  /** The step takes, fills or publishes a slot of the tuple of its call. */
  predicate Adds(pc: Pc) {
    pc in {Claim, Write, Commit}
  }

  lemma TupleRead(s: State, t: nat, k: nat)
    requires Here(s, t) && TupleOk(s, k) && Reads(s.threads[t].pc)
    ensures TupleOk(Step(s, t), k)
  {
  }

  lemma TupleKept(s: State, t: nat, k: nat)
    requires Here(s, t) && TupleOk(s, k)
    ensures TupleOk(Step(s, t), k)
  {
    if Reads(s.threads[t].pc) {
      TupleRead(s, t, k);
    }
  }

  lemma SlotPublish(s: State, t: nat, k: nat, i: nat)
    requires Here(s, t) && s.threads[t].pc == Publish && SlotOk(s, k, i) && SlotOk(s, s.data, i)
    ensures SlotOk(Step(s, t), k, i)
  {
    if k == s.data + 1 && i < T(s, s.data).max {
      assert M(T(s, k), i) == M(T(s, s.data), i);
    }
  }

  lemma SlotAdd(s: State, t: nat, k: nat, i: nat)
    requires Here(s, t) && Adds(s.threads[t].pc) && TupleOk(s, k) && SlotOk(s, k, i)
    ensures SlotOk(Step(s, t), k, i)
  {
  }

  lemma SlotKept(s: State, t: nat, k: nat, i: nat)
    requires Here(s, t) && TupleOk(s, k) && SlotOk(s, k, i) && SlotOk(s, s.data, i)
    ensures SlotOk(Step(s, t), k, i)
  {
    if s.threads[t].pc == Publish {
      SlotPublish(s, t, k, i);
    } else if Adds(s.threads[t].pc) {
      SlotAdd(s, t, k, i);
    }
  }

  lemma NoClashRead(s: State, t: nat, v: nat, w: nat)
    requires Here(s, t) && Reads(s.threads[t].pc) && NoClash(s, v, w)
    ensures NoClash(Step(s, t), v, w)
  {
  }

  lemma NoClashAdd(s: State, t: nat, v: nat, w: nat)
    requires Here(s, t) && Adds(s.threads[t].pc) && ThreadOk(s, v) && ThreadOk(s, w) && NoClash(s, v, w)
    ensures NoClash(Step(s, t), v, w)
  {
  }

  lemma NoClashKept(s: State, t: nat, v: nat, w: nat)
    requires Here(s, t) && ThreadOk(s, v) && ThreadOk(s, w) && NoClash(s, v, w)
    ensures NoClash(Step(s, t), v, w)
  {
    if Reads(s.threads[t].pc) {
      NoClashRead(s, t, v, w);
    } else if Adds(s.threads[t].pc) {
      NoClashAdd(s, t, v, w);
    }
  }

  lemma OtherRead(s: State, t: nat, v: nat)
    requires Here(s, t) && v != t && ThreadOk(s, v) && Reads(s.threads[t].pc)
    ensures ThreadOk(Step(s, t), v)
  {
  }

  lemma OtherAdd(s: State, t: nat, v: nat)
    requires Here(s, t) && v != t && ThreadOk(s, v) && NoClash(s, t, v)
    requires s.threads[t].pc in {Claim, Write}
    ensures ThreadOk(Step(s, t), v)
  {
  }

  lemma OtherCommit(s: State, t: nat, v: nat)
    requires Here(s, t) && v != t && ThreadOk(s, v) && NoClash(s, t, v) && s.threads[t].pc == Commit
    ensures ThreadOk(Step(s, t), v)
  {
  }

  lemma OtherThreadKept(s: State, t: nat, v: nat)
    requires Here(s, t) && v != t && ThreadOk(s, v) && NoClash(s, t, v)
    ensures ThreadOk(Step(s, t), v)
  {
    if Reads(s.threads[t].pc) {
      OtherRead(s, t, v);
    } else if s.threads[t].pc == Commit {
      OtherCommit(s, t, v);
    } else if Adds(s.threads[t].pc) {
      OtherAdd(s, t, v);
    }
  }

  lemma OwnAdd(s: State, t: nat)
    requires Here(s, t) && Adds(s.threads[t].pc)
    ensures ThreadOk(Step(s, t), t)
  {
  }

  lemma OwnRead(s: State, t: nat)
    requires Here(s, t) && Reads(s.threads[t].pc)
    ensures ThreadOk(Step(s, t), t)
  {
  }

  lemma OwnCopy(s: State, t: nat)
    requires Here(s, t) && s.threads[t].pc == Copy && TupleOk(s, s.data + 1)
    ensures ThreadOk(Step(s, t), t)
  {
    var s', th := Step(s, t), s.threads[t];
    assert CopiedTo(T(s, s.data), T(s', s.data + 1), s'.threads[t].i) by {
      assert forall j :: 0 <= j < th.i ==> M(T(s, s.data + 1), j) == M(T(s, s.data), j);
    }
  }

  lemma OwnThreadKept(s: State, t: nat)
    requires Here(s, t) && TupleOk(s, s.data + 1) && (|s.tuples| == s.data + 2 ==> s.lock.Some?)
    requires |s.tuples| == s.data + 2 && s.lock == Some(t) ==> Growing(s.threads[t].pc)
    ensures ThreadOk(Step(s, t), t)
  {
    if Reads(s.threads[t].pc) {
      OwnRead(s, t);
    } else if Adds(s.threads[t].pc) {
      OwnAdd(s, t);
    } else if s.threads[t].pc == Copy {
      OwnCopy(s, t);
    }
  }

  /** Whatever call takes the next step, the invariant is kept. */
  lemma StepKeepsInv(s: State, t: nat)
    requires Inv(s) && t < |s.threads|
    ensures Inv(Step(s, t)) && |Step(s, t).threads| == |s.threads|
  {
    assert Here(s, t);
    var s' := Step(s, t);
    forall k: nat ensures TupleOk(s', k) { TupleKept(s, t, k); }
    forall k: nat, i: nat ensures SlotOk(s', k, i) { SlotKept(s, t, k, i); }
    forall v: nat, w: nat ensures NoClash(s', v, w) { NoClashKept(s, t, v, w); }
    forall v: nat ensures ThreadOk(s', v) {
      if v == t { OwnThreadKept(s, t); } else { OtherThreadKept(s, t, v); }
    }
  }
}
