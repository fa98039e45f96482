/** What keeps calls of add_tuple_member from waiting for nobody: every ticket has an owner, and whoever draws a
    ticket behind the last slot has someone in front who will reset the tickets. */
module TupleLive {
  import opened Optional
  import opened TupleSize
  import opened TupleProtocol
  import opened TupleSteps

  /** The current tuple. */
  function Now(s: State): Tuple {
    T(s, s.data)
  }

  predicate Waits(pc: Pc) {
    pc in {Test, Full, WaitLen, WaitData}
  }

  /** The call owns the slot of the current tuple and has not published it. */
  predicate Fills(s: State, v: nat, slot: nat) {
    v < |s.threads| && s.threads[v].tuple == s.data && Claims(s.threads[v], Now(s)) && s.threads[v].tmp == slot
  }

  /** The call holds the first ticket behind the last slot and has yet to reset the tickets. */
  predicate Resets(s: State, v: nat) {
    v < |s.threads| && s.threads[v].tuple == s.data && s.threads[v].tmp == Now(s).max
    && (Waits(s.threads[v].pc) || s.threads[v].pc in {Lock, Check, SetLen, SetAdd})
  }

  /** The call holds a later ticket, which no published length will ever equal. */
  predicate Beyond(s: State, v: nat) {
    v < |s.threads| && s.threads[v].tuple == s.data && Waits(s.threads[v].pc) && s.threads[v].tmp > Now(s).max
  }

  /** The holder of the lock is about to publish a larger tuple. */
  predicate Renews(s: State) {
    s.lock.Some? && s.lock.value < |s.threads| && s.threads[s.lock.value].pc in {Grow, Copy, Publish}
  }

  ghost predicate HasReset(s: State) {
    exists v: nat :: Resets(s, v)
  }

  /** A slot whose ticket is drawn and which is not published has an owner. */
  ghost predicate SlotFilled(s: State, slot: nat) {
    Now(s).len <= slot < Now(s).addLen && slot < Now(s).max ==> exists v: nat :: Fills(s, v, slot)
  }

  /** A ticket behind the last slot was drawn when all slots were. */
  predicate Drawn(s: State, v: nat) {
    v < |s.threads| && s.threads[v].tuple == s.data && Waits(s.threads[v].pc) && s.threads[v].tmp >= Now(s).max ==>
      Now(s).addLen >= Now(s).max
  }

  /** A call that unlocks has read the current tuple, and a container behind a pointer makes nobody wait. */
  predicate Placed(s: State, v: nat) {
    v < |s.threads| ==>
      && (s.threads[v].pc == Unlock ==> s.threads[v].tuple == s.data)
      && (s.isptr ==> s.threads[v].pc !in {WaitLen, WaitData})
  }

  /** A call with a later ticket will see a larger tuple, if there is one. */
  ghost predicate Relieved(s: State, v: nat) {
    Beyond(s, v) && !s.isptr && NewLen(Now(s).max).Some? ==> HasReset(s) || Renews(s)
  }

  predicate Sized(s: State) {
    && SMALL <= Now(s).max <= 2 * MAX_LEN
    && (|s.tuples| == s.data + 2 ==> NewLen(Now(s).max) == Some(T(s, s.data + 1).max))
    && (s.lock.Some? ==> s.lock.value < |s.threads|)
  }

  ghost predicate Live(s: State) {
    && Inv(s) && Sized(s)
    && (forall slot: nat :: SlotFilled(s, slot))
    && (forall v: nat :: Drawn(s, v))
    && (forall v: nat :: Placed(s, v))
    && (!s.isptr && Now(s).addLen > Now(s).max ==> HasReset(s))
    && (forall v: nat :: Relieved(s, v))
  }

  lemma InitLive(n: nat, isptr: bool)
    ensures Live(Init(n, isptr))
  {
    InitInv(n, isptr);
  }

  // ----- every step keeps it -----

  lemma FillsKept(s: State, t: nat, v: nat, slot: nat)
    requires Inv(s) && Here(s, t) && Fills(s, v, slot) && (t != v || s.threads[t].pc != Commit)
    ensures s.threads[t].pc != Publish ==> Fills(Step(s, t), v, slot)
  {
    assert ThreadOk(s, v) && TupleOk(s, s.data);
  }

  lemma ClaimFills(s: State, t: nat)
    requires Here(s, t) && s.threads[t].pc == Claim && s.threads[t].tuple == s.data && Now(s).addLen < Now(s).max
    ensures Fills(Step(s, t), t, Now(s).addLen)
  {
  }

  lemma SlotFilledKept(s: State, t: nat, slot: nat)
    requires Inv(s) && t < |s.threads| && SlotFilled(s, slot)
    ensures SlotFilled(Step(s, t), slot)
  {
    assert Here(s, t);
    var s' := Step(s, t);
    NowAfter(s, t);
    if Now(s').len <= slot < Now(s').addLen && slot < Now(s').max {
      if s.threads[t].pc == Claim && slot == Now(s).addLen {
        ClaimFills(s, t);
      } else {
        var v: nat :| Fills(s, v, slot);
        FillsKept(s, t, v, slot);
      }
    }
  }

  /** What a step does to the current tuple. */
  lemma NowAfter(s: State, t: nat)
    requires Inv(s) && t < |s.threads|
    ensures var th, u, s', u' := s.threads[t], Now(s), Step(s, t), Now(Step(s, t));
            && s'.isptr == s.isptr && |s'.threads| == |s.threads|
            && s'.data == (if th.pc == Publish then s.data + 1 else s.data)
            && (th.pc == Publish ==> u' == T(s, s.data + 1) && u'.len == u'.addLen == u.max == u.len)
            && (th.pc != Publish ==> u'.max == u.max)
            && (th.pc != Publish ==> u'.len == if th.pc == Commit then u.len + 1 else u.len)
            && (th.pc == SetAdd ==> u'.addLen == u.max)
            && (th.pc == Claim && th.tuple == s.data ==> u'.addLen == u.addLen + 1)
            && (th.pc !in {Publish, SetAdd} && (th.pc != Claim || th.tuple != s.data) ==> u'.addLen == u.addLen)
            && (th.pc == Commit ==> th.tuple == s.data && th.tmp == u.len)
            && (th.pc == SetLen || th.pc == SetAdd ==> th.tuple == s.data && u.len == u.max)
  {
    assert Here(s, t);
  }

  lemma ResetsKept(s: State, t: nat, v: nat)
    requires Inv(s) && t < |s.threads| && Resets(s, v) && !s.isptr
    requires s.threads[t].pc != Publish && (t == v ==> s.threads[t].pc != SetAdd)
    ensures Resets(Step(s, t), v)
  {
    NowAfter(s, t);
    assert ThreadOk(s, v);
  }

  lemma RenewsKept(s: State, t: nat)
    requires Inv(s) && t < |s.threads| && Renews(s) && NewLen(Now(s).max).Some? && s.threads[t].pc != Publish
    ensures Renews(Step(s, t))
  {
    assert ThreadOk(s, t) && ThreadOk(s, s.lock.value);
  }

  lemma SetAddRenews(s: State, t: nat)
    requires Inv(s) && t < |s.threads| && s.threads[t].pc == SetAdd
    ensures Renews(Step(s, t))
  {
    assert ThreadOk(s, t);
  }

  lemma HasResetKept(s: State, t: nat)
    requires Inv(s) && t < |s.threads| && HasReset(s) && !s.isptr && s.threads[t].pc != Publish
    ensures HasReset(Step(s, t)) || (s.threads[t].pc == SetAdd && Renews(Step(s, t)))
  {
    var v: nat :| Resets(s, v);
    if s.threads[t].pc == SetAdd {
      SetAddRenews(s, t);
    } else {
      ResetsKept(s, t, v);
    }
  }

  lemma ResetKept(s: State, t: nat)
    requires Live(s) && t < |s.threads|
    ensures var s' := Step(s, t); !s'.isptr && Now(s').addLen > Now(s').max ==> HasReset(s')
  {
    hide Resets, Claims, Renews;
    var s' := Step(s, t);
    NowAfter(s, t);
    assert TupleOk(s, s.data) && TupleOk(s, s.data + 1) && Here(s, t);
    if !s'.isptr && Now(s').addLen > Now(s').max {
      if s.threads[t].pc == Publish {
        PublishFits(s, t);
      } else if s.threads[t].pc == Claim && Now(s).addLen == Now(s).max {
        ClaimResets(s, t);
      } else {
        HasResetKept(s, t);
      }
    }
  }

  lemma ClaimResets(s: State, t: nat)
    requires Here(s, t) && s.threads[t].pc == Claim && s.threads[t].tuple == s.data && Now(s).addLen == Now(s).max
    ensures HasReset(Step(s, t))
  {
    assert Resets(Step(s, t), t);
  }

  /** Beyond the last slot it is either still, or by the ticket just drawn. */
  lemma BeyondBefore(s: State, t: nat, v: nat)
    requires Inv(s) && t < |s.threads| && Beyond(Step(s, t), v)
    ensures s.threads[t].pc != Publish
    ensures
      || Beyond(s, v)
      || (t == v && s.threads[t].pc == Claim && s.threads[t].tuple == s.data && Now(s).addLen > Now(s).max)
  {
    NowAfter(s, t);
    assert Here(s, t) && ThreadOk(s, v);
  }

  lemma RelievedKept(s: State, t: nat, v: nat)
    requires Live(s) && t < |s.threads|
    ensures Relieved(Step(s, t), v)
  {
    hide Beyond, HasReset, Renews, Claims;
    var s' := Step(s, t);
    NowAfter(s, t);
    if Beyond(s', v) && !s'.isptr && NewLen(Now(s').max).Some? {
      BeyondBefore(s, t, v);
      assert Relieved(s, v);
      if HasReset(s) {
        HasResetKept(s, t);
      } else {
        RenewsKept(s, t);
      }
    }
  }

  lemma DrawnKept(s: State, t: nat, v: nat)
    requires Inv(s) && t < |s.threads| && Drawn(s, v)
    ensures Drawn(Step(s, t), v)
  {
    NowAfter(s, t);
    assert Here(s, t) && ThreadOk(s, v);
  }

  lemma PlacedKept(s: State, t: nat, v: nat)
    requires Inv(s) && t < |s.threads| && Placed(s, v)
    ensures Placed(Step(s, t), v)
  {
    NowAfter(s, t);
    assert Here(s, t) && ThreadOk(s, v);
  }

  lemma LockOwned(s: State, t: nat)
    requires Inv(s) && t < |s.threads| && Sized(s)
    ensures Step(s, t).lock.Some? ==> Step(s, t).lock.value < |s.threads|
  {
    hide Inv;
  }

  lemma NextSized(s: State, t: nat)
    requires Inv(s) && t < |s.threads| && Sized(s)
    ensures var r := Step(s, t); |r.tuples| == r.data + 2 ==> NewLen(Now(r).max) == Some(T(r, r.data + 1).max)
    ensures s.threads[t].pc == Publish ==> |s.tuples| == s.data + 2
  {
    assert Here(s, t);
  }

  lemma SizedKept(s: State, t: nat)
    requires Inv(s) && t < |s.threads| && Sized(s)
    ensures Sized(Step(s, t))
  {
    hide Step, Inv;
    NowAfter(s, t);
    LockOwned(s, t);
    NextSized(s, t);
  }

  lemma PublishFits(s: State, t: nat)
    requires Inv(s) && t < |s.threads| && s.threads[t].pc == Publish
    ensures Now(Step(s, t)).addLen <= Now(Step(s, t)).max
  {
    assert ThreadOk(s, t);
  }

  lemma StepKeepsLive(s: State, t: nat)
    requires Live(s) && t < |s.threads|
    ensures Live(Step(s, t))
  {
    hide Inv, Sized, SlotFilled, Drawn, Placed, Relieved, HasReset;
    var s' := Step(s, t);
    StepKeepsInv(s, t);
    SizedKept(s, t);
    ResetKept(s, t);
    forall slot: nat ensures SlotFilled(s', slot) { SlotFilledKept(s, t, slot); }
    forall v: nat ensures Drawn(s', v) { DrawnKept(s, t, v); }
    forall v: nat ensures Placed(s', v) { PlacedKept(s, t, v); }
    forall v: nat ensures Relieved(s', v) { RelievedKept(s, t, v); }
  }
}
