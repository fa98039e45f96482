/** add_tuple_member with atomics: calls claim tickets, write, commit in order, and grow the tuple.
    Every call is a thread that takes one step per access to shared memory; a run is any schedule. */
module TupleProtocol {
  import opened Optional
  import opened TupleSize

  /** Where a call stands in the source: each value names the access it makes next. */
  datatype Pc =
    | Start | Claim | Test | Full | WaitLen | WaitData
    | Lock | Check | SetLen | SetAdd | Grow | Copy | Publish | Reload | Unlock | FailUnlock
    | Write | CommitWait | Commit
    | Done(ok: bool)

  /** tuple and tmp are the locals of the source, i is the copy index of a growing call. */
  datatype Thread = Thread(pc: Pc, tuple: nat, tmp: nat, i: nat)

  datatype Tuple = Tuple(max: nat, len: nat, addLen: nat, member: seq<Option<nat>>)

  /** tuples holds every tuple ever allocated for the container, data is the current one. */
  datatype State = State(tuples: seq<Tuple>, data: nat, lock: Option<nat>, isptr: bool, threads: seq<Thread>)

  function Blank(max: nat, len: nat): Tuple {
    Tuple(max, len, len, seq(max, _ => None))
  }

  function T(s: State, k: nat): Tuple {
    if k < |s.tuples| then s.tuples[k] else Tuple(0, 0, 0, [])
  }

  function M(u: Tuple, i: nat): Option<nat> {
    if i < |u.member| then u.member[i] else None
  }

  function With(s: State, t: nat, th: Thread): State
    requires t < |s.threads|
  {
    s.(threads := s.threads[t := th])
  }

  function WithTuple(s: State, k: nat, u: Tuple): State {
    if k < |s.tuples| then s.(tuples := s.tuples[k := u]) else s
  }

  /** One step of thread t; a thread that has to wait stays where it is. */
  function Step(s: State, t: nat): State
    requires t < |s.threads|
  {
    var th := s.threads[t];
    var u := T(s, th.tuple);
    match th.pc
    case Start => With(s, t, th.(tuple := s.data, pc := Claim))
    case Claim => With(WithTuple(s, th.tuple, u.(addLen := u.addLen + 1)), t, th.(tmp := u.addLen, pc := Test))
    case Test => With(s, t, th.(pc := if th.tmp >= u.max then Full else Write))
    case Full => With(s, t, th.(pc := if s.isptr then Done(false) else WaitLen))
    case WaitLen => With(s, t, th.(pc := if u.len != th.tmp then WaitData else Lock))
    case WaitData => With(s, t, th.(pc := if th.tuple == s.data then WaitLen else Lock))
    case Lock => if s.lock.Some? then s else With(s.(lock := Some(t)), t, th.(pc := Check))
    case Check => With(s, t, th.(pc := if th.tuple == s.data then SetLen else Reload))
    case SetLen => With(WithTuple(s, th.tuple, u.(len := u.max)), t, th.(pc := SetAdd))
    case SetAdd => With(WithTuple(s, th.tuple, u.(addLen := u.max)), t, th.(pc := Grow))
    case Grow =>
      var n := NewLen(u.max);
      if n == None then With(s, t, th.(pc := FailUnlock))
      else With(s.(tuples := s.tuples + [Blank(n.value, u.len)]), t, th.(i := 0, pc := Copy))
    case Copy =>
      var n := T(s, s.data + 1);
      if th.i < n.len
      then With(WithTuple(s, s.data + 1, Put(n, th.i, M(u, th.i))), t, th.(i := th.i + 1))
      else With(s, t, th.(pc := Publish))
    case Publish => With(s.(data := s.data + 1), t, th.(pc := Reload))
    case Reload => With(s, t, th.(tuple := s.data, pc := Unlock))
    case Unlock => With(s.(lock := None), t, th.(pc := Claim))
    case FailUnlock => With(s.(lock := None), t, th.(pc := Done(false)))
    case Write => With(WithTuple(s, th.tuple, Put(u, th.tmp, Some(t))), t, th.(pc := CommitWait))
    case CommitWait => With(s, t, th.(pc := if u.len != th.tmp then CommitWait else Commit))
    case Commit => With(WithTuple(s, th.tuple, u.(len := th.tmp + 1)), t, th.(pc := Done(true)))
    case Done(_) => s
  }

  function Put(u: Tuple, i: nat, m: Option<nat>): Tuple {
    if i < |u.member| then u.(member := u.member[i := m]) else u
  }

  /** n calls that have not started, on a fresh container. */
  function Init(n: nat, isptr: bool): State {
    State([Blank(SMALL, 0)], 0, None, isptr, seq(n, _ => Thread(Start, 0, 0, 0)))
  }

  // ----- the invariant -----

  predicate Locked(pc: Pc) {
    pc in {Check, SetLen, SetAdd, Grow, Copy, Publish, Reload, Unlock, FailUnlock}
  }

  predicate Growing(pc: Pc) {
    pc in {Copy, Publish}
  }

  /** The thread owns the slot tmp of its tuple and has not published it. */
  predicate Claims(th: Thread, u: Tuple) {
    (th.pc == Test && th.tmp < u.max) || th.pc in {Write, CommitWait, Commit}
  }

  ghost predicate TupleOk(s: State, k: nat) {
    k < |s.tuples| ==> (
      var u := T(s, k);
      && |u.member| == u.max && u.len <= u.max && u.len <= u.addLen
      && (k < s.data ==> u.len == u.max))
  }

  /** The first i members of a full tuple u have been copied to the new tuple n. */
  ghost predicate CopiedTo(u: Tuple, n: Tuple, i: nat) {
    && n.len == n.addLen == u.max <= n.max && i <= u.max
    && forall j :: 0 <= j < i ==> M(n, j) == M(u, j)
  }

  ghost predicate ThreadOk(s: State, t: nat) {
    t < |s.threads| ==> (
      var th := s.threads[t];
      var u := T(s, th.tuple);
      && th.tuple <= s.data
      && (Locked(th.pc) <==> s.lock == Some(t))
      && (Claims(th, u) ==> u.len <= th.tmp < u.addLen && th.tmp < u.max)
      && (th.pc in {CommitWait, Commit} ==> M(u, th.tmp) == Some(t))
      && (th.pc == Commit ==> u.len == th.tmp)
      && (th.pc in {Full, WaitLen, WaitData} ==> th.tmp >= u.max)
      && (th.pc in {Lock, Check} && th.tuple == s.data ==> u.len == u.max)
      && (th.pc in {SetLen, SetAdd, Grow, Copy, Publish} ==> th.tuple == s.data && u.len == u.max)
      && (Growing(th.pc) ==> |s.tuples| == s.data + 2 && CopiedTo(u, T(s, s.data + 1), th.i))
      && (th.pc == Publish ==> th.i == u.max)
      && (th.pc == Done(true) ==> th.tmp < T(s, s.data).len && M(T(s, s.data), th.tmp) == Some(t)))
  }

  ghost predicate Succeeded(s: State, t: nat, slot: nat) {
    t < |s.threads| && s.threads[t].pc == Done(true) && s.threads[t].tmp == slot
  }

  /** A published slot holds the member of the one call that returned success with it. */
  ghost predicate SlotOk(s: State, k: nat, i: nat) {
    k <= s.data && i < T(s, k).len ==> M(T(s, k), i).Some? && Succeeded(s, M(T(s, k), i).value, i)
  }

  /** Two calls never own the same slot of the same tuple. */
  ghost predicate NoClash(s: State, t: nat, v: nat) {
    t < |s.threads| && v < |s.threads| && t != v && s.threads[t].tuple == s.threads[v].tuple ==> (
      var u := T(s, s.threads[t].tuple);
      Claims(s.threads[t], u) && Claims(s.threads[v], u) ==> s.threads[t].tmp != s.threads[v].tmp)
  }

  ghost predicate Inv(s: State) {
    && s.data < |s.tuples| <= s.data + 2
    && (|s.tuples| == s.data + 2 ==> s.lock.Some? && s.lock.value < |s.threads| && Growing(s.threads[s.lock.value].pc))
    && (forall k: nat :: TupleOk(s, k))
    && (forall t: nat :: ThreadOk(s, t))
    && (forall t: nat, v: nat :: NoClash(s, t, v))
    && (forall k: nat, i: nat :: SlotOk(s, k, i))
  }

  lemma InitInv(n: nat, isptr: bool)
    ensures Inv(Init(n, isptr))
  {
  }
}
