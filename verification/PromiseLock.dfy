/** The per-upload lock of apps/web/lib/upload-store.ts: `withLock` keeps, for each id, the last
    promise of a chain in the module-level map `locks`. The model is a state machine at the level
    of single promises. One `Call` is one activation of `withLock`; calls are numbered in the order
    in which their synchronous prefix ran. Promise reactions run later and in any order, so
    resuming after `await prev` and settling `prev.then(() => next)` are events of their own. */
module PromiseLock {
  import opened Optional

  type Id = string

  datatype Phase =
    | Waiting  // suspended in `await prev`
    | Running  // inside the guarded work
    | Done     // `next` is resolved, whether the work returned or threw

  /** `prev` is the call whose chained promise was in the map on entry; None stands for
      `Promise.resolve()`. `settled` says that this call's own chained promise has settled. */
  datatype Call = Call(id: Id, prev: Option<nat>, phase: Phase, settled: bool)

  /** `locks[id]` names the call whose chained promise the map holds. */
  datatype State = State(calls: seq<Call>, locks: map<Id, nat>)

  datatype Event =
    | Enter(id: Id)     // synchronous prefix of withLock
    | Resume(call: nat) // `await prev` returns
    | Leave(call: nat)  // the `finally` block
    | Settle(call: nat) // the chained promise settles

  const INIT := State([], map[])

  predicate PrevSettled(s: State, t: nat)
    requires t < |s.calls|
  {
    match s.calls[t].prev
    case None => true
    case Some(p) => p < |s.calls| && s.calls[p].settled
  }

  predicate Enabled(s: State, e: Event) {
    match e
    case Enter(_) => true
    case Resume(t) => t < |s.calls| && s.calls[t].phase == Waiting && PrevSettled(s, t)
    case Leave(t) => t < |s.calls| && s.calls[t].phase == Running
    case Settle(t) =>
      t < |s.calls| && s.calls[t].phase == Done && !s.calls[t].settled && PrevSettled(s, t)
  }

  function SetPhase(calls: seq<Call>, t: nat, phase: Phase): (r: seq<Call>)
    requires t < |calls|
  {
    calls[t := calls[t].(phase := phase)]
  }

  function Apply(s: State, e: Event): State
    requires Enabled(s, e)
  {
    match e
    case Enter(id) =>
      var prev := if id in s.locks then Some(s.locks[id]) else None;
      State(s.calls + [Call(id, prev, Waiting, false)], s.locks[id := |s.calls|])
    case Resume(t) => s.(calls := SetPhase(s.calls, t, Running))
    case Leave(t) =>
      var id := s.calls[t].id;
      State(SetPhase(s.calls, t, Done),
            if id in s.locks && s.locks[id] == t then s.locks - {id} else s.locks)
    case Settle(t) => s.(calls := s.calls[t := s.calls[t].(settled := true)])
  }

  /** `es` is a possible history from `s`, and `s'` the state it leads to. */
  ghost predicate Run(s: State, es: seq<Event>, s': State)
    decreases |es|
  {
    if es == [] then s' == s
    else Enabled(s, es[0]) && Run(Apply(s, es[0]), es[1..], s')
  }

  // ---------------------------------------------------------------- the invariant

  ghost predicate MapNamesLastCall(s: State) {
    forall id :: id in s.locks ==>
      && s.locks[id] < |s.calls|
      && s.calls[s.locks[id]].id == id
      && s.calls[s.locks[id]].phase != Done
      && forall u :: s.locks[id] < u < |s.calls| ==> s.calls[u].id != id
  }

  ghost predicate UnmappedIsIdle(s: State) {
    forall t :: 0 <= t < |s.calls| && s.calls[t].phase != Done ==> s.calls[t].id in s.locks
  }

  /** The chain link of call t points at the call of the same id just before it. */
  ghost predicate PrevIsPredecessor(s: State, t: nat)
    requires t < |s.calls|
  {
    match s.calls[t].prev
    case None => AllDoneBefore(s, t)
    case Some(p) =>
      && p < t
      && s.calls[p].id == s.calls[t].id
      && (s.calls[t].phase != Waiting ==> s.calls[p].settled)
      && forall u :: p < u < t ==> s.calls[u].id != s.calls[t].id
  }

  ghost predicate AllDoneBefore(s: State, t: nat)
    requires t < |s.calls|
  {
    forall u :: 0 <= u < t && s.calls[u].id == s.calls[t].id ==> s.calls[u].phase == Done
  }

  ghost predicate SettledIsDone(s: State, t: nat)
    requires t < |s.calls|
  {
    s.calls[t].settled ==> s.calls[t].phase == Done && PrevSettled(s, t)
  }

  ghost predicate Links(s: State) {
    forall t: nat | t < |s.calls| :: PrevIsPredecessor(s, t) && SettledIsDone(s, t)
  }

  /** A call that got past `await prev` leaves nobody unfinished before it. */
  ghost predicate FirstCome(s: State) {
    forall t: nat | t < |s.calls| && s.calls[t].phase != Waiting :: AllDoneBefore(s, t)
  }

  ghost predicate Inv(s: State) {
    && MapNamesLastCall(s)
    && UnmappedIsIdle(s)
    && Links(s)
    && FirstCome(s)
  }

  lemma EnterKeepsInv(s: State, id: Id)
    requires Inv(s)
    ensures Inv(Apply(s, Enter(id)))
  {
    var s' := Apply(s, Enter(id));
    var n := |s.calls|;
    assert forall t :: 0 <= t < n ==> s'.calls[t] == s.calls[t];
    forall t: nat | t < n + 1
      ensures PrevIsPredecessor(s', t) && SettledIsDone(s', t)
      ensures s'.calls[t].phase != Waiting ==> AllDoneBefore(s', t)
    {
      if t < n {
        assert PrevIsPredecessor(s, t) && SettledIsDone(s, t);
        assert s.calls[t].phase != Waiting ==> AllDoneBefore(s, t);
      }
    }
  }

  /** What settling of the predecessor's promise tells a waiting call. */
  lemma SettledPrevMeansAllDone(s: State, t: nat)
    requires Inv(s) && t < |s.calls| && PrevSettled(s, t)
    ensures AllDoneBefore(s, t)
  {
    assert PrevIsPredecessor(s, t);
    match s.calls[t].prev
    case None =>
    case Some(p) =>
      assert SettledIsDone(s, p);
      assert AllDoneBefore(s, p);
  }

  lemma ResumeKeepsInv(s: State, t: nat)
    requires Inv(s) && Enabled(s, Resume(t))
    ensures Inv(Apply(s, Resume(t)))
  {
    var s' := Apply(s, Resume(t));
    SettledPrevMeansAllDone(s, t);
    forall u: nat | u < |s.calls|
      ensures PrevIsPredecessor(s', u) && SettledIsDone(s', u)
      ensures s'.calls[u].phase != Waiting ==> AllDoneBefore(s', u)
    {
      assert PrevIsPredecessor(s, u) && SettledIsDone(s, u);
      assert s.calls[u].phase != Waiting ==> AllDoneBefore(s, u);
    }
  }

  lemma LeaveKeepsInv(s: State, t: nat)
    requires Inv(s) && Enabled(s, Leave(t))
    ensures Inv(Apply(s, Leave(t)))
  {
    var s' := Apply(s, Leave(t));
    assert AllDoneBefore(s, t);
    forall u: nat | u < |s.calls|
      ensures PrevIsPredecessor(s', u) && SettledIsDone(s', u)
      ensures s'.calls[u].phase != Waiting ==> AllDoneBefore(s', u)
    {
      assert PrevIsPredecessor(s, u) && SettledIsDone(s, u);
      assert s.calls[u].phase != Waiting ==> AllDoneBefore(s, u);
    }
  }

  lemma SettleKeepsInv(s: State, t: nat)
    requires Inv(s) && Enabled(s, Settle(t))
    ensures Inv(Apply(s, Settle(t)))
  {
    var s' := Apply(s, Settle(t));
    forall u: nat | u < |s.calls|
      ensures PrevIsPredecessor(s', u) && SettledIsDone(s', u)
      ensures s'.calls[u].phase != Waiting ==> AllDoneBefore(s', u)
    {
      assert PrevIsPredecessor(s, u) && SettledIsDone(s, u);
      assert s.calls[u].phase != Waiting ==> AllDoneBefore(s, u);
    }
  }

  lemma ApplyKeepsInv(s: State, e: Event)
    requires Inv(s) && Enabled(s, e)
    ensures Inv(Apply(s, e))
  {
    match e
    case Enter(id) => EnterKeepsInv(s, id);
    case Resume(t) => ResumeKeepsInv(s, t);
    case Leave(t) => LeaveKeepsInv(s, t);
    case Settle(t) => SettleKeepsInv(s, t);
  }

  /** Every reachable state satisfies the invariant. */
  lemma {:induction false} RunKeepsInv(s: State, es: seq<Event>, s': State)
    requires Inv(s) && Run(s, es, s')
    ensures Inv(s')
    decreases |es|
  {
    if es != [] {
      ApplyKeepsInv(s, es[0]);
      RunKeepsInv(Apply(s, es[0]), es[1..], s');
    }
  }

  // ---------------------------------------------------------------- what the lock promises

  /** At most one call per id is inside the guarded work. */
  lemma MutualExclusion(es: seq<Event>, s: State, t: nat, u: nat)
    requires Run(INIT, es, s)
    requires t < |s.calls| && u < |s.calls| && s.calls[t].id == s.calls[u].id
    requires s.calls[t].phase == Running && s.calls[u].phase == Running
    ensures t == u
  {
    RunKeepsInv(INIT, es, s);
    assert AllDoneBefore(s, t) && AllDoneBefore(s, u);
  }

  /** The calls of `id` that still hold or await the lock, in order of arrival. */
  ghost function Pending(calls: seq<Call>, id: Id): seq<nat> {
    if calls == [] then []
    else
      var n := |calls| - 1;
      Pending(calls[..n], id) + if calls[n].id == id && calls[n].phase != Done then [n] else []
  }

  lemma {:induction false} PendingMembers(calls: seq<Call>, id: Id, t: nat)
    ensures t in Pending(calls, id) <==> t < |calls| && calls[t].id == id && calls[t].phase != Done
  {
    if calls != [] {
      PendingMembers(calls[..|calls| - 1], id, t);
    }
  }

  ghost predicate SameShape(calls: seq<Call>, calls': seq<Call>, id: Id) {
    && |calls| == |calls'|
    && forall u :: 0 <= u < |calls| ==>
      (calls[u].id == id && calls[u].phase != Done <==> calls'[u].id == id && calls'[u].phase != Done)
  }

  lemma {:induction false} PendingDependsOnShape(calls: seq<Call>, calls': seq<Call>, id: Id)
    requires SameShape(calls, calls', id)
    ensures Pending(calls, id) == Pending(calls', id)
  {
    if calls != [] {
      PendingDependsOnShape(calls[..|calls| - 1], calls'[..|calls| - 1], id);
    }
  }

  /** A call with nobody unfinished before it is the head, and finishing it pops the head. */
  lemma {:induction false} FinishingPopsHead(calls: seq<Call>, id: Id, t: nat)
    requires t < |calls| && calls[t].id == id && calls[t].phase != Done
    requires forall u :: 0 <= u < t && calls[u].id == id ==> calls[u].phase == Done
    ensures Pending(calls, id) != [] && Pending(calls, id)[0] == t
    ensures Pending(SetPhase(calls, t, Done), id) == Pending(calls, id)[1..]
  {
    var n := |calls| - 1;
    var calls' := SetPhase(calls, t, Done);
    if t == n {
      if Pending(calls[..n], id) != [] {
        PendingMembers(calls[..n], id, Pending(calls[..n], id)[0]);
      }
      assert calls'[..n] == calls[..n];
    } else {
      FinishingPopsHead(calls[..n], id, t);
      assert calls'[..n] == SetPhase(calls[..n], t, Done);
    }
  }

  /** Refinement: seen from any id, the promise chain is a queue whose head alone may run. Entering
      appends to the queue, resuming needs the head, leaving pops it, settling is invisible. */
  lemma RefinesQueueLock(s: State, e: Event, id: Id)
    requires Inv(s) && Enabled(s, e)
    ensures
      var q, q' := Pending(s.calls, id), Pending(Apply(s, e).calls, id);
      match e
      case Enter(i) => q' == if i == id then q + [|s.calls|] else q
      case Resume(t) => q' == q && (s.calls[t].id == id ==> q != [] && q[0] == t)
      case Leave(t) => if s.calls[t].id == id then q != [] && q[0] == t && q' == q[1..] else q' == q
      case Settle(_) => q' == q
  {
    var calls' := Apply(s, e).calls;
    match e
    case Enter(i) => assert calls'[..|s.calls|] == s.calls;
    case Resume(t) =>
      PendingDependsOnShape(s.calls, calls', id);
      SettledPrevMeansAllDone(s, t);
      if s.calls[t].id == id {
        FinishingPopsHead(s.calls, id, t);
      }
    case Leave(t) =>
      assert AllDoneBefore(s, t);
      if s.calls[t].id == id {
        FinishingPopsHead(s.calls, id, t);
      } else {
        PendingDependsOnShape(s.calls, calls', id);
      }
    case Settle(t) => PendingDependsOnShape(s.calls, calls', id);
  }

  /** The map holds an entry exactly while some call of the id holds or awaits the lock, so the
      entry is neither leaked nor removed under a live chain. */
  lemma MapEntryMeansBusy(es: seq<Event>, s: State, id: Id)
    requires Run(INIT, es, s)
    ensures id in s.locks <==> Pending(s.calls, id) != []
  {
    RunKeepsInv(INIT, es, s);
    if id in s.locks {
      PendingMembers(s.calls, id, s.locks[id]);
    }
    if Pending(s.calls, id) != [] {
      PendingMembers(s.calls, id, Pending(s.calls, id)[0]);
    }
  }

  // ---------------------------------------------------------------- no lost wake-up

  ghost function CallWork(c: Call): nat {
    (match c.phase case Waiting => 2 case Running => 1 case Done => 0) + if c.settled then 0 else 1
  }

  ghost function Work(calls: seq<Call>): nat {
    if calls == [] then 0 else Work(calls[..|calls| - 1]) + CallWork(calls[|calls| - 1])
  }

  lemma {:induction false} WorkOfUpdate(calls: seq<Call>, t: nat, c: Call)
    requires t < |calls|
    ensures Work(calls[t := c]) == Work(calls) - CallWork(calls[t]) + CallWork(c)
  {
    var n := |calls| - 1;
    if t == n {
      assert calls[t := c][..n] == calls[..n];
    } else {
      WorkOfUpdate(calls[..n], t, c);
      assert calls[t := c][..n] == calls[..n][t := c];
    }
  }

  lemma {:induction false} WorkToDo(calls: seq<Call>)
    requires Work(calls) > 0
    ensures exists t :: 0 <= t < |calls| && CallWork(calls[t]) > 0
  {
    var n := |calls| - 1;
    if CallWork(calls[n]) == 0 {
      WorkToDo(calls[..n]);
      var t :| 0 <= t < n && CallWork(calls[..n][t]) > 0;
      assert calls[t] == calls[..n][t];
    }
  }

  /** Whoever is unfinished, walking back along the chain finds an event that can happen now. */
  lemma {:induction false} SomeEventIsEnabled(s: State, t: nat) returns (e: Event)
    requires Inv(s) && t < |s.calls| && CallWork(s.calls[t]) > 0
    ensures !e.Enter? && Enabled(s, e)
    decreases t
  {
    assert PrevIsPredecessor(s, t) && SettledIsDone(s, t);
    if s.calls[t].phase == Running {
      e := Leave(t);
    } else if PrevSettled(s, t) {
      e := if s.calls[t].phase == Waiting then Resume(t) else Settle(t);
    } else {
      e := SomeEventIsEnabled(s, s.calls[t].prev.value);
    }
  }

  lemma EventDoesOneUnitOfWork(s: State, e: Event)
    requires Inv(s) && Enabled(s, e) && !e.Enter?
    ensures Work(Apply(s, e).calls) == Work(s.calls) - 1
  {
    match e
    case Resume(t) =>
      assert SettledIsDone(s, t);
      WorkOfUpdate(s.calls, t, s.calls[t].(phase := Running));
    case Leave(t) => WorkOfUpdate(s.calls, t, s.calls[t].(phase := Done));
    case Settle(t) => WorkOfUpdate(s.calls, t, s.calls[t].(settled := true));
  }

  /** No lost wake-up. From every reachable state, without new arrivals, each schedule has at most
      `Work` events left, and as long as work is left some event is enabled. Hence every schedule
      that does not stop early lets every waiting call run, and `Drain` names the end state. */
  lemma {:induction false} Drain(s: State) returns (es: seq<Event>, s': State)
    requires Inv(s)
    ensures Run(s, es, s') && |es| == Work(s.calls) && forall e :: e in es ==> !e.Enter?
    ensures |s'.calls| == |s.calls| && s'.locks == map[]
    ensures forall t :: 0 <= t < |s'.calls| ==> s'.calls[t].phase == Done
    decreases Work(s.calls)
  {
    if Work(s.calls) == 0 {
      es, s' := [], s;
      forall t: nat | t < |s.calls|
        ensures s.calls[t].phase == Done
      {
        WorkOfUpdate(s.calls, t, Call(s.calls[t].id, None, Done, true));
      }
      assert forall id :: id !in s.locks;
    } else {
      WorkToDo(s.calls);
      var t :| 0 <= t < |s.calls| && CallWork(s.calls[t]) > 0;
      var e := SomeEventIsEnabled(s, t);
      ApplyKeepsInv(s, e);
      EventDoesOneUnitOfWork(s, e);
      var rest;
      rest, s' := Drain(Apply(s, e));
      es := [e] + rest;
      assert es[1..] == rest;
    }
  }

  lemma {:induction false} SchedulesAreBounded(s: State, es: seq<Event>, s': State)
    requires Inv(s) && Run(s, es, s') && forall e :: e in es ==> !e.Enter?
    ensures |es| == Work(s.calls) - Work(s'.calls)
    decreases |es|
  {
    if es != [] {
      assert es[0] in es && forall e :: e in es[1..] ==> e in es;
      ApplyKeepsInv(s, es[0]);
      EventDoesOneUnitOfWork(s, es[0]);
      SchedulesAreBounded(Apply(s, es[0]), es[1..], s');
    }
  }

  // ---------------------------------------------------------------- the code

  /** The module-level map and the suspended activations of `withLock`. Each method is one
      uninterrupted stretch of the function's code. */
  class LockTable {
    var calls: seq<Call>
    var locks: map<Id, nat>

    ghost function Snapshot(): State
      reads this
    {
      State(calls, locks)
    }

    constructor ()
      ensures Snapshot() == INIT
    {
      calls, locks := [], map[];
    }

    /** Up to `await prev`: read the map, build the chained promise, store it. */
    method EnterCall(id: Id) returns (call: nat)
      modifies this
      ensures call == old(|calls|) && Snapshot() == Apply(old(Snapshot()), Enter(id))
    {
      var prev: Option<nat> := None;
      if id in locks {
        prev := Some(locks[id]);
      }
      call := |calls|;
      calls := calls + [Call(id, prev, Waiting, false)];
      locks := locks[id := call];
    }

    /** `await prev` returned; the guarded work starts. */
    method ResumeCall(call: nat)
      requires Enabled(Snapshot(), Resume(call))
      modifies this
      ensures Snapshot() == Apply(old(Snapshot()), Resume(call))
    {
      calls := calls[call := calls[call].(phase := Running)];
    }

    /** The `finally` block, reached by return and by throw alike. */
    method LeaveCall(call: nat)
      requires Enabled(Snapshot(), Leave(call))
      modifies this
      ensures Snapshot() == Apply(old(Snapshot()), Leave(call))
    {
      var id := calls[call].id;
      calls := calls[call := calls[call].(phase := Done)];
      if id in locks && locks[id] == call {
        locks := locks - {id};
      }
    }
  }
}
