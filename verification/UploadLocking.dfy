/** The PATCH handlers of UploadServer on top of the promise chain of PromiseLock, instead of the
    lock queue: this machine has no queue, a handler runs when the chain resumes its call. Every run
    of it is a run of UploadServer, so what is proved there holds with the real lock. */
module UploadLocking {
  import L = PromiseLock
  import S = UploadServer

  /** `owner[t]` is the handler that call t of `withLock` belongs to. The server's queue is unused. */
  datatype World = World(server: S.Server, lock: L.State, owner: seq<nat>)

  datatype Event =
    | Free(e: S.Event)   // a step that has nothing to do with the lock
    | Enter(handler: nat)
    | Resume(call: nat)
    | Stat(call: nat)
    | Write(call: nat)
    | Fail(call: nat)    // the guarded work throws
    | Settle(call: nat)

  function Init(total: nat): World {
    World(S.Init(total), L.INIT, [])
  }

  predicate Runs(w: World, t: nat) {
    && t < |w.lock.calls| && w.lock.calls[t].phase == L.Running
    && t < |w.owner| && w.owner[t] < |w.server.handlers|
  }

  predicate Enabled(w: World, e: Event) {
    match e
    case Free(se) =>
      && !se.Enter? && !se.Stat? && !se.Write? && S.Enabled(w.server, se)
      && (se.Fail? ==> !S.HoldsLock(w.server.handlers[se.handler].stage))
    case Enter(h) => S.Enabled(w.server, S.Enter(h))
    case Resume(t) => L.Enabled(w.lock, L.Resume(t))
    case Stat(t) => Runs(w, t) && w.server.handlers[w.owner[t]].stage.Waiting?
    case Write(t) => Runs(w, t) && w.server.handlers[w.owner[t]].stage.Statted?
    case Fail(t) => Runs(w, t) && S.HoldsLock(w.server.handlers[w.owner[t]].stage)
    case Settle(t) => L.Enabled(w.lock, L.Settle(t))
  }

  function NoQueue(s: S.Server): S.Server {
    s.(queue := [])
  }

  /** `id` is the upload's id, under which all of its requests lock. */
  function Apply(w: World, e: Event, id: L.Id): World
    requires Enabled(w, e)
  {
    match e
    case Free(se) =>
      var server := NoQueue(S.Apply(w.server, se));
      // a restart takes the module's map with it
      if se.Crash? then World(server, L.INIT, []) else w.(server := server)
    case Enter(h) =>
      var server := NoQueue(S.Apply(w.server, S.Enter(h)));
      if server.handlers[h].stage.Waiting? then World(server, L.Apply(w.lock, L.Enter(id)), w.owner + [h])
      else w.(server := server)
    case Resume(t) => w.(lock := L.Apply(w.lock, L.Resume(t)))
    case Stat(t) =>
      var server := NoQueue(S.Checked(w.server, w.owner[t]));
      if server.handlers[w.owner[t]].stage.Statted? then w.(server := server)
      else w.(server := server, lock := L.Apply(w.lock, L.Leave(t)))
    case Write(t) =>
      w.(server := NoQueue(S.Apply(w.server, S.Write(w.owner[t]))), lock := L.Apply(w.lock, L.Leave(t)))
    case Fail(t) =>
      w.(server := S.Move(w.server, w.owner[t], S.Dead), lock := L.Apply(w.lock, L.Leave(t)))
    case Settle(t) => w.(lock := L.Apply(w.lock, L.Settle(t)))
  }

  ghost predicate Run(w: World, es: seq<Event>, w': World, id: L.Id)
    decreases |es|
  {
    if es == [] then w' == w
    else Enabled(w, es[0]) && Run(Apply(w, es[0], id), es[1..], w', id)
  }

  // ---------------------------------------------------------------- the abstraction

  ghost function Owners(owner: seq<nat>, calls: seq<nat>): seq<nat> {
    seq(|calls|, i requires 0 <= i < |calls| => if calls[i] < |owner| then owner[calls[i]] else 0)
  }

  /** The server with the queue that the promise chain stands for. */
  ghost function Abstract(w: World, id: L.Id): S.Server {
    w.server.(queue := Owners(w.owner, L.Pending(w.lock.calls, id)))
  }

  ghost predicate PhaseFits(phase: L.Phase, stage: S.Stage) {
    match phase
    case Waiting => stage.Waiting?
    case Running => stage.Waiting? || stage.Statted?
    case Done => stage.Appended? || stage.Replied? || stage.Dead?
  }

  ghost predicate CallFits(w: World, t: nat, id: L.Id)
    requires t < |w.lock.calls| && t < |w.owner|
  {
    && w.lock.calls[t].id == id
    && w.owner[t] < |w.server.handlers|
    && PhaseFits(w.lock.calls[t].phase, w.server.handlers[w.owner[t]].stage)
  }

  ghost predicate Fits(w: World, id: L.Id) {
    && w.server.queue == []
    && |w.owner| == |w.lock.calls|
    && (forall t: nat | t < |w.owner| :: CallFits(w, t, id))
    && (forall t, u :: 0 <= t < u < |w.owner| ==> w.owner[t] != w.owner[u])
  }

  ghost predicate Related(w: World, id: L.Id) {
    L.Inv(w.lock) && Fits(w, id)
  }

  // ---------------------------------------------------------------- simulation, step by step

  lemma PendingAreCalls(w: World, id: L.Id)
    requires Related(w, id)
    ensures forall i :: 0 <= i < |L.Pending(w.lock.calls, id)| ==> L.Pending(w.lock.calls, id)[i] < |w.owner|
  {
    var q := L.Pending(w.lock.calls, id);
    forall i | 0 <= i < |q|
      ensures q[i] < |w.owner|
    {
      assert q[i] in q;
      L.PendingMembers(w.lock.calls, id, q[i]);
    }
  }

  lemma FreeSimulates(w: World, se: S.Event, id: L.Id)
    requires Related(w, id) && Enabled(w, Free(se))
    ensures S.Enabled(Abstract(w, id), se)
    ensures Abstract(Apply(w, Free(se), id), id) == S.Apply(Abstract(w, id), se)
    ensures Related(Apply(w, Free(se), id), id)
  {
    var w' := Apply(w, Free(se), id);
    if !se.Crash? {
      forall t: nat | t < |w.owner|
        ensures CallFits(w', t, id)
      {
        assert CallFits(w, t, id);
      }
    }
  }

  lemma EnterFits(w: World, h: nat, id: L.Id)
    requires Fits(w, id) && Enabled(w, Enter(h))
    ensures Fits(Apply(w, Enter(h), id), id)
  {
    var w' := Apply(w, Enter(h), id);
    forall t: nat | t < |w.owner|
      ensures w.owner[t] != h && CallFits(w', t, id)
    {
      assert CallFits(w, t, id);
    }
  }

  lemma OwnersSnoc(owner: seq<nat>, h: nat, q: seq<nat>)
    requires forall i :: 0 <= i < |q| ==> q[i] < |owner|
    ensures Owners(owner + [h], q + [|owner|]) == Owners(owner, q) + [h]
    ensures Owners(owner + [h], q) == Owners(owner, q)
  {
  }

  lemma EnterSimulates(w: World, h: nat, id: L.Id)
    requires Related(w, id) && Enabled(w, Enter(h))
    ensures S.Enabled(Abstract(w, id), S.Enter(h))
    ensures Abstract(Apply(w, Enter(h), id), id) == S.Apply(Abstract(w, id), S.Enter(h))
    ensures Related(Apply(w, Enter(h), id), id)
  {
    EnterFits(w, h, id);
    L.RefinesQueueLock(w.lock, L.Enter(id), id);
    L.ApplyKeepsInv(w.lock, L.Enter(id));
    PendingAreCalls(w, id);
    OwnersSnoc(w.owner, h, L.Pending(w.lock.calls, id));
  }

  lemma ResumeSimulates(w: World, t: nat, id: L.Id)
    requires Related(w, id) && Enabled(w, Resume(t))
    ensures Abstract(Apply(w, Resume(t), id), id) == Abstract(w, id)
    ensures Related(Apply(w, Resume(t), id), id)
  {
    var w' := Apply(w, Resume(t), id);
    L.RefinesQueueLock(w.lock, L.Resume(t), id);
    L.ApplyKeepsInv(w.lock, L.Resume(t));
    forall u: nat | u < |w.owner|
      ensures CallFits(w', u, id)
    {
      assert CallFits(w, u, id);
    }
  }

  lemma SettleSimulates(w: World, t: nat, id: L.Id)
    requires Related(w, id) && Enabled(w, Settle(t))
    ensures Abstract(Apply(w, Settle(t), id), id) == Abstract(w, id)
    ensures Related(Apply(w, Settle(t), id), id)
  {
    var w' := Apply(w, Settle(t), id);
    L.RefinesQueueLock(w.lock, L.Settle(t), id);
    L.ApplyKeepsInv(w.lock, L.Settle(t));
    forall u: nat | u < |w.owner|
      ensures CallFits(w', u, id)
    {
      assert CallFits(w, u, id);
    }
  }

  /** The call that runs is the head of the queue, and leaving pops it. */
  lemma RunningIsHead(w: World, t: nat, id: L.Id)
    requires Related(w, id) && Runs(w, t)
    ensures var queue := Abstract(w, id).queue;
            var left := Owners(w.owner, L.Pending(L.Apply(w.lock, L.Leave(t)).calls, id));
            queue != [] && queue[0] == w.owner[t] && left == queue[1..]
    ensures L.Inv(L.Apply(w.lock, L.Leave(t)))
  {
    assert CallFits(w, t, id);
    L.RefinesQueueLock(w.lock, L.Leave(t), id);
    L.ApplyKeepsInv(w.lock, L.Leave(t));
  }

  /** The handler of the running call moves on, and nothing else does. */
  ghost predicate OneMoves(w: World, w': World, t: nat)
    requires t < |w.owner| == |w.lock.calls|
  {
    && w'.owner == w.owner && |w'.lock.calls| == |w.lock.calls| && |w'.server.handlers| == |w.server.handlers|
    && (forall u :: 0 <= u < |w.owner| && u != t ==> w'.lock.calls[u] == w.lock.calls[u])
    && (forall g :: 0 <= g < |w.server.handlers| && g != w.owner[t] ==> w'.server.handlers[g] == w.server.handlers[g])
  }

  lemma OneMovesFits(w: World, w': World, t: nat, id: L.Id)
    requires Fits(w, id) && t < |w.owner| && OneMoves(w, w', t) && w'.server.queue == []
    requires CallFits(w', t, id)
    ensures Fits(w', id)
  {
    forall u: nat | u < |w.owner|
      ensures CallFits(w', u, id)
    {
      assert CallFits(w, u, id);
    }
  }

  lemma StatFits(w: World, t: nat, id: L.Id)
    requires Fits(w, id) && Enabled(w, Stat(t))
    ensures Fits(Apply(w, Stat(t), id), id)
  {
    assert CallFits(w, t, id);
    OneMovesFits(w, Apply(w, Stat(t), id), t, id);
  }

  lemma WriteFits(w: World, t: nat, id: L.Id)
    requires Fits(w, id) && Enabled(w, Write(t))
    ensures Fits(Apply(w, Write(t), id), id)
  {
    assert CallFits(w, t, id);
    OneMovesFits(w, Apply(w, Write(t), id), t, id);
  }

  lemma FailFits(w: World, t: nat, id: L.Id)
    requires Fits(w, id) && Enabled(w, Fail(t))
    ensures Fits(Apply(w, Fail(t), id), id)
  {
    assert CallFits(w, t, id);
    OneMovesFits(w, Apply(w, Fail(t), id), t, id);
  }

  lemma FailSimulates(w: World, t: nat, id: L.Id)
    requires Related(w, id) && Enabled(w, Fail(t))
    ensures S.Enabled(Abstract(w, id), S.Fail(w.owner[t]))
    ensures Abstract(Apply(w, Fail(t), id), id) == S.Apply(Abstract(w, id), S.Fail(w.owner[t]))
    ensures Related(Apply(w, Fail(t), id), id)
  {
    RunningIsHead(w, t, id);
    FailFits(w, t, id);
  }

  lemma StatSimulates(w: World, t: nat, id: L.Id)
    requires Related(w, id) && Enabled(w, Stat(t))
    ensures S.Enabled(Abstract(w, id), S.Stat(w.owner[t]))
    ensures Abstract(Apply(w, Stat(t), id), id) == S.Apply(Abstract(w, id), S.Stat(w.owner[t]))
    ensures Related(Apply(w, Stat(t), id), id)
  {
    RunningIsHead(w, t, id);
    StatFits(w, t, id);
  }

  lemma WriteWithQueue(s: S.Server, h: nat, queue: seq<nat>)
    requires S.Enabled(s, S.Write(h)) && queue != []
    ensures S.Apply(s.(queue := queue), S.Write(h)) == NoQueue(S.Apply(s, S.Write(h))).(queue := queue[1..])
  {
  }

  lemma WriteSimulates(w: World, t: nat, id: L.Id)
    requires Related(w, id) && Enabled(w, Write(t))
    ensures S.Enabled(Abstract(w, id), S.Write(w.owner[t]))
    ensures Abstract(Apply(w, Write(t), id), id) == S.Apply(Abstract(w, id), S.Write(w.owner[t]))
    ensures Related(Apply(w, Write(t), id), id)
  {
    RunningIsHead(w, t, id);
    WriteFits(w, t, id);
    WriteWithQueue(w.server, w.owner[t], Abstract(w, id).queue);
  }

  // ---------------------------------------------------------------- simulation of whole runs

  /** What the server with the queue does for a step: the same, or nothing. */
  function Image(w: World, e: Event): seq<S.Event>
    requires Enabled(w, e)
  {
    match e
    case Free(se) => [se]
    case Enter(h) => [S.Enter(h)]
    case Stat(t) => [S.Stat(w.owner[t])]
    case Write(t) => [S.Write(w.owner[t])]
    case Fail(t) => [S.Fail(w.owner[t])]
    case _ => []
  }

  lemma StepSimulates(w: World, e: Event, id: L.Id)
    requires Related(w, id) && Enabled(w, e)
    ensures S.Run(Abstract(w, id), Image(w, e), Abstract(Apply(w, e, id), id))
    ensures Related(Apply(w, e, id), id)
  {
    assert forall se: S.Event :: [] + [se] == [se];
    match e
    case Free(se) => FreeSimulates(w, se, id); S.Append(Abstract(w, id), [], Abstract(w, id), se);
    case Enter(h) => EnterSimulates(w, h, id); S.Append(Abstract(w, id), [], Abstract(w, id), S.Enter(h));
    case Resume(t) => ResumeSimulates(w, t, id);
    case Stat(t) => StatSimulates(w, t, id); S.Append(Abstract(w, id), [], Abstract(w, id), S.Stat(w.owner[t]));
    case Write(t) => WriteSimulates(w, t, id); S.Append(Abstract(w, id), [], Abstract(w, id), S.Write(w.owner[t]));
    case Fail(t) => FailSimulates(w, t, id); S.Append(Abstract(w, id), [], Abstract(w, id), S.Fail(w.owner[t]));
    case Settle(t) => SettleSimulates(w, t, id);
  }

  /** The requests that arrive in a run. */
  ghost predicate Genuine(es: seq<Event>, source: seq<S.Byte>) {
    forall e :: e in es && e.Free? ==> S.GenuineEvent(e.e, source)
  }

  /** Every run over the promise chain is a run of the server with the lock queue, with the same
      requests arriving. */
  lemma {:induction false} RunSimulates(w: World, es: seq<Event>, w': World, id: L.Id, source: seq<S.Byte>)
    returns (ses: seq<S.Event>)
    requires Related(w, id) && Run(w, es, w', id) && Genuine(es, source)
    ensures S.Run(Abstract(w, id), ses, Abstract(w', id)) && S.GenuineEvents(ses, source)
    ensures Related(w', id)
    decreases |es|
  {
    ses := [];
    if es != [] {
      assert es[0] in es && forall e :: e in es[1..] ==> e in es;
      StepSimulates(w, es[0], id);
      var rest := RunSimulates(Apply(w, es[0], id), es[1..], w', id, source);
      ses := Image(w, es[0]) + rest;
      if Image(w, es[0]) == [] {
        assert ses == rest;
      } else {
        assert ses[1..] == rest;
      }
    }
  }

  /** So the stored file is safe with the real lock: in every run from a new session it is a prefix
      of the source, and the row never runs ahead of it. */
  lemma UploadIsSafeWithPromises(es: seq<Event>, w: World, id: L.Id, source: seq<S.Byte>)
    requires Run(Init(|source|), es, w, id) && Genuine(es, source)
    ensures w.server.file <= source && w.server.row <= |w.server.file|
  {
    var ses := RunSimulates(Init(|source|), es, w, id, source);
    S.RunKeepsInv(Abstract(Init(|source|), id), ses, Abstract(w, id), source);
  }
}
