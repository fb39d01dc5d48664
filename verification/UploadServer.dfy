/** One chunked-upload session on the server: the PATCH route
    (apps/web/app/api/v1/uploads/[id]/route.ts) around `appendChunk` (apps/web/lib/upload-store.ts).
    The session owns a file, which only grows, and a database row whose `uploadedBytes` follows it.
    Any number of requests are served at once; every `await` is a point where others may run.
    The lock is a queue here; UploadLocking shows that the promise chain of `withLock` behaves so. */
module UploadServer {
  type Byte = bv8

  const MAX_CHUNK_BYTES := 32 * 1024 * 1024

  datatype Request = Request(offset: nat, chunk: seq<Byte>)

  datatype Reply =
    | Accepted(uploadedBytes: nat) // 200
    | Expected(offset: nat)        // E_VALIDATION with details.expected
    | Rejected                     // E_VALIDATION without it

  datatype Stage =
    | Received               // row not read yet
    | Loaded(seen: nat)      // row read, request body being read
    | Waiting                // in `withLock`, before the guarded work
    | Statted(size: nat)     // lock held, checks passed, write under way
    | Appended(newSize: nat) // lock released, row not advanced yet
    | Replied(reply: Reply)
    | Dead                   // lost in a process restart, or failed with a server error

  /** `tag` tells which sending of the client this request came from. */
  datatype Handler = Handler(tag: nat, req: Request, stage: Stage)

  datatype Server = Server(file: seq<Byte>, row: nat, total: nat, handlers: seq<Handler>, queue: seq<nat>)

  datatype Event =
    | Arrive(tag: nat, req: Request)
    | ReadRow(handler: nat)
    | Enter(handler: nat)
    | Stat(handler: nat)
    | Write(handler: nat)
    | CommitRow(handler: nat)
    | Fail(handler: nat) // the database or the file system throws; nothing is changed
    | Crash

  function Init(total: nat): Server {
    Server([], 0, total, [], [])
  }

  /** Whether a request is between its arrival and its reply, and not in line for the lock. */
  predicate CanFail(s: Server, h: nat)
    requires h < |s.handlers|
  {
    match s.handlers[h].stage
    case Received => true
    case Loaded(_) => true
    case Waiting => s.queue != [] && s.queue[0] == h
    case Statted(_) => true
    case Appended(_) => true
    case _ => false
  }

  predicate Enabled(s: Server, e: Event) {
    match e
    case Arrive(_, _) => true
    case ReadRow(h) => h < |s.handlers| && s.handlers[h].stage.Received?
    case Enter(h) => h < |s.handlers| && s.handlers[h].stage.Loaded?
    case Stat(h) => h < |s.handlers| && s.handlers[h].stage.Waiting? && s.queue != [] && s.queue[0] == h
    case Write(h) => h < |s.handlers| && s.handlers[h].stage.Statted?
    case CommitRow(h) => h < |s.handlers| && s.handlers[h].stage.Appended?
    case Fail(h) => h < |s.handlers| && CanFail(s, h)
    case Crash => true
  }

  predicate HoldsLock(stage: Stage) {
    stage.Waiting? || stage.Statted?
  }

  function Move(s: Server, h: nat, stage: Stage): Server
    requires h < |s.handlers|
  {
    s.(handlers := s.handlers[h := s.handlers[h].(stage := stage)])
  }

  function Pop(s: Server): Server {
    s.(queue := if s.queue == [] then [] else s.queue[1..])
  }

  function Kill(h: Handler): Handler {
    if h.stage.Replied? then h else h.(stage := Dead)
  }

  /** The size and offset checks under the lock; a failed one throws and thereby releases it. */
  function Checked(s: Server, h: nat): Server
    requires h < |s.handlers|
  {
    var r := s.handlers[h].req;
    if r.offset != |s.file| then Pop(Move(s, h, Replied(Expected(|s.file|))))
    else if |s.file| + |r.chunk| > s.total then Pop(Move(s, h, Replied(Rejected)))
    else Move(s, h, Statted(|s.file|))
  }

  function Apply(s: Server, e: Event): Server
    requires Enabled(s, e)
  {
    match e
    case Arrive(tag, req) => s.(handlers := s.handlers + [Handler(tag, req, Received)])
    case ReadRow(h) => Move(s, h, Loaded(s.row))
    case Enter(h) =>
      var r, seen := s.handlers[h].req, s.handlers[h].stage.seen;
      if r.offset != seen then Move(s, h, Replied(Expected(seen)))
      else if |r.chunk| == 0 || |r.chunk| > MAX_CHUNK_BYTES then Move(s, h, Replied(Rejected))
      else Move(s, h, Waiting).(queue := s.queue + [h])
    case Stat(h) => Checked(s, h)
    case Write(h) =>
      var size := s.handlers[h].stage.size + |s.handlers[h].req.chunk|;
      Pop(Move(s, h, Appended(size))).(file := s.file + s.handlers[h].req.chunk)
    case CommitRow(h) =>
      // updateMany guarded by the uploadedBytes that was read, which equals the offset
      if s.row == s.handlers[h].req.offset then
        Move(s, h, Replied(Accepted(s.handlers[h].stage.newSize))).(row := s.handlers[h].stage.newSize)
      else Move(s, h, Replied(Expected(s.row)))
    case Fail(h) =>
      if HoldsLock(s.handlers[h].stage) then Pop(Move(s, h, Dead)) else Move(s, h, Dead)
    case Crash =>
      s.(handlers := seq(|s.handlers|, i requires 0 <= i < |s.handlers| => Kill(s.handlers[i])), queue := [])
  }

  ghost predicate Run(s: Server, es: seq<Event>, s': Server)
    decreases |es|
  {
    if es == [] then s' == s
    else Enabled(s, es[0]) && Run(Apply(s, es[0]), es[1..], s')
  }

  // ---------------------------------------------------------------- the invariant

  /** The request carries the bytes of `source` at its own offset. */
  ghost predicate Genuine(r: Request, source: seq<Byte>) {
    r.offset + |r.chunk| <= |source| && r.chunk == source[r.offset..r.offset + |r.chunk|]
  }

  ghost predicate HandlerOk(s: Server, h: nat)
    requires h < |s.handlers|
  {
    var r := s.handlers[h].req;
    match s.handlers[h].stage
    case Received => true
    case Loaded(seen) => seen <= s.row
    case Waiting => r.offset <= s.row && r.chunk != [] && h in s.queue
    case Statted(size) =>
      && size == |s.file| == r.offset <= s.row
      && r.chunk != []
      && size + |r.chunk| <= s.total
      && s.queue != [] && s.queue[0] == h
    case Appended(n) => r.offset == s.row && r.chunk != [] && n == r.offset + |r.chunk| == |s.file|
    case Replied(Accepted(n)) => n <= s.row
    case Replied(Expected(n)) => n <= |s.file|
    case Replied(Rejected) => true
    case Dead => true
  }

  ghost predicate QueueOk(s: Server) {
    && (forall i :: 0 <= i < |s.queue| ==>
          s.queue[i] < |s.handlers| && (s.handlers[s.queue[i]].stage.Waiting? || s.handlers[s.queue[i]].stage.Statted?))
    && (forall i, j :: 0 <= i < j < |s.queue| ==> s.queue[i] != s.queue[j])
  }

  ghost predicate OneAppended(s: Server) {
    forall g, h :: 0 <= g < h < |s.handlers| ==> !(s.handlers[g].stage.Appended? && s.handlers[h].stage.Appended?)
  }

  ghost predicate Inv(s: Server, source: seq<Byte>) {
    && s.total == |source|
    && s.row <= |s.file|
    && s.file <= source
    && (forall h: nat | h < |s.handlers| :: Genuine(s.handlers[h].req, source))
    && (forall h: nat | h < |s.handlers| :: HandlerOk(s, h))
    && QueueOk(s)
    && OneAppended(s)
  }

  ghost predicate GenuineEvent(e: Event, source: seq<Byte>) {
    e.Arrive? ==> Genuine(e.req, source)
  }

  lemma ReadRowKeepsInv(s: Server, h: nat, source: seq<Byte>)
    requires Inv(s, source) && Enabled(s, ReadRow(h))
    ensures Inv(Apply(s, ReadRow(h)), source)
  {
    var s' := Apply(s, ReadRow(h));
    assert HandlerOk(s, h);
    assert forall g: nat | g < |s.handlers| && g != h :: s'.handlers[g] == s.handlers[g];
    forall g: nat | g < |s.handlers|
      ensures HandlerOk(s', g) && Genuine(s'.handlers[g].req, source)
    {
      assert HandlerOk(s, g) && Genuine(s.handlers[g].req, source);
    }
  }

  /** Answering a handler that never reached the lock. */
  lemma AnswerKeepsInv(s: Server, h: nat, reply: Reply, source: seq<Byte>)
    requires Inv(s, source) && h < |s.handlers| && s.handlers[h].stage.Loaded?
    requires reply.Rejected? || (reply.Expected? && reply.offset <= |s.file|)
    ensures Inv(Move(s, h, Replied(reply)), source)
  {
    var s' := Move(s, h, Replied(reply));
    assert forall g: nat | g < |s.handlers| && g != h :: s'.handlers[g] == s.handlers[g];
    forall g: nat | g < |s.handlers|
      ensures HandlerOk(s', g) && Genuine(s'.handlers[g].req, source)
    {
      assert HandlerOk(s, g) && Genuine(s.handlers[g].req, source);
    }
  }

  function QueuedUp(s: Server, h: nat): Server
    requires h < |s.handlers|
  {
    Move(s, h, Waiting).(queue := s.queue + [h])
  }

  lemma QueuedUpHandlerIsOk(s: Server, h: nat, g: nat, source: seq<Byte>)
    requires Inv(s, source) && h < |s.handlers| && s.handlers[h].stage.Loaded? && g < |s.handlers|
    requires s.handlers[h].req.offset <= s.row && s.handlers[h].req.chunk != []
    ensures HandlerOk(QueuedUp(s, h), g)
  {
    assert HandlerOk(s, g);
    assert h in s.queue + [h];
  }

  lemma QueueUpKeepsInv(s: Server, h: nat, source: seq<Byte>)
    requires Inv(s, source) && h < |s.handlers| && s.handlers[h].stage.Loaded?
    requires s.handlers[h].req.offset <= s.row && s.handlers[h].req.chunk != []
    ensures Inv(QueuedUp(s, h), source)
  {
    var s' := QueuedUp(s, h);
    forall g: nat | g < |s.handlers|
      ensures HandlerOk(s', g) && Genuine(s'.handlers[g].req, source)
    {
      QueuedUpHandlerIsOk(s, h, g, source);
      assert Genuine(s.handlers[g].req, source);
    }
  }

  lemma EnterKeepsInv(s: Server, h: nat, source: seq<Byte>)
    requires Inv(s, source) && Enabled(s, Enter(h))
    ensures Inv(Apply(s, Enter(h)), source)
  {
    assert HandlerOk(s, h);
    var r, seen := s.handlers[h].req, s.handlers[h].stage.seen;
    if r.offset != seen {
      AnswerKeepsInv(s, h, Expected(seen), source);
    } else if |r.chunk| == 0 || |r.chunk| > MAX_CHUNK_BYTES {
      AnswerKeepsInv(s, h, Rejected, source);
    } else {
      QueueUpKeepsInv(s, h, source);
    }
  }

  lemma StatKeepsInv(s: Server, h: nat, source: seq<Byte>)
    requires Inv(s, source) && Enabled(s, Stat(h))
    ensures Inv(Apply(s, Stat(h)), source)
  {
    var s' := Apply(s, Stat(h));
    assert HandlerOk(s, h);
    assert forall g: nat | g < |s.handlers| && g != h :: s'.handlers[g] == s.handlers[g];
    forall g: nat | g < |s.handlers|
      ensures HandlerOk(s', g) && Genuine(s'.handlers[g].req, source)
    {
      assert HandlerOk(s, g) && Genuine(s.handlers[g].req, source);
    }
  }

  lemma WriteKeepsInv(s: Server, h: nat, source: seq<Byte>)
    requires Inv(s, source) && Enabled(s, Write(h))
    ensures Inv(Apply(s, Write(h)), source)
  {
    var s' := Apply(s, Write(h));
    assert HandlerOk(s, h);
    assert forall g: nat | g < |s.handlers| && g != h :: s'.handlers[g] == s.handlers[g];
    forall g: nat | g < |s.handlers|
      ensures HandlerOk(s', g) && Genuine(s'.handlers[g].req, source)
      ensures !s.handlers[g].stage.Appended?
    {
      assert HandlerOk(s, g) && Genuine(s.handlers[g].req, source);
    }
  }

  lemma CommitRowKeepsInv(s: Server, h: nat, source: seq<Byte>)
    requires Inv(s, source) && Enabled(s, CommitRow(h))
    ensures Inv(Apply(s, CommitRow(h)), source)
  {
    var s' := Apply(s, CommitRow(h));
    assert HandlerOk(s, h);
    assert forall g: nat | g < |s.handlers| && g != h :: s'.handlers[g] == s.handlers[g];
    forall g: nat | g < |s.handlers|
      ensures HandlerOk(s', g) && Genuine(s'.handlers[g].req, source)
    {
      assert HandlerOk(s, g) && Genuine(s.handlers[g].req, source);
    }
  }

  /** A handler that fails outside the lock. */
  lemma DieKeepsInv(s: Server, h: nat, source: seq<Byte>)
    requires Inv(s, source) && h < |s.handlers| && !HoldsLock(s.handlers[h].stage)
    ensures Inv(Move(s, h, Dead), source)
  {
    var s' := Move(s, h, Dead);
    assert forall g: nat | g < |s.handlers| && g != h :: s'.handlers[g] == s.handlers[g];
    forall g: nat | g < |s.handlers|
      ensures HandlerOk(s', g) && Genuine(s'.handlers[g].req, source)
    {
      assert HandlerOk(s, g) && Genuine(s.handlers[g].req, source);
    }
  }

  /** One that fails with the lock, which it then releases. */
  lemma DieWithLockKeepsInv(s: Server, h: nat, source: seq<Byte>)
    requires Inv(s, source) && h < |s.handlers| && HoldsLock(s.handlers[h].stage)
    requires s.queue != [] && s.queue[0] == h
    ensures Inv(Pop(Move(s, h, Dead)), source)
  {
    var s' := Pop(Move(s, h, Dead));
    assert forall g: nat | g < |s.handlers| && g != h :: s'.handlers[g] == s.handlers[g];
    forall g: nat | g < |s.handlers|
      ensures HandlerOk(s', g) && Genuine(s'.handlers[g].req, source)
    {
      assert HandlerOk(s, g) && Genuine(s.handlers[g].req, source);
    }
  }

  lemma FailKeepsInv(s: Server, h: nat, source: seq<Byte>)
    requires Inv(s, source) && Enabled(s, Fail(h))
    ensures Inv(Apply(s, Fail(h)), source)
  {
    assert HandlerOk(s, h);
    if HoldsLock(s.handlers[h].stage) {
      DieWithLockKeepsInv(s, h, source);
    } else {
      DieKeepsInv(s, h, source);
    }
  }

  lemma CrashKeepsInv(s: Server, source: seq<Byte>)
    requires Inv(s, source)
    ensures Inv(Apply(s, Crash), source)
  {
    var s' := Apply(s, Crash);
    forall g: nat | g < |s.handlers|
      ensures HandlerOk(s', g) && Genuine(s'.handlers[g].req, source)
    {
      assert HandlerOk(s, g) && Genuine(s.handlers[g].req, source);
    }
  }

  lemma ArriveKeepsInv(s: Server, tag: nat, req: Request, source: seq<Byte>)
    requires Inv(s, source) && Genuine(req, source)
    ensures Inv(Apply(s, Arrive(tag, req)), source)
  {
    var s' := Apply(s, Arrive(tag, req));
    assert forall g: nat | g < |s.handlers| :: s'.handlers[g] == s.handlers[g];
    forall g: nat | g < |s'.handlers|
      ensures HandlerOk(s', g) && Genuine(s'.handlers[g].req, source)
    {
      if g < |s.handlers| {
        assert HandlerOk(s, g) && Genuine(s.handlers[g].req, source);
      }
    }
  }

  lemma ApplyKeepsInv(s: Server, e: Event, source: seq<Byte>)
    requires Inv(s, source) && Enabled(s, e) && GenuineEvent(e, source)
    ensures Inv(Apply(s, e), source)
  {
    match e
    case Arrive(tag, req) => ArriveKeepsInv(s, tag, req, source);
    case ReadRow(h) => ReadRowKeepsInv(s, h, source);
    case Enter(h) => EnterKeepsInv(s, h, source);
    case Stat(h) => StatKeepsInv(s, h, source);
    case Write(h) => WriteKeepsInv(s, h, source);
    case CommitRow(h) => CommitRowKeepsInv(s, h, source);
    case Fail(h) => FailKeepsInv(s, h, source);
    case Crash => CrashKeepsInv(s, source);
  }

  // ---------------------------------------------------------------- safety over whole runs

  ghost predicate GenuineEvents(es: seq<Event>, source: seq<Byte>) {
    forall e :: e in es ==> GenuineEvent(e, source)
  }

  /** Whatever is delayed, duplicated, reordered or lost, the stored file stays a prefix of the
      source, nothing stored is ever taken back, and the row never runs ahead of the file. */
  lemma {:induction false} RunKeepsInv(s: Server, es: seq<Event>, s': Server, source: seq<Byte>)
    requires Inv(s, source) && Run(s, es, s') && GenuineEvents(es, source)
    ensures Inv(s', source)
    ensures s.file <= s'.file && s.row <= s'.row && |s.handlers| <= |s'.handlers|
    decreases |es|
  {
    if es != [] {
      ApplyKeepsInv(s, es[0], source);
      ApplyIsMonotone(s, es[0], source);
      RunKeepsInv(Apply(s, es[0]), es[1..], s', source);
    }
  }

  lemma ApplyIsMonotone(s: Server, e: Event, source: seq<Byte>)
    requires Inv(s, source) && Enabled(s, e)
    ensures s.file <= Apply(s, e).file && s.row <= Apply(s, e).row && |s.handlers| <= |Apply(s, e).handlers|
  {
    if e.CommitRow? {
      assert HandlerOk(s, e.handler);
    }
  }

  /** No event changes which request a handler serves. */
  lemma ApplyKeepsRequests(s: Server, e: Event)
    requires Enabled(s, e)
    ensures |Apply(s, e).handlers| == |s.handlers| + if e.Arrive? then 1 else 0
    ensures forall h :: 0 <= h < |s.handlers| ==>
              Apply(s, e).handlers[h].req == s.handlers[h].req && Apply(s, e).handlers[h].tag == s.handlers[h].tag
  {
  }

  /** The lock at work: between a handler's stat and its write no other handler writes, so the
      size it reports is the size the file then has, and the bytes land at the requested offset. */
  lemma WriteIsAtomic(s: Server, h: nat, source: seq<Byte>)
    requires Inv(s, source) && Enabled(s, Write(h))
    ensures |s.file| == s.handlers[h].req.offset == s.row
    ensures Apply(s, Write(h)).handlers[h].stage == Appended(|Apply(s, Write(h)).file|)
    ensures forall g :: 0 <= g < |s.handlers| && g != h ==> !s.handlers[g].stage.Statted?
  {
    assert HandlerOk(s, h);
    forall g: nat | g < |s.handlers| && g != h
      ensures !s.handlers[g].stage.Statted?
    {
      assert HandlerOk(s, g);
    }
  }

  /** The guard on the row update is never needed: the row still holds what the handler read, so
      the reply is an acceptance. */
  lemma CommitAlwaysAccepts(s: Server, h: nat, source: seq<Byte>)
    requires Inv(s, source) && Enabled(s, CommitRow(h))
    ensures Apply(s, CommitRow(h)).row == |s.file|
    ensures Apply(s, CommitRow(h)).handlers[h].stage == Replied(Accepted(|s.file|))
  {
    assert HandlerOk(s, h);
  }

  // ---------------------------------------------------------------- whatever anybody sends

  /** What the lock and the checks under it keep, with requests that need not be slices of anything. */
  ghost predicate SizedHandler(s: Server, h: nat)
    requires h < |s.handlers|
  {
    var size := |s.handlers[h].req.chunk|;
    match s.handlers[h].stage
    case Waiting => 0 < size <= MAX_CHUNK_BYTES
    case Statted(at) =>
      && at == |s.file| && at + size <= s.total
      && 0 < size <= MAX_CHUNK_BYTES
      && s.queue != [] && s.queue[0] == h
    case _ => true
  }

  ghost predicate SizeInv(s: Server) {
    && |s.file| <= s.total
    && QueueOk(s)
    && (forall h: nat | h < |s.handlers| :: SizedHandler(s, h))
    && (forall h: nat | h < |s.handlers| && s.handlers[h].stage.Waiting? :: h in s.queue)
  }

  /** The handler that takes the step. */
  lemma OwnStepKeepsSized(s: Server, e: Event)
    requires SizeInv(s) && Enabled(s, e) && !e.Arrive? && !e.Crash?
    ensures SizedHandler(Apply(s, e), e.handler)
  {
    assert SizedHandler(s, e.handler);
  }

  /** The others keep what they have: while one of them is past its stat, it heads the queue, and
      nobody else writes or leaves. */
  lemma OtherStepKeepsSized(s: Server, e: Event, h: nat)
    requires SizeInv(s) && Enabled(s, e) && h < |s.handlers|
    requires e.Arrive? || e.Crash? || e.handler != h
    ensures SizedHandler(Apply(s, e), h)
  {
    assert SizedHandler(s, h);
    if !e.Arrive? && !e.Crash? {
      assert SizedHandler(s, e.handler);
    }
  }

  lemma StepKeepsWaitingInLine(s: Server, e: Event, h: nat)
    requires SizeInv(s) && Enabled(s, e) && h < |Apply(s, e).handlers| && Apply(s, e).handlers[h].stage.Waiting?
    ensures h in Apply(s, e).queue
  {
    if !e.Arrive? && !e.Crash? {
      assert SizedHandler(s, e.handler);
    }
  }

  /** The four ways in which a step touches the lock queue. */
  lemma LeavingKeepsQueueOk(s: Server, h: nat, stage: Stage)
    requires QueueOk(s) && h < |s.handlers| && s.queue != [] && s.queue[0] == h
    ensures QueueOk(Pop(Move(s, h, stage)))
  {
  }

  lemma AsideKeepsQueueOk(s: Server, h: nat, stage: Stage)
    requires QueueOk(s) && h < |s.handlers| && !HoldsLock(s.handlers[h].stage)
    ensures QueueOk(Move(s, h, stage))
  {
  }

  lemma JoiningKeepsQueueOk(s: Server, h: nat)
    requires QueueOk(s) && h < |s.handlers| && !HoldsLock(s.handlers[h].stage)
    ensures QueueOk(QueuedUp(s, h))
  {
  }

  lemma HoldingKeepsQueueOk(s: Server, h: nat, stage: Stage)
    requires QueueOk(s) && h < |s.handlers| && HoldsLock(stage)
    ensures QueueOk(Move(s, h, stage))
  {
  }

  lemma StepKeepsQueueOk(s: Server, e: Event)
    requires SizeInv(s) && Enabled(s, e)
    ensures QueueOk(Apply(s, e))
  {
    match e
    case Arrive(_, _) =>
    case Crash =>
    case Enter(h) =>
      AsideKeepsQueueOk(s, h, Apply(s, e).handlers[h].stage);
      JoiningKeepsQueueOk(s, h);
    case Stat(h) =>
      var stage := Apply(s, e).handlers[h].stage;
      LeavingKeepsQueueOk(s, h, stage);
      if stage.Statted? {
        HoldingKeepsQueueOk(s, h, stage);
      }
    case Write(h) =>
      assert SizedHandler(s, h);
      LeavingKeepsQueueOk(s, h, Apply(s, e).handlers[h].stage);
    case Fail(h) =>
      assert SizedHandler(s, h);
      if HoldsLock(s.handlers[h].stage) {
        LeavingKeepsQueueOk(s, h, Dead);
      } else {
        AsideKeepsQueueOk(s, h, Dead);
      }
    case ReadRow(h) => AsideKeepsQueueOk(s, h, Apply(s, e).handlers[h].stage);
    case CommitRow(h) => AsideKeepsQueueOk(s, h, Apply(s, e).handlers[h].stage);
  }

  lemma StepKeepsSizeInv(s: Server, e: Event)
    requires SizeInv(s) && Enabled(s, e)
    ensures SizeInv(Apply(s, e)) && Apply(s, e).total == s.total
    ensures |s.file| <= |Apply(s, e).file| <= |s.file| + MAX_CHUNK_BYTES
  {
    if e.Write? {
      assert SizedHandler(s, e.handler);
    }
    StepKeepsQueueOk(s, e);
    forall h: nat | h < |Apply(s, e).handlers|
      ensures SizedHandler(Apply(s, e), h)
      ensures Apply(s, e).handlers[h].stage.Waiting? ==> h in Apply(s, e).queue
    {
      if e.Arrive? || e.Crash? || e.handler != h {
        if h < |s.handlers| {
          OtherStepKeepsSized(s, e, h);
        }
      } else {
        OwnStepKeepsSized(s, e);
      }
      if Apply(s, e).handlers[h].stage.Waiting? {
        StepKeepsWaitingInLine(s, e, h);
      }
    }
  }

  lemma {:induction false} RunKeepsSizeInv(s: Server, es: seq<Event>, s': Server)
    requires SizeInv(s) && Run(s, es, s')
    ensures SizeInv(s') && s'.total == s.total
    decreases |es|
  {
    if es != [] {
      StepKeepsSizeInv(s, es[0]);
      RunKeepsSizeInv(Apply(s, es[0]), es[1..], s');
    }
  }

  /** Over every run with any requests at all, slices of a source or not: the file never outgrows the
      size that was reserved, and no step stores more than one chunk of the allowed size. */
  lemma FileStaysWithinTotal(total: nat, es: seq<Event>, s: Server, e: Event)
    requires Run(Init(total), es, s) && Enabled(s, e)
    ensures |s.file| <= total
    ensures |s.file| <= |Apply(s, e).file| <= |s.file| + MAX_CHUNK_BYTES
  {
    RunKeepsSizeInv(Init(total), es, s);
    StepKeepsSizeInv(s, e);
  }

  // ---------------------------------------------------------------- when an upload is stranded

  /** The file is ahead of the row and nobody is left who would advance the row. A restart
      between the append and the row update, or a failing row update, leaves the session like this. */
  ghost predicate Stranded(s: Server) {
    s.row < |s.file| && forall h :: 0 <= h < |s.handlers| ==> !s.handlers[h].stage.Appended?
  }

  /** A row update that fails strands the session, also without a restart. */
  lemma FailedCommitStrands(s: Server, h: nat, source: seq<Byte>)
    requires Inv(s, source) && h < |s.handlers| && s.handlers[h].stage.Appended?
    ensures Enabled(s, Fail(h)) && Stranded(Apply(s, Fail(h)))
  {
    assert HandlerOk(s, h);
    assert OneAppended(s);
  }

  lemma StrandedStep(s: Server, e: Event, source: seq<Byte>)
    requires Inv(s, source) && Enabled(s, e) && GenuineEvent(e, source) && Stranded(s)
    ensures Stranded(Apply(s, e)) && Apply(s, e).file == s.file && Apply(s, e).row == s.row
  {
    if e.Write? {
      assert HandlerOk(s, e.handler);
    }
  }

  lemma {:induction false} StrandedForever(s: Server, es: seq<Event>, s': Server, source: seq<Byte>)
    requires Inv(s, source) && Run(s, es, s') && GenuineEvents(es, source) && Stranded(s)
    ensures Stranded(s') && s'.file == s.file && s'.row == s.row
    decreases |es|
  {
    if es != [] {
      ApplyKeepsInv(s, es[0], source);
      StrandedStep(s, es[0], source);
      StrandedForever(Apply(s, es[0]), es[1..], s', source);
    }
  }

  /** A longer run made of one event and a run. */
  lemma Prepend(s: Server, e: Event, es: seq<Event>, s': Server)
    requires Enabled(s, e) && Run(Apply(s, e), es, s')
    ensures Run(s, [e] + es, s')
  {
    assert ([e] + es)[1..] == es;
  }

  /** Drives the session until one more chunk is stored: commit what is appended, let the lock
      queue drain, then serve the request for the current size. */
  lemma {:induction false} GrowsUnlessStranded(s: Server, next: Request, source: seq<Byte>)
    returns (es: seq<Event>, s': Server)
    requires Inv(s, source) && !Stranded(s)
    requires Genuine(next, source) && next.offset == |s.file| && 0 < |next.chunk| <= MAX_CHUNK_BYTES
    ensures Run(s, es, s') && GenuineEvents(es, source) && |s'.file| > |s.file|
    decreases |s.file| - s.row, |s.queue|
  {
    var e: Event;
    if s.row < |s.file| {
      var h :| 0 <= h < |s.handlers| && s.handlers[h].stage.Appended?;
      e := CommitRow(h);
      CommitAlwaysAccepts(s, h, source);
    } else if s.queue != [] {
      var h := s.queue[0];
      assert HandlerOk(s, h);
      if s.handlers[h].stage.Statted? {
        es, s' := [Write(h)], Apply(s, Write(h));
        assert Run(s', [], s');
        return;
      }
      e := Stat(h);
      if s.handlers[h].req.offset == |s.file| {
        var s1 := Apply(s, e);
        ApplyKeepsInv(s, e, source);
        s' := Apply(s1, Write(h));
        es := [e, Write(h)];
        assert es[1..] == [Write(h)] && Run(s1, [Write(h)], s');
        return;
      }
    } else {
      es, s' := ServeIsARun(s, 0, next);
      return;
    }
    ApplyKeepsInv(s, e, source);
    assert !Stranded(Apply(s, e));
    var rest;
    rest, s' := GrowsUnlessStranded(Apply(s, e), next, source);
    Prepend(s, e, rest, s');
    es := [e] + rest;
  }

  /** What one request does to file and row when it is served with nobody else about. */
  function Serve(file: seq<Byte>, row: nat, total: nat, r: Request): (seq<Byte>, nat, Reply) {
    if r.offset != row then (file, row, Expected(row))
    else if |r.chunk| == 0 || |r.chunk| > MAX_CHUNK_BYTES then (file, row, Rejected)
    else if r.offset != |file| then (file, row, Expected(|file|))
    else if |file| + |r.chunk| > total then (file, row, Rejected)
    else (file + r.chunk, |file| + |r.chunk|, Accepted(|file| + |r.chunk|))
  }

  /** What a request that is served alone is told: accepted exactly when it starts where row and file end,
      brings a chunk of an allowed size and stays within the total; a size is told exactly to
      a request that starts elsewhere; and only an accepted request changes anything. */
  lemma ServeMeaning(file: seq<Byte>, row: nat, total: nat, r: Request)
    ensures var (file', row', reply) := Serve(file, row, total, r);
            && (reply.Accepted? <==>
                  && r.offset == row == |file|
                  && 0 < |r.chunk| <= 32 * 1024 * 1024 && |file| + |r.chunk| <= total)
            && (reply.Accepted? ==> file' == file + r.chunk && row' == |file'| == reply.uploadedBytes)
            && (!reply.Accepted? ==> file' == file && row' == row)
            && (r.offset != row ==> reply == Expected(row))
            && (reply.Expected? ==> r.offset != reply.offset && (reply.offset == row || reply.offset == |file|))
            && (r.offset == row && reply.Rejected? ==>
                  |r.chunk| == 0 || |r.chunk| > 32 * 1024 * 1024 || |file| + |r.chunk| > total)
  {
  }

  /** The part of `Serve` under and after the lock. */
  lemma ServeFromLock(s: Server, h: nat) returns (es: seq<Event>, s': Server)
    requires h < |s.handlers| && s.handlers[h].stage.Waiting? && s.queue == [h]
    requires s.handlers[h].req.offset == s.row && 0 < |s.handlers[h].req.chunk| <= MAX_CHUNK_BYTES
    ensures Run(s, es, s') && forall e :: e in es ==> !e.Arrive?
    ensures s'.queue == [] && s'.total == s.total
    ensures var (file, row, reply) := Serve(s.file, s.row, s.total, s.handlers[h].req);
            s'.file == file && s'.row == row && s'.handlers == s.handlers[h := s.handlers[h].(stage := Replied(reply))]
  {
    var s4 := Apply(s, Stat(h));
    es, s' := [], s4;
    if s4.handlers[h].stage.Statted? {
      var s5 := Apply(s4, Write(h));
      s' := Apply(s5, CommitRow(h));
      assert Run(s', [], s');
      Prepend(s5, CommitRow(h), [], s');
      Prepend(s4, Write(h), [CommitRow(h)], s');
      es := [Write(h)] + [CommitRow(h)];
    }
    Prepend(s, Stat(h), es, s');
    es := [Stat(h)] + es;
  }

  /** `Serve` is a run of the interleaved machine: arrival to reply without interruption. */
  lemma ServeIsARun(s: Server, tag: nat, r: Request) returns (es: seq<Event>, s': Server)
    requires s.queue == []
    ensures Run(s, es, s') && forall e :: e in es && e.Arrive? ==> e == Arrive(tag, r)
    ensures s'.queue == [] && s'.total == s.total
    ensures var (file, row, reply) := Serve(s.file, s.row, s.total, r);
            s'.file == file && s'.row == row && s'.handlers == s.handlers + [Handler(tag, r, Replied(reply))]
  {
    var h := |s.handlers|;
    var s1 := Apply(s, Arrive(tag, r));
    var s2 := Apply(s1, ReadRow(h));
    var s3 := Apply(s2, Enter(h));
    es, s' := [], s3;
    if s3.handlers[h].stage.Waiting? {
      es, s' := ServeFromLock(s3, h);
    }
    Prepend(s2, Enter(h), es, s');
    es := [Enter(h)] + es;
    Prepend(s1, ReadRow(h), es, s');
    es := [ReadRow(h)] + es;
    Prepend(s, Arrive(tag, r), es, s');
    es := [Arrive(tag, r)] + es;
  }

  /** A fresh session that stores its first chunk and then restarts before the row update. */
  lemma RestartAfterAppend(s: Server, tag: nat, r: Request, source: seq<Byte>) returns (es: seq<Event>, s': Server)
    requires s == Init(|source|) && Genuine(r, source) && r.offset == 0 && 0 < |r.chunk| <= MAX_CHUNK_BYTES
    ensures Run(s, es, s') && forall e :: e in es && e.Arrive? ==> e == Arrive(tag, r)
    ensures s'.file == r.chunk && s'.row == 0 && s'.queue == [] && Stranded(s')
  {
    es, s' := LineUp(s, tag, r, s, []);
    es, s' := StoreFirst(s, es, s', 0);
    Append(s, es, s', Crash);
    es, s' := es + [Crash], Apply(s', Crash);
  }

  /** Two copies of one request that both get into the lock queue: the first stores its chunk, the
      second is told the new size, and then the server restarts before the row is advanced. */
  lemma RestartAfterDuplicate(s: Server, tag: nat, r: Request) returns (es: seq<Event>, s': Server)
    requires s.queue == [] && r.offset == s.row == |s.file|
    requires 0 < |r.chunk| <= MAX_CHUNK_BYTES && |s.file| + |r.chunk| <= s.total
    ensures Run(s, es, s') && forall e :: e in es && e.Arrive? ==> e == Arrive(tag, r)
    ensures s'.file == s.file + r.chunk && s'.row == s.row && s'.queue == [] && Stranded(s')
    ensures |s'.handlers| == |s.handlers| + 2
    ensures s'.handlers[|s.handlers| + 1] == Handler(tag, r, Replied(Expected(|s'.file|)))
  {
    var second := |s.handlers| + 1;
    es, s' := LineUp(s, tag, r, s, []);
    es, s' := LineUp(s, tag, r, s', es);
    es, s' := StoreFirst(s, es, s', |s.handlers|);
    es, s' := TellSecondAndRestart(s, es, s', second);
  }

  /** The head of the lock queue stores its chunk. */
  lemma StoreFirst(s0: Server, before: seq<Event>, s: Server, h: nat) returns (es: seq<Event>, s': Server)
    requires Run(s0, before, s)
    requires h < |s.handlers| && s.handlers[h].stage.Waiting? && s.queue != [] && s.queue[0] == h
    requires s.handlers[h].req.offset == |s.file| && |s.file| + |s.handlers[h].req.chunk| <= s.total
    ensures Run(s0, es, s') && es == before + [Stat(h)] + [Write(h)]
    ensures s' == s.(file := s.file + s.handlers[h].req.chunk, queue := s.queue[1..],
                     handlers := s.handlers[h := s.handlers[h].(stage :=
                                                   Appended(|s.file| + |s.handlers[h].req.chunk|))])
  {
    var s1 := Apply(s, Stat(h));
    s' := Apply(s1, Write(h));
    Append(s0, before, s, Stat(h));
    Append(s0, before + [Stat(h)], s1, Write(h));
    es := before + [Stat(h)] + [Write(h)];
  }

  /** The only one left in the lock queue finds the file longer, and then the server restarts. */
  lemma TellSecondAndRestart(s0: Server, before: seq<Event>, s: Server, h: nat) returns (es: seq<Event>, s': Server)
    requires Run(s0, before, s) && s.row < |s.file|
    requires h < |s.handlers| && s.handlers[h].stage.Waiting? && s.queue == [h] && s.handlers[h].req.offset != |s.file|
    ensures Run(s0, es, s') && es == before + [Stat(h)] + [Crash]
    ensures s'.file == s.file && s'.row == s.row && s'.queue == [] && Stranded(s') && |s'.handlers| == |s.handlers|
    ensures s'.handlers[h] == s.handlers[h].(stage := Replied(Expected(|s.file|)))
  {
    var s1 := Apply(s, Stat(h));
    s' := Apply(s1, Crash);
    Append(s0, before, s, Stat(h));
    Append(s0, before + [Stat(h)], s1, Crash);
    es := before + [Stat(h)] + [Crash];
  }

  /** One request arrives and joins the lock queue. */
  lemma LineUp(s0: Server, tag: nat, r: Request, s: Server, before: seq<Event>) returns (es: seq<Event>, s': Server)
    requires Run(s0, before, s) && forall e :: e in before && e.Arrive? ==> e == Arrive(tag, r)
    requires r.offset == s.row && 0 < |r.chunk| <= MAX_CHUNK_BYTES
    ensures Run(s0, es, s') && forall e :: e in es && e.Arrive? ==> e == Arrive(tag, r)
    ensures s' == s.(handlers := s.handlers + [Handler(tag, r, Waiting)], queue := s.queue + [|s.handlers|])
  {
    var h := |s.handlers|;
    var s1 := Apply(s, Arrive(tag, r));
    var s2 := Apply(s1, ReadRow(h));
    s' := Apply(s2, Enter(h));
    Append(s0, before, s, Arrive(tag, r));
    Append(s0, before + [Arrive(tag, r)], s1, ReadRow(h));
    Append(s0, before + [Arrive(tag, r)] + [ReadRow(h)], s2, Enter(h));
    es := before + [Arrive(tag, r)] + [ReadRow(h)] + [Enter(h)];
  }

  /** A longer run made of a run and one event. */
  lemma {:induction false} Append(s0: Server, es: seq<Event>, s: Server, e: Event)
    requires Run(s0, es, s) && Enabled(s, e)
    ensures Run(s0, es + [e], Apply(s, e))
    decreases |es|
  {
    if es == [] {
      assert [e][1..] == [];
    } else {
      assert (es + [e])[1..] == es[1..] + [e];
      Append(Apply(s0, es[0]), es[1..], s, e);
    }
  }

  ghost predicate GrowingRun(s: Server, es: seq<Event>, s': Server, source: seq<Byte>) {
    Run(s, es, s') && GenuineEvents(es, source) && |s'.file| > |s.file|
  }

  /** Exactly when an unfinished upload can still grow. */
  lemma CanGrowIffNotStranded(s: Server, source: seq<Byte>)
    requires Inv(s, source) && |s.file| < |source|
    ensures (exists es, s' :: GrowingRun(s, es, s', source)) <==> !Stranded(s)
  {
    if !Stranded(s) {
      var n := |s.file|;
      var es, s' := GrowsUnlessStranded(s, Request(n, source[n..n + 1]), source);
      assert GrowingRun(s, es, s', source);
    } else if exists es, s' :: GrowingRun(s, es, s', source) {
      var es, s' :| GrowingRun(s, es, s', source);
      StrandedForever(s, es, s', source);
      assert false;
    }
  }
}
