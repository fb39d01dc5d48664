/** The whole upload: the client loop of `uploadInChunks` (apps/web/lib/chunk-upload.ts) against
    UploadServer over a network that may lose requests and replies, delay requests, deliver them
    in any order and any number of times. */
module UploadProtocol {
  import opened Numbers
  import S = UploadServer

  type Byte = S.Byte

  /** One upload: the file, the negotiated chunk size and the retry budget. */
  datatype Job = Job(source: seq<Byte>, chunkSize: Positive, retries: nat)

  ghost predicate ValidJob(job: Job) {
    0 < |job.source| && job.chunkSize <= S.MAX_CHUNK_BYTES
  }

  datatype Client =
    | Looping(cursor: nat)                             // at the head of the outer loop
    | Trying(cursor: nat, attempt: nat)                // about to call patchChunk
    | Awaiting(cursor: nat, attempt: nat, tag: nat)    // patchChunk in flight
    | Finalizing(cursor: nat)                          // outer loop left
    | Failed

  /** `sent[i]` is the i-th PATCH the client issued. */
  datatype World = World(server: S.Server, sent: seq<S.Request>, client: Client)

  datatype Event =
    | Server(e: S.Event)
    | LoopHead              // test `cursor < totalBytes`
    | Send                  // issue the PATCH for the current slice
    | Receive(handler: nat) // the reply of that handler reaches the client
    | Transient             // network error, 5xx, 408 or 429
    | GiveUp                // abort, or a permanent error from outside the session

  /** `file.slice(cursor, end)` under the offset the client sends with it. */
  function Slice(job: Job, cursor: nat): S.Request
    requires cursor <= |job.source|
  {
    S.Request(cursor, job.source[cursor..Min(cursor + job.chunkSize, |job.source|)])
  }

  function Init(job: Job): World {
    World(S.Init(|job.source|), [], Looping(0))
  }

  predicate Enabled(job: Job, w: World, e: Event) {
    match e
    case Server(Arrive(tag, req)) => tag < |w.sent| && req == w.sent[tag]
    case Server(se) => S.Enabled(w.server, se)
    case LoopHead => w.client.Looping?
    case Send => w.client.Trying? && w.client.cursor <= |job.source|
    case Receive(h) =>
      && w.client.Awaiting?
      && h < |w.server.handlers|
      && w.server.handlers[h].tag == w.client.tag
      && w.server.handlers[h].stage.Replied?
    case Transient => w.client.Awaiting?
    case GiveUp => !w.client.Finalizing?
  }

  /** What one reply does to the loop: the body of `try` and the classification in `catch`. */
  function OnReply(c: Client, reply: S.Reply): Client
    requires c.Awaiting?
  {
    match reply
    case Accepted(n) => Looping(Max(c.cursor, n))
    case Expected(n) => Looping(n)
    case Rejected => Failed
  }

  function Apply(job: Job, w: World, e: Event): World
    requires Enabled(job, w, e)
  {
    match e
    case Server(se) => w.(server := S.Apply(w.server, se))
    case LoopHead =>
      w.(client := if w.client.cursor < |job.source| then Trying(w.client.cursor, 0) else Finalizing(w.client.cursor))
    case Send =>
      w.(sent := w.sent + [Slice(job, w.client.cursor)],
         client := Awaiting(w.client.cursor, w.client.attempt, |w.sent|))
    case Receive(h) => w.(client := OnReply(w.client, w.server.handlers[h].stage.reply))
    case Transient =>
      w.(client := if w.client.attempt + 1 > job.retries then Failed
                   else Trying(w.client.cursor, w.client.attempt + 1))
    case GiveUp => w.(client := Failed)
  }

  ghost predicate Run(job: Job, w: World, es: seq<Event>, w': World)
    decreases |es|
  {
    if es == [] then w' == w
    else Enabled(job, w, es[0]) && Run(job, Apply(job, w, es[0]), es[1..], w')
  }

  // ---------------------------------------------------------------- safety in every run

  ghost predicate HasCursor(c: Client) {
    !c.Failed?
  }

  ghost predicate Inv(job: Job, w: World) {
    && S.Inv(w.server, job.source)
    && (forall i :: 0 <= i < |w.sent| ==>
          w.sent[i].offset <= |w.server.file| && w.sent[i] == Slice(job, w.sent[i].offset))
    && (HasCursor(w.client) ==> w.client.cursor <= |w.server.file|)
    && (w.client.Awaiting? ==> w.client.tag < |w.sent| && w.sent[w.client.tag].offset == w.client.cursor)
    && (w.client.Trying? || w.client.Awaiting? ==> w.client.cursor < |job.source|)
    && (w.client.Finalizing? ==> w.client.cursor == |job.source|)
    && (forall h :: 0 <= h < |w.server.handlers| ==>
          w.server.handlers[h].tag < |w.sent| && w.server.handlers[h].req == w.sent[w.server.handlers[h].tag])
  }

  lemma ServerKeepsInv(job: Job, w: World, se: S.Event)
    requires Inv(job, w) && Enabled(job, w, Server(se))
    ensures Inv(job, Apply(job, w, Server(se)))
    ensures w.server.file <= Apply(job, w, Server(se)).server.file
  {
    S.ApplyKeepsInv(w.server, se, job.source);
    S.ApplyIsMonotone(w.server, se, job.source);
    S.ApplyKeepsRequests(w.server, se);
  }

  lemma ReceiveKeepsInv(job: Job, w: World, h: nat)
    requires Inv(job, w) && Enabled(job, w, Receive(h))
    ensures Inv(job, Apply(job, w, Receive(h)))
  {
    assert S.HandlerOk(w.server, h);
  }

  lemma ApplyKeepsInv(job: Job, w: World, e: Event)
    requires Inv(job, w) && Enabled(job, w, e)
    ensures Inv(job, Apply(job, w, e))
    ensures w.server.file <= Apply(job, w, e).server.file
  {
    match e
    case Server(se) => ServerKeepsInv(job, w, se);
    case Receive(h) => ReceiveKeepsInv(job, w, h);
    case _ =>
  }

  lemma {:induction false} RunKeepsInv(job: Job, w: World, es: seq<Event>, w': World)
    requires Inv(job, w) && Run(job, w, es, w')
    ensures Inv(job, w') && w.server.file <= w'.server.file
    decreases |es|
  {
    if es != [] {
      ApplyKeepsInv(job, w, es[0]);
      RunKeepsInv(job, Apply(job, w, es[0]), es[1..], w');
    }
  }

  /** The two size checks of the finalize route. */
  predicate FinalizeAccepts(s: S.Server) {
    s.row == s.total && |s.file| == s.total
  }

  /** Prefix safety and completeness, for every interleaving from the start of an upload. Finalize,
      which looks at the row too, then accepts exactly when the row has caught up with the file. */
  lemma UploadIsSafe(job: Job, es: seq<Event>, w: World)
    requires Run(job, Init(job), es, w)
    ensures w.server.file <= job.source && w.server.row <= |w.server.file|
    ensures !w.client.Failed? ==> w.client.cursor <= |w.server.file|
    ensures w.client.Finalizing? ==> w.server.file == job.source
    ensures w.client.Finalizing? ==> (FinalizeAccepts(w.server) <==> w.server.row == |w.server.file|)
  {
    RunKeepsInv(job, Init(job), es, w);
  }

  // ---------------------------------------------------------------- chunk boundaries in every run

  /** A chunk boundary of the source. */
  ghost predicate Aligned(job: Job, bytes: nat) {
    Multiple(bytes, job.chunkSize) || bytes == |job.source|
  }

  /** The size that a request has read or reports. */
  ghost predicate StageAligned(job: Job, stage: S.Stage) {
    match stage
    case Loaded(seen) => Aligned(job, seen)
    case Replied(Accepted(n)) => Aligned(job, n)
    case Replied(Expected(n)) => Aligned(job, n)
    case _ => true
  }

  ghost predicate AlignedInv(job: Job, w: World) {
    && Inv(job, w)
    && Aligned(job, |w.server.file|)
    && Aligned(job, w.server.row)
    && (forall i :: 0 <= i < |w.sent| ==> w.sent[i].offset < |job.source| && Aligned(job, w.sent[i].offset))
    && (forall h :: 0 <= h < |w.server.handlers| ==> StageAligned(job, w.server.handlers[h].stage))
    && (HasCursor(w.client) ==> Aligned(job, w.client.cursor))
  }

  lemma WriteKeepsAligned(job: Job, w: World, h: nat)
    requires AlignedInv(job, w) && S.Enabled(w.server, S.Write(h))
    ensures Aligned(job, |S.Apply(w.server, S.Write(h)).file|)
  {
    assert S.HandlerOk(w.server, h);
    assert w.server.handlers[h].req == Slice(job, w.server.handlers[h].req.offset);
    if |w.server.file| + job.chunkSize <= |job.source| {
      MultiplePlus(|w.server.file|, job.chunkSize);
    }
  }

  lemma StageStaysAligned(job: Job, w: World, se: S.Event, h: nat)
    requires AlignedInv(job, w) && S.Enabled(w.server, se) && h < |S.Apply(w.server, se).handlers|
    ensures StageAligned(job, S.Apply(w.server, se).handlers[h].stage)
  {
    if se == S.CommitRow(h) {
      S.CommitAlwaysAccepts(w.server, h, job.source);
    } else if h < |w.server.handlers| {
      assert StageAligned(job, w.server.handlers[h].stage);
    }
  }

  lemma ServerKeepsAligned(job: Job, w: World, se: S.Event)
    requires AlignedInv(job, w) && Enabled(job, w, Server(se))
    ensures AlignedInv(job, Apply(job, w, Server(se)))
  {
    var w' := Apply(job, w, Server(se));
    ServerKeepsInv(job, w, se);
    if se.Write? {
      WriteKeepsAligned(job, w, se.handler);
    } else if se.CommitRow? {
      S.CommitAlwaysAccepts(w.server, se.handler, job.source);
    }
    forall h | 0 <= h < |w'.server.handlers|
      ensures StageAligned(job, w'.server.handlers[h].stage)
    {
      StageStaysAligned(job, w, se, h);
    }
  }

  lemma ApplyKeepsAligned(job: Job, w: World, e: Event)
    requires AlignedInv(job, w) && Enabled(job, w, e)
    ensures AlignedInv(job, Apply(job, w, e))
  {
    if e.Server? {
      ServerKeepsAligned(job, w, e.e);
    } else {
      ApplyKeepsInv(job, w, e);
      if e.Receive? {
        assert StageAligned(job, w.server.handlers[e.handler].stage);
      }
    }
  }

  lemma {:induction false} RunKeepsAligned(job: Job, w: World, es: seq<Event>, w': World)
    requires AlignedInv(job, w) && Run(job, w, es, w')
    ensures AlignedInv(job, w')
    decreases |es|
  {
    if es != [] {
      ApplyKeepsAligned(job, w, es[0]);
      RunKeepsAligned(job, Apply(job, w, es[0]), es[1..], w');
    }
  }

  ghost predicate OnChunkBoundary(job: Job, bytes: nat) {
    bytes % job.chunkSize == 0 || bytes == |job.source|
  }

  lemma AlignedMeaning(job: Job, bytes: nat)
    requires Aligned(job, bytes)
    ensures OnChunkBoundary(job, bytes)
  {
    if bytes != |job.source| {
      MultipleMeaning(bytes, job.chunkSize);
    }
  }

  /** In every run, whatever is lost, delayed, repeated or restarted: file, row and cursor stay on
      chunk boundaries, and the chunk the client reports as current is one of the `chunkTotal`. */
  lemma CursorStaysOnChunks(job: Job, es: seq<Event>, w: World)
    requires Run(job, Init(job), es, w)
    ensures OnChunkBoundary(job, |w.server.file|) && OnChunkBoundary(job, w.server.row)
    ensures !w.client.Failed? ==> OnChunkBoundary(job, w.client.cursor)
    ensures w.client.Trying? || w.client.Awaiting? ==>
              w.client.cursor / job.chunkSize < (|job.source| + job.chunkSize - 1) / job.chunkSize
  {
    RunKeepsAligned(job, Init(job), es, w);
    AlignedMeaning(job, |w.server.file|);
    AlignedMeaning(job, w.server.row);
    if HasCursor(w.client) {
      AlignedMeaning(job, w.client.cursor);
      if w.client.cursor < |job.source| {
        CeilDivMeaning(|job.source|, job.chunkSize);
        CeilDivPassesMultiple(w.client.cursor, |job.source|, job.chunkSize);
        MultipleMeaning(w.client.cursor, job.chunkSize);
      }
    }
  }

  // ---------------------------------------------------------------- which replies raise the cursor

  /** The row is behind the offset that the request asks for. */
  ghost predicate Behind(s: S.Server, h: nat) {
    h < |s.handlers| && s.row < s.handlers[h].req.offset
  }

  /** Whether handler `h`, if it has read the row in this run, found it at its offset or further on. */
  ghost predicate ReadsCaughtUp(job: Job, w: World, es: seq<Event>, h: nat)
    decreases |es|
  {
    es != [] && Enabled(job, w, es[0]) ==>
      && (es[0] == Server(S.ReadRow(h)) ==> !Behind(w.server, h))
      && ReadsCaughtUp(job, Apply(job, w, es[0]), es[1..], h)
  }

  /** What the stage of a request tells about its offset, once it is known whether the row that the
      request read, if any, had caught up with that offset. */
  ghost predicate StageTells(offset: nat, stage: S.Stage, caughtUp: bool) {
    match stage
    case Loaded(seen) => caughtUp <==> offset <= seen
    case Replied(Accepted(n)) => caughtUp && offset < n
    case Replied(Expected(n)) => n != offset && (caughtUp <==> offset < n)
    case Replied(Rejected) => true
    case Dead => true
    case _ => caughtUp
  }

  ghost predicate HandlerTells(s: S.Server, h: nat, caughtUp: bool) {
    if h < |s.handlers| then StageTells(s.handlers[h].req.offset, s.handlers[h].stage, caughtUp) else caughtUp
  }

  /** Its own steps, one by one. */
  lemma StepTells(s: S.Server, se: S.Event, source: seq<Byte>, caughtUp: bool)
    requires S.Inv(s, source) && S.Enabled(s, se) && !se.Arrive? && !se.Crash?
    requires HandlerTells(s, se.handler, caughtUp)
    ensures HandlerTells(S.Apply(s, se), se.handler, caughtUp && (se.ReadRow? ==> !Behind(s, se.handler)))
  {
    assert S.HandlerOk(s, se.handler);
    match se
    case ReadRow(h) =>
    case Enter(h) =>
    case Stat(h) =>
    case Write(h) =>
    case CommitRow(h) => S.CommitAlwaysAccepts(s, h, source);
    case Fail(h) =>
  }

  /** The others keep their stage, unless they all die. */
  lemma OthersStay(s: S.Server, se: S.Event, h: nat, caughtUp: bool)
    requires S.Enabled(s, se) && HandlerTells(s, h, caughtUp)
    requires se.Arrive? || se.Crash? || se.handler != h
    ensures HandlerTells(S.Apply(s, se), h, caughtUp)
  {
  }

  lemma ServerTells(s: S.Server, se: S.Event, source: seq<Byte>, h: nat, caughtUp: bool)
    requires S.Inv(s, source) && S.Enabled(s, se) && HandlerTells(s, h, caughtUp)
    ensures HandlerTells(S.Apply(s, se), h, caughtUp && (se == S.ReadRow(h) ==> !Behind(s, h)))
  {
    if se.Arrive? || se.Crash? || se.handler != h {
      OthersStay(s, se, h, caughtUp);
    } else {
      StepTells(s, se, source, caughtUp);
    }
  }

  lemma {:induction false} RunTells(job: Job, w: World, es: seq<Event>, w': World, h: nat, caughtUp: bool)
    requires Inv(job, w) && Run(job, w, es, w') && HandlerTells(w.server, h, caughtUp)
    ensures HandlerTells(w'.server, h, caughtUp && ReadsCaughtUp(job, w, es, h))
    decreases |es|
  {
    if es != [] {
      var now := caughtUp && (es[0] == Server(S.ReadRow(h)) ==> !Behind(w.server, h));
      ApplyKeepsInv(job, w, es[0]);
      if es[0].Server? {
        ServerTells(w.server, es[0].e, job.source, h, caughtUp);
      }
      RunTells(job, Apply(job, w, es[0]), es[1..], w', h, now);
    }
  }

  /** A reply is the answer to the offset at which the client stands. */
  lemma ReplyTells(job: Job, w: World, h: nat, caughtUp: bool)
    requires Inv(job, w) && Enabled(job, w, Receive(h)) && !Apply(job, w, Receive(h)).client.Failed?
    requires HandlerTells(w.server, h, caughtUp)
    ensures var cursor := Apply(job, w, Receive(h)).client.cursor;
            cursor != w.client.cursor && (cursor > w.client.cursor <==> caughtUp)
  {
  }

  /** For every reply of every run: it moves the cursor forward exactly when the request it answers
      read no row behind its own offset, and otherwise it moves the cursor back. */
  lemma ReplyRaisesCursorIff(job: Job, es: seq<Event>, w: World, h: nat)
    requires Run(job, Init(job), es, w)
    requires Enabled(job, w, Receive(h)) && !Apply(job, w, Receive(h)).client.Failed?
    ensures var cursor := Apply(job, w, Receive(h)).client.cursor;
            cursor != w.client.cursor && (cursor > w.client.cursor <==> ReadsCaughtUp(job, Init(job), es, h))
  {
    RunKeepsInv(job, Init(job), es, w);
    RunTells(job, Init(job), es, w, h, true);
    ReplyTells(job, w, h, ReadsCaughtUp(job, Init(job), es, h));
  }

  // ---------------------------------------------------------------- the PATCH bound in prompt runs

  /** No request reads a row that is still behind the request's own offset. */
  ghost predicate Prompt(w: World, e: Event) {
    e.Server? && e.e.ReadRow? ==> !Behind(w.server, e.e.handler)
  }

  ghost predicate PromptRun(job: Job, w: World, es: seq<Event>, w': World)
    decreases |es|
  {
    if es == [] then w' == w
    else Enabled(job, w, es[0]) && Prompt(w, es[0]) && PromptRun(job, Apply(job, w, es[0]), es[1..], w')
  }

  ghost function Chunks(job: Job, bytes: nat): nat {
    CeilDiv(bytes, job.chunkSize)
  }

  /** The PATCHes the client may have spent when its cursor is at `bytes`. */
  ghost function Budget(job: Job, bytes: nat): nat {
    Times(job.retries + 1, Chunks(job, bytes))
  }

  lemma BudgetGrows(job: Job, a: nat, b: nat)
    requires a <= b <= |job.source| && Aligned(job, a)
    ensures Budget(job, a) <= Budget(job, b)
    ensures a < b ==> Budget(job, a) + job.retries + 1 <= Budget(job, b)
  {
    CeilDivIsMonotone(a, b, job.chunkSize);
    if a < b {
      CeilDivPassesMultiple(a, b, job.chunkSize);
      TimesIsMonotone(job.retries + 1, Chunks(job, a) + 1, Chunks(job, b));
    } else {
      TimesIsMonotone(job.retries + 1, Chunks(job, a), Chunks(job, b));
    }
  }

  /** PATCHes already charged to the current round of the outer loop. */
  ghost function InRound(c: Client): nat {
    match c
    case Trying(_, attempt) => attempt
    case Awaiting(_, attempt, _) => attempt + 1
    case _ => 0
  }

  ghost predicate WithinBudget(job: Job, w: World) {
    if HasCursor(w.client)
    then |w.sent| <= Budget(job, w.client.cursor) + InRound(w.client)
    else |w.sent| <= Budget(job, |job.source|)
  }

  ghost predicate PromptInv(job: Job, w: World) {
    && AlignedInv(job, w)
    && (forall h: nat | h < |w.server.handlers| :: HandlerTells(w.server, h, true))
    && (w.client.Trying? || w.client.Awaiting? ==> w.client.attempt <= job.retries)
    && WithinBudget(job, w)
  }

  lemma ServerKeepsPromptInv(job: Job, w: World, se: S.Event)
    requires PromptInv(job, w) && Enabled(job, w, Server(se)) && Prompt(w, Server(se))
    ensures PromptInv(job, Apply(job, w, Server(se)))
  {
    var w' := Apply(job, w, Server(se));
    ServerKeepsAligned(job, w, se);
    forall h: nat | h < |w'.server.handlers|
      ensures HandlerTells(w'.server, h, true)
    {
      ServerTells(w.server, se, job.source, h, true);
    }
  }

  /** A round of the outer loop that ends with a reply leaves the cursor strictly further on. */
  lemma ReplyRaisesCursor(job: Job, w: World, h: nat)
    requires PromptInv(job, w) && Enabled(job, w, Receive(h)) && !Apply(job, w, Receive(h)).client.Failed?
    ensures Apply(job, w, Receive(h)).client.cursor > w.client.cursor
  {
    assert HandlerTells(w.server, h, true);
    ReplyTells(job, w, h, true);
  }

  lemma ClientKeepsPromptInv(job: Job, w: World, e: Event)
    requires PromptInv(job, w) && Enabled(job, w, e) && !e.Server?
    ensures PromptInv(job, Apply(job, w, e))
  {
    ApplyKeepsAligned(job, w, e);
    if HasCursor(w.client) {
      BudgetGrows(job, w.client.cursor, |job.source|);
      if e.Receive? && HasCursor(Apply(job, w, e).client) {
        ReplyRaisesCursor(job, w, e.handler);
        BudgetGrows(job, w.client.cursor, Apply(job, w, e).client.cursor);
      }
    }
  }

  lemma {:induction false} PromptRunKeepsInv(job: Job, w: World, es: seq<Event>, w': World)
    requires PromptInv(job, w) && PromptRun(job, w, es, w')
    ensures PromptInv(job, w')
    decreases |es|
  {
    if es != [] {
      if es[0].Server? {
        ServerKeepsPromptInv(job, w, es[0].e);
      } else {
        ClientKeepsPromptInv(job, w, es[0]);
      }
      PromptRunKeepsInv(job, Apply(job, w, es[0]), es[1..], w');
    }
  }

  /** In every prompt run, whatever the network loses, delays or repeats, the client issues at most
      `Math.ceil(total / chunkSize) * (retries + 1)` PATCHes. */
  lemma PatchesAreBounded(job: Job, es: seq<Event>, w: World)
    requires PromptRun(job, Init(job), es, w)
    ensures |w.sent| <= (job.retries + 1) * ((|job.source| + job.chunkSize - 1) / job.chunkSize)
  {
    PromptRunKeepsInv(job, Init(job), es, w);
    if HasCursor(w.client) {
      BudgetGrows(job, w.client.cursor, |job.source|);
    }
    CeilDivMeaning(|job.source|, job.chunkSize);
    TimesIsProduct(job.retries + 1, Chunks(job, |job.source|));
  }

  lemma SingleChunkOffsetIsZero(job: Job, w: World, h: nat)
    requires AlignedInv(job, w) && |job.source| <= job.chunkSize && h < |w.server.handlers|
    ensures w.server.handlers[h].req.offset == 0
  {
    var i := w.server.handlers[h].tag;
    assert w.sent[i].offset < |job.source| && Aligned(job, w.sent[i].offset);
  }

  /** An upload of one chunk only ever sends offset 0, so all its runs are prompt. */
  lemma {:induction false} SingleChunkRunIsPrompt(job: Job, w: World, es: seq<Event>, w': World)
    requires AlignedInv(job, w) && |job.source| <= job.chunkSize && Run(job, w, es, w')
    ensures PromptRun(job, w, es, w')
    decreases |es|
  {
    if es != [] {
      var e := es[0];
      if e.Server? && e.e.ReadRow? {
        SingleChunkOffsetIsZero(job, w, e.e.handler);
      }
      ApplyKeepsAligned(job, w, e);
      SingleChunkRunIsPrompt(job, Apply(job, w, e), es[1..], w');
    }
  }

  // ---------------------------------------------------------------- without promptness

  /** Once stranded, an upload never completes, whatever client, network and server do. */
  lemma {:induction false} StrandedNeverCompletes(job: Job, w: World, es: seq<Event>, w': World)
    requires Inv(job, w) && Run(job, w, es, w')
    requires S.Stranded(w.server)
    ensures S.Stranded(w'.server) && w'.server.file == w.server.file && w'.server.row == w.server.row
    ensures |w.server.file| < |job.source| ==> !w'.client.Finalizing?
    decreases |es|
  {
    if es == [] {
    } else {
      ApplyKeepsInv(job, w, es[0]);
      if es[0].Server? {
        S.StrandedStep(w.server, es[0].e, job.source);
      }
      StrandedNeverCompletes(job, Apply(job, w, es[0]), es[1..], w');
    }
  }

  lemma {:induction false} Extend(job: Job, w: World, es: seq<Event>, w1: World, e: Event)
    requires Run(job, w, es, w1) && Enabled(job, w1, e)
    ensures Run(job, w, es + [e], Apply(job, w1, e))
    decreases |es|
  {
    if es == [] {
      assert ([e])[1..] == [];
    } else {
      assert (es + [e])[1..] == es[1..] + [e];
      Extend(job, Apply(job, w, es[0]), es[1..], w1, e);
    }
  }

  /** Extends a run by one event. */
  lemma Do(job: Job, w0: World, es: seq<Event>, w: World, e: Event) returns (es': seq<Event>, w': World)
    requires Run(job, w0, es, w) && Inv(job, w) && Enabled(job, w, e)
    ensures w' == Apply(job, w, e) && Run(job, w0, es', w') && Inv(job, w')
  {
    Extend(job, w0, es, w, e);
    ApplyKeepsInv(job, w, e);
    es', w' := es + [e], Apply(job, w, e);
  }

  /** Extends a run by what the server does with requests that were sent. */
  lemma {:induction false} DoServer(job: Job, w0: World, es: seq<Event>, w: World, ses: seq<S.Event>, s: S.Server)
    returns (es': seq<Event>)
    requires Run(job, w0, es, w) && Inv(job, w) && S.Run(w.server, ses, s)
    requires forall e :: e in ses && e.Arrive? ==> e.tag < |w.sent| && e.req == w.sent[e.tag]
    ensures Run(job, w0, es', w.(server := s)) && Inv(job, w.(server := s))
    decreases |ses|
  {
    es' := es;
    if ses != [] {
      var w1;
      assert ses[0] in ses && forall e :: e in ses[1..] ==> e in ses;
      es', w1 := Do(job, w0, es, w, Server(ses[0]));
      es' := DoServer(job, w0, es', w1, ses[1..], s);
    }
  }

  /** The client sends, and the server runs from `w.server` to `s` with nothing else arriving. */
  lemma SendAndServe(job: Job, w0: World, es0: seq<Event>, w: World, ses: seq<S.Event>, s: S.Server)
    returns (es: seq<Event>, w': World)
    requires Inv(job, w) && Run(job, w0, es0, w) && w.client.Trying?
    requires S.Run(w.server, ses, s)
    requires forall e :: e in ses && e.Arrive? ==> e == S.Arrive(|w.sent|, Slice(job, w.client.cursor))
    ensures Run(job, w0, es, w') && Inv(job, w') && w'.server == s && |w'.sent| == |w.sent| + 1
    ensures w'.client == Awaiting(w.client.cursor, w.client.attempt, |w.sent|)
  {
    var w1;
    es, w1 := Do(job, w0, es0, w, Send);
    es := DoServer(job, w0, es, w1, ses, s);
    w' := w1.(server := s);
  }

  /** One PATCH round: after that the client receives the reply of one of the request's copies. */
  lemma PatchRound(job: Job, w0: World, es0: seq<Event>, w: World, ses: seq<S.Event>, s: S.Server, h: nat)
    returns (es: seq<Event>, w': World)
    requires Inv(job, w) && Run(job, w0, es0, w) && w.client.Trying?
    requires S.Run(w.server, ses, s)
    requires forall e :: e in ses && e.Arrive? ==> e == S.Arrive(|w.sent|, Slice(job, w.client.cursor))
    requires h < |s.handlers| && s.handlers[h].tag == |w.sent| && s.handlers[h].stage.Replied?
    ensures Run(job, w0, es, w') && Inv(job, w') && w'.server == s && |w'.sent| == |w.sent| + 1
    ensures w'.client == OnReply(Awaiting(w.client.cursor, w.client.attempt, |w.sent|), s.handlers[h].stage.reply)
  {
    es, w' := SendAndServe(job, w0, es0, w, ses, s);
    es, w' := Do(job, w0, es, w', Receive(h));
  }

  /** One PATCH of a stranded upload: the route answers with the row's size to whoever asks with
      the file's size, and with the file's size to whoever asks with the row's. */
  lemma PingPongRound(job: Job, w0: World, es0: seq<Event>, w: World) returns (es: seq<Event>, w': World)
    requires ValidJob(job) && Inv(job, w) && Run(job, w0, es0, w)
    requires S.Stranded(w.server) && w.server.queue == [] && w.client.Trying?
    requires w.client.cursor == w.server.row || w.client.cursor == |w.server.file|
    ensures Run(job, w0, es, w') && Inv(job, w') && |w'.sent| == |w.sent| + 1
    ensures S.Stranded(w'.server) && w'.server.queue == []
    ensures w'.server.file == w.server.file && w'.server.row == w.server.row
    ensures w'.client == Looping(if w.client.cursor == w.server.row then |w.server.file| else w.server.row)
  {
    var ses, s := S.ServeIsARun(w.server, |w.sent|, Slice(job, w.client.cursor));
    es, w' := PatchRound(job, w0, es0, w, ses, s, |w.server.handlers|);
  }

  /** How an upload gets stranded: the server restarts between storing the first chunk and
      advancing the row, and the client retries. */
  lemma RestartStrands(job: Job) returns (es: seq<Event>, w: World)
    requires ValidJob(job) && job.chunkSize < |job.source| && 1 <= job.retries
    ensures Run(job, Init(job), es, w) && Inv(job, w)
    ensures S.Stranded(w.server) && w.server.queue == [] && w.server.row == 0
    ensures |w.server.file| == job.chunkSize && w.client == Trying(0, 1) && |w.sent| == 1
  {
    var w0 := Init(job);
    es, w := Do(job, w0, [], w0, LoopHead);
    es, w := Do(job, w0, es, w, Send);
    var ses, s := S.RestartAfterAppend(w.server, 0, Slice(job, 0), job.source);
    es := DoServer(job, w0, es, w, ses, s);
    es, w := Do(job, w0, es, w.(server := s), Transient);
  }

  /** A round in which the PATCH arrives twice, both copies get into the lock queue, the client sees
      the answer to the second, and the server restarts before it advances the row. */
  lemma DuplicateStrands(job: Job, w0: World, es0: seq<Event>, w: World) returns (es: seq<Event>, w': World)
    requires ValidJob(job) && Inv(job, w) && Run(job, w0, es0, w)
    requires w.client.Trying? && w.server.queue == []
    requires w.client.cursor == w.server.row == |w.server.file|
    ensures Run(job, w0, es, w') && Inv(job, w') && |w'.sent| == |w.sent| + 1
    ensures S.Stranded(w'.server) && w'.server.queue == [] && w'.server.row == w.server.row
    ensures |w'.server.file| == Min(w.client.cursor + job.chunkSize, |job.source|)
    ensures w'.client == Looping(|w'.server.file|)
  {
    var ses, s := S.RestartAfterDuplicate(w.server, |w.sent|, Slice(job, w.client.cursor));
    es, w' := PatchRound(job, w0, es0, w, ses, s, |w.server.handlers| + 1);
  }

  /** For files of more than one chunk no bound on the PATCHes holds: after one restart the client
      bounces between two offsets as long as one likes, and its retry budget is never charged. */
  lemma {:induction false} PatchesAreUnbounded(job: Job, n: nat) returns (es: seq<Event>, w: World)
    requires ValidJob(job) && job.chunkSize < |job.source|
    ensures Run(job, Init(job), es, w) && Inv(job, w) && |w.sent| == n + 1
    ensures S.Stranded(w.server) && w.server.queue == [] && w.client.Trying?
    ensures |w.server.file| == job.chunkSize && w.server.row == 0
    ensures w.client.cursor == 0 || w.client.cursor == job.chunkSize
  {
    var w0 := Init(job);
    if n == 0 {
      es, w := Do(job, w0, [], w0, LoopHead);
      es, w := DuplicateStrands(job, w0, es, w);
    } else {
      es, w := PatchesAreUnbounded(job, n - 1);
      es, w := PingPongRound(job, w0, es, w);
    }
    es, w := Do(job, w0, es, w, LoopHead);
  }

  /** `Math.ceil(total / chunkSize) * (retries + 1)` PATCHes at most. */
  ghost predicate PatchesWithinBound(job: Job, w: World) {
    |w.sent| <= (job.retries + 1) * ((|job.source| + job.chunkSize - 1) / job.chunkSize)
  }

  ghost predicate Reaches(job: Job, es: seq<Event>, w: World) {
    Run(job, Init(job), es, w)
  }

  /** For every upload: the bound holds in all of its runs exactly when the file is one chunk. */
  lemma BoundHoldsInEveryRunIff(job: Job)
    requires ValidJob(job)
    ensures (forall es, w :: Reaches(job, es, w) ==> PatchesWithinBound(job, w)) <==> |job.source| <= job.chunkSize
  {
    if |job.source| <= job.chunkSize {
      forall es, w | Reaches(job, es, w)
        ensures PatchesWithinBound(job, w)
      {
        SingleChunkRunIsPrompt(job, Init(job), es, w);
        PatchesAreBounded(job, es, w);
      }
    } else {
      CeilDivMeaning(|job.source|, job.chunkSize);
      TimesIsProduct(job.retries + 1, Chunks(job, |job.source|));
      var es, w := PatchesAreUnbounded(job, Budget(job, |job.source|));
      assert Reaches(job, es, w) && !PatchesWithinBound(job, w);
    }
  }

  /** Every reply that does not end the upload raises the cursor. */
  ghost predicate RaisesCursor(job: Job, w: World, h: nat) {
    Enabled(job, w, Receive(h)) && !Apply(job, w, Receive(h)).client.Failed? ==>
      Apply(job, w, Receive(h)).client.cursor > w.client.cursor
  }

  /** The first reply after a duplicated request and a restart takes the cursor back to 0. */
  lemma CursorCanFall(job: Job) returns (es: seq<Event>, w: World, h: nat)
    requires ValidJob(job) && job.chunkSize < |job.source|
    ensures Reaches(job, es, w) && !RaisesCursor(job, w, h)
  {
    var w0 := Init(job);
    es, w := Do(job, w0, [], w0, LoopHead);
    es, w := DuplicateStrands(job, w0, es, w);
    es, w := Do(job, w0, es, w, LoopHead);
    h := |w.server.handlers|;
    var ses, s := S.ServeIsARun(w.server, |w.sent|, Slice(job, w.client.cursor));
    es, w := SendAndServe(job, w0, es, w, ses, s);
  }

  /** For every upload: all replies of all runs raise the cursor exactly when the file is one chunk. */
  lemma CursorAlwaysRisesIff(job: Job)
    requires ValidJob(job)
    ensures (forall es, w, h :: Reaches(job, es, w) ==> RaisesCursor(job, w, h)) <==> |job.source| <= job.chunkSize
  {
    if |job.source| <= job.chunkSize {
      forall es, w, h | Reaches(job, es, w)
        ensures RaisesCursor(job, w, h)
      {
        SingleChunkRunIsPrompt(job, Init(job), es, w);
        PromptRunKeepsInv(job, Init(job), es, w);
        if Enabled(job, w, Receive(h)) && !Apply(job, w, Receive(h)).client.Failed? {
          ReplyRaisesCursor(job, w, h);
        }
      }
    } else {
      var es, w, h := CursorCanFall(job);
      assert Reaches(job, es, w) && !RaisesCursor(job, w, h);
    }
  }

  // ---------------------------------------------------------------- what finalize makes of it

  /** One PATCH of a session at rest, served without interruption. */
  lemma QuietRound(job: Job, w0: World, es0: seq<Event>, w: World) returns (es: seq<Event>, w': World)
    requires ValidJob(job) && Inv(job, w) && Run(job, w0, es0, w)
    requires w.client.Trying? && w.server.queue == []
    requires w.client.cursor == w.server.row == |w.server.file|
    ensures Run(job, w0, es, w') && Inv(job, w') && w'.server.queue == []
    ensures w'.client == Looping(Min(w.client.cursor + job.chunkSize, |job.source|))
    ensures w'.client.cursor == w'.server.row == |w'.server.file|
  {
    var ses, s := S.ServeIsARun(w.server, |w.sent|, Slice(job, w.client.cursor));
    es, w' := PatchRound(job, w0, es0, w, ses, s, |w.server.handlers|);
  }

  lemma {:induction false} ReachLastChunk(job: Job, w0: World, es0: seq<Event>, w: World)
    returns (es: seq<Event>, w': World)
    requires ValidJob(job) && Inv(job, w) && Run(job, w0, es0, w)
    requires w.client.Trying? && w.server.queue == []
    requires w.client.cursor == w.server.row == |w.server.file|
    ensures Run(job, w0, es, w') && Inv(job, w') && w'.client.Trying? && w'.server.queue == []
    ensures w'.client.cursor == w'.server.row == |w'.server.file|
    ensures w'.client.cursor + job.chunkSize >= |job.source|
    decreases |job.source| - w.client.cursor
  {
    es, w' := es0, w;
    if w.client.cursor + job.chunkSize < |job.source| {
      es, w' := QuietRound(job, w0, es, w');
      es, w' := Do(job, w0, es, w', LoopHead);
      es, w' := ReachLastChunk(job, w0, es, w');
    }
  }

  /** Every upload has a run in which the client finalizes a complete file and is refused for good:
      the last chunk is stored, the row never follows. */
  lemma FinalizeCanBeRefused(job: Job) returns (es: seq<Event>, w: World)
    requires ValidJob(job)
    ensures Run(job, Init(job), es, w) && Inv(job, w) && w.client.Finalizing?
    ensures w.server.file == job.source && S.Stranded(w.server) && !FinalizeAccepts(w.server)
  {
    var w0 := Init(job);
    es, w := Do(job, w0, [], w0, LoopHead);
    es, w := ReachLastChunk(job, w0, es, w);
    es, w := DuplicateStrands(job, w0, es, w);
    es, w := Do(job, w0, es, w, LoopHead);
  }

  /** A session stranded at any length, also the full one, is never accepted. */
  lemma {:induction false} StrandedIsNeverAccepted(job: Job, w: World, es: seq<Event>, w': World)
    requires Inv(job, w) && Run(job, w, es, w') && S.Stranded(w.server)
    ensures !FinalizeAccepts(w'.server)
  {
    StrandedNeverCompletes(job, w, es, w');
  }

  ghost predicate LeadsToAcceptance(job: Job, w: World, es: seq<Event>, w': World) {
    Run(job, w, es, w') && FinalizeAccepts(w'.server)
  }

  /** A client that finalizes can still be accepted exactly when the session is not stranded. */
  lemma FinalizeCanSucceedIff(job: Job, w: World)
    requires Inv(job, w) && w.client.Finalizing?
    ensures (exists es, w' :: LeadsToAcceptance(job, w, es, w')) <==> !S.Stranded(w.server)
  {
    if S.Stranded(w.server) {
      forall es, w' | Run(job, w, es, w')
        ensures !LeadsToAcceptance(job, w, es, w')
      {
        StrandedIsNeverAccepted(job, w, es, w');
      }
    } else if w.server.row == |w.server.file| {
      assert LeadsToAcceptance(job, w, [], w);
    } else {
      var h :| 0 <= h < |w.server.handlers| && w.server.handlers[h].stage.Appended?;
      S.CommitAlwaysAccepts(w.server, h, job.source);
      var es, w' := Do(job, w, [], w, Server(S.CommitRow(h)));
      assert LeadsToAcceptance(job, w, es, w');
    }
  }
}
