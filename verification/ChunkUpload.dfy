/** The code of `uploadInChunks` (apps/web/lib/chunk-upload.ts) with its two nested loops, run
    against a session whose server finishes each request it starts. The network is still hostile:
    `Fate` says for every PATCH which earlier requests arrive again or late just before it, whether
    it arrives itself, and what the client gets to see. */
module ChunkUpload {
  import opened Numbers
  import opened Optional
  import S = UploadServer
  import P = UploadProtocol

  type Byte = S.Byte

  datatype Answer =
    | Delivered // the server's own reply, if the request was served
    | Transient // network error, 5xx, 408 or 429
    | Fatal     // abort, or a permanent error from outside the session

  datatype Fate = Fate(late: seq<nat>, served: bool, answer: Answer)

  predicate GetsThrough(f: Fate) {
    f.served && f.answer.Delivered?
  }

  /** What file and row become when these requests are served one after the other. */
  function ServeAll(file: seq<Byte>, row: nat, total: nat, rs: seq<S.Request>): (seq<Byte>, nat) {
    if rs == [] then (file, row)
    else
      var (f, r) := ServeAll(file, row, total, rs[..|rs| - 1]);
      var (f', r', _) := S.Serve(f, r, total, rs[|rs| - 1]);
      (f', r')
  }

  /** The earlier requests that arrive late or again, in order. */
  function LateArrivals(sent: seq<S.Request>, late: seq<nat>): seq<S.Request> {
    if late == [] then []
    else
      var i := late[|late| - 1];
      LateArrivals(sent, late[..|late| - 1]) + if i < |sent| then [sent[i]] else []
  }

  datatype Outcome = Uploaded | EmptyFile | RetriesExhausted | Stopped

  /** Server side of one upload: its file, its row, and the PATCHes the network has seen. */
  class Session {
    const total: nat
    var file: seq<Byte>
    var row: nat
    var sent: seq<S.Request>

    constructor (total: nat)
      ensures this.total == total && file == [] && row == 0 && sent == []
    {
      this.total := total;
      file, row, sent := [], 0, [];
    }

    ghost predicate Valid(job: P.Job)
      reads this
    {
      && total == |job.source|
      && file <= job.source
      && row == |file|
      && P.Aligned(job, row)
      && forall i :: 0 <= i < |sent| ==> sent[i].offset <= row && sent[i] == P.Slice(job, sent[i].offset)
    }

    /** The PATCH route run to its end. */
    method Serve(r: S.Request) returns (reply: S.Reply)
      modifies this`file, this`row
      ensures (file, row, reply) == S.Serve(old(file), old(row), total, r)
    {
      if r.offset != row {
        return S.Expected(row);
      }
      if |r.chunk| == 0 || |r.chunk| > S.MAX_CHUNK_BYTES {
        return S.Rejected;
      }
      if r.offset != |file| {
        return S.Expected(|file|);
      }
      if |file| + |r.chunk| > total {
        return S.Rejected;
      }
      file := file + r.chunk;
      row := |file|;
      return S.Accepted(row);
    }

    lemma ServeSlice(job: P.Job, r: S.Request)
      requires Valid(job) && r.offset <= row && r == P.Slice(job, r.offset)
      ensures var (file', row', reply) := S.Serve(file, row, total, r);
              && file <= file' <= job.source
              && row' == |file'|
              && P.Aligned(job, row')
              && (reply.Accepted? ==> reply.uploadedBytes == row' > r.offset)
              && (reply.Expected? ==> reply.offset == row' > r.offset)
              && (reply.Rejected? ==> |r.chunk| > S.MAX_CHUNK_BYTES || r.offset == |job.source|)
    {
      if row + job.chunkSize <= |job.source| && row < |job.source| {
        MultiplePlus(row, job.chunkSize);
      }
    }

    lemma ServeOneMore(file0: seq<Byte>, row0: nat, rs: seq<S.Request>, more: seq<S.Request>)
      requires |more| <= 1
      ensures var (f, r) := ServeAll(file0, row0, total, rs);
              ServeAll(file0, row0, total, rs + more) ==
              if more == [] then (f, r) else (S.Serve(f, r, total, more[0]).0, S.Serve(f, r, total, more[0]).1)
    {
      assert rs + [] == rs;
      assert more != [] ==> (rs + more)[..|rs|] == rs;
    }

    /** The requests that arrive late or again. */
    method ServeLate(job: P.Job, late: seq<nat>)
      requires Valid(job)
      modifies this`file, this`row
      ensures Valid(job) && old(file) <= file
      ensures (file, row) == ServeAll(old(file), old(row), total, LateArrivals(sent, late))
    {
      for i := 0 to |late|
        invariant Valid(job) && old(file) <= file
        invariant (file, row) == ServeAll(old(file), old(row), total, LateArrivals(sent, late[..i]))
      {
        assert late[..i + 1][..i] == late[..i];
        ServeOneMore(old(file), old(row), LateArrivals(sent, late[..i]),
                     if late[i] < |sent| then [sent[late[i]]] else []);
        if late[i] < |sent| {
          ServeSlice(job, sent[late[i]]);
          var _ := Serve(sent[late[i]]);
        }
      }
      assert late[..|late|] == late;
    }

    /** What network and server make of one PATCH: the late requests are served first, and then this
        one, if it arrives; None is a failure that counts as retriable. */
    method Deliver(job: P.Job, r: S.Request, fate: Fate) returns (answer: Option<S.Reply>)
      requires Valid(job) && r.offset <= row && r == P.Slice(job, r.offset)
      modifies this
      ensures Valid(job) && sent == old(sent) + [r] && old(file) <= file
      ensures var (before, rowBefore) := ServeAll(old(file), old(row), total, LateArrivals(sent, fate.late));
              var (after, rowAfter, reply) := S.Serve(before, rowBefore, total, r);
              && (file, row) == (if fate.served then (after, rowAfter) else (before, rowBefore))
              && answer == if GetsThrough(fate) then Some(reply) else None
      ensures answer.Some? && answer.value.Accepted? ==> answer.value.uploadedBytes == row > r.offset
      ensures answer.Some? && answer.value.Expected? ==> answer.value.offset == row > r.offset
      ensures answer.Some? && answer.value.Rejected? ==> |r.chunk| > S.MAX_CHUNK_BYTES || r.offset == |job.source|
    {
      sent := sent + [r];
      ServeLate(job, fate.late);
      answer := None;
      if fate.served {
        ServeSlice(job, r);
        var reply := Serve(r);
        if fate.answer.Delivered? {
          answer := Some(reply);
        }
      }
    }

    /** The same as the client of this job sees it. */
    method Patch(job: P.Job, r: S.Request, fate: Fate) returns (answer: Option<S.Reply>)
      requires Valid(job) && r.offset <= row && r == P.Slice(job, r.offset)
      modifies this
      ensures Valid(job) && sent == old(sent) + [r] && old(file) <= file
      ensures answer.Some? <==> GetsThrough(fate)
      ensures answer.Some? && answer.value.Accepted? ==> answer.value.uploadedBytes == row > r.offset
      ensures answer.Some? && answer.value.Expected? ==> answer.value.offset == row > r.offset
      ensures answer.Some? && answer.value.Rejected? ==> |r.chunk| > S.MAX_CHUNK_BYTES || r.offset == |job.source|
    {
      answer := Deliver(job, r, fate);
    }
  }

  /** Uploads `job.source`. The k-th PATCH of the upload meets `fates(k)`. */
  method UploadInChunks(job: P.Job, session: Session, fates: nat -> Fate) returns (outcome: Outcome)
    requires session.total == |job.source| && session.file == [] && session.row == 0 && session.sent == []
    modifies session
    // prefix safety, whatever happens
    ensures session.file <= job.source
    // finalize is reached only with the whole file in place, and then accepts it
    ensures outcome.Uploaded? ==> session.file == job.source && session.row == |job.source|
    // chunkTotal * (retries + 1) PATCHes at most
    ensures |session.sent| <= Times(job.retries + 1, CeilDiv(|job.source|, job.chunkSize))
    ensures outcome.EmptyFile? <==> job.source == []
    // giving up means that retries + 1 PATCHes in a row did not get through
    ensures outcome.RetriesExhausted? ==>
              && |session.sent| > job.retries
              && forall k: nat :: |session.sent| - job.retries - 1 <= k < |session.sent| ==> !GetsThrough(fates(k))
    // after an abort or a permanent error nothing more is sent, and the upload stops
    ensures forall k: nat :: k + 1 < |session.sent| ==> !fates(k).answer.Fatal?
    ensures (exists k: nat :: k < |session.sent| && fates(k).answer.Fatal?) ==> outcome.Stopped?
    // and it stops for no other reason, unless the server refuses chunks of this size
    ensures outcome.Stopped? ==>
              || Min(job.chunkSize, |job.source|) > S.MAX_CHUNK_BYTES
              || exists k: nat :: k < |session.sent| && fates(k).answer.Fatal?
  {
    if |job.source| == 0 {
      return EmptyFile;
    }
    var total := |job.source|;
    var cursor := 0;
    assert P.Aligned(job, 0);
    while cursor < total
      invariant session.Valid(job) && cursor <= session.row && P.Aligned(job, cursor)
      invariant |session.sent| <= P.Budget(job, cursor)
      invariant forall k: nat :: k < |session.sent| ==> !fates(k).answer.Fatal?
      decreases total - cursor
    {
      ghost var start := cursor;
      P.BudgetGrows(job, start, total);
      var blob := P.Slice(job, cursor);
      var attempt := 0;
      while attempt <= job.retries
        invariant session.Valid(job) && cursor == start <= session.row && attempt <= job.retries
        invariant |session.sent| <= P.Budget(job, start) + attempt
        invariant attempt <= |session.sent|
        invariant forall k: nat :: k < |session.sent| ==> !fates(k).answer.Fatal?
        invariant forall k: nat :: |session.sent| - attempt <= k < |session.sent| ==> !GetsThrough(fates(k))
        decreases job.retries - attempt
      {
        var k := |session.sent|;
        var fate := fates(k);
        var answer := session.Patch(job, blob, fate);
        if fate.answer.Fatal? {
          assert fates(k).answer.Fatal?;
          return Stopped;
        }
        match answer {
          case Some(Accepted(n)) =>
            cursor := Max(cursor, n);
            break;
          case Some(Expected(n)) =>
            cursor := n;
            break;
          case Some(Rejected) =>
            return Stopped;
          case None =>
            attempt := attempt + 1;
            if attempt > job.retries {
              return RetriesExhausted;
            }
        }
      }
      P.BudgetGrows(job, start, cursor);
    }
    P.BudgetGrows(job, cursor, total);
    // finalize compares the row, then the file size, with the total
    assert session.row == total && |session.file| == total;
    return Uploaded;
  }
}
