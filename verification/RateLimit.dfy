/** The in-memory limiter of apps/web/lib/rate-limit.ts: `rateLimitInMemory`, `gc` and the
    in-memory half of `resetRateLimit`. Times are epoch milliseconds. */
module RateLimit {
  import opened Optional
  import opened Numbers
  import opened ExpiringMap

  datatype Bucket = Bucket(count: int, resetAt: int)

  datatype Result = Result(allowed: bool, remaining: int, resetAt: int, retryAfter: int)

  datatype Op =
    | Call(now: int, key: string, limit: int, windowSec: int)
    | Forget(key: string) // resetRateLimit

  datatype State = State(buckets: map<string, Bucket>, lastGc: int)

  const INIT := State(map[], 0)

  function Expiry(): Bucket -> int {
    (b: Bucket) => b.resetAt
  }

  /** `Math.ceil(ms / 1000)` */
  function CeilSeconds(ms: int): int {
    (ms + 999) / 1000
  }

  /** What one call does to the bucket of its own key. */
  function Take(existing: Option<Bucket>, now: int, limit: int, windowSec: int): (Bucket, Result) {
    match existing
    case Some(b) =>
      if b.resetAt <= now then Open(now, limit, windowSec)
      else if b.count >= limit then
        (b, Result(false, 0, b.resetAt, Max(1, CeilSeconds(b.resetAt - now))))
      else (Bucket(b.count + 1, b.resetAt), Result(true, limit - (b.count + 1), b.resetAt, 0))
    case None => Open(now, limit, windowSec)
  }

  function Open(now: int, limit: int, windowSec: int): (Bucket, Result) {
    var resetAt := now + windowSec * 1000;
    (Bucket(1, resetAt), Result(true, limit - 1, resetAt, 0))
  }

  function Step(s: State, op: Op): State {
    match op
    case Call(now, key, limit, windowSec) =>
      var (buckets, lastGc) := MaybeSwept(s.buckets, Expiry(), s.lastGc, now);
      State(buckets[key := Take(Get(buckets, key), now, limit, windowSec).0], lastGc)
    case Forget(key) => s.(buckets := Drop(s.buckets, key))
  }

  function Run(ops: seq<Op>): State {
    if ops == [] then INIT else Step(Run(ops[..|ops| - 1]), ops[|ops| - 1])
  }

  /** The answer to the call `op` after the history `ops`. */
  function Answer(ops: seq<Op>, op: Op): Result
    requires op.Call?
  {
    var (buckets, _) := MaybeSwept(Run(ops).buckets, Expiry(), Run(ops).lastGc, op.now);
    Take(Get(buckets, op.key), op.now, op.limit, op.windowSec).1
  }

  // ---------------------------------------------------------------- refinement

  /** The simple form: the bucket of one key, never swept, blind to all other keys. */
  function BucketOf(ops: seq<Op>, key: string): Option<Bucket> {
    if ops == [] then None
    else
      var before := BucketOf(ops[..|ops| - 1], key);
      var op := ops[|ops| - 1];
      if op.key != key then before
      else if op.Forget? then None
      else Some(Take(before, op.now, op.limit, op.windowSec).0)
  }

  /** The clock never runs backwards, and `now` is not before any call. */
  ghost predicate Chronological(ops: seq<Op>, now: int) {
    && (forall i :: 0 <= i < |ops| && ops[i].Call? ==> ops[i].now <= now)
    && (forall i, j :: 0 <= i < j < |ops| && ops[i].Call? && ops[j].Call? ==> ops[i].now <= ops[j].now)
  }

  lemma {:induction false} SweepIsInvisible(ops: seq<Op>, now: int, key: string)
    requires Chronological(ops, now)
    ensures SameWhenLive(Get(Run(ops).buckets, key), BucketOf(ops, key), Expiry(), now)
  {
    if ops != [] {
      var n := |ops| - 1;
      var op, before := ops[n], Run(ops[..n]);
      var t := if op.Call? then op.now else now;
      assert forall i :: 0 <= i < n ==> ops[..n][i] == ops[i];
      SweepIsInvisible(ops[..n], t, key);
      if op.Call? && op.key == key {
        var (buckets, _) := MaybeSwept(before.buckets, Expiry(), before.lastGc, op.now);
        assert SameWhenLive(Get(buckets, key), BucketOf(ops[..n], key), Expiry(), t);
      }
    }
  }

  /** With a clock that never runs backwards, every answer is the answer of a limiter that never
      sweeps and keeps one bucket per key on its own. */
  lemma AnswerIsPerKey(ops: seq<Op>, op: Op)
    requires op.Call? && Chronological(ops, op.now)
    ensures Answer(ops, op) == Take(BucketOf(ops, op.key), op.now, op.limit, op.windowSec).1
  {
    SweepIsInvisible(ops, op.now, op.key);
  }

  /** The swept map holds on to nothing: no bucket expired before the last sweep, and the last sweep is
      less than a minute older than the last call. */
  lemma {:induction false} NothingIsKeptLong(ops: seq<Op>, now: int)
    requires Chronological(ops, now)
    requires forall i :: 0 <= i < |ops| && ops[i].Call? ==> ops[i].windowSec >= 0 && ops[i].now >= 0
    ensures NoneOverdue(Run(ops).buckets, Expiry(), Run(ops).lastGc)
    ensures Run(ops).lastGc == 0 || Run(ops).lastGc <= now
    ensures forall i :: 0 <= i < |ops| && ops[i].Call? ==> ops[i].now < Run(ops).lastGc + SWEEP_INTERVAL_MS
  {
    if ops != [] {
      var n := |ops| - 1;
      var op, before := ops[n], Run(ops[..n]);
      NothingIsKeptLong(ops[..n], if op.Call? then op.now else now);
      if op.Call? {
        MaybeSweptMeaning(before.buckets, Expiry(), before.lastGc, op.now);
      }
      assert forall i :: 0 <= i < n ==> ops[..n][i] == ops[i];
    }
  }

  // ---------------------------------------------------------------- every answer, from the earlier ones

  /** How many calls of the key were allowed since its window was opened, and when the window ends. */
  ghost function Window(ops: seq<Op>, key: string): Option<(nat, int)> {
    if ops == [] then None
    else
      var n := |ops| - 1;
      var op, before := ops[n], Window(ops[..n], key);
      if op.key != key then before
      else if op.Forget? then None
      else if before.None? || before.value.1 <= op.now then Some((1, op.now + op.windowSec * 1000))
      else if Answer(ops[..n], op).allowed then Some((before.value.0 + 1, before.value.1))
      else before
  }

  lemma {:induction false} BucketIsWindow(ops: seq<Op>, key: string, now: int)
    requires Chronological(ops, now)
    ensures BucketOf(ops, key) == match Window(ops, key)
                                  case None => None
                                  case Some((taken, end)) => Some(Bucket(taken, end))
  {
    if ops != [] {
      var n := |ops| - 1;
      var op := ops[n];
      BucketIsWindow(ops[..n], key, if op.Call? then op.now else now);
      if op.Call? && op.key == key {
        AnswerIsPerKey(ops[..n], op);
      }
    }
  }

  /** Without a running window a call opens one and is allowed, whatever its limit. In a running one it is
      allowed exactly while fewer calls than its limit were; `remaining` counts what is left, and
      only a denial asks for a wait, of at least a second. */
  lemma AnswerFromHistory(ops: seq<Op>, op: Op)
    requires op.Call? && Chronological(ops, op.now)
    ensures var window, answer := Window(ops, op.key), Answer(ops, op);
            if window.None? || window.value.1 <= op.now
            then answer == Result(true, op.limit - 1, op.now + op.windowSec * 1000, 0)
            else
              && (answer.allowed <==> window.value.0 < op.limit)
              && answer.resetAt == window.value.1
              && (answer.allowed ==> answer.remaining == op.limit - window.value.0 - 1 && answer.retryAfter == 0)
              && (!answer.allowed ==> answer.remaining == 0 && answer.retryAfter >= 1)
  {
    AnswerIsPerKey(ops, op);
    BucketIsWindow(ops, op.key, op.now);
  }

  // ---------------------------------------------------------------- counting

  /** All calls of the key use this limit and window, and the key is not reset in between. */
  ghost predicate Uniform(ops: seq<Op>, key: string, limit: int, windowSec: int) {
    forall i :: 0 <= i < |ops| && ops[i].key == key ==>
      ops[i].Call? && ops[i].limit == limit && ops[i].windowSec == windowSec
  }

  /** How many calls of the key were allowed at times in the half-open interval [from, to). */
  ghost function Allowed(ops: seq<Op>, key: string, from: int, to: int): nat {
    if ops == [] then 0
    else
      var n := |ops| - 1;
      var op := ops[n];
      Allowed(ops[..n], key, from, to)
      + if op.Call? && op.key == key && from <= op.now < to && Answer(ops[..n], op).allowed then 1 else 0
  }

  ghost predicate CountInv(ops: seq<Op>, key: string, limit: int, windowSec: int, from: int, now: int) {
    var n, to := Allowed(ops, key, from, from + windowSec * 1000), from + windowSec * 1000;
    && n <= 2 * limit - 1
    && (now < from ==> n == 0)
    && match BucketOf(ops, key)
       case None => n == 0
       case Some(b) =>
         var start := b.resetAt - windowSec * 1000;
         && 1 <= b.count <= limit
         && start <= now
         && (start < from ==> n <= b.count - 1)
         && (from <= start < to ==> n <= limit - 1 + b.count)
  }

  lemma {:induction false} CountHolds(ops: seq<Op>, key: string, limit: int, windowSec: int, from: int, now: int)
    requires 1 <= limit && Chronological(ops, now) && Uniform(ops, key, limit, windowSec)
    ensures CountInv(ops, key, limit, windowSec, from, now)
  {
    if ops != [] {
      var n := |ops| - 1;
      var op := ops[n];
      assert forall i :: 0 <= i < n ==> ops[..n][i] == ops[i];
      CountHolds(ops[..n], key, limit, windowSec, from, if op.Call? then op.now else now);
      if op.key == key {
        AnswerIsPerKey(ops[..n], op);
      }
    }
  }

  /** Sliding windows: no half-open interval as long as the window sees more than 2 * limit - 1
      allowed calls of a key, and no bucket ever counts beyond the limit. */
  lemma AtMostTwiceTheLimit(ops: seq<Op>, key: string, limit: int, windowSec: int, from: int, now: int)
    requires 1 <= limit && Chronological(ops, now) && Uniform(ops, key, limit, windowSec)
    ensures Allowed(ops, key, from, from + windowSec * 1000) <= 2 * limit - 1
    ensures BucketOf(ops, key).Some? ==> BucketOf(ops, key).value.count <= limit
  {
    CountHolds(ops, key, limit, windowSec, from, now);
  }

  // ---------------------------------------------------------------- the bound is reached

  /** One more call at the end of a history, in terms of the per-key bucket. */
  lemma OneMoreCall(ops: seq<Op>, c: Op, from: int, to: int)
    requires c.Call? && Chronological(ops, c.now)
    ensures Chronological(ops + [c], c.now)
    ensures BucketOf(ops + [c], c.key) == Some(Take(BucketOf(ops, c.key), c.now, c.limit, c.windowSec).0)
    ensures Allowed(ops + [c], c.key, from, to) == Allowed(ops, c.key, from, to)
      + if from <= c.now < to && Take(BucketOf(ops, c.key), c.now, c.limit, c.windowSec).1.allowed then 1 else 0
    ensures Uniform(ops, c.key, c.limit, c.windowSec) ==> Uniform(ops + [c], c.key, c.limit, c.windowSec)
  {
    assert (ops + [c])[..|ops|] == ops;
    AnswerIsPerKey(ops, c);
  }

  /** Calls into a live bucket with room are all allowed and counted. */
  lemma {:induction false} Burst(ops: seq<Op>, c: Op, n: nat, from: int, to: int) returns (all: seq<Op>)
    requires c.Call? && Chronological(ops, c.now) && from <= c.now < to && Uniform(ops, c.key, c.limit, c.windowSec)
    requires BucketOf(ops, c.key).Some?
    requires BucketOf(ops, c.key).value.resetAt > c.now && BucketOf(ops, c.key).value.count + n <= c.limit
    ensures Chronological(all, c.now) && Uniform(all, c.key, c.limit, c.windowSec)
    ensures BucketOf(all, c.key)
         == Some(Bucket(BucketOf(ops, c.key).value.count + n, BucketOf(ops, c.key).value.resetAt))
    ensures Allowed(all, c.key, from, to) == Allowed(ops, c.key, from, to) + n
  {
    if n == 0 {
      all := ops;
    } else {
      all := Burst(ops, c, n - 1, from, to);
      OneMoreCall(all, c, from, to);
      all := all + [c];
    }
  }

  /** For every limit and window, one early call, `limit - 1` calls just before the reset and
      `limit` calls at the reset put 2 * limit - 1 allowed calls into one window length. */
  lemma BoundIsReached(key: string, limit: int, windowSec: int) returns (ops: seq<Op>)
    requires 1 <= limit && 1 <= windowSec
    ensures var w := windowSec * 1000;
            && Uniform(ops, key, limit, windowSec)
            && Chronological(ops, w)
            && Allowed(ops, key, w - 1, w - 1 + w) == 2 * limit - 1
  {
    var w := windowSec * 1000;
    var from, to := w - 1, w - 1 + w;
    var next := Call(w, key, limit, windowSec);
    OneMoreCall([], Call(0, key, limit, windowSec), from, to);
    ops := [] + [Call(0, key, limit, windowSec)];
    ops := Burst(ops, Call(w - 1, key, limit, windowSec), limit - 1, from, to);
    OneMoreCall(ops, next, from, to);
    ops := Burst(ops + [next], next, limit - 1, from, to);
  }

  // ---------------------------------------------------------------- retryAfter

  predicate IsLive(entry: Option<Bucket>, now: int) {
    entry.Some? && entry.value.resetAt > now
  }

  /** When a denied caller that waits `retryAfter` seconds comes back. */
  function ComesBackAt(ops: seq<Op>, op: Op): int
    requires op.Call?
  {
    op.now + Answer(ops, op).retryAfter * 1000
  }

  /** The denial in terms of the key's bucket: the wait ends less than a second after its reset. */
  lemma DenialMeaning(ops: seq<Op>, op: Op)
    requires op.Call? && Chronological(ops, op.now) && !Answer(ops, op).allowed
    ensures BucketOf(ops, op.key).Some? && Answer(ops, op).retryAfter >= 1
    ensures var (b, back) := (BucketOf(ops, op.key).value, ComesBackAt(ops, op));
            b.resetAt == Answer(ops, op).resetAt && back - 1000 < b.resetAt <= back
    ensures BucketOf(ops + [op], op.key) == BucketOf(ops, op.key)
  {
    AnswerIsPerKey(ops, op);
    assert (ops + [op])[..|ops|] == ops;
    var ms := BucketOf(ops, op.key).value.resetAt - op.now;
    assert CeilSeconds(ms) * 1000 >= ms > (CeilSeconds(ms) - 1) * 1000;
  }

  /** Some later call of the key came when the bucket had expired. */
  ghost predicate HasLateCall(more: seq<Op>, key: string, resetAt: int) {
    exists k :: 0 <= k < |more| && more[k].key == key && more[k].Call? && more[k].now >= resetAt
  }

  /** What may follow: calls of the key with a window of a second at least, and anything of others. */
  ghost predicate OnlyCalls(more: seq<Op>, key: string) {
    forall k :: 0 <= k < |more| && more[k].key == key ==> more[k].Call? && more[k].windowSec >= 1
  }

  lemma {:induction false} BucketAfterDenial(ops: seq<Op>, more: seq<Op>, key: string, resetAt: int, back: int)
    requires BucketOf(ops, key).Some? && BucketOf(ops, key).value.resetAt == resetAt && back < resetAt + 1000
    requires OnlyCalls(more, key) && Chronological(more, back)
    ensures BucketOf(ops + more, key).Some?
    ensures var b := BucketOf(ops + more, key).value;
            if HasLateCall(more, key, resetAt) then b.resetAt > back else b.resetAt == resetAt
  {
    if more == [] {
      assert ops + more == ops;
    } else {
      var before, last := more[..|more| - 1], more[|more| - 1];
      assert forall k :: 0 <= k < |before| ==> before[k] == more[k];
      assert (ops + more)[..|ops + more| - 1] == ops + before;
      BucketAfterDenial(ops, before, key, resetAt, back);
      assert HasLateCall(more, key, resetAt) <==>
             HasLateCall(before, key, resetAt) || (last.key == key && last.now >= resetAt) by {
        if HasLateCall(before, key, resetAt) {
          var k :| 0 <= k < |before| && before[k].key == key && before[k].Call? && before[k].now >= resetAt;
          assert more[k] == before[k];
        }
      }
    }
  }

  lemma ChronologicalParts(ops: seq<Op>, op: Op, more: seq<Op>, now: int)
    requires op.Call? && Chronological(ops + [op] + more, now)
    ensures Chronological(ops, op.now) && Chronological(more, now)
  {
    var all, n := ops + [op] + more, |ops|;
    assert forall k :: 0 <= k < n ==> all[k] == ops[k];
    assert all[n] == op;
    assert forall k :: 0 <= k < |more| ==> all[n + 1 + k] == more[k];
  }

  /** `retryAfter` is exact in every run. When a denied caller comes back, the key has a live bucket
      if and only if another call of the key came in after the old bucket's reset; otherwise the
      caller is let in. A second earlier the old bucket was still live. */
  lemma RetryAfterIsExact(ops: seq<Op>, op: Op, more: seq<Op>, limit: int, windowSec: int)
    requires op.Call? && !Answer(ops, op).allowed
    requires OnlyCalls(more, op.key) && Chronological(ops + [op] + more, ComesBackAt(ops, op))
    ensures var (all, back) := (ops + [op] + more, ComesBackAt(ops, op));
            && (IsLive(BucketOf(all, op.key), back) <==> HasLateCall(more, op.key, Answer(ops, op).resetAt))
            && (IsLive(BucketOf(all, op.key), back) || Answer(all, Call(back, op.key, limit, windowSec)).allowed)
            && back - 1000 < Answer(ops, op).resetAt
  {
    var all, back := ops + [op] + more, ComesBackAt(ops, op);
    ChronologicalParts(ops, op, more, back);
    DenialMeaning(ops, op);
    BucketAfterDenial(ops + [op], more, op.key, Answer(ops, op).resetAt, back);
    AnswerIsPerKey(all, Call(back, op.key, limit, windowSec));
  }

  // ---------------------------------------------------------------- the code

  class Limiter {
    var buckets: map<string, Bucket>
    var lastGc: int

    ghost function Snapshot(): State
      reads this
    {
      State(buckets, lastGc)
    }

    constructor ()
      ensures Snapshot() == INIT
    {
      buckets, lastGc := map[], 0;
    }

    method Gc(now: int)
      modifies this
      ensures (buckets, lastGc) == MaybeSwept(old(buckets), Expiry(), old(lastGc), now)
    {
      if now - lastGc < SWEEP_INTERVAL_MS {
        return;
      }
      lastGc := now;
      buckets := DeleteExpired(buckets, Expiry(), now);
    }

    method RateLimitInMemory(key: string, limit: int, windowSec: int, now: int) returns (r: Result)
      modifies this
      ensures Snapshot() == Step(old(Snapshot()), Call(now, key, limit, windowSec))
      ensures var (m, _) := MaybeSwept(old(buckets), Expiry(), old(lastGc), now);
              r == Take(Get(m, key), now, limit, windowSec).1
    {
      Gc(now);
      if key !in buckets || buckets[key].resetAt <= now {
        var resetAt := now + windowSec * 1000;
        buckets := buckets[key := Bucket(1, resetAt)];
        return Result(true, limit - 1, resetAt, 0);
      }
      var existing := buckets[key];
      if existing.count >= limit {
        assert buckets[key := existing] == buckets;
        return Result(false, 0, existing.resetAt, Max(1, CeilSeconds(existing.resetAt - now)));
      }
      buckets := buckets[key := existing.(count := existing.count + 1)];
      return Result(true, limit - (existing.count + 1), existing.resetAt, 0);
    }

    method ResetRateLimit(key: string)
      modifies this
      ensures Snapshot() == Step(old(Snapshot()), Forget(key))
    {
      buckets := Drop(buckets, key);
    }
  }
}
