/** Single use of bridge tokens: the in-memory path of `consumeBridgeJti`
    (apps/web/lib/bridge-token-store.ts) and the expiry test of the two decoders
    (apps/web/lib/totp.ts, apps/web/lib/saml.ts). Signatures are taken as unforgeable. */
module BridgeTokens {
  import opened Optional
  import opened ExpiringMap

  /** One call of `consumeBridgeJti(jti, ttlSec)` at time `now`. */
  datatype Consume = Consume(now: int, jti: string, ttlSec: nat)

  /** `memStore` maps a jti to its `expiresAt`. */
  datatype State = State(mem: map<string, int>, lastSweep: int)

  const INIT := State(map[], 0)

  function Expiry(): int -> int {
    (expiresAt: int) => expiresAt
  }

  /** First use, or the earlier one has expired. */
  predicate Fresh(entry: Option<int>, c: Consume) {
    c.jti != "" && (entry.None? || entry.value <= c.now)
  }

  function Step(s: State, c: Consume): (State, bool) {
    if c.jti == "" then (s, false)
    else
      var (mem, lastSweep) := MaybeSwept(s.mem, Expiry(), s.lastSweep, c.now);
      if Fresh(Get(mem, c.jti), c) then (State(mem[c.jti := c.now + c.ttlSec * 1000], lastSweep), true)
      else (State(mem, lastSweep), false)
  }

  function Run(ops: seq<Consume>): State {
    if ops == [] then INIT else Step(Run(ops[..|ops| - 1]), ops[|ops| - 1]).0
  }

  /** Whether the i-th call of the history returns true. */
  predicate Accepted(ops: seq<Consume>, i: nat)
    requires i < |ops|
  {
    Step(Run(ops[..i]), ops[i]).1
  }

  // ---------------------------------------------------------------- refinement

  /** The simple form: the last recorded expiry of one jti, never swept. */
  function ExpiryOf(ops: seq<Consume>, jti: string): Option<int> {
    if ops == [] then None
    else
      var before, c := ExpiryOf(ops[..|ops| - 1], jti), ops[|ops| - 1];
      if c.jti == jti && Fresh(before, c) then Some(c.now + c.ttlSec * 1000) else before
  }

  ghost predicate Chronological(ops: seq<Consume>, now: int) {
    && (forall i :: 0 <= i < |ops| ==> ops[i].now <= now)
    && (forall i, j :: 0 <= i < j < |ops| ==> ops[i].now <= ops[j].now)
  }

  /** The map holds on to nothing: no entry expired before the last sweep, and the last sweep is less
      than a minute older than the last use. */
  lemma {:induction false} NothingIsKeptLong(ops: seq<Consume>, now: int)
    requires Chronological(ops, now) && forall i :: 0 <= i < |ops| ==> ops[i].now >= 0
    ensures NoneOverdue(Run(ops).mem, Expiry(), Run(ops).lastSweep)
    ensures Run(ops).lastSweep == 0 || Run(ops).lastSweep <= now
    ensures forall i :: 0 <= i < |ops| && ops[i].jti != "" ==> ops[i].now < Run(ops).lastSweep + SWEEP_INTERVAL_MS
  {
    if ops != [] {
      var n := |ops| - 1;
      var c, before := ops[n], Run(ops[..n]);
      NothingIsKeptLong(ops[..n], c.now);
      MaybeSweptMeaning(before.mem, Expiry(), before.lastSweep, c.now);
      assert forall i :: 0 <= i < n ==> ops[..n][i] == ops[i];
    }
  }

  lemma {:induction false} SweepIsInvisible(ops: seq<Consume>, now: int, jti: string)
    requires Chronological(ops, now)
    ensures SameWhenLive(Get(Run(ops).mem, jti), ExpiryOf(ops, jti), Expiry(), now)
  {
    if ops != [] {
      var n := |ops| - 1;
      var c := ops[n];
      assert forall i :: 0 <= i < n ==> ops[..n][i] == ops[i];
      SweepIsInvisible(ops[..n], c.now, jti);
    }
  }

  /** Sweeping and other tokens never change an answer. */
  lemma AcceptedIsPerJti(ops: seq<Consume>, i: nat)
    requires i < |ops| && Chronological(ops, ops[|ops| - 1].now)
    ensures Accepted(ops, i) <==> Fresh(ExpiryOf(ops[..i], ops[i].jti), ops[i])
  {
    assert forall k :: 0 <= k < i ==> ops[..i][k] == ops[k];
    SweepIsInvisible(ops[..i], ops[i].now, ops[i].jti);
  }

  /** From an accepted call on, the recorded expiry is at least its own. */
  lemma {:induction false} ExpiryOnlyGrows(ops: seq<Consume>, i: nat, n: nat)
    requires i < n <= |ops| && Chronological(ops, ops[|ops| - 1].now)
    requires Fresh(ExpiryOf(ops[..i], ops[i].jti), ops[i])
    ensures var e := ExpiryOf(ops[..n], ops[i].jti);
            e.Some? && e.value >= ops[i].now + ops[i].ttlSec * 1000
    decreases n
  {
    assert ops[..n][..n - 1] == ops[..n - 1];
    if i < n - 1 {
      ExpiryOnlyGrows(ops, i, n - 1);
    }
  }

  /** In every run, two accepted uses of one jti are at least the first one's ttl apart. */
  lemma AcceptedUsesAreSpaced(ops: seq<Consume>, i: nat, j: nat)
    requires i < j < |ops| && ops[i].jti == ops[j].jti && Chronological(ops, ops[|ops| - 1].now)
    requires Accepted(ops, i) && Accepted(ops, j)
    ensures ops[j].now >= ops[i].now + ops[i].ttlSec * 1000
  {
    AcceptedIsPerJti(ops, i);
    AcceptedIsPerJti(ops, j);
    ExpiryOnlyGrows(ops, i, j);
  }

  // ---------------------------------------------------------------- tokens

  /** A token as minted: `exp` is the minting time plus the time to live. */
  datatype Token = Token(jti: string, mintedAt: int, ttlSec: nat)

  /** The decoder's test is `exp < now`, so the last millisecond still passes. */
  predicate Decodes(t: Token, now: int) {
    !(t.mintedAt + t.ttlSec * 1000 < now)
  }

  /** The i-th call presents `t`: decoded at one time, and consumed no earlier, with the ttl that it
      was minted with. A route may do other work in between. */
  ghost predicate Presents(ops: seq<Consume>, i: nat, t: Token, decodedAt: int)
    requires i < |ops|
  {
    && ops[i].jti == t.jti && ops[i].ttlSec == t.ttlSec
    && t.mintedAt <= decodedAt <= ops[i].now && Decodes(t, decodedAt)
  }

  /** Exactly when a token gets through again: when the second use is consumed at least its time to
      live after the first. */
  lemma DoubleUseIff(ops: seq<Consume>, i: nat, j: nat, t: Token, decodedAt: int)
    requires i < j < |ops| && Chronological(ops, ops[|ops| - 1].now)
    requires ops[i].jti == t.jti && ops[i].ttlSec == t.ttlSec && Presents(ops, j, t, decodedAt) && Accepted(ops, i)
    requires forall k :: i < k < j && ops[k].jti == t.jti ==> !Accepted(ops, k)
    ensures Accepted(ops, j) <==> ops[j].now >= ops[i].now + t.ttlSec * 1000
  {
    AcceptedIsPerJti(ops, i);
    AcceptedIsPerJti(ops, j);
    forall k | i < k < j && ops[k].jti == t.jti
      ensures !Fresh(ExpiryOf(ops[..k], t.jti), ops[k])
    {
      AcceptedIsPerJti(ops, k);
    }
    ExpiryStays(ops, i, j);
  }

  /** A presentation handled, from decoding to consumption, faster than the first use came after the
      minting is never accepted once more, anywhere later in the run. */
  lemma SingleUse(ops: seq<Consume>, i: nat, j: nat, t: Token, decodedAt: int)
    requires i < j < |ops| && Chronological(ops, ops[|ops| - 1].now)
    requires ops[i].jti == t.jti && ops[i].ttlSec == t.ttlSec && Presents(ops, j, t, decodedAt) && Accepted(ops, i)
    requires ops[j].now - decodedAt < ops[i].now - t.mintedAt
    ensures !Accepted(ops, j)
  {
    AcceptedIsPerJti(ops, i);
    AcceptedIsPerJti(ops, j);
    ExpiryOnlyGrows(ops, i, j);
  }

  /** `c` is accepted as one more presentation of `t`, handled within `delay` milliseconds. */
  ghost predicate PassesAgain(ops: seq<Consume>, t: Token, delay: nat, c: Consume, decodedAt: int) {
    && Chronological(ops + [c], c.now)
    && Presents(ops + [c], |ops|, t, decodedAt)
    && c.now - decodedAt <= delay
    && Accepted(ops + [c], |ops|)
  }

  /** Right after an accepted use, a presentation handled within the delay can still get through if
      and only if the delay is at least the time from the minting to that use. */
  lemma SecondUsePossibleIff(ops: seq<Consume>, t: Token, delay: nat)
    requires ops != [] && Chronological(ops, ops[|ops| - 1].now) && Accepted(ops, |ops| - 1)
    requires ops[|ops| - 1].jti == t.jti && ops[|ops| - 1].ttlSec == t.ttlSec && t.mintedAt <= ops[|ops| - 1].now
    ensures (exists c, decodedAt :: PassesAgain(ops, t, delay, c, decodedAt))
            <==> delay >= ops[|ops| - 1].now - t.mintedAt
  {
    var i := |ops| - 1;
    var first := ops[i].now;
    if delay >= first - t.mintedAt {
      var exp := t.mintedAt + t.ttlSec * 1000;
      var c := Consume(first + t.ttlSec * 1000, t.jti, t.ttlSec);
      OneMore(ops, c);
      DoubleUseIff(ops + [c], i, |ops|, t, exp);
      assert PassesAgain(ops, t, delay, c, exp);
    } else {
      forall c, decodedAt
        ensures !PassesAgain(ops, t, delay, c, decodedAt)
      {
        if Chronological(ops + [c], c.now) && Presents(ops + [c], |ops|, t, decodedAt) && c.now - decodedAt <= delay {
          assert (ops + [c])[i] == ops[i];
          OneMore(ops, c);
          SingleUse(ops + [c], i, |ops|, t, decodedAt);
        }
      }
    }
  }

  lemma OneMore(ops: seq<Consume>, c: Consume)
    requires ops != [] && Chronological(ops, ops[|ops| - 1].now) && ops[|ops| - 1].now <= c.now
    ensures Chronological(ops + [c], c.now)
    ensures Accepted(ops + [c], |ops| - 1) <==> Accepted(ops, |ops| - 1)
  {
    assert (ops + [c])[..|ops| - 1] == ops[..|ops| - 1];
  }

  /** Where decoding and consuming take no time, a token passes twice only if first used in the very
      millisecond of its minting and again in the last one of its life. */
  lemma WithoutDelayDoubleUseIff(ops: seq<Consume>, i: nat, j: nat, t: Token)
    requires i < j < |ops| && Chronological(ops, ops[|ops| - 1].now)
    requires Presents(ops, i, t, ops[i].now) && Presents(ops, j, t, ops[j].now) && Accepted(ops, i)
    requires forall k :: i < k < j && ops[k].jti == t.jti ==> !Accepted(ops, k)
    ensures Accepted(ops, j) <==> ops[i].now == t.mintedAt && ops[j].now == t.mintedAt + t.ttlSec * 1000
  {
    DoubleUseIff(ops, i, j, t, ops[j].now);
  }

  /** Without another accepted use of the jti its record stays as it is. */
  lemma {:induction false} ExpiryStays(ops: seq<Consume>, i: nat, n: nat)
    requires i < n <= |ops| && Fresh(ExpiryOf(ops[..i], ops[i].jti), ops[i])
    requires forall k :: i < k < n && ops[k].jti == ops[i].jti ==> !Fresh(ExpiryOf(ops[..k], ops[i].jti), ops[k])
    ensures ExpiryOf(ops[..n], ops[i].jti) == Some(ops[i].now + ops[i].ttlSec * 1000)
    decreases n
  {
    assert ops[..n][..n - 1] == ops[..n - 1];
    if i < n - 1 {
      ExpiryStays(ops, i, n - 1);
    }
  }

  // ---------------------------------------------------------------- the code

  class Store {
    var mem: map<string, int>
    var lastSweep: int

    ghost function Snapshot(): State
      reads this
    {
      State(mem, lastSweep)
    }

    constructor ()
      ensures Snapshot() == INIT
    {
      mem, lastSweep := map[], 0;
    }

    method SweepMem(now: int)
      modifies this
      ensures (mem, lastSweep) == MaybeSwept(old(mem), Expiry(), old(lastSweep), now)
    {
      if now - lastSweep < SWEEP_INTERVAL_MS {
        return;
      }
      lastSweep := now;
      mem := DeleteExpired(mem, Expiry(), now);
    }

    method ConsumeBridgeJti(jti: string, ttlSec: nat, now: int) returns (accepted: bool)
      modifies this
      ensures (Snapshot(), accepted) == Step(old(Snapshot()), Consume(now, jti, ttlSec))
    {
      if jti == "" {
        return false;
      }
      SweepMem(now);
      if jti in mem && mem[jti] > now {
        return false;
      }
      mem := mem[jti := now + ttlSec * 1000];
      return true;
    }
  }
}
