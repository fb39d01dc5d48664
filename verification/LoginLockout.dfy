/** The account lockout inside `authorize` of apps/web/auth.ts: `failedLoginCount` and
    `lockedUntil` on the user row. Times are epoch milliseconds. */
module LoginLockout {
  import opened Optional

  const LOCKOUT_THRESHOLD := 5
  const LOCKOUT_DURATION_MS := 30 * 60 * 1000

  datatype Outcome = Refused | WrongPassword | LockedNow | Success

  /** One password attempt: the lock is tested at `checkedAt`; after the slow hash comparison the
      row is written at `storedAt`. */
  datatype Attempt = Attempt(checkedAt: int, storedAt: int, valid: bool)

  datatype Row = Row(failedLoginCount: nat, lockedUntil: Option<int>)

  const FRESH := Row(0, None)

  predicate Locked(r: Row, now: int) {
    r.lockedUntil.Some? && r.lockedUntil.value > now
  }

  function Step(r: Row, a: Attempt): (Row, Outcome) {
    if Locked(r, a.checkedAt) then (r, Refused)
    else if a.valid then (FRESH, Success)
    else
      var nextCount := r.failedLoginCount + 1;
      if nextCount >= LOCKOUT_THRESHOLD
      then (Row(nextCount, Some(a.storedAt + LOCKOUT_DURATION_MS)), LockedNow)
      else (Row(nextCount, r.lockedUntil), WrongPassword)
  }

  function Run(attempts: seq<Attempt>): Row {
    if attempts == [] then FRESH else Step(Run(attempts[..|attempts| - 1]), attempts[|attempts| - 1]).0
  }

  function OutcomeOf(attempts: seq<Attempt>, i: nat): Outcome
    requires i < |attempts|
  {
    Step(Run(attempts[..i]), attempts[i]).1
  }

  /** The i-th attempt got as far as comparing the password, and the password was wrong. */
  predicate FailedCheck(attempts: seq<Attempt>, i: nat)
    requires i < |attempts|
  {
    OutcomeOf(attempts, i) in {WrongPassword, LockedNow}
  }

  // ---------------------------------------------------------------- every run, successes included

  /** How many checks failed since the last success, or since the start, and when the row was
      written for the latest of them. */
  ghost function FailedSinceSuccess(attempts: seq<Attempt>): (nat, int) {
    if attempts == [] then (0, 0)
    else
      var n := |attempts| - 1;
      var (failed, at) := FailedSinceSuccess(attempts[..n]);
      match OutcomeOf(attempts, n)
      case Refused => (failed, at)
      case Success => (0, 0)
      case _ => (failed + 1, attempts[n].storedAt)
  }

  lemma {:induction false} RowIsFailedSinceSuccess(attempts: seq<Attempt>)
    ensures var (failed, at) := FailedSinceSuccess(attempts);
            Run(attempts) ==
            Row(failed, if failed >= LOCKOUT_THRESHOLD then Some(at + LOCKOUT_DURATION_MS) else None)
  {
    if attempts != [] {
      RowIsFailedSinceSuccess(attempts[..|attempts| - 1]);
    }
  }

  /** Every answer, from the attempts before it: refused exactly while the last of at least five failed
      checks since the last success is less than thirty minutes old; otherwise the password decides,
      and a wrong one locks exactly when it is at least the fifth. */
  lemma AnswerIff(attempts: seq<Attempt>, i: nat)
    requires i < |attempts|
    ensures var (failed, at) := FailedSinceSuccess(attempts[..i]);
            var outcome := OutcomeOf(attempts, i);
            && (outcome.Refused? <==>
                  failed >= LOCKOUT_THRESHOLD && attempts[i].checkedAt < at + LOCKOUT_DURATION_MS)
            && (outcome.Success? <==> !outcome.Refused? && attempts[i].valid)
            && (outcome.LockedNow? <==> !outcome.Refused? && !attempts[i].valid && failed + 1 >= LOCKOUT_THRESHOLD)
  {
    RowIsFailedSinceSuccess(attempts[..i]);
  }

  // ---------------------------------------------------------------- guessing

  /** Attempts one after the other on one account, all with a wrong password. */
  ghost predicate GuessingRun(attempts: seq<Attempt>) {
    && (forall i :: 0 <= i < |attempts| ==> !attempts[i].valid && attempts[i].checkedAt <= attempts[i].storedAt)
    && (forall i, j :: 0 <= i < j < |attempts| ==> attempts[i].storedAt <= attempts[j].checkedAt)
  }

  /** The failed checks with a test time in [from, to). */
  ghost function Failures(attempts: seq<Attempt>, from: int, to: int): nat {
    if attempts == [] then 0
    else
      var n := |attempts| - 1;
      Failures(attempts[..n], from, to)
      + if FailedCheck(attempts, n) && from <= attempts[n].checkedAt < to then 1 else 0
  }

  /** When the latest failed check was made. */
  ghost function LastFailure(attempts: seq<Attempt>): Option<int> {
    if attempts == [] then None
    else
      var n := |attempts| - 1;
      if FailedCheck(attempts, n) then Some(attempts[n].checkedAt) else LastFailure(attempts[..n])
  }

  lemma {:induction false} GuessingInv(attempts: seq<Attempt>, from: int)
    requires GuessingRun(attempts)
    ensures var r, last := Run(attempts), LastFailure(attempts);
            var n := Failures(attempts, from, from + LOCKOUT_DURATION_MS);
            && n <= r.failedLoginCount && n <= LOCKOUT_THRESHOLD
            && (n > 0 ==> last.Some? && last.value >= from)
            && (last.Some? <==> r.failedLoginCount > 0)
            && (last.Some? ==> attempts != [] && last.value <= attempts[|attempts| - 1].checkedAt)
            && if r.failedLoginCount >= LOCKOUT_THRESHOLD
               then last.Some? && r.lockedUntil.Some? && r.lockedUntil.value >= last.value + LOCKOUT_DURATION_MS
               else r.lockedUntil.None?
  {
    if attempts != [] {
      var n := |attempts| - 1;
      GuessingInv(attempts[..n], from);
      assert n > 0 ==> attempts[..n][n - 1] == attempts[n - 1];
    }
  }

  /** No half-open span of thirty minutes holds more than five failed password checks. */
  lemma AtMostFiveFailures(attempts: seq<Attempt>, from: int)
    requires GuessingRun(attempts)
    ensures Failures(attempts, from, from + LOCKOUT_DURATION_MS) <= LOCKOUT_THRESHOLD
  {
    GuessingInv(attempts, from);
  }

  /** After the fifth failed check, each further one comes at least thirty minutes after the one
      before it; the account is never unlocked for a fresh series of five. */
  lemma LaterFailuresAreSpaced(attempts: seq<Attempt>, i: nat)
    requires i < |attempts| && GuessingRun(attempts) && FailedCheck(attempts, i)
    requires Run(attempts[..i]).failedLoginCount >= LOCKOUT_THRESHOLD
    ensures LastFailure(attempts[..i]).Some?
    ensures attempts[i].checkedAt >= LastFailure(attempts[..i]).value + LOCKOUT_DURATION_MS
  {
    assert GuessingRun(attempts[..i]);
    GuessingInv(attempts[..i], 0);
  }

  /** The user row as `authorize` updates it. */
  class Account {
    var failedLoginCount: nat
    var lockedUntil: Option<int>

    constructor ()
      ensures Row(failedLoginCount, lockedUntil) == FRESH
    {
      failedLoginCount, lockedUntil := 0, None;
    }

    method Authorize(a: Attempt) returns (outcome: Outcome)
      modifies this
      ensures (Row(failedLoginCount, lockedUntil), outcome) == Step(old(Row(failedLoginCount, lockedUntil)), a)
      // a success clears the row, a refusal leaves it, and a failure counts
      ensures outcome.Success? ==> a.valid && failedLoginCount == 0 && lockedUntil.None?
      ensures outcome.Refused? ==> failedLoginCount == old(failedLoginCount) && lockedUntil == old(lockedUntil)
      ensures outcome.WrongPassword? || outcome.LockedNow? ==>
                !a.valid && failedLoginCount == old(failedLoginCount) + 1
    {
      if lockedUntil.Some? && lockedUntil.value > a.checkedAt {
        return Refused;
      }
      if !a.valid {
        var nextCount := failedLoginCount + 1;
        var shouldLock := nextCount >= LOCKOUT_THRESHOLD;
        failedLoginCount := nextCount;
        lockedUntil := if shouldLock then Some(a.storedAt + LOCKOUT_DURATION_MS) else lockedUntil;
        return if shouldLock then LockedNow else WrongPassword;
      }
      failedLoginCount, lockedUntil := 0, None;
      return Success;
    }
  }
}
