/** Maps whose entries expire, and the lazy sweep that the rate limiter and the bridge-token store
    both run at most once a minute. */
module ExpiringMap {
  import opened Optional

  const SWEEP_INTERVAL_MS := 60_000

  function Get<V>(m: map<string, V>, key: string): Option<V> {
    if key in m then Some(m[key]) else None
  }

  function Drop<V>(m: map<string, V>, key: string): map<string, V> {
    map k | k in m && k != key :: m[k]
  }

  /** What a sweep leaves. */
  function Swept<V>(m: map<string, V>, expiry: V -> int, now: int): map<string, V> {
    map k | k in m && expiry(m[k]) > now :: m[k]
  }

  /** The sweep with its interval guard. */
  function MaybeSwept<V>(m: map<string, V>, expiry: V -> int, lastSweep: int, now: int): (map<string, V>, int) {
    if now - lastSweep < SWEEP_INTERVAL_MS then (m, lastSweep) else (Swept(m, expiry, now), now)
  }

  /** No entry expired before the last sweep. */
  ghost predicate NoneOverdue<V>(m: map<string, V>, expiry: V -> int, lastSweep: int) {
    forall k :: k in m ==> expiry(m[k]) >= lastSweep
  }

  /** Once a minute has passed the sweep removes every expired entry, and only those; before, it does
      nothing. */
  lemma MaybeSweptMeaning<V>(m: map<string, V>, expiry: V -> int, lastSweep: int, now: int)
    ensures var (m', lastSweep') := MaybeSwept(m, expiry, lastSweep, now);
            && (forall k :: k in m' ==> k in m && m'[k] == m[k])
            && (forall k :: k in m && expiry(m[k]) > now ==> k in m')
            && (if now - lastSweep >= 60_000
                then lastSweep' == now && forall k :: k in m' ==> expiry(m'[k]) > now
                else (m', lastSweep') == (m, lastSweep))
            && now - lastSweep' < 60_000
            && (NoneOverdue(m, expiry, lastSweep) ==> NoneOverdue(m', expiry, lastSweep'))
  {
  }

  /** Two lookups that nobody can tell apart at time `now` or later: equal, or both without a live
      entry. */
  ghost predicate SameWhenLive<V>(a: Option<V>, b: Option<V>, expiry: V -> int, now: int) {
    || a == b
    || ((a.Some? ==> expiry(a.value) <= now) && (b.Some? ==> expiry(b.value) <= now))
  }

  /** The deletion loop over the entries of the map. */
  method DeleteExpired<V>(m: map<string, V>, expiry: V -> int, now: int) returns (r: map<string, V>)
    ensures r == Swept(m, expiry, now)
    ensures forall k :: k in r <==> k in m && expiry(m[k]) > now
    ensures forall k :: k in r ==> r[k] == m[k]
  {
    r := m;
    var todo := m.Keys;
    while todo != {}
      invariant todo <= m.Keys
      invariant r == map k | k in m && (k in todo || expiry(m[k]) > now) :: m[k]
      decreases |todo|
    {
      var k :| k in todo;
      if expiry(m[k]) <= now {
        r := Drop(r, k);
      }
      todo := todo - {k};
    }
  }
}
