/**
The one Redis key a rate limit lives in: a counter with an optional expiry.
Times are milliseconds; Redis answers TTL in seconds, rounded to the nearest one.
 */
module RateLimitKey {
  import opened Options

  const SECOND := 1000

  datatype Key = Absent | Present(count: nat, expiry: Option<int>)

  // Redis drops a key once the clock is past its expiry, not when it reaches it.
  predicate Alive(key: Key, now: int) {
    key.Present? && key.expiry.Some? ==> now <= key.expiry.value
  }

  function Purge(key: Key, now: int): Key {
    if Alive(key, now) then key else Absent
  }

  function Stored(key: Key): nat {
    if key.Present? then key.count else 0
  }

  // SET key value EX seconds
  function SetEx(now: int, value: nat, seconds: nat): Key {
    Present(value, Some(now + seconds * SECOND))
  }

  // TTL key: -2 for a missing key, -1 for a key without expiry.
  function Ttl(key: Key, now: int): int {
    match key
    case Absent => -2
    case Present(_, None) => -1
    case Present(_, Some(expiry)) => (expiry - now + SECOND / 2) / SECOND
  }

  // INCR key keeps the expiry; a missing key is created at 1 and never expires.
  function Incr(key: Key): Key {
    match key
    case Absent => Present(1, None)
    case Present(count, expiry) => Present(count + 1, expiry)
  }

  // A live key answers a negative TTL exactly when it has no expiry, and at most 60 when its expiry is at most 60 seconds ahead.
  lemma TtlOfLiveKey(key: Key, now: int)
    requires Alive(key, now)
    ensures Ttl(key, now) < 0 <==> !(key.Present? && key.expiry.Some?)
    ensures key.Present? && key.expiry.Some? && key.expiry.value <= now + 60 * SECOND ==> Ttl(key, now) <= 60
  {
    if key.Present? && key.expiry.Some? {
      var left := key.expiry.value - now;
      assert left >= 0;
      assert (left + SECOND / 2) / SECOND >= 0;
    }
  }
}
