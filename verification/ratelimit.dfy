/**
  Admission control. The fixed-window limiter counts each user's requests in
  the key "rate_limit:<user>", starts a window of `window` when the count
  becomes 1, and admits a request while the count is at most `limit`. The
  no-op limiter admits everything and touches nothing.
 */
module RateLimit {
  import opened Errors
  import opened GoTime
  import opened Redis

  datatype Limiter = FixedWindow(limit: int, window: Duration) | NoOp

  /** The limiter the API installs: five requests per user per minute. */
  const ApiLimiter := FixedWindow(5, 60 * Second)

  const KeyPrefix := "rate_limit:"

  function Key(userId: string): string {
    KeyPrefix + userId
  }

  /** Different users never share a counter. */
  lemma KeyInjective(a: string, b: string)
    requires Key(a) == Key(b)
    ensures a == b
  {
    assert a == Key(a)[|KeyPrefix|..];
    assert b == Key(b)[|KeyPrefix|..];
  }

  /** Allow's (bool, error) pair. */
  datatype Verdict = Verdict(allowed: bool, err: Option<Error>)

  /**
    Limiter.Allow. `incrFails` stands for a store that cannot be reached for
    INCR, `expireFails` for one that cannot be reached for EXPIRE, whose error
    the limiter ignores.
   */
  function Allow(l: Limiter, s: Store, userId: string, now: Time, incrFails: bool, expireFails: bool): (r: Reply<Verdict>)
    ensures l.NoOp? ==> r == Reply(Verdict(true, None), s)
    ensures l.FixedWindow? ==> (r.value.err.Some? <==> incrFails || Count(s, Key(userId), now) >= MaxInt64)
    ensures r.value.err.Some? ==> !r.value.allowed && r.store == s
    ensures l.FixedWindow? && r.value.err.None? ==>
              (r.value.allowed <==> Count(s, Key(userId), now) + 1 <= l.limit)
    // every admitted or denied call adds exactly one to the live count (unless EXPIRE deletes the new key)
    ensures l.FixedWindow? && r.value.err.None? && (Count(s, Key(userId), now) != 0 || ExpireSeconds(l.window) > 0 || expireFails) ==>
              Count(r.store, Key(userId), now) == Count(s, Key(userId), now) + 1
    // a call inside a running window leaves its expiry alone
    ensures l.FixedWindow? && r.value.err.None? && Count(s, Key(userId), now) != 0 && Key(userId) in s.counters ==>
              Key(userId) in r.store.counters &&
              r.store.counters[Key(userId)] == Counter(Count(s, Key(userId), now) + 1, s.counters[Key(userId)].deadline)
    // the call that brings the count to 1 opens a new window
    ensures l.FixedWindow? && r.value.err.None? && Count(s, Key(userId), now) == 0 && !expireFails && ExpireSeconds(l.window) > 0 ==>
              Key(userId) in r.store.counters &&
              r.store.counters[Key(userId)] == Counter(1, Some(now + ExpireSeconds(l.window) * Second))
    ensures l.FixedWindow? && r.value.err.None? && Count(s, Key(userId), now) == 0 && !expireFails && ExpireSeconds(l.window) <= 0 ==>
              Key(userId) !in r.store.counters
    // a lost EXPIRE leaves a new counter that never expires
    ensures l.FixedWindow? && r.value.err.None? && expireFails &&
            (Key(userId) !in s.counters || !Alive(s.counters[Key(userId)], now)) ==>
              Key(userId) in r.store.counters && r.store.counters[Key(userId)] == Counter(1, None)
    ensures r.store.queue == s.queue && r.store.retry == s.retry
    ensures forall k :: k != Key(userId) ==> (k in r.store.counters <==> k in s.counters)
    ensures forall k :: k != Key(userId) && k in s.counters ==> r.store.counters[k] == s.counters[k]
  {
    match l
    case NoOp => Reply(Verdict(true, None), s)
    case FixedWindow(limit, window) =>
      var key := Key(userId);
      var inc := if incrFails then Reply(Err(StoreError), s) else Incr(s, key, now);
      match inc.value
      case Err(e) => Reply(Verdict(false, Some(e)), s)
      case Ok(count) =>
        var s1 := if count == 1 && !expireFails then Expire(inc.store, key, window, now) else inc.store;
        if count > limit then Reply(Verdict(false, None), s1) else Reply(Verdict(true, None), s1)
  }

  /** Whether EXPIRE succeeded never changes the answer. */
  lemma ExpireErrorIgnored(l: Limiter, s: Store, userId: string, now: Time, incrFails: bool)
    ensures Allow(l, s, userId, now, incrFails, true).value == Allow(l, s, userId, now, incrFails, false).value
  {
  }

  /** A call for one user leaves every other user's count as it was. */
  lemma UsersIndependent(l: Limiter, s: Store, a: string, b: string, now: Time, later: Time, incrFails: bool, expireFails: bool)
    requires a != b
    ensures Count(Allow(l, s, a, now, incrFails, expireFails).store, Key(b), later) == Count(s, Key(b), later)
  {
    if Key(a) == Key(b) {
      KeyInjective(a, b);
    }
  }

  /** The answers to successive calls from one user, with the store reachable throughout. */
  function AllowAll(l: Limiter, s: Store, userId: string, times: seq<Time>): (answers: seq<bool>)
    ensures |answers| == |times|
    decreases |times|
  {
    if times == [] then []
    else
      var r := Allow(l, s, userId, times[0], false, false);
      [r.value.allowed] + AllowAll(l, r.store, userId, times[1..])
  }

  /** Inside a running window whose count is c, the i-th further call is admitted iff c + i + 1 <= limit. */
  lemma {:induction false} InsideWindow(limit: int, window: Duration, s: Store, userId: string, times: seq<Time>, c: int, d: Time)
    requires Key(userId) in s.counters && s.counters[Key(userId)] == Counter(c, Some(d))
    requires c >= 1
    requires forall i :: 0 <= i < |times| ==> times[i] <= d
    requires c + |times| < MaxInt64
    ensures forall i :: 0 <= i < |times| ==> AllowAll(FixedWindow(limit, window), s, userId, times)[i] == (c + i + 1 <= limit)
    decreases |times|
  {
    if times != [] {
      var l := FixedWindow(limit, window);
      var r := Allow(l, s, userId, times[0], false, false);
      assert Count(s, Key(userId), times[0]) == c;
      InsideWindow(limit, window, r.store, userId, times[1..], c + 1, d);
      var rest := AllowAll(l, r.store, userId, times[1..]);
      assert AllowAll(l, s, userId, times) == [r.value.allowed] + rest;
      forall i | 0 < i < |times|
        ensures AllowAll(l, s, userId, times)[i] == (c + i + 1 <= limit)
      {
        assert AllowAll(l, s, userId, times)[i] == rest[i - 1];
        assert times[1..][i - 1] == times[i];
      }
    }
  }

  /**
    The fixed window: starting from an absent or expired counter, the calls
    made before the window closes are admitted exactly while their number is
    at most `limit`.
   */
  lemma FixedWindowAdmitsLimit(limit: int, window: Duration, s: Store, userId: string, times: seq<Time>)
    requires |times| >= 1
    requires Count(s, Key(userId), times[0]) == 0
    requires ExpireSeconds(window) > 0
    requires forall i :: 0 <= i < |times| ==> times[i] <= times[0] + ExpireSeconds(window) * Second
    requires |times| < MaxInt64
    ensures forall i :: 0 <= i < |times| ==> AllowAll(FixedWindow(limit, window), s, userId, times)[i] == (i + 1 <= limit)
  {
    var l := FixedWindow(limit, window);
    var r := Allow(l, s, userId, times[0], false, false);
    var d := times[0] + ExpireSeconds(window) * Second;
    InsideWindow(limit, window, r.store, userId, times[1..], 1, d);
    var rest := AllowAll(l, r.store, userId, times[1..]);
    assert AllowAll(l, s, userId, times) == [r.value.allowed] + rest;
    forall i | 0 < i < |times|
      ensures AllowAll(l, s, userId, times)[i] == (i + 1 <= limit)
    {
      assert AllowAll(l, s, userId, times)[i] == rest[i - 1];
      assert times[1..][i - 1] == times[i];
    }
  }

  /** The API's limiter: six requests in the same second, the first five admitted, the sixth refused. */
  lemma SixthRequestDenied(s: Store, userId: string, now: Time)
    requires Count(s, Key(userId), now) == 0
    ensures AllowAll(ApiLimiter, s, userId, [now, now, now, now, now, now]) == [true, true, true, true, true, false]
  {
    var times := [now, now, now, now, now, now];
    FixedWindowAdmitsLimit(5, 60 * Second, s, userId, times);
    var answers := AllowAll(ApiLimiter, s, userId, times);
    assert answers[0] && answers[1] && answers[2] && answers[3] && answers[4] && !answers[5];
  }
}
