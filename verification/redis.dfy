/**
  The part of the Redis/Valkey store the service uses, as one immutable value,
  and the commands it issues: INCR and EXPIRE on counters, LPUSH on the list
  "webhook_queue", ZADD and ZREM on the sorted set "retry_schedule".
  Each command is atomic; a command that fails changes nothing.
 */
module Redis {
  import opened Errors
  import opened GoTime
  import opened Tasks

  /** Redis integers are signed 64-bit; INCR past the largest one is an error. */
  const MaxInt64 := 0x7fff_ffff_ffff_ffff

  /** A counter key: its integer value and, when one is set, the instant it expires. */
  datatype Counter = Counter(value: int, deadline: Option<Time>)

  /**
    queue: the list "webhook_queue", head first (index 0 is where LPUSH puts an element);
    retry: the sorted set "retry_schedule", member to score;
    counters: the string keys holding integers.
   */
  datatype Store = Store(queue: seq<Blob>, retry: map<Blob, int>, counters: map<string, Counter>)

  /** What a command or a composite step returns, with the store after it. */
  datatype Reply<+T> = Reply(value: T, store: Store)

  /** A key with an expiry is gone once the clock is past it. */
  predicate Alive(c: Counter, now: Time) {
    c.deadline.None? || now <= c.deadline.value
  }

  /** GET as an integer: the value of a live key, 0 when the key is absent or expired. */
  function Count(s: Store, key: string, now: Time): int {
    if key in s.counters && Alive(s.counters[key], now) then s.counters[key].value else 0
  }

  /**
    INCR: adds one to the key's value and returns the new value. A missing or
    expired key starts from 0 and is created without an expiry; a live key keeps
    its expiry. Incrementing the largest 64-bit integer is an error.
   */
  function Incr(s: Store, key: string, now: Time): (r: Reply<Result<int>>)
    ensures r.value.Ok? <==> Count(s, key, now) < MaxInt64
    ensures r.value.Err? ==> r.store == s
    ensures r.value.Ok? ==> r.value.value == Count(s, key, now) + 1 == Count(r.store, key, now)
    ensures r.value.Ok? ==> key in r.store.counters
    ensures r.value.Ok? && (key !in s.counters || !Alive(s.counters[key], now)) ==>
              r.store.counters[key] == Counter(1, None)
    ensures r.value.Ok? && key in s.counters && Alive(s.counters[key], now) ==>
              r.store.counters[key].deadline == s.counters[key].deadline
    ensures r.store.queue == s.queue && r.store.retry == s.retry
    ensures forall k :: k != key ==> (k in r.store.counters <==> k in s.counters)
    ensures forall k :: k != key && k in s.counters ==> r.store.counters[k] == s.counters[k]
  {
    var n := Count(s, key, now);
    if n >= MaxInt64 then Reply(Err(StoreError), s)
    else
      var c := if key in s.counters && Alive(s.counters[key], now)
               then s.counters[key].(value := n + 1)
               else Counter(n + 1, None);
      Reply(Ok(n + 1), s.(counters := s.counters[key := c]))
  }

  /**
    The whole seconds go-redis sends with EXPIRE for a Duration: a positive
    duration under one second becomes 1, anything else is truncated.
   */
  function ExpireSeconds(d: Duration): (secs: int)
    ensures secs > 0 <==> d > 0
    ensures 0 < d < Second ==> secs == 1
    ensures d >= Second ==> secs * Second <= d < (secs + 1) * Second
  {
    if 0 < d < Second then 1 else Quo(d, Second)
  }

  /**
    EXPIRE key seconds. A missing or expired key is left alone; a timeout that
    is not positive deletes the key; otherwise the key expires `secs` seconds
    from now.
   */
  function Expire(s: Store, key: string, window: Duration, now: Time): (r: Store)
    ensures r.queue == s.queue && r.retry == s.retry
    ensures forall k :: k != key ==> (k in r.counters <==> k in s.counters)
    ensures forall k :: k != key && k in s.counters ==> r.counters[k] == s.counters[k]
    ensures key in s.counters && Alive(s.counters[key], now) && ExpireSeconds(window) > 0 ==>
              key in r.counters &&
              r.counters[key] == Counter(s.counters[key].value, Some(now + ExpireSeconds(window) * Second))
    ensures key in s.counters && Alive(s.counters[key], now) && ExpireSeconds(window) <= 0 ==> key !in r.counters
    ensures key !in s.counters || !Alive(s.counters[key], now) ==> r == s
  {
    var secs := ExpireSeconds(window);
    if key !in s.counters || !Alive(s.counters[key], now) then s
    else if secs <= 0 then s.(counters := s.counters - {key})
    else s.(counters := s.counters[key := s.counters[key].(deadline := Some(now + secs * Second))])
  }

  /** LPUSH: the element becomes the new head of the list. */
  function LPush(s: Store, b: Blob): (r: Store)
    ensures |r.queue| == |s.queue| + 1
    ensures r.queue[0] == b && r.queue[1..] == s.queue
    ensures r.retry == s.retry && r.counters == s.counters
  {
    s.(queue := [b] + s.queue)
  }

  /** ZADD: adds the member with the score, or replaces the score of a member already there. */
  function ZAdd(s: Store, member: Blob, score: int): (r: Store)
    ensures member in r.retry && r.retry[member] == score
    ensures r.retry.Keys == s.retry.Keys + {member}
    ensures forall m :: m in s.retry && m != member ==> r.retry[m] == s.retry[m]
    ensures r.queue == s.queue && r.counters == s.counters
  {
    s.(retry := s.retry[member := score])
  }

  /** ZREM: removes the member if present. */
  function ZRem(s: Store, member: Blob): (r: Store)
    ensures member !in r.retry
    ensures r.retry.Keys == s.retry.Keys - {member}
    ensures forall m :: m in r.retry ==> r.retry[m] == s.retry[m]
    ensures r.queue == s.queue && r.counters == s.counters
  {
    s.(retry := s.retry - {member})
  }
}
