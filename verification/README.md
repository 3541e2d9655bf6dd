# Webhook delivery service: task lifecycle model

A Dafny model of the task lifecycle of a Redis/Valkey-backed webhook delivery
service written in Go. Requests come in through the API's `/send` handler,
pass a per-user fixed-window rate limiter, and are queued as `Task` records
on the list `webhook_queue`. Workers pop tasks, attempt delivery, and send
failed tasks into the sorted set `retry_schedule` with exponential backoff. A
poller moves due entries back onto the list. After the sixth failed attempt a
task is dropped.

The whole store is one immutable value (`Redis.Store`):
- the list, head first: LPUSH puts at index 0 and BRPOP takes the last element;
- the sorted set, as a map from member to score;
- the counter keys, each with a value and an optional expiry instant.

Every operation is a pure function from a store to a reply and a new store.
The clock, the outcome of the webhook call and every store failure are
parameters. The modules follow the source files:

| module | file |
|---|---|
| `GoTime` | Go's `time.Time`/`time.Duration` as integer nanoseconds (zero time = 0) |
| `Backoff` | `internal/backoff/strategy.go` |
| `Tasks` | `internal/queue/queue.go` (the `Task` record and its JSON form) |
| `Redis` | the store and the commands the service issues (INCR, EXPIRE, LPUSH, ZADD, ZREM) |
| `RateLimit` | `internal/ratelimit/limiter.go` |
| `Queue` | `internal/queue/queue.go` (`Enqueue`, `Dequeue`) |
| `Processor` | `internal/worker/processor.go` |
| `Worker` | `cmd/worker/main.go` (`startConsumer` iteration, `startRetryPoller` tick) |
| `Api` | `cmd/api/main.go` (the `/send` handler) |
| `Lifecycle` | the composed loop: process → retry set → poll → queue → process |

How JSON is modelled: a stored member is either `Json(t)`, the text
`json.Marshal` writes for task `t`, or `Garbage(text)`, text that does not
decode. Marshalling fails exactly when `CreatedAt` lies outside years
0–9999. That is the one case where Go's `time.Time.MarshalJSON` refuses, so
the marshal-error branches of `Enqueue` and `scheduleRetry` really exist in
the model. `Tasks.UnmarshalMarshal` and `Tasks.MarshalUnmarshal` prove that
the two directions undo each other.

Where the code and its own comments disagree, the model follows the code:
- `Dequeue` uses BRPOP with timeout 0 (`internal/queue/queue.go:64`), even
  though a comment at `cmd/worker/main.go:89` describes a one-second
  heartbeat. As a result, a pop never reports `redis.Nil`.
  `Worker.ConsumerStep` proves that the consumer's "continue without
  sleeping" branch never runs. A worker on an empty list stays blocked
  (`Waiting`) rather than re-checking for shutdown.
- The drop test is `RetryCount >= 5` and it runs after a failed attempt. A
  fresh task is therefore attempted six times, with counts 0 to 5
  (`Lifecycle.DroppedAfterSixFailures`).
- Enqueue pushes at the head and Dequeue pops from the tail. This is still
  FIFO (`Queue.Fifo`).
- Scores are whole Unix seconds (`internal/worker/processor.go:86`), so an
  entry can be promoted up to one second before now + delay
  (`Worker.DueWindow`). The promotion is not held back until the full delay
  has passed.
- If the EXPIRE that opens a window fails, the error is ignored and the
  counter never expires. `RateLimit.Allow` states this.

## Model

| member | source | states |
|---|---|---|
| `GoTime.Unix` | internal/worker/processor.go:86 | `t.Unix()` is the whole number of seconds since the Unix epoch, rounded down |
| `Backoff.NextInterval` | internal/backoff/strategy.go:29-37 | the interval never exceeds Max, equals Max once Base·Factor^n reaches it, and is otherwise Base·Factor^n (truncated toward zero for negative counts) |
| `Backoff.FirstRetry` | internal/backoff/strategy.go:31-37 | retry count 0 waits min(Base, Max) |
| `Backoff.Monotone` | internal/backoff/strategy.go:28-37 | with Base ≥ 0, a larger retry count never waits less |
| `Backoff.CapIsSticky` | internal/backoff/strategy.go:31-36 | once the uncapped interval exceeds Max, every larger count returns exactly Max |
| `Backoff.WorkerSchedule` | cmd/worker/main.go:35 | with 1s/2/1h, counts 0, 1, 2 and 11 wait 1s, 2s, 4s and 2048s, and every count from 12 on waits one hour |
| `Tasks.Marshal` | internal/queue/queue.go:48-51 | marshalling a task fails exactly when its CreatedAt year is outside 0..9999, with a marshal error |
| `Tasks.Unmarshal` | internal/queue/queue.go:69-74 | a decoded task always has a CreatedAt that can be written back; a failure is an unmarshal error |
| `Tasks.UnmarshalMarshal` | internal/queue/queue.go:48-74 | decoding the text written for a task gives the task back |
| `Tasks.MarshalUnmarshal` | internal/queue/queue.go:48-74 | encoding a decoded task gives back the same stored text |
| `Tasks.UnmarshalOrZero` | cmd/worker/main.go:141-143 | an undecodable member yields the zero Task; a decodable one yields its task |
| `Redis.Incr` | internal/ratelimit/limiter.go:44-47 | INCR returns the live count plus one, creates a missing or expired key without expiry, keeps a live key's expiry, fails without effect at the 64-bit maximum, touches no other key |
| `Redis.ExpireSeconds` | internal/ratelimit/limiter.go:51 | the seconds sent with EXPIRE are positive iff the window is, are exactly 1 for a positive window under one second, and are the window's whole seconds when it is at least one second |
| `Redis.Expire` | internal/ratelimit/limiter.go:49-52 | EXPIRE sets a live key to expire `secs` seconds from now, and deletes a live key when `secs` is not positive; a missing or expired key is left alone; other keys are untouched |
| `Redis.LPush` | internal/queue/queue.go:53-56 | LPUSH makes the element the new head and keeps the rest of the list behind it |
| `Redis.ZAdd` | internal/worker/processor.go:88-93 | ZADD gives the member the score, replacing any earlier score rather than adding a second entry |
| `Redis.ZRem` | cmd/worker/main.go:148-149 | ZREM removes exactly that member and leaves other scores unchanged |
| `RateLimit.KeyInjective` | internal/ratelimit/limiter.go:41 | distinct user ids get distinct `rate_limit:` keys |
| `RateLimit.Allow` | internal/ratelimit/limiter.go:40-72 | the no-op limiter allows with no error and no state change; the fixed window returns (false, err) with no change when INCR fails, otherwise allows iff the post-increment count is at most the limit, adds one to the count, opens a window only when the count becomes 1, keeps the expiry inside a window, and touches no other key |
| `RateLimit.ExpireErrorIgnored` | internal/ratelimit/limiter.go:49-52 | whether EXPIRE fails never changes Allow's answer |
| `RateLimit.UsersIndependent` | internal/ratelimit/limiter.go:40-44 | a call for one user leaves every other user's count unchanged |
| `RateLimit.InsideWindow` | internal/ratelimit/limiter.go:44-58 | inside a running window with count c, the i-th further call is allowed iff c + i + 1 ≤ limit |
| `RateLimit.FixedWindowAdmitsLimit` | internal/ratelimit/limiter.go:40-58 | from an absent or expired key, the calls made before the window closes are allowed exactly for calls 1..limit |
| `RateLimit.SixthRequestDenied` | cmd/api/main.go:37 | with limit 5 per 60s, six calls in a row are answered allow ×5, then deny |
| `Queue.Stamp` | internal/queue/queue.go:42-45 | Enqueue sets CreatedAt to now only when it is zero; payload and retry count are kept |
| `Queue.Enqueue` | internal/queue/queue.go:41-57 | succeeds iff the stamped task marshals and LPUSH succeeds; on success the list grows by exactly one element at the head, which decodes to the stamped task; on failure nothing changes |
| `Queue.Dequeue` | internal/queue/queue.go:60-77 | a canceled context or a store error leaves the list unchanged; otherwise the tail element is removed and decoded, and it is an error exactly when it does not decode, though it is still removed; only an empty list leaves the pop waiting; redis.Nil is never returned |
| `Queue.DrainAfterPush` | internal/queue/queue.go:56-64 | everything already on the list is popped before an element pushed now |
| `Queue.EnqueueIsFifo` | internal/queue/queue.go:41-64 | a task enqueued now is dequeued after everything already queued |
| `Queue.Fifo` | internal/queue/queue.go:41-77 | tasks enqueued one after another are dequeued in the order they were enqueued |
| `Queue.RoundTrip` | internal/queue/queue.go:41-77 | Enqueue and then Dequeue on an empty list returns the stamped task, with payload and retry count unchanged, and leaves the list empty |
| `Processor.ScheduleRetry` | internal/worker/processor.go:73-98 | the task is stored under score Unix(now + delay), replacing any earlier score; a marshal or ZADD failure leaves the set unchanged |
| `Processor.HandleFailure` | internal/worker/processor.go:53-71 | at count ≥ 5 the task is dropped with nothing changed; otherwise the wait is computed from the old count and the stored task has the same payload and CreatedAt and a count exactly one higher |
| `Processor.Process` | internal/worker/processor.go:32-45 | the verdict is Delivered exactly when the call succeeded, and then nothing changes; a failure drops the task exactly at count ≥ 5, and below that schedules it exactly when it marshals and ZADD succeeds, with count + 1 and score Unix(now + backoff); otherwise the set is unchanged; the list and counters are never touched |
| `Worker.ConsumerStep` | cmd/worker/main.go:73-113 | a done context exits without dequeuing; a canceled pop exits; a store error or undecodable element sleeps then continues, and the element is already gone; the no-wait continue never happens; a popped task is the oldest and goes through exactly one Process call |
| `Worker.RangeByScore` | cmd/worker/main.go:119-126 | the reply lists every member with score ≤ now exactly once, in ascending score order |
| `Worker.DueWindow` | cmd/worker/main.go:119-126 | an entry scored Unix(now + delay) is due for a tick at `later` iff its Unix second has come: always once later ≥ now + delay, never a full second before |
| `Worker.PromotedTask` | cmd/worker/main.go:141-146 | a decodable member re-enters the queue with its payload and retry count (unchanged when it has a CreatedAt, otherwise stamped now); an undecodable one becomes an empty task with count 0 stamped now |
| `Worker.PromoteOne` | cmd/worker/main.go:138-150 | one member is enqueued, then removed from the set unless its ZREM fails |
| `Worker.Promote` | cmd/worker/main.go:138-150 | nothing is added to the set and no score changes; members not in the reply stay; members in the reply are removed unless their ZREM fails, in which case they stay for a later tick |
| `Worker.PromoteOrder` | cmd/worker/main.go:138-146 | the promoted tasks join the list behind what is already there, in the order of the range reply |
| `Worker.PollTick` | cmd/worker/main.go:118-151 | a range error changes nothing; otherwise every due entry leaves the set unless its ZREM fails, entries not yet due are untouched, the range reply is the due set in ascending score order, and the store after the tick is `Promote` of that reply (whose queue order `Worker.PromoteOrder` states) |
| `Api.Submit` | cmd/api/main.go:44-103 | non-POST gives 405 and invalid JSON or an empty user_id gives 400, with no change and no limiter call; a limiter error gives 500 and a denial gives 429, and neither enqueues; an allowed request gives 202 iff its enqueue succeeds and 500 with the limiter's store otherwise; 202 holds iff exactly one task, with the request's data, count 0 and CreatedAt now, was put at the head |
| `Api.StatusesInsideWindow` | cmd/api/main.go:64-97 | inside a running window with count c, the i-th further request gets 202 iff c + i + 1 ≤ limit, and 429 otherwise |
| `Api.SixRapidRequests` | cmd/api/main.go:37 | six rapid requests from one user get 202 ×5, then 429 |
| `Lifecycle.CycleStep` | internal/worker/processor.go:38-70 | a delivered task, or one that fails at count ≥ 5, is never attempted again; any other failing task comes back through the set, the poller and the list with its count one higher and nothing else changed, and the one-member reply handed to the poller is exactly what ZRANGEBYSCORE answers at the promotion instant |
| `Lifecycle.BoundedAttempts` | internal/worker/processor.go:53-63 | starting from count c in 0..5, successive attempts see counts c, c+1, …, never more than 6 − c attempts; every attempt but the last failed; attempts stop early only on delivery or on a failure at count 5 |
| `Lifecycle.DeliveredAfterFailures` | internal/worker/processor.go:38-63 | a fresh task that fails k ≤ 5 times and then succeeds is attempted k + 1 times, with counts 0..k |
| `Lifecycle.DroppedAfterSixFailures` | internal/worker/processor.go:53-59 | a fresh task that keeps failing is attempted exactly six times, with counts 0..5, and is then dropped |

## Left out

- Goroutines, `sync.WaitGroup`, OS signal handling, the worker count and the ticker loop (`cmd/worker/main.go:41-69,117-118`) are left out. One consumer iteration and one poll tick are modelled, and each store command is assumed atomic. Duplicate promotion by concurrent pollers is therefore outside the model.
- `time.Sleep` and the real clock are left out. Time is a parameter: one reading per consumer iteration, per request, and per poll tick. In the source, each Enqueue inside a tick reads the clock again.
- The simulated webhook call (`internal/worker/processor.go:47-51`, random with a sleep) is replaced by the boolean `delivered`.
- Redis keeps expiry in milliseconds on its own clock. The model uses the caller's nanosecond clock, and a key expires once the clock is past its deadline.
- INCR on a key holding a non-integer value is not modelled, since only this limiter writes these keys.
- The JSON text itself is abstract: field order, whitespace, escaping and invalid UTF-8 replacement are not modelled. A member that is syntactically valid JSON but has a mistyped field would be partly decoded by Go; here it counts as `Garbage`, which decodes to the zero Task.
- Time zones are left out. The year bounds for JSON times are taken in UTC, while Go applies them in the time's own location.
- `Backoff.NextInterval`: the factor must be a positive whole number, and the arithmetic is exact integer arithmetic. Fractional or zero factors, float64 rounding in `math.Pow`, and the implementation-defined float-to-Duration conversion for huge counts are not modelled.
- `Backoff.WorkerSchedule`: "every count from 12 on waits one hour" holds under exact arithmetic. In Go, `float64(1s) * 2^n` exceeds the largest int64 from n = 34 on, and the conversion to Duration is then implementation-defined, so the source's result for such counts is not promised.
- `Backoff.Monotone`: holds under exact arithmetic. For counts whose uncapped float value exceeds the largest int64, Go's float-to-Duration conversion can break monotonicity, and that is not modelled.
- The 64-bit widths of `time.Duration`, `time.Time` and `int` are not modelled. The counter's 64-bit overflow is the one exception.
- Equal-score members come back from ZRANGEBYSCORE in byte order of their text. `Worker.RangeByScore` leaves that order open.
- `Worker.ConsumerStep` does not model how go-redis treats a context canceled during a blocking BRPOP. The possible answers are the parameter `PopEnv`.
- `Lifecycle`: the loop runs on a store that holds nothing else. With other tasks present, FIFO (`Queue.Fifo`, `Worker.PromoteOrder`) says the task waits its turn.
- `Lifecycle.BoundedAttempts`: every ZADD, LPUSH and ZREM in the loop succeeds. In the source a ZREM error is ignored (`cmd/worker/main.go:149`), and `Worker.Promote` shows that such a member stays in the set. The next tick enqueues the same task again, so one count can be attempted twice and "at most 6 − c attempts" holds only when the store does not fail. A failed ZADD ends the loop early, as `Processor.Process` states.
- HTTP server construction, timeouts, error texts and the JSON response body (`cmd/api/main.go:95-112`) are left out.
- `internal/platform/redis.go` (configuration loading, the singleton client, the connection ping) and `main.go` (a connectivity demo) are not part of this model.
- A dead-letter queue does not exist in the source, which only logs and drops the task.
