/**
  The per-task state machine: a delivered task is finished; a failed task is
  dropped once its retry count reaches 5, and otherwise goes into the sorted
  set "retry_schedule" with its count raised by one, scored with the Unix
  second at which it may run again.
 */
module Processor {
  import opened Errors
  import opened GoTime
  import opened Tasks
  import opened Redis
  import opened Backoff

  /** A failure at this retry count or above drops the task. */
  const MaxRetries := 5

  /** What happened to a processed task. */
  datatype Verdict =
    | Delivered
    | Dropped
    | Scheduled(member: Blob, score: int)
    | NotScheduled(error: Error)   // marshal or ZADD failure, only logged

  /** scheduleRetry: `zaddFails` stands for a ZADD the store rejects. */
  function ScheduleRetry(s: Store, t: Task, delay: Duration, now: Time, zaddFails: bool): (r: Reply<Verdict>)
    ensures r.value.Scheduled? <==> JsonTime(t.createdAt) && !zaddFails
    ensures !r.value.Scheduled? ==> r.value.NotScheduled? && r.store == s
    ensures r.value.Scheduled? ==>
              Unmarshal(r.value.member) == Ok(t) &&
              r.value.score == Unix(now + delay) &&
              r.store.retry == s.retry[r.value.member := r.value.score]
    ensures r.store.queue == s.queue && r.store.counters == s.counters
  {
    match Marshal(t)
    case Err(e) => Reply(NotScheduled(e), s)
    case Ok(data) =>
      var executeAt := Unix(now + delay);
      if zaddFails then Reply(NotScheduled(StoreError), s)
      else Reply(Scheduled(data, executeAt), ZAdd(s, data, executeAt))
  }

  /** handleFailure. */
  function HandleFailure(s: Store, t: Task, now: Time, policy: Exponential, zaddFails: bool): (r: Reply<Verdict>)
    ensures t.retryCount >= MaxRetries ==> r == Reply(Dropped, s)
    ensures t.retryCount < MaxRetries ==> (r.value.Scheduled? <==> JsonTime(t.createdAt) && !zaddFails)
    ensures !r.value.Scheduled? ==> r.store == s
    // the wait comes from the count before the failure; the stored task differs only in its count, one higher
    ensures r.value.Scheduled? ==>
              t.retryCount < MaxRetries &&
              Unmarshal(r.value.member) == Ok(Task(t.payload, t.retryCount + 1, t.createdAt)) &&
              r.value.score == Unix(now + NextInterval(policy, t.retryCount)) &&
              r.store.retry == s.retry[r.value.member := r.value.score]
    ensures r.store.queue == s.queue && r.store.counters == s.counters
  {
    if t.retryCount >= MaxRetries then Reply(Dropped, s)
    else
      var wait := NextInterval(policy, t.retryCount);
      ScheduleRetry(s, t.(retryCount := t.retryCount + 1), wait, now, zaddFails)
  }

  /** Process, with the outcome of the webhook call as `delivered`. */
  function Process(s: Store, t: Task, delivered: bool, now: Time, policy: Exponential, zaddFails: bool): (r: Reply<Verdict>)
    ensures delivered ==> r == Reply(Delivered, s)
    ensures r.value.Delivered? <==> delivered
    ensures !delivered ==> (r.value.Dropped? <==> t.retryCount >= MaxRetries)
    // a failed delivery below the cap is scheduled exactly when the task marshals and ZADD succeeds
    ensures !delivered && t.retryCount < MaxRetries ==> (r.value.Scheduled? <==> JsonTime(t.createdAt) && !zaddFails)
    ensures !r.value.Scheduled? ==> r.store == s
    ensures r.value.Scheduled? ==>
              !delivered && t.retryCount < MaxRetries &&
              Unmarshal(r.value.member) == Ok(Task(t.payload, t.retryCount + 1, t.createdAt)) &&
              r.value.score == Unix(now + NextInterval(policy, t.retryCount)) &&
              r.store.retry == s.retry[r.value.member := r.value.score]
    // retries go to the sorted set only, never straight back onto the queue
    ensures r.store.queue == s.queue && r.store.counters == s.counters
  {
    if delivered then Reply(Delivered, s)
    else HandleFailure(s, t, now, policy, zaddFails)
  }
}
