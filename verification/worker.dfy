/**
  The worker process: one iteration of a consumer's loop, and one tick of the
  retry poller that moves due entries of "retry_schedule" back onto the queue.
 */
module Worker {
  import opened Errors
  import opened GoTime
  import opened Tasks
  import opened Redis
  import opened Backoff
  import opened Queue
  import opened Processor

  /** How one iteration of startConsumer ends. */
  datatype Action =
    | Exit                                        // return from the loop
    | Continue                                    // loop again at once
    | SleepThenContinue                           // log, sleep one second, loop again
    | Waiting                                     // BRPOP still blocked on an empty list
    | Processed(task: Task, verdict: Verdict)     // one task through Process, then loop again

  /** The consumer's reaction to an error from Dequeue. */
  function OnDequeueError(e: Error): Action {
    if e == Canceled then Exit
    else if e == NilReply then Continue
    else SleepThenContinue
  }

  /**
    One iteration of startConsumer: `ctxDone` is the context's state at the top
    of the loop, `env` how the store answers BRPOP, `delivered` the outcome of
    the webhook call if a task is processed.
   */
  function ConsumerStep(s: Store, ctxDone: bool, env: PopEnv, delivered: bool, now: Time,
                        policy: Exponential, zaddFails: bool): (r: Reply<Action>)
    // a done context is seen before any dequeue
    ensures ctxDone ==> r == Reply(Exit, s)
    ensures r.value.Exit? <==> ctxDone || env.ContextCanceled?
    ensures r.value.Exit? ==> r.store == s
    // Dequeue never reports redis.Nil, so the "no job yet" branch never runs
    ensures !r.value.Continue?
    ensures r.value.Waiting? <==> !ctxDone && env.Served? && s.queue == []
    ensures r.value.Waiting? ==> r.store == s
    ensures r.value.SleepThenContinue? <==>
              !ctxDone && (env.Unreachable? || (env.Served? && s.queue != [] && Unmarshal(s.queue[|s.queue| - 1]).Err?))
    // an undecodable element is lost: it has already been popped
    ensures r.value.SleepThenContinue? && env.Served? ==> r.store == s.(queue := s.queue[..|s.queue| - 1])
    ensures r.value.SleepThenContinue? && env.Unreachable? ==> r.store == s
    ensures r.value.Processed? <==>
              !ctxDone && env.Served? && s.queue != [] && Unmarshal(s.queue[|s.queue| - 1]).Ok?
    // the task processed is the oldest one queued, and exactly one Process call follows its pop
    ensures r.value.Processed? ==>
              Marshal(r.value.task) == Ok(s.queue[|s.queue| - 1]) &&
              Reply(r.value.verdict, r.store) ==
              Process(s.(queue := s.queue[..|s.queue| - 1]), r.value.task, delivered, now, policy, zaddFails)
    ensures r.store.counters == s.counters
  {
    if ctxDone then Reply(Exit, s)
    else
      var d := Dequeue(s, env);
      match d.value
      case Blocked => Reply(Waiting, d.store)
      case Failed(e) => Reply(OnDequeueError(e), d.store)
      case Got(t) =>
        var p := Process(d.store, t, delivered, now, policy, zaddFails);
        Reply(Processed(t, p.value), p.store)
  }

  /** The answer ZRANGEBYSCORE retry_schedule -inf maxScore must give: every due member once, by ascending score. */
  ghost predicate RangeReply(retry: map<Blob, int>, maxScore: int, due: seq<Blob>) {
    && (forall i :: 0 <= i < |due| ==> due[i] in retry && retry[due[i]] <= maxScore)
    && (forall m :: m in retry && retry[m] <= maxScore ==> m in due)
    && (forall i, j :: 0 <= i < j < |due| ==> due[i] != due[j])
    && (forall i, j :: 0 <= i < j < |due| ==> retry[due[i]] <= retry[due[j]])
  }

  lemma {:induction false} MinScoreExists(retry: map<Blob, int>, pending: set<Blob>)
    requires pending != {} && pending <= retry.Keys
    ensures exists m :: m in pending && forall x :: x in pending ==> retry[m] <= retry[x]
    decreases pending
  {
    var y :| y in pending;
    if pending == {y} {
      assert forall x :: x in pending ==> retry[y] <= retry[x];
    } else {
      var rest := pending - {y};
      MinScoreExists(retry, rest);
      var m :| m in rest && forall x :: x in rest ==> retry[m] <= retry[x];
      if retry[y] < retry[m] {
        assert forall x :: x in pending ==> retry[y] <= retry[x];
      } else {
        assert forall x :: x in pending ==> retry[m] <= retry[x];
      }
    }
  }

  /**
    ZRANGEBYSCORE retry_schedule -inf maxScore. Members with equal scores come
    back in an order this model leaves open (the store uses byte order).
   */
  method RangeByScore(retry: map<Blob, int>, maxScore: int) returns (due: seq<Blob>)
    ensures RangeReply(retry, maxScore, due)
  {
    var pending := set m | m in retry && retry[m] <= maxScore;
    due := [];
    while pending != {}
      invariant pending <= retry.Keys
      invariant forall m :: m in pending ==> retry[m] <= maxScore
      invariant forall i :: 0 <= i < |due| ==> due[i] in retry && retry[due[i]] <= maxScore && due[i] !in pending
      invariant forall m :: m in retry && retry[m] <= maxScore ==> m in pending || m in due
      invariant forall i, j :: 0 <= i < j < |due| ==> due[i] != due[j]
      invariant forall i, j :: 0 <= i < j < |due| ==> retry[due[i]] <= retry[due[j]]
      invariant forall i, m :: 0 <= i < |due| && m in pending ==> retry[due[i]] <= retry[m]
      decreases pending
    {
      MinScoreExists(retry, pending);
      var m :| m in pending && forall x :: x in pending ==> retry[m] <= retry[x];
      due := due + [m];
      pending := pending - {m};
    }
  }

  /**
    An entry scheduled `delay` after `now` is in the range reply of a tick at
    `later` exactly when its Unix second has come. A tick at or after
    now + delay always includes it; because scores are whole seconds, a tick
    up to (but not a full) second earlier may include it too.
   */
  lemma DueWindow(retry: map<Blob, int>, m: Blob, now: Time, delay: Duration, later: Time, due: seq<Blob>)
    requires m in retry && retry[m] == Unix(now + delay)
    requires RangeReply(retry, Unix(later), due)
    ensures m in due <==> Unix(later) >= Unix(now + delay)
    ensures later >= now + delay ==> m in due
    ensures m in due ==> later > now + delay - Second
  {
  }

  /**
    The task the poller enqueues for a member: its decoded task, or the zero
    Task if it does not decode, then stamped by Enqueue.
   */
  function PromotedTask(m: Blob, now: Time): (t: Task)
    ensures Unmarshal(m).Ok? ==>
              t.payload == Unmarshal(m).value.payload && t.retryCount == Unmarshal(m).value.retryCount
    ensures Unmarshal(m).Ok? && !IsZero(Unmarshal(m).value.createdAt) ==> t == Unmarshal(m).value
    ensures Unmarshal(m).Ok? && IsZero(Unmarshal(m).value.createdAt) ==> t.createdAt == now
    ensures Unmarshal(m).Err? ==> t == Task("", 0, now)
  {
    Stamp(UnmarshalOrZero(m), now)
  }

  /** One pass of the poller's loop body for member m; Enqueue and ZREM errors are ignored. */
  function PromoteOne(s: Store, m: Blob, now: Time, pushFails: bool, remFails: bool): (r: Store)
    ensures r.queue == Enqueue(s, UnmarshalOrZero(m), now, pushFails).store.queue
    ensures remFails ==> r.retry == s.retry
    ensures !remFails ==> r.retry == s.retry - {m}
    ensures r.counters == s.counters
  {
    var s1 := Enqueue(s, UnmarshalOrZero(m), now, pushFails).store;
    if remFails then s1 else ZRem(s1, m)
  }

  /** The poller's loop over the members ZRANGEBYSCORE returned, in order. */
  function Promote(s: Store, due: seq<Blob>, now: Time, pushFails: set<Blob>, remFails: set<Blob>): (r: Store)
    // nothing is added to the sorted set and no score changes
    ensures forall m :: m in r.retry ==> m in s.retry && r.retry[m] == s.retry[m]
    // members not in the reply are untouched
    ensures forall m :: m in s.retry && m !in due ==> m in r.retry
    // every member in the reply is removed, unless its ZREM failed
    ensures forall m :: m in due && m !in remFails ==> m !in r.retry
    ensures forall m :: m in s.retry && m in remFails ==> m in r.retry
    ensures r.counters == s.counters
    decreases |due|
  {
    if due == [] then s
    else
      var m := due[0];
      Promote(PromoteOne(s, m, now, m in pushFails, m in remFails), due[1..], now, pushFails, remFails)
  }

  /** The tasks a tick gets onto the queue, in the order it pushes them. */
  function Requeued(due: seq<Blob>, now: Time, pushFails: set<Blob>): (r: seq<Result<Task>>)
    ensures |r| <= |due|
    ensures forall i :: 0 <= i < |r| ==> r[i].Ok?
    decreases |due|
  {
    if due == [] then []
    else
      var t := PromotedTask(due[0], now);
      (if due[0] !in pushFails && JsonTime(t.createdAt) then [Ok(t)] else []) + Requeued(due[1..], now, pushFails)
  }

  /** What is drained from the queue depends on the queue alone. */
  lemma {:induction false} DrainSeesOnlyQueue(s1: Store, s2: Store)
    requires s1.queue == s2.queue
    ensures DrainTasks(s1) == DrainTasks(s2)
    decreases |s1.queue|
  {
    if s1.queue != [] {
      var n := |s1.queue|;
      DrainSeesOnlyQueue(s1.(queue := s1.queue[..n - 1]), s2.(queue := s2.queue[..n - 1]));
    }
  }

  /** Due tasks reach the queue behind what is already there, in the order of the range reply. */
  lemma {:induction false} PromoteOrder(s: Store, due: seq<Blob>, now: Time, pushFails: set<Blob>, remFails: set<Blob>)
    ensures DrainTasks(Promote(s, due, now, pushFails, remFails)) == DrainTasks(s) + Requeued(due, now, pushFails)
    decreases |due|
  {
    if due != [] {
      var m := due[0];
      var t := UnmarshalOrZero(m);
      var e := Enqueue(s, t, now, m in pushFails);
      var s1 := PromoteOne(s, m, now, m in pushFails, m in remFails);
      var head := if m !in pushFails && JsonTime(PromotedTask(m, now).createdAt) then [Ok(PromotedTask(m, now))] else [];
      DrainSeesOnlyQueue(s1, e.store);
      if e.value.None? {
        EnqueueIsFifo(s, t, now);
        assert DrainTasks(s1) == DrainTasks(s) + head;
      } else {
        assert DrainTasks(s1) == DrainTasks(s) + head;
      }
      PromoteOrder(s1, due[1..], now, pushFails, remFails);
      var before := DrainTasks(s);
      var rest := Requeued(due[1..], now, pushFails);
      assert DrainTasks(Promote(s, due, now, pushFails, remFails)) == (before + head) + rest;
      assert Requeued(due, now, pushFails) == head + rest;
      assert (before + head) + rest == before + (head + rest);
    }
  }

  /**
    One tick of startRetryPoller at time `now`. `rangeFails` stands for a
    ZRANGEBYSCORE error; `pushFails` and `remFails` for the members whose
    Enqueue or ZREM fails, both ignored by the poller. Also returns the range
    reply the tick worked through.
   */
  method PollTick(s: Store, now: Time, rangeFails: bool, pushFails: set<Blob>, remFails: set<Blob>) returns (due: seq<Blob>, r: Store)
    ensures rangeFails ==> due == [] && r == s
    ensures !rangeFails ==> RangeReply(s.retry, Unix(now), due)
    // every due entry leaves the sorted set, unless its ZREM failed, in which case a later tick promotes it again
    ensures !rangeFails ==>
              forall m :: m in s.retry && s.retry[m] <= Unix(now) && m !in remFails ==> m !in r.retry
    ensures forall m :: m in s.retry && m in remFails ==> m in r.retry
    // entries not yet due are untouched
    ensures forall m :: m in s.retry && s.retry[m] > Unix(now) ==> m in r.retry && r.retry[m] == s.retry[m]
    ensures forall m :: m in r.retry ==> m in s.retry && r.retry[m] == s.retry[m]
    ensures r.counters == s.counters
    // the queue gets the due tasks behind the existing ones, in ascending score order (PromoteOrder)
    ensures !rangeFails ==> r == Promote(s, due, now, pushFails, remFails)
  {
    if rangeFails {
      due := [];
      r := s;
      return;
    }
    due := RangeByScore(s.retry, Unix(now));
    r := Promote(s, due, now, pushFails, remFails);
  }
}
