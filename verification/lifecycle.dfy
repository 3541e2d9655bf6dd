/**
  The closed loop a failing task travels: Process schedules it, a poll tick
  once it is due moves it back onto the queue, and a consumer dequeues it for
  the next attempt. The loop is run on a store holding nothing else.
 */
module Lifecycle {
  import opened Errors
  import opened GoTime
  import opened Tasks
  import opened Redis
  import opened Backoff
  import opened Queue
  import opened Processor
  import opened Worker

  const EmptyStore := Store([], map[], map[])

  /**
    After an attempt on `t` at time `now` with outcome `delivered`: the task of
    the next attempt and the instant the poller promotes it, or None when no
    attempt follows.
   */
  function Cycle(t: Task, delivered: bool, now: Time, policy: Exponential): Option<(Task, Time)> {
    var p := Process(EmptyStore, t, delivered, now, policy, false);
    match p.value
    case Scheduled(m, score) =>
      var dueAt := FromUnix(score);
      var q := Promote(p.store, [m], dueAt, {}, {});
      (match Dequeue(q, Served).value
       case Got(next) => Some((next, dueAt))
       case _ => None)
    case _ => None
  }

  /** The retry counts seen by successive attempts, given the outcome of each attempt in turn. */
  function Attempts(t: Task, outcomes: seq<bool>, now: Time, policy: Exponential): (counts: seq<int>)
    decreases |outcomes|
  {
    if outcomes == [] then []
    else
      [t.retryCount] +
      match Cycle(t, outcomes[0], now, policy)
      case Some(next) => Attempts(next.0, outcomes[1..], next.1, policy)
      case None => []
  }

  /**
    One turn of the loop: a delivered task goes no further, a task failing at
    count 5 or above is dropped, and any other failing task comes back with
    its count one higher and nothing else changed, at a moment the poller sees
    as due.
   */
  lemma CycleStep(t: Task, delivered: bool, now: Time, policy: Exponential)
    requires JsonTime(t.createdAt) && !IsZero(t.createdAt)
    ensures delivered || t.retryCount >= MaxRetries ==> Cycle(t, delivered, now, policy).None?
    ensures !delivered && t.retryCount < MaxRetries ==>
              Cycle(t, delivered, now, policy).Some? &&
              Cycle(t, delivered, now, policy).value.0 == Task(t.payload, t.retryCount + 1, t.createdAt)
    // the one-member reply Cycle hands to Promote is what ZRANGEBYSCORE answers at the promotion instant
    ensures !delivered && t.retryCount < MaxRetries ==>
              var p := Process(EmptyStore, t, delivered, now, policy, false);
              p.value.Scheduled? && RangeReply(p.store.retry, Unix(FromUnix(p.value.score)), [p.value.member])
  {
    if !delivered && t.retryCount < MaxRetries {
      var p := Process(EmptyStore, t, delivered, now, policy, false);
      var next := Task(t.payload, t.retryCount + 1, t.createdAt);
      var m := p.value.member;
      var dueAt := FromUnix(p.value.score);
      assert m == Json(next);
      assert p.store.retry == map[m := p.value.score];
      assert RangeReply(p.store.retry, Unix(dueAt), [m]);
      var s1 := PromoteOne(p.store, m, dueAt, false, false);
      assert s1.queue == [m];
      assert Promote(p.store, [m], dueAt, {}, {}) == s1;
      assert s1.(queue := s1.queue[..0]).queue == [];
    }
  }

  /**
    Bounded attempts: a task starting at count c in 0..5 is attempted with
    counts c, c+1, ... consecutively, never above 5; every attempt but the
    last failed, and the attempts stop early only on a delivery or on a
    failure at count 5.
   */
  lemma {:induction false} BoundedAttempts(t: Task, outcomes: seq<bool>, now: Time, policy: Exponential)
    requires 0 <= t.retryCount <= MaxRetries
    requires JsonTime(t.createdAt) && !IsZero(t.createdAt)
    ensures |outcomes| > 0 ==> |Attempts(t, outcomes, now, policy)| > 0
    ensures |Attempts(t, outcomes, now, policy)| <= |outcomes|
    ensures |Attempts(t, outcomes, now, policy)| <= MaxRetries + 1 - t.retryCount
    ensures forall i :: 0 <= i < |Attempts(t, outcomes, now, policy)| ==>
              Attempts(t, outcomes, now, policy)[i] == t.retryCount + i
    ensures forall i :: 0 <= i < |Attempts(t, outcomes, now, policy)| - 1 && i < |outcomes| ==> !outcomes[i]
    ensures 0 < |Attempts(t, outcomes, now, policy)| < |outcomes| ==>
              outcomes[|Attempts(t, outcomes, now, policy)| - 1] ||
              t.retryCount + |Attempts(t, outcomes, now, policy)| - 1 == MaxRetries
    decreases |outcomes|
  {
    if outcomes != [] {
      var a := Attempts(t, outcomes, now, policy);
      CycleStep(t, outcomes[0], now, policy);
      var c := Cycle(t, outcomes[0], now, policy);
      if c.Some? {
        var next := c.value.0;
        var rest := outcomes[1..];
        BoundedAttempts(next, rest, c.value.1, policy);
        var b := Attempts(next, rest, c.value.1, policy);
        assert a == [t.retryCount] + b;
        forall i | 0 < i < |a| - 1
          ensures !outcomes[i]
        {
          assert rest[i - 1] == outcomes[i];
        }
        if 0 < |a| < |outcomes| && |b| > 0 {
          assert rest[|b| - 1] == outcomes[|a| - 1];
        }
      } else {
        assert a == [t.retryCount];
      }
    }
  }

  /** k consecutive failures. */
  function Failures(k: nat): (outcomes: seq<bool>)
    ensures |outcomes| == k
    ensures forall i :: 0 <= i < k ==> !outcomes[i]
  {
    seq(k, i => false)
  }

  /** A fresh task that fails k <= 5 times and is then delivered is attempted k + 1 times, with counts 0, 1, ..., k. */
  lemma DeliveredAfterFailures(t: Task, k: nat, now: Time, policy: Exponential)
    requires t.retryCount == 0
    requires JsonTime(t.createdAt) && !IsZero(t.createdAt)
    requires k <= MaxRetries
    ensures |Attempts(t, Failures(k) + [true], now, policy)| == k + 1
    ensures forall i :: 0 <= i <= k ==> Attempts(t, Failures(k) + [true], now, policy)[i] == i
  {
    var outcomes := Failures(k) + [true];
    BoundedAttempts(t, outcomes, now, policy);
  }

  /** A fresh task that keeps failing is attempted exactly six times, then dropped. */
  lemma DroppedAfterSixFailures(t: Task, k: nat, now: Time, policy: Exponential)
    requires t.retryCount == 0
    requires JsonTime(t.createdAt) && !IsZero(t.createdAt)
    requires k > MaxRetries
    ensures Attempts(t, Failures(k), now, policy) == [0, 1, 2, 3, 4, 5]
  {
    var outcomes := Failures(k);
    BoundedAttempts(t, outcomes, now, policy);
  }
}
