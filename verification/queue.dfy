/**
  The task broker: Enqueue pushes the task's JSON at the head of
  "webhook_queue" (LPUSH), Dequeue pops from the tail (BRPOP with timeout 0),
  so tasks come out in the order they went in.
 */
module Queue {
  import opened Errors
  import opened GoTime
  import opened Tasks
  import opened Redis

  /** Enqueue's default: a task without a creation time is stamped with the current one. */
  function Stamp(t: Task, now: Time): (r: Task)
    ensures r.payload == t.payload && r.retryCount == t.retryCount
    ensures !IsZero(t.createdAt) ==> r.createdAt == t.createdAt
    ensures IsZero(t.createdAt) ==> r.createdAt == now
  {
    if IsZero(t.createdAt) then t.(createdAt := now) else t
  }

  /**
    RedisQueue.Enqueue at time `now`; `pushFails` stands for an LPUSH the store
    rejects. Returns the error, if any.
   */
  function Enqueue(s: Store, t: Task, now: Time, pushFails: bool): (r: Reply<Option<Error>>)
    ensures r.value.None? <==> JsonTime(Stamp(t, now).createdAt) && !pushFails
    ensures !JsonTime(Stamp(t, now).createdAt) ==> r.value == Some(MarshalError)
    ensures r.value.Some? ==> r.store == s
    ensures r.value.None? ==>
              |r.store.queue| == |s.queue| + 1 &&
              r.store.queue[1..] == s.queue &&
              Unmarshal(r.store.queue[0]) == Ok(Stamp(t, now))
    ensures r.store.retry == s.retry && r.store.counters == s.counters
  {
    var task := Stamp(t, now);
    match Marshal(task)
    case Err(e) => Reply(Some(e), s)
    case Ok(data) => if pushFails then Reply(Some(StoreError), s) else Reply(None, LPush(s, data))
  }

  /** What the store does with a BRPOP: answers it, reports the context canceled, or fails. */
  datatype PopEnv = Served | ContextCanceled | Unreachable

  /** Dequeue's outcome; Blocked means BRPOP is still waiting on an empty list. */
  datatype Popped = Got(task: Task) | Failed(error: Error) | Blocked

  /** RedisQueue.Dequeue. */
  function Dequeue(s: Store, env: PopEnv): (r: Reply<Popped>)
    ensures env.ContextCanceled? ==> r == Reply(Failed(Canceled), s)
    ensures env.Unreachable? ==> r == Reply(Failed(StoreError), s)
    ensures env.Served? && s.queue == [] ==> r == Reply(Blocked, s)
    ensures env.Served? && s.queue != [] ==>
              r.store == s.(queue := s.queue[..|s.queue| - 1]) &&
              (r.value.Got? <==> Unmarshal(s.queue[|s.queue| - 1]).Ok?) &&
              (r.value.Got? ==> Marshal(r.value.task) == Ok(s.queue[|s.queue| - 1])) &&
              (r.value.Failed? <==> Unmarshal(s.queue[|s.queue| - 1]).Err?) &&
              (r.value.Failed? ==> r.value.error == UnmarshalError)
    // only an empty list keeps BRPOP waiting
    ensures r.value.Blocked? ==> env.Served? && s.queue == []
    // the timeout is 0, so a pop never reports redis.Nil
    ensures r.value != Failed(NilReply)
  {
    match env
    case ContextCanceled => Reply(Failed(Canceled), s)
    case Unreachable => Reply(Failed(StoreError), s)
    case Served =>
      if s.queue == [] then Reply(Blocked, s)
      else
        var last := s.queue[|s.queue| - 1];
        var rest := s.(queue := s.queue[..|s.queue| - 1]);
        match Unmarshal(last)
        case Ok(t) => MarshalUnmarshal(last); Reply(Got(t), rest)
        case Err(e) => Reply(Failed(e), rest)
  }

  /** The results of popping until the list is empty, with the store answering every pop. */
  function DrainTasks(s: Store): (out: seq<Result<Task>>)
    ensures |out| == |s.queue|
    decreases |s.queue|
  {
    if s.queue == [] then []
    else
      var r := Dequeue(s, Served);
      var head := match r.value
        case Got(t) => Ok(t)
        case Failed(e) => Err(e)
        case Blocked => Err(NilReply);
      [head] + DrainTasks(r.store)
  }

  /** Pops take the list from the tail: what is already queued comes out before an element pushed now. */
  lemma {:induction false} DrainAfterPush(s: Store, b: Blob)
    ensures DrainTasks(LPush(s, b)) == DrainTasks(s) + [Unmarshal(b)]
    decreases |s.queue|
  {
    var s' := LPush(s, b);
    if s.queue == [] {
      assert s'.queue == [b];
      assert s'.(queue := s'.queue[..0]).queue == [];
    } else {
      var n := |s.queue|;
      var popped := s.(queue := s.queue[..n - 1]);
      assert s'.queue[|s'.queue| - 1] == s.queue[n - 1];
      assert s'.(queue := s'.queue[..|s'.queue| - 1]) == LPush(popped, b);
      DrainAfterPush(popped, b);
    }
  }

  /** Enqueue's FIFO promise: a task enqueued now is dequeued after everything already queued. */
  lemma EnqueueIsFifo(s: Store, t: Task, now: Time)
    requires Enqueue(s, t, now, false).value.None?
    ensures DrainTasks(Enqueue(s, t, now, false).store) == DrainTasks(s) + [Ok(Stamp(t, now))]
  {
    var b := Marshal(Stamp(t, now)).value;
    assert Enqueue(s, t, now, false).store == LPush(s, b);
    DrainAfterPush(s, b);
  }

  /** Enqueue, with the store accepting every push. */
  function EnqueueAll(s: Store, ts: seq<Task>, now: Time): (r: Store)
    ensures r.retry == s.retry && r.counters == s.counters
    decreases |ts|
  {
    if ts == [] then s
    else EnqueueAll(Enqueue(s, ts[0], now, false).store, ts[1..], now)
  }

  /** The tasks as Enqueue stamps them. */
  function StampAll(ts: seq<Task>, now: Time): (r: seq<Result<Task>>)
    ensures |r| == |ts|
    ensures forall i :: 0 <= i < |ts| ==> r[i] == Ok(Stamp(ts[i], now))
  {
    seq(|ts|, i requires 0 <= i < |ts| => Ok(Stamp(ts[i], now)))
  }

  /** FIFO: tasks enqueued one after another are dequeued in the same order, after what was queued before. */
  lemma {:induction false} Fifo(s: Store, ts: seq<Task>, now: Time)
    requires forall i :: 0 <= i < |ts| ==> JsonTime(Stamp(ts[i], now).createdAt)
    ensures DrainTasks(EnqueueAll(s, ts, now)) == DrainTasks(s) + StampAll(ts, now)
    decreases |ts|
  {
    if ts != [] {
      var s1 := Enqueue(s, ts[0], now, false).store;
      assert EnqueueAll(s, ts, now) == EnqueueAll(s1, ts[1..], now);
      EnqueueIsFifo(s, ts[0], now);
      forall i | 0 <= i < |ts[1..]|
        ensures JsonTime(Stamp(ts[1..][i], now).createdAt)
      {
        assert ts[1..][i] == ts[i + 1];
      }
      Fifo(s1, ts[1..], now);
      var head := [Ok(Stamp(ts[0], now))];
      var tail := StampAll(ts[1..], now);
      assert StampAll(ts, now) == head + tail by {
        forall i | 0 <= i < |ts|
          ensures StampAll(ts, now)[i] == (head + tail)[i]
        {
          if i > 0 {
            assert ts[1..][i - 1] == ts[i];
          }
        }
      }
      var before := DrainTasks(s);
      assert DrainTasks(s1) == before + head;
      assert DrainTasks(EnqueueAll(s, ts, now)) == (before + head) + tail;
      assert (before + head) + tail == before + (head + tail);
    } else {
      assert StampAll(ts, now) == [];
    }
  }

  /** Round trip: into an empty queue and out again gives back the stamped task, payload and retry count intact. */
  lemma RoundTrip(s: Store, t: Task, now: Time)
    requires s.queue == []
    requires Enqueue(s, t, now, false).value.None?
    ensures Dequeue(Enqueue(s, t, now, false).store, Served) == Reply(Got(Stamp(t, now)), s)
    ensures Stamp(t, now).payload == t.payload && Stamp(t, now).retryCount == t.retryCount
  {
  }
}
