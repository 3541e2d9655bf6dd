/**
  The API's /send handler: a chain of checks, each of which can end the
  request, before the task is enqueued.
 */
module Api {
  import opened Errors
  import opened GoTime
  import opened Tasks
  import opened Redis
  import opened RateLimit
  import opened Queue

  /** The JSON body: user_id and the raw `data` value (empty when absent). */
  datatype WebhookRequest = WebhookRequest(userId: string, data: string)

  /** An HTTP request as the handler sees it: its method and decoded body; `body` is None when it is not valid JSON for WebhookRequest. */
  datatype HttpRequest = HttpRequest(verb: string, body: Option<WebhookRequest>)

  const MethodPost := "POST"

  const StatusAccepted := 202
  const StatusBadRequest := 400
  const StatusMethodNotAllowed := 405
  const StatusTooManyRequests := 429
  const StatusInternalServerError := 500

  /** A request that passes method and body validation. */
  predicate WellFormed(req: HttpRequest) {
    req.verb == MethodPost && req.body.Some? && req.body.value.userId != ""
  }

  /**
    The handler at time `now`. `incrFails` and `expireFails` are passed to the
    limiter; `pushFails` stands for an LPUSH the store rejects.
   */
  function Submit(s: Store, req: HttpRequest, limiter: Limiter, now: Time,
                  incrFails: bool, expireFails: bool, pushFails: bool): (r: Reply<int>)
    ensures r.value in {StatusAccepted, StatusBadRequest, StatusMethodNotAllowed, StatusTooManyRequests, StatusInternalServerError}
    ensures req.verb != MethodPost ==> r == Reply(StatusMethodNotAllowed, s)
    ensures req.verb == MethodPost && !WellFormed(req) ==> r == Reply(StatusBadRequest, s)
    // a well-formed request always consults the limiter exactly once
    ensures WellFormed(req) ==>
              var v := Allow(limiter, s, req.body.value.userId, now, incrFails, expireFails);
              && (v.value.err.Some? ==> r == Reply(StatusInternalServerError, s))
              && (v.value.err.None? && !v.value.allowed ==> r == Reply(StatusTooManyRequests, v.store))
              && (v.value.allowed ==> r.store.counters == v.store.counters)
              && (v.value.allowed ==> (r.value == StatusAccepted <==> JsonTime(now) && !pushFails))
              // an admitted request whose enqueue fails gets 500
              && (v.value.allowed && (!JsonTime(now) || pushFails) ==> r == Reply(StatusInternalServerError, v.store))
    // nothing but an accepted request enqueues, and an accepted one enqueues exactly one task
    ensures r.value != StatusAccepted ==> r.store.queue == s.queue
    ensures r.value == StatusAccepted <==> |r.store.queue| == |s.queue| + 1
    ensures r.value == StatusAccepted ==>
              WellFormed(req) &&
              r.store.queue[1..] == s.queue &&
              Unmarshal(r.store.queue[0]) == Ok(Task(req.body.value.data, 0, now))
    ensures r.store.retry == s.retry
  {
    if req.verb != MethodPost then Reply(StatusMethodNotAllowed, s)
    else if req.body.None? then Reply(StatusBadRequest, s)
    else if req.body.value.userId == "" then Reply(StatusBadRequest, s)
    else
      var body := req.body.value;
      var v := Allow(limiter, s, body.userId, now, incrFails, expireFails);
      if v.value.err.Some? then Reply(StatusInternalServerError, s)
      else if !v.value.allowed then Reply(StatusTooManyRequests, v.store)
      else
        var e := Enqueue(v.store, Task(body.data, 0, ZeroTime), now, pushFails);
        if e.value.Some? then Reply(StatusInternalServerError, e.store)
        else Reply(StatusAccepted, e.store)
  }

  /** Statuses for successive POSTs from one user, with the store reachable throughout. */
  function SubmitAll(s: Store, limiter: Limiter, userId: string, data: string, times: seq<Time>): (statuses: seq<int>)
    ensures |statuses| == |times|
    decreases |times|
  {
    if times == [] then []
    else
      var r := Submit(s, HttpRequest(MethodPost, Some(WebhookRequest(userId, data))), limiter, times[0], false, false, false);
      [r.value] + SubmitAll(r.store, limiter, userId, data, times[1..])
  }

  /** Inside a running window whose count is c, the i-th further request is accepted iff c + i + 1 <= limit, else refused with 429. */
  lemma {:induction false} StatusesInsideWindow(limit: int, window: Duration, s: Store, userId: string, data: string,
                                                times: seq<Time>, c: int, d: Time)
    requires userId != ""
    requires Key(userId) in s.counters && s.counters[Key(userId)] == Counter(c, Some(d))
    requires c >= 1
    requires forall i :: 0 <= i < |times| ==> times[i] <= d && JsonTime(times[i])
    requires c + |times| < MaxInt64
    ensures forall i :: 0 <= i < |times| ==>
              SubmitAll(s, FixedWindow(limit, window), userId, data, times)[i] ==
              (if c + i + 1 <= limit then StatusAccepted else StatusTooManyRequests)
    decreases |times|
  {
    if times != [] {
      var l := FixedWindow(limit, window);
      var req := HttpRequest(MethodPost, Some(WebhookRequest(userId, data)));
      var r := Submit(s, req, l, times[0], false, false, false);
      assert Count(s, Key(userId), times[0]) == c;
      StatusesInsideWindow(limit, window, r.store, userId, data, times[1..], c + 1, d);
      var rest := SubmitAll(r.store, l, userId, data, times[1..]);
      assert SubmitAll(s, l, userId, data, times) == [r.value] + rest;
      forall i | 0 < i < |times|
        ensures SubmitAll(s, l, userId, data, times)[i] ==
                (if c + i + 1 <= limit then StatusAccepted else StatusTooManyRequests)
      {
        assert SubmitAll(s, l, userId, data, times)[i] == rest[i - 1];
        assert times[1..][i - 1] == times[i];
      }
    }
  }

  /** Six rapid requests from one user through the API's limiter: five accepted, the sixth refused with 429. */
  lemma SixRapidRequests(s: Store, userId: string, data: string, now: Time)
    requires userId != ""
    requires JsonTime(now)
    requires Count(s, Key(userId), now) == 0
    ensures SubmitAll(s, ApiLimiter, userId, data, [now, now, now, now, now, now]) ==
            [StatusAccepted, StatusAccepted, StatusAccepted, StatusAccepted, StatusAccepted, StatusTooManyRequests]
  {
    var times := [now, now, now, now, now, now];
    var req := HttpRequest(MethodPost, Some(WebhookRequest(userId, data)));
    var r := Submit(s, req, ApiLimiter, now, false, false, false);
    var d := now + ExpireSeconds(60 * Second) * Second;
    StatusesInsideWindow(5, 60 * Second, r.store, userId, data, times[1..], 1, d);
    var rest := SubmitAll(r.store, ApiLimiter, userId, data, times[1..]);
    assert SubmitAll(s, ApiLimiter, userId, data, times) == [r.value] + rest;
    assert rest[0] == StatusAccepted && rest[1] == StatusAccepted && rest[2] == StatusAccepted;
    assert rest[3] == StatusAccepted && rest[4] == StatusTooManyRequests;
  }
}
