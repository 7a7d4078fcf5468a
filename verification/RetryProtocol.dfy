/** The retry protocol: a table of retries, a queue of delayed jobs, the worker that processes
    them, manual runs, and requests that disappear with their retries. */
module RetryProtocol {
  import opened RetryAggregate
  import opened Wrappers

  /** What httpService.send yields: a response, with status 0 for a transport failure, or null
      without sending anything when the request's method is not one it knows. */
  datatype Outcome = Response(status: int, body: string) | Null

  /** What happened to a retry; not stored. `sends` holds the instants of its HTTP sends and
      `last` what the last processed job that found it pending got. */
  datatype History = History(createdAt: int, sends: seq<int>, last: Option<Outcome>)

  datatype Entry = Entry(row: Row, hist: History)

  datatype Job = Job(retryId: nat, dueAt: int)

  /** A retry is named by its position; deleted ones leave None. `alerts` counts the events
      published by the "retry exhausted" branch. */
  datatype State = State(now: int, requests: set<nat>, retries: seq<Option<Entry>>, queue: seq<Job>, alerts: nat)

  predicate Exists(s: State, id: nat) {
    id < |s.retries| && s.retries[id].Some?
  }

  function Put(s: State, id: nat, e: Entry): State
    requires id < |s.retries|
  {
    s.(retries := s.retries[id := Some(e)])
  }

  function Schedule(s: State, id: nat, delay: int): State {
    s.(queue := s.queue + [Job(id, s.now + delay)])
  }

  /** ForwardFailedListener: a new retry, first due after the first delay. */
  function ForwardFailed(s: State, requestId: nat): State {
    if requestId !in s.requests || Delay(1).None? then s
    else
      var row := Row(requestId, PENDING, 0, None, Some(s.now + Delay(1).value), None, None, None, None);
      var s1 := s.(retries := s.retries + [Some(Entry(row, History(s.now, [], None)))]);
      Schedule(s1, |s.retries|, Delay(1).value)
  }

  function UpdatePayload(s: State, id: nat, body: Option<string>, headers: Option<map<string, string>>): State {
    if !Exists(s, id) then s
    else
      var e := s.retries[id].value;
      Put(s, id, e.(row := WithPayload(e.row, body, headers)))
  }

  /** RunRetryManuallyHandler: a job that is due at once. */
  function RunManually(s: State, id: nat, body: Option<string>, headers: Option<map<string, string>>): State {
    if !Exists(s, id) then s else Schedule(UpdatePayload(s, id, body, headers), id, 0)
  }

  /** A request is deleted and takes its retries with it; their jobs stay queued. */
  function DeleteRequest(s: State, requestId: nat): State {
    s.(requests := s.requests - {requestId},
       retries := seq(|s.retries|, i requires 0 <= i < |s.retries| =>
         if s.retries[i].Some? && s.retries[i].value.row.requestId == requestId then None else s.retries[i]))
  }

  /** What the worker makes of a response to a pending retry. */
  function Settle(s: State, id: nat, status: int, body: string): State
    requires Exists(s, id)
  {
    var e := s.retries[id].value;
    if status >= 500 then
      var delay := Delay(e.row.attemptCount + 1);
      var next := if delay.Some? then Some(s.now + delay.value) else None;
      var s1 := Put(s, id, e.(row := Fail(e.row, body, status, next)));
      if delay.Some? && delay.value != 0 then Schedule(s1, id, delay.value) else s1.(alerts := s.alerts + 1)
    else if status >= 400 then Put(s, id, e.(row := Fail(e.row, body, status, Some(s.now))))
    else Put(s, id, e.(row := Succeed(e.row, body, status)))
  }

  /** The retry that job j would send, if it is there, its request is there, and it is pending. */
  predicate Sendable(s: State, id: nat) {
    && Exists(s, id)
    && s.retries[id].value.row.requestId in s.requests
    && s.retries[id].value.row.status.PENDING?
  }

  function Note(s: State, id: nat, outcome: Outcome): State
    requires Exists(s, id)
  {
    var e := s.retries[id].value;
    Put(s, id, e.(hist := e.hist.(last := Some(outcome),
      sends := if outcome.Response? then e.hist.sends + [s.now] else e.hist.sends)))
  }

  /** One job taken off the queue. */
  function Take(s: State, j: nat): State
    requires j < |s.queue|
  {
    s.(queue := s.queue[..j] + s.queue[j + 1..])
  }

  /** RetryQueueProcessor.process on the job at position j, once it is due. */
  function Process(s: State, j: nat, outcome: Outcome): State {
    if j >= |s.queue| || s.queue[j].dueAt > s.now then s
    else
      var id, s1 := s.queue[j].retryId, Take(s, j);
      if !Sendable(s1, id) then s1
      else
        var s2 := Note(s1, id, outcome);
        if outcome.Null? then s2 else Settle(s2, id, outcome.status, outcome.body)
  }

  datatype Step =
    | Wait(ms: nat)
    | NewRequest(requestId: nat)
    | DropRequest(requestId: nat)
    | FirstFailure(requestId: nat)
    | Patch(id: nat, body: Option<string>, headers: Option<map<string, string>>)
    | Manual(id: nat, body: Option<string>, headers: Option<map<string, string>>)
    | Work(j: nat, outcome: Outcome)

  function Apply(s: State, step: Step): State {
    match step
    case Wait(ms) => s.(now := s.now + ms)
    case NewRequest(requestId) => s.(requests := s.requests + {requestId})
    case DropRequest(requestId) => DeleteRequest(s, requestId)
    case FirstFailure(requestId) => ForwardFailed(s, requestId)
    case Patch(id, body, headers) => UpdatePayload(s, id, body, headers)
    case Manual(id, body, headers) => RunManually(s, id, body, headers)
    case Work(j, outcome) => Process(s, j, outcome)
  }

  function Init(now: int): State {
    State(now, {}, [], [], 0)
  }

  function Run(now: int, steps: seq<Step>): State {
    if |steps| == 0 then Init(now) else Apply(Run(now, steps[..|steps| - 1]), steps[|steps| - 1])
  }

  /* ----- the worker and its store, as they run ----- */

  class RetryWorker {
    var now: int
    var requests: set<nat>
    var retries: seq<Option<Entry>>
    var queue: seq<Job>
    var alerts: nat

    constructor (now: int)
      ensures Now() == Init(now)
    {
      this.now := now;
      requests, retries, queue, alerts := {}, [], [], 0;
    }

    function Now(): State
      reads this
    {
      State(now, requests, retries, queue, alerts)
    }

    method ScheduleRetry(id: nat, delay: int)
      modifies this`queue
      ensures Now() == Schedule(old(Now()), id, delay)
    {
      queue := queue + [Job(id, now + delay)];
    }

    method HandleForwardFailed(requestId: nat)
      modifies this
      ensures Now() == ForwardFailed(old(Now()), requestId)
    {
      var delay := Delay(1);
      if delay.None? || requestId !in requests {
        return;
      }
      var row := Row(requestId, PENDING, 0, None, Some(now + delay.value), None, None, None, None);
      var id := |retries|;
      retries := retries + [Some(Entry(row, History(now, [], None)))];
      ScheduleRetry(id, delay.value);
    }

    method ExecuteRunManually(id: nat, body: Option<string>, headers: Option<map<string, string>>)
      returns (scheduled: bool)
      modifies this
      ensures Now() == RunManually(old(Now()), id, body, headers)
      ensures scheduled == Exists(old(Now()), id)
    {
      if id >= |retries| || retries[id].None? {
        return false;
      }
      var entry := retries[id].value;
      var retry := new Retry(entry.row);
      retry.UpdatePayload(body, headers);
      retries := retries[id := Some(entry.(row := retry.ToRow()))];
      ScheduleRetry(id, 0);
      scheduled := true;
    }

    /** Result: whether the job ends with the "exhausted" error, or with a TypeError on null. */
    method ProcessJob(j: nat, outcome: Outcome) returns (failed: bool)
      modifies this
      ensures Now() == Process(old(Now()), j, outcome)
      ensures failed ==> outcome.Null? || alerts == old(alerts) + 1
    {
      failed := false;
      if j >= |queue| || queue[j].dueAt > now {
        return;
      }
      var id := queue[j].retryId;
      queue := queue[..j] + queue[j + 1..];
      if id >= |retries| || retries[id].None? {
        return;
      }
      var entry := retries[id].value;
      var retry := new Retry(entry.row);
      if retry.requestId !in requests {
        return;
      }
      if retry.status != PENDING {
        return;
      }
      var hist := entry.hist.(last := Some(outcome));
      if outcome.Null? {
        retries := retries[id := Some(entry.(hist := hist))];
        return true;
      }
      hist := hist.(sends := hist.sends + [now]);
      if outcome.status >= 500 {
        var nextAttemptCount := retry.attemptCount + 1;
        var nextDelay := Delay(nextAttemptCount);
        retry.OnFail(outcome.body, outcome.status, if nextDelay.Some? then Some(now + nextDelay.value) else None);
        if nextDelay.Some? && nextDelay.value != 0 {
          ScheduleRetry(id, nextDelay.value);
        } else {
          alerts := alerts + 1;
          failed := true;
        }
      } else if outcome.status >= 400 {
        retry.OnFail(outcome.body, outcome.status, Some(now));
      } else {
        retry.OnSuccess(outcome.body, outcome.status);
      }
      retries := retries[id := Some(Entry(retry.ToRow(), hist))];
    }
  }
}
