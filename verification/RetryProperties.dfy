/** What every run of the retry protocol keeps, and that it comes to rest. */
module RetryProperties {
  import opened RetryAggregate
  import opened RetryProtocol
  import opened Wrappers

  /* ----- conservation of attempts ----- */

  predicate EntryOk(e: Entry) {
    var r := e.row;
    && 0 <= r.attemptCount <= MAX_ATTEMPTS
    && (r.status == FAILED <==> r.attemptCount == MAX_ATTEMPTS)
    && r.status != CANCELLED
    && |e.hist.sends| == r.attemptCount + (if r.status == SUCCESS then 1 else 0)
  }

  predicate Inv(s: State) {
    && s.alerts == 0
    && forall i | 0 <= i < |s.retries| && s.retries[i].Some? ::
         EntryOk(s.retries[i].value) && s.retries[i].value.row.requestId in s.requests
  }

  lemma DelayDefined(n: int)
    ensures Delay(n).Some? <==> 1 <= n <= 5
    ensures 1 <= n <= 5 ==> Delay(n).value > 0
  {
  }

  lemma ProcessInv(s: State, j: nat, outcome: Outcome)
    requires Inv(s)
    ensures Inv(Process(s, j, outcome))
  {
    hide Delay;
    if j < |s.queue| && Sendable(s, s.queue[j].retryId) {
      DelayDefined(s.retries[s.queue[j].retryId].value.row.attemptCount + 1);
    }
  }

  lemma ApplyInv(s: State, step: Step)
    requires Inv(s)
    ensures Inv(Apply(s, step))
  {
    hide Process, Delay;
    if step.Work? { ProcessInv(s, step.j, step.outcome); }
  }

  lemma {:induction false} RunInv(now: int, steps: seq<Step>)
    ensures Inv(Run(now, steps))
  {
    if |steps| > 0 {
      RunInv(now, steps[..|steps| - 1]);
      ApplyInv(Run(now, steps[..|steps| - 1]), steps[|steps| - 1]);
    }
  }

  /** Conservation: in every reachable state, whatever was answered and however often the retry
      was run by hand, its HTTP sends are its attempts, plus one if it succeeded, and never more
      than five; a FAILED retry has used five, any other at most four. */
  lemma {:induction false} SendsConserved(now: int, steps: seq<Step>, id: nat)
    requires Exists(Run(now, steps), id)
    ensures var e := Run(now, steps).retries[id].value;
      && |e.hist.sends| == e.row.attemptCount + (if e.row.status == SUCCESS then 1 else 0)
      && |e.hist.sends| <= 5
      && e.row.status in {PENDING, SUCCESS, FAILED}
      && (if e.row.status == FAILED then e.row.attemptCount == 5 else 0 <= e.row.attemptCount <= 4)
  {
    RunInv(now, steps);
  }

  /** The delay of the next attempt is always defined, so the branch that reports an exhausted
      retry is never taken: no run publishes its alert. */
  lemma {:induction false} ExhaustedUnreachable(now: int, steps: seq<Step>)
    ensures Run(now, steps).alerts == 0
    ensures forall id: nat | Exists(Run(now, steps), id) ::
      var row := Run(now, steps).retries[id].value.row;
      row.status == PENDING ==> Delay(row.attemptCount + 1).Some?
  {
    hide Delay, Run;
    RunInv(now, steps);
    var s := Run(now, steps);
    forall id: nat | Exists(s, id) && s.retries[id].value.row.status == PENDING
      ensures Delay(s.retries[id].value.row.attemptCount + 1).Some?
    {
      DelayDefined(s.retries[id].value.row.attemptCount + 1);
    }
  }

  lemma TerminalStep(s: State, step: Step, id: nat)
    requires id < |s.retries|
    ensures var s' := Apply(s, step);
      && id < |s'.retries|
      && (s'.retries[id].Some? ==> s.retries[id].Some?)
      && (s'.retries[id].Some? && s.retries[id].value.row.status in {SUCCESS, FAILED} ==>
            Rests(s.retries[id].value, s'.retries[id].value))
  {
  }

  /** The same outcome after the same attempts and sends. */
  predicate Rests(e: Entry, e': Entry) {
    e'.row.status == e.row.status && e'.row.attemptCount == e.row.attemptCount && e'.hist == e.hist
  }

  /** SUCCESS and FAILED are never left: from then on, as long as the retry is there, its status,
      attempts and sends stay as they are, whatever follows. */
  lemma {:induction false} TerminalStays(now: int, before: seq<Step>, after: seq<Step>, id: nat)
    requires Exists(Run(now, before), id)
    requires Run(now, before).retries[id].value.row.status in {SUCCESS, FAILED}
    ensures var s' := Run(now, before + after);
      && id < |s'.retries|
      && (Exists(s', id) ==> Rests(Run(now, before).retries[id].value, s'.retries[id].value))
    decreases |after|
  {
    hide Apply;
    if |after| == 0 {
      assert before + after == before;
    } else {
      var init, steps := after[..|after| - 1], before + after;
      assert steps[..|steps| - 1] == before + init && steps[|steps| - 1] == after[|after| - 1];
      TerminalStays(now, before, init, id);
      TerminalStep(Run(now, before + init), after[|after| - 1], id);
    }
  }

  /* ----- no lost retry ----- */

  function Jobs(queue: seq<Job>, id: nat): nat {
    if |queue| == 0 then 0 else Jobs(queue[1..], id) + (if queue[0].retryId == id then 1 else 0)
  }

  lemma {:induction false} JobsConcat(a: seq<Job>, b: seq<Job>, id: nat)
    ensures Jobs(a + b, id) == Jobs(a, id) + Jobs(b, id)
  {
    if |a| == 0 {
      assert a + b == b;
    } else {
      JobsConcat(a[1..], b, id);
      assert (a + b)[1..] == a[1..] + b;
    }
  }

  lemma JobsTake(queue: seq<Job>, j: nat, id: nat)
    requires j < |queue|
    ensures Jobs(queue, id) == Jobs(queue[..j] + queue[j + 1..], id) + (if queue[j].retryId == id then 1 else 0)
  {
    assert queue == queue[..j] + ([queue[j]] + queue[j + 1..]);
    JobsConcat(queue[..j], [queue[j]] + queue[j + 1..], id);
    JobsConcat([queue[j]], queue[j + 1..], id);
    JobsConcat(queue[..j], queue[j + 1..], id);
    assert [queue[j]][1..] == [];
  }

  lemma JobsAdd(queue: seq<Job>, job: Job, id: nat)
    ensures Jobs(queue + [job], id) == Jobs(queue, id) + (if job.retryId == id then 1 else 0)
  {
    JobsConcat(queue, [job], id);
    assert [job][1..] == [];
  }

  /** The last processed job, if any, got an answer that is retried. */
  predicate WillRetry(e: Entry) {
    e.hist.last.None? || (e.hist.last.value.Response? && e.hist.last.value.status >= 500)
  }

  /** How long after its creation attempt k (from 0) can happen at the earliest. */
  function Earliest(k: nat): int
    requires k < 5
  {
    [30000, 60000, 180000, 780000, 4380000][k]
  }

  predicate OnTime(e: Entry) {
    |e.hist.sends| <= 5 && forall k | 0 <= k < |e.hist.sends| :: e.hist.sends[k] >= e.hist.createdAt + Earliest(k)
  }

  /** One retry has the jobs it should have, none of them too early. */
  predicate Queued(queue: seq<Job>, id: nat, e: Entry) {
    && OnTime(e)
    && (e.row.status == PENDING ==>
         && 0 <= e.row.attemptCount < 5
         && |e.hist.sends| == e.row.attemptCount
         && Jobs(queue, id) == (if WillRetry(e) then 1 else 0)
         && forall j | 0 <= j < |queue| && queue[j].retryId == id ::
              && queue[j].dueAt >= e.hist.createdAt + Earliest(e.row.attemptCount)
              && e.row.nextAttemptAt == Some(queue[j].dueAt))
  }

  predicate QueueInv(s: State) {
    && (forall i | 0 <= i < |s.retries| && s.retries[i].Some? :: Queued(s.queue, i, s.retries[i].value))
    && (forall j | 0 <= j < |s.queue| :: s.queue[j].retryId < |s.retries|)
  }

  lemma {:induction false} NoJobs(queue: seq<Job>, id: nat)
    requires forall j | 0 <= j < |queue| :: queue[j].retryId != id
    ensures Jobs(queue, id) == 0
  {
    if |queue| > 0 { NoJobs(queue[1..], id); }
  }

  lemma {:induction false} SomeJob(queue: seq<Job>, id: nat, j: nat)
    requires j < |queue| && queue[j].retryId == id
    ensures Jobs(queue, id) > 0
  {
    if j > 0 { SomeJob(queue[1..], id, j - 1); }
  }

  /** A queue that holds the same jobs for a retry serves it the same. */
  lemma QueuedSame(q: seq<Job>, q': seq<Job>, id: nat, e: Entry)
    requires Queued(q, id, e) && Jobs(q', id) == Jobs(q, id)
    requires forall j | 0 <= j < |q'| && q'[j].retryId == id :: q'[j] in q
    ensures Queued(q', id, e)
  {
  }

  lemma ScheduleOther(queue: seq<Job>, job: Job, id: nat, e: Entry)
    requires Queued(queue, id, e) && job.retryId != id
    ensures Queued(queue + [job], id, e)
  {
    JobsAdd(queue, job, id);
    QueuedSame(queue, queue + [job], id, e);
  }

  lemma TakeOther(queue: seq<Job>, j: nat, id: nat, e: Entry)
    requires j < |queue| && Queued(queue, id, e) && queue[j].retryId != id
    ensures Queued(queue[..j] + queue[j + 1..], id, e)
  {
    JobsTake(queue, j, id);
    QueuedSame(queue, queue[..j] + queue[j + 1..], id, e);
  }

  /** The entry after its job was processed while it was pending. */
  function Processed(e: Entry, now: int, outcome: Outcome): Entry {
    if outcome.Null? then e.(hist := e.hist.(last := Some(outcome)))
    else
      var delay := Delay(e.row.attemptCount + 1);
      Entry(
        if outcome.status >= 500 then
          Fail(e.row, outcome.body, outcome.status, if delay.Some? then Some(now + delay.value) else None)
        else if outcome.status >= 400 then Fail(e.row, outcome.body, outcome.status, Some(now))
        else Succeed(e.row, outcome.body, outcome.status),
        e.hist.(last := Some(outcome), sends := e.hist.sends + [now]))
  }

  lemma ProcessShape(s: State, j: nat, outcome: Outcome)
    requires Inv(s) && j < |s.queue| && s.queue[j].dueAt <= s.now && Sendable(s, s.queue[j].retryId)
    ensures var id, s' := s.queue[j].retryId, Process(s, j, outcome);
      var e, q := s.retries[id].value, s.queue[..j] + s.queue[j + 1..];
      && s'.retries == s.retries[id := Some(Processed(e, s.now, outcome))]
      && s'.queue == (if outcome.Response? && outcome.status >= 500
                      then q + [Job(id, s.now + Delay(e.row.attemptCount + 1).value)] else q)
      && Delay(e.row.attemptCount + 1).Some?
  {
    hide Delay;
    DelayDefined(s.retries[s.queue[j].retryId].value.row.attemptCount + 1);
  }

  lemma EarliestAttempt(e: Entry, now: int, outcome: Outcome)
    requires OnTime(e) && |e.hist.sends| < 5 && now >= e.hist.createdAt + Earliest(|e.hist.sends|)
    ensures OnTime(Processed(e, now, outcome))
  {
    hide Earliest, Delay;
  }

  /** The retry whose job was taken: it had that one job, which was due. */
  lemma SettleQueued(s: State, j: nat, outcome: Outcome)
    requires Inv(s) && QueueInv(s) && j < |s.queue| && s.queue[j].dueAt <= s.now
    requires Sendable(s, s.queue[j].retryId)
    ensures var id, s' := s.queue[j].retryId, Process(s, j, outcome);
      Queued(s'.queue, id, s'.retries[id].value)
  {
    hide Delay, Process, Earliest;
    ProcessShape(s, j, outcome);
    var id := s.queue[j].retryId;
    var e := s.retries[id].value;
    var q := s.queue[..j] + s.queue[j + 1..];
    SomeJob(s.queue, id, j);
    JobsTake(s.queue, j, id);
    forall k | 0 <= k < |q| ensures q[k].retryId != id {
      if q[k].retryId == id { SomeJob(q, id, k); }
    }
    var n := e.row.attemptCount;
    EarliestAttempt(e, s.now, outcome);
    if outcome.Response? && outcome.status >= 500 {
      JobsAdd(q, Job(id, s.now + Delay(n + 1).value), id);
      NextEarliest(n);
    }
  }

  lemma NextEarliest(n: nat)
    requires n < 5
    ensures n < 4 ==> Earliest(n) + Delay(n + 1).value == Earliest(n + 1)
  {
  }

  lemma ProcessQueueInv(s: State, j: nat, outcome: Outcome)
    requires Inv(s) && QueueInv(s)
    ensures QueueInv(Process(s, j, outcome))
  {
    hide Delay, Queued, Settle, Note;
    if j < |s.queue| && s.queue[j].dueAt <= s.now {
      var id, s' := s.queue[j].retryId, Process(s, j, outcome);
      var q := s.queue[..j] + s.queue[j + 1..];
      if Sendable(s, id) {
        ProcessShape(s, j, outcome);
        SettleQueued(s, j, outcome);
      }
      forall i | 0 <= i < |s'.retries| && s'.retries[i].Some? && !(i == id && Sendable(s, id))
        ensures Queued(s'.queue, i, s'.retries[i].value)
      {
        var e := s.retries[i].value;
        if i == id {
          Unsendable(s, q, id);
        } else {
          TakeOther(s.queue, j, i, e);
          if s'.queue != q { ScheduleOther(q, s'.queue[|q|], i, e); }
        }
      }
    }
  }

  /** A retry that is there but cannot be sent is settled, so its jobs do not matter. */
  lemma Unsendable(s: State, q: seq<Job>, id: nat)
    requires Inv(s) && QueueInv(s) && Exists(s, id) && !Sendable(s, id)
    ensures Queued(q, id, s.retries[id].value)
  {
  }

  lemma ForwardQueueInv(s: State, requestId: nat)
    requires QueueInv(s)
    ensures QueueInv(ForwardFailed(s, requestId))
  {
    hide Queued;
    var s' := ForwardFailed(s, requestId);
    DelayDefined(1);
    if requestId in s.requests {
      var id, job := |s.retries|, Job(|s.retries|, s.now + Delay(1).value);
      NoJobs(s.queue, id);
      JobsAdd(s.queue, job, id);
      NewQueued(s.queue, job, s'.retries[id].value, s.now);
      forall i | 0 <= i < id && s'.retries[i].Some? ensures Queued(s'.queue, i, s'.retries[i].value) {
        ScheduleOther(s.queue, job, i, s.retries[i].value);
      }
    }
  }

  lemma NewQueued(queue: seq<Job>, job: Job, e: Entry, now: int)
    requires Jobs(queue + [job], job.retryId) == 1 && job.dueAt == now + 30000
    requires forall j | 0 <= j < |queue| :: queue[j].retryId != job.retryId
    requires e.row.attemptCount == 0 && e.hist == History(now, [], None) && e.row.nextAttemptAt == Some(now + 30000)
    ensures Queued(queue + [job], job.retryId, e)
  {
  }

  lemma PayloadQueued(queue: seq<Job>, id: nat, e: Entry, body: Option<string>, headers: Option<map<string, string>>)
    requires Queued(queue, id, e)
    ensures Queued(queue, id, e.(row := WithPayload(e.row, body, headers)))
  {
  }

  lemma ApplyQueueInv(s: State, step: Step)
    requires Inv(s) && QueueInv(s) && !step.Manual?
    ensures QueueInv(Apply(s, step))
  {
    hide Process, ForwardFailed, Delay, Jobs, Earliest;
    match step {
      case Work(j, outcome) => ProcessQueueInv(s, j, outcome);
      case FirstFailure(requestId) => ForwardQueueInv(s, requestId);
      case Patch(id, body, headers) =>
        if Exists(s, id) { PayloadQueued(s.queue, id, s.retries[id].value, body, headers); }
      case _ =>
    }
  }

  ghost predicate Automatic(steps: seq<Step>) {
    forall i | 0 <= i < |steps| :: !steps[i].Manual?
  }

  lemma {:induction false} RunQueueInv(now: int, steps: seq<Step>)
    requires Automatic(steps)
    ensures QueueInv(Run(now, steps))
  {
    hide Apply;
    if |steps| > 0 {
      var before := steps[..|steps| - 1];
      RunQueueInv(now, before);
      RunInv(now, before);
      ApplyQueueInv(Run(now, before), steps[|steps| - 1]);
    }
  }

  /** Without manual runs a pending retry has exactly one queued job if its last answer was absent
      or at least 500, and none if the answer was final for the code: a 4xx, or null. */
  lemma NoLostRetry(now: int, steps: seq<Step>, id: nat)
    requires Automatic(steps) && Exists(Run(now, steps), id)
    ensures var s := Run(now, steps);
      var e := s.retries[id].value;
      e.row.status == PENDING ==> Jobs(s.queue, id) == if WillRetry(e) then 1 else 0
  {
    RunQueueInv(now, steps);
  }

  /** Without manual runs the attempts happen no earlier than 30 seconds, 1, 3, 13 and 73 minutes
      after the retry was created. */
  lemma AttemptTimes(now: int, steps: seq<Step>, id: nat, k: nat)
    requires Automatic(steps) && Exists(Run(now, steps), id)
    requires k < |Run(now, steps).retries[id].value.hist.sends|
    ensures var hist := Run(now, steps).retries[id].value.hist;
      k < 5 && hist.sends[k] >= hist.createdAt + 1000 * [30, 60, 180, 780, 4380][k]
  {
    RunQueueInv(now, steps);
    var e := Run(now, steps).retries[id].value;
    assert OnTime(e);
  }

  /** Without manual runs the stored instant of the next attempt is when its job is due. */
  lemma NextAttemptIsDue(now: int, steps: seq<Step>, id: nat, j: nat)
    requires Automatic(steps) && Exists(Run(now, steps), id)
    requires Run(now, steps).retries[id].value.row.status == PENDING
    requires j < |Run(now, steps).queue| && Run(now, steps).queue[j].retryId == id
    ensures Run(now, steps).retries[id].value.row.nextAttemptAt == Some(Run(now, steps).queue[j].dueAt)
  {
    hide Run;
    RunQueueInv(now, steps);
    assert Queued(Run(now, steps).queue, id, Run(now, steps).retries[id].value);
  }

  /* ----- what single steps do ----- */

  /** A first failure of a stored request starts a pending retry with one job, due in 30 seconds. */
  lemma FailureStartsRetry(s: State, requestId: nat)
    requires QueueInv(s) && requestId in s.requests
    ensures var s', id := ForwardFailed(s, requestId), |s.retries|;
      && Sendable(s', id) && s'.retries[id].value.row.requestId == requestId
      && |s'.retries| == id + 1 && s'.retries[..id] == s.retries
      && Jobs(s'.queue, id) == 1
      && s'.queue == s.queue + [Job(id, s.now + 30000)]
  {
    hide Queued;
    DelayDefined(1);
    NoJobs(s.queue, |s.retries|);
    JobsAdd(s.queue, Job(|s.retries|, s.now + 30000), |s.retries|);
  }

  /** Requests are there from their arrival until they are deleted. */
  lemma RequestsThere(s: State, step: Step, requestId: nat)
    ensures requestId in Apply(s, step).requests <==>
        step == NewRequest(requestId) || (requestId in s.requests && step != DropRequest(requestId))
  {
  }

  /** Deleting a request takes exactly its own retries with it. */
  lemma DropTakesItsOwn(s: State, requestId: nat, id: nat)
    requires Exists(s, id)
    ensures var s' := DeleteRequest(s, requestId);
      && (Exists(s', id) <==> s.retries[id].value.row.requestId != requestId)
      && (Exists(s', id) ==> s'.retries[id] == s.retries[id])
      && s'.queue == s.queue
  {
  }

  /** What an answer to a pending retry does: below 400, the status 0 of a transport failure
      included, it succeeds with no attempt counted; from 400 on an attempt is counted, and with the
      fifth it fails; from 500 on, and only then, a job is queued, after 30 seconds, 2 minutes, 10
      minutes, an hour or a day. The answer is stored, and the instants of the attempts move on. */
  lemma AnswerDecides(s: State, j: nat, status: int, body: string)
    requires Inv(s) && j < |s.queue| && s.queue[j].dueAt <= s.now && Sendable(s, s.queue[j].retryId)
    ensures var id, s' := s.queue[j].retryId, Process(s, j, Response(status, body));
      var r, r', q := s.retries[id].value.row, s'.retries[id].value.row, s.queue[..j] + s.queue[j + 1..];
      && (r'.status == SUCCESS <==> status < 400)
      && r'.attemptCount == r.attemptCount + (if status >= 400 then 1 else 0)
      && (r'.status == FAILED <==> status >= 400 && r.attemptCount == 4)
      && 0 <= r.attemptCount <= 4
      && s'.queue == (if status < 500 then q
                      else q + [Job(id, s.now + [30000, 120000, 600000, 3600000, 86400000][r.attemptCount])])
      && r'.responseStatus == Some(status) && r'.responseBody == Some(body)
      && r'.nextAttemptAt == (if status < 400 then None else if status < 500 then Some(s.now)
                              else Some(s.now + [30000, 120000, 600000, 3600000, 86400000][r.attemptCount]))
      && r'.lastAttemptAt == (if status < 400 then r.lastAttemptAt else r.nextAttemptAt)
      && r'.customBody == r.customBody && r'.customHeaders == r.customHeaders
      && s'.retries[id].value.hist.sends == s.retries[id].value.hist.sends + [s.now]
  {
    hide Delay, Process;
    var id := s.queue[j].retryId;
    assert EntryOk(s.retries[id].value);
    DelayIs(s.retries[id].value.row.attemptCount);
    ProcessShape(s, j, Response(status, body));
  }

  lemma DelayIs(n: int)
    requires 0 <= n <= 4
    ensures Delay(n + 1) == Some([30000, 120000, 600000, 3600000, 86400000][n])
  {
  }

  /** A manual run of a pending retry queues a job that is due at once, and processing it sends the
      request with the body and headers given, or those it had. */
  lemma ManualRunSends(s: State, id: nat, body: Option<string>, headers: Option<map<string, string>>, outcome: Outcome)
    requires Sendable(s, id) && outcome.Response?
    ensures var s' := RunManually(s, id, body, headers);
      var e, e' := s.retries[id].value, s'.retries[id].value;
      && |s'.queue| == |s.queue| + 1 && s'.queue[..|s.queue|] == s.queue
      && Jobs(s'.queue, id) == Jobs(s.queue, id) + 1
      && Sendable(s', id)
      && e'.row.customBody == (if body.Some? then body else e.row.customBody)
      && e'.row.customHeaders == (if headers.Some? then headers else e.row.customHeaders)
      && e'.row == e.row.(customBody := e'.row.customBody, customHeaders := e'.row.customHeaders)
      && var s'' := Process(s', |s.queue|, outcome);
         Exists(s'', id) && s''.retries[id].value.hist.sends == e.hist.sends + [s.now]
  {
    hide Delay;
    JobsAdd(s.queue, Job(id, s.now), id);
  }

  /** A patch stores what is given and keeps the rest, and queues nothing. */
  lemma PatchStores(s: State, id: nat, body: Option<string>, headers: Option<map<string, string>>)
    requires Exists(s, id)
    ensures var s' := UpdatePayload(s, id, body, headers);
      var r, r' := s.retries[id].value.row, s'.retries[id].value.row;
      && s'.queue == s.queue
      && r'.customBody == (if body.Some? then body else r.customBody)
      && r'.customHeaders == (if headers.Some? then headers else r.customHeaders)
      && r' == r.(customBody := r'.customBody, customHeaders := r'.customHeaders)
  {
  }
}
