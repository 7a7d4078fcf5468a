/** The retry queue comes to rest once new failures and manual runs stop. */
module RetryDrain {
  import opened RetryAggregate
  import opened RetryProtocol
  import opened RetryProperties
  import opened Wrappers

  /** The attempts a retry can still use. */
  function Left(o: Option<Entry>): int {
    if o.Some? && o.value.row.status == PENDING then MAX_ATTEMPTS - o.value.row.attemptCount else 0
  }

  function Budget(retries: seq<Option<Entry>>): int {
    if |retries| == 0 then 0 else Left(retries[0]) + Budget(retries[1..])
  }

  function Measure(s: State): int {
    2 * Budget(s.retries) + |s.queue|
  }

  predicate Due(s: State, j: nat) {
    j < |s.queue| && s.queue[j].dueAt <= s.now
  }

  lemma {:induction false} BudgetPut(retries: seq<Option<Entry>>, id: nat, o: Option<Entry>)
    requires id < |retries|
    ensures Budget(retries[id := o]) == Budget(retries) - Left(retries[id]) + Left(o)
  {
    if id > 0 {
      BudgetPut(retries[1..], id - 1, o);
      assert retries[id := o][1..] == retries[1..][id - 1 := o];
    } else {
      assert retries[id := o][1..] == retries[1..];
    }
  }

  lemma {:induction false} BudgetMonotone(a: seq<Option<Entry>>, b: seq<Option<Entry>>)
    requires |a| == |b|
    requires forall i | 0 <= i < |a| :: 0 <= Left(a[i]) <= Left(b[i])
    ensures 0 <= Budget(a) <= Budget(b)
  {
    if |a| > 0 { BudgetMonotone(a[1..], b[1..]); }
  }

  lemma MeasureNat(s: State)
    requires Inv(s)
    ensures Measure(s) >= |s.queue|
  {
    BudgetMonotone(s.retries, s.retries);
  }

  /** What a processed job does to its retry: it uses an attempt, settles it, or leaves it as it was
      when the sender gave null. */
  lemma LeftProcessed(e: Entry, now: int, outcome: Outcome)
    requires EntryOk(e) && e.row.status == PENDING
    ensures Left(Some(Processed(e, now, outcome))) <= Left(Some(e)) - (if outcome.Response? then 1 else 0)
  {
    hide Delay;
  }

  /** Twice the attempts left plus the queued jobs: every job processed makes it smaller. */
  lemma WorkDecreases(s: State, j: nat, outcome: Outcome)
    requires Inv(s) && Due(s, j)
    ensures Measure(Process(s, j, outcome)) < Measure(s)
  {
    hide Budget, Delay, Settle, Note, EntryOk;
    var id := s.queue[j].retryId;
    if Sendable(s, id) {
      ProcessShape(s, j, outcome);
      var e := s.retries[id].value;
      LeftProcessed(e, s.now, outcome);
      BudgetPut(s.retries, id, Some(Processed(e, s.now, outcome)));
    }
  }

  /** Neither a new failure nor a manual run. */
  predicate Quiet(step: Step) {
    !step.FirstFailure? && !step.Manual?
  }

  lemma QuietMeasure(s: State, step: Step)
    requires Inv(s) && Quiet(step)
    ensures Measure(Apply(s, step)) + (if step.Work? && Due(s, step.j) then 1 else 0) <= Measure(s)
  {
    hide Process, Inv;
    var s' := Apply(s, step);
    if step.Work? {
      if Due(s, step.j) {
        WorkDecreases(s, step.j, step.outcome);
      } else {
        NotDue(s, step.j, step.outcome);
      }
    } else {
      LeftQuiet(s, step);
      BudgetMonotone(s'.retries, s.retries);
    }
  }

  lemma NotDue(s: State, j: nat, outcome: Outcome)
    requires !Due(s, j)
    ensures Process(s, j, outcome) == s
  {
  }

  lemma LeftQuiet(s: State, step: Step)
    requires Inv(s) && Quiet(step) && !step.Work?
    ensures var s' := Apply(s, step);
      && s'.queue == s.queue && |s'.retries| == |s.retries|
      && forall i | 0 <= i < |s.retries| :: 0 <= Left(s'.retries[i]) <= Left(s.retries[i])
  {
  }

  function RunFrom(s: State, steps: seq<Step>): State
    decreases |steps|
  {
    if |steps| == 0 then s else RunFrom(Apply(s, steps[0]), steps[1..])
  }

  /** The jobs processed along a run. */
  function Worked(s: State, steps: seq<Step>): nat
    decreases |steps|
  {
    if |steps| == 0 then 0
    else (if steps[0].Work? && Due(s, steps[0].j) then 1 else 0) + Worked(Apply(s, steps[0]), steps[1..])
  }

  /** From any state a run without new failures and manual runs processes at most Measure jobs,
      however it interleaves waiting, patches and deletions and whatever is answered. */
  lemma {:induction false} DrainBound(s: State, steps: seq<Step>)
    requires Inv(s) && forall i | 0 <= i < |steps| :: Quiet(steps[i])
    ensures Worked(s, steps) + Measure(RunFrom(s, steps)) <= Measure(s)
    ensures Worked(s, steps) <= Measure(s)
    decreases |steps|
  {
    hide Apply, Measure, Quiet, Inv;
    if |steps| == 0 {
      MeasureNat(s);
    } else {
      ApplyInv(s, steps[0]);
      QuietMeasure(s, steps[0]);
      DrainBound(Apply(s, steps[0]), steps[1..]);
    }
  }

  /** Work the queue until it is empty: wait until the job that is picked is due, process it. */
  function Drain(s: State, picks: nat -> nat, answers: nat -> Outcome, k: nat): (r: State)
    requires Inv(s)
    ensures Inv(r) && r.queue == []
    decreases Measure(s)
  {
    if |s.queue| == 0 then s
    else
      var j := picks(k) % |s.queue|;
      var wait := if s.queue[j].dueAt > s.now then s.queue[j].dueAt - s.now else 0;
      var s1 := s.(now := s.now + wait);
      WorkDecreases(s1, j, answers(k));
      ProcessInv(s1, j, answers(k));
      MeasureNat(s);
      Drain(Process(s1, j, answers(k)), picks, answers, k + 1)
  }

  /** After any run, in whatever order the jobs come up and whatever is answered, the queue becomes
      empty; if the run had no manual jobs, every retry that is then still pending got an answer that
      the code does not retry. */
  lemma QueueEmpties(now: int, steps: seq<Step>, picks: nat -> nat, answers: nat -> Outcome, id: nat)
    ensures Inv(Run(now, steps))
    ensures var r := Drain(Run(now, steps), picks, answers, 0);
      && r.queue == []
      && (Automatic(steps) && Exists(r, id) && r.retries[id].value.row.status == PENDING
          ==> !WillRetry(r.retries[id].value))
  {
    hide Run;
    RunInv(now, steps);
    if Automatic(steps) {
      RunQueueInv(now, steps);
      DrainQueueInv(Run(now, steps), picks, answers, 0);
    }
  }

  lemma {:induction false} DrainQueueInv(s: State, picks: nat -> nat, answers: nat -> Outcome, k: nat)
    requires Inv(s) && QueueInv(s)
    ensures QueueInv(Drain(s, picks, answers, k))
    decreases Measure(s)
  {
    hide Measure, Process, Inv, Queued;
    if |s.queue| > 0 {
      var j := picks(k) % |s.queue|;
      var wait := if s.queue[j].dueAt > s.now then s.queue[j].dueAt - s.now else 0;
      var s1 := s.(now := s.now + wait);
      LaterMeasure(s, s1);
      WorkDecreases(s1, j, answers(k));
      ProcessInv(s1, j, answers(k));
      ProcessQueueInv(s1, j, answers(k));
      DrainQueueInv(Process(s1, j, answers(k)), picks, answers, k + 1);
    }
  }

  lemma LaterMeasure(s: State, s1: State)
    requires Inv(s) && s1 == s.(now := s1.now)
    ensures Inv(s1) && Measure(s1) == Measure(s) >= 0
  {
    MeasureNat(s);
  }
}
