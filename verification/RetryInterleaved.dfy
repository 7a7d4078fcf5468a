/** Retries when a job or a manual run reads a row and writes it back later, with others in
    between. RetryRepository.save finds the entity it loaded and assigns to it, so a write stores
    the columns that differ from what was read: ChangedOnly. WholeRow is a store that would write
    all of them. */
module RetryInterleaved {
  import opened RetryAggregate
  import RetryProperties
  import RetryProtocol
  import opened Wrappers

  datatype Columns = ChangedOnly | WholeRow

  /** A row as it was read: by a worker that found it pending and has sent its request, or by a
      handler that changes the payload. */
  datatype Reader = Worker | Patcher

  datatype InFlight = InFlight(reader: Reader, id: nat, row: Row)

  /** `sends` counts the HTTP sends of each retry, `alerts` the events of the "retry exhausted"
      branch. */
  datatype State = State(
    now: int,
    rows: seq<Option<Row>>,
    flight: seq<Option<InFlight>>,
    sends: seq<nat>,
    alerts: nat)

  datatype Step =
    | Wait(ms: nat)
    | Create(requestId: nat)
    | Delete(id: nat)
    | Read(reader: Reader, id: nat)
    | WriteResponse(k: nat, status: int, body: string)
    | WritePayload(k: nat, customBody: Option<string>, headers: Option<map<string, string>>)

  /** What a job makes of the row it read. */
  function Settled(row: Row, now: int, status: int, body: string): Row {
    if status >= 500 then
      var delay := Delay(row.attemptCount + 1);
      Fail(row, body, status, if delay.Some? then Some(now + delay.value) else None)
    else if status >= 400 then Fail(row, body, status, Some(now))
    else Succeed(row, body, status)
  }

  predicate Exhausted(row: Row, status: int) {
    status >= 500 && (Delay(row.attemptCount + 1).None? || Delay(row.attemptCount + 1).value == 0)
  }

  function Pick<T(==)>(stored: T, read: T, written: T): T {
    if written != read then written else stored
  }

  /** The stored row after writing `written` over it, which was made from `read`. */
  function Save(mode: Columns, stored: Row, read: Row, written: Row): Row {
    if mode.WholeRow? then written
    else
      Row(stored.requestId,
          Pick(stored.status, read.status, written.status),
          Pick(stored.attemptCount, read.attemptCount, written.attemptCount),
          Pick(stored.lastAttemptAt, read.lastAttemptAt, written.lastAttemptAt),
          Pick(stored.nextAttemptAt, read.nextAttemptAt, written.nextAttemptAt),
          Pick(stored.responseStatus, read.responseStatus, written.responseStatus),
          Pick(stored.responseBody, read.responseBody, written.responseBody),
          Pick(stored.customBody, read.customBody, written.customBody),
          Pick(stored.customHeaders, read.customHeaders, written.customHeaders))
  }

  function SentOnce(sends: seq<nat>, id: nat): seq<nat> {
    if id < |sends| then sends[id := sends[id] + 1] else sends
  }

  /** Writes back entry k; a row that is gone stays gone. */
  function Write(mode: Columns, s: State, k: nat, written: Row): State
    requires k < |s.flight| && s.flight[k].Some?
  {
    var f, s1 := s.flight[k].value, s.(flight := s.flight[k := None]);
    if f.id < |s.rows| && s.rows[f.id].Some?
    then s1.(rows := s.rows[f.id := Some(Save(mode, s.rows[f.id].value, f.row, written))])
    else s1
  }

  function Apply(mode: Columns, s: State, step: Step): State {
    match step
    case Wait(ms) => s.(now := s.now + ms)
    case Create(requestId) =>
      s.(rows := s.rows
           + [Some(Row(requestId, PENDING, 0, None, Some(s.now + Delay(1).value), None, None, None, None))],
         sends := s.sends + [0])
    case Delete(id) => if id < |s.rows| then s.(rows := s.rows[id := None]) else s
    case Read(reader, id) =>
      if id >= |s.rows| || s.rows[id].None? then s
      else
        var row := s.rows[id].value;
        if reader.Patcher? then s.(flight := s.flight + [Some(InFlight(Patcher, id, row))])
        else if row.status != PENDING then s
        else s.(flight := s.flight + [Some(InFlight(Worker, id, row))], sends := SentOnce(s.sends, id))
    case WriteResponse(k, status, body) =>
      if k >= |s.flight| || s.flight[k].None? || !s.flight[k].value.reader.Worker? then s
      else
        var row := s.flight[k].value.row;
        var s1 := Write(mode, s, k, Settled(row, s.now, status, body));
        if Exhausted(row, status) then s1.(alerts := s1.alerts + 1) else s1
    case WritePayload(k, body, headers) =>
      if k >= |s.flight| || s.flight[k].None? || !s.flight[k].value.reader.Patcher? then s
      else Write(mode, s, k, WithPayload(s.flight[k].value.row, body, headers))
  }

  function Run(mode: Columns, now: int, steps: seq<Step>): State {
    if |steps| == 0 then State(now, [], [], [], 0)
    else Apply(mode, Run(mode, now, steps[..|steps| - 1]), steps[|steps| - 1])
  }

  /* ----- what every interleaving keeps ----- */

  /** What holds in both modes. */
  predicate Bounded(row: Row) {
    && 0 <= row.attemptCount <= 5
    && row.status != CANCELLED
    && (row.status == PENDING ==> row.attemptCount <= 4)
  }

  /** What a whole-row store keeps in addition. */
  predicate RowOk(row: Row) {
    Bounded(row) && (row.status == FAILED <==> row.attemptCount == 5)
  }

  predicate Good(mode: Columns, row: Row) {
    if mode.WholeRow? then RowOk(row) else Bounded(row)
  }

  predicate Inv(mode: Columns, s: State) {
    && s.alerts == 0
    && (forall i | 0 <= i < |s.rows| && s.rows[i].Some? :: Good(mode, s.rows[i].value))
    && (forall k | 0 <= k < |s.flight| && s.flight[k].Some? :: GoodFlight(mode, s.flight[k].value))
    && (forall k | 0 <= k < |s.flight| && s.flight[k].Some? :: s.flight[k].value.id < |s.rows|)
    && |s.sends| == |s.rows|
  }

  predicate GoodFlight(mode: Columns, f: InFlight) {
    Good(mode, f.row) && (f.reader.Worker? ==> f.row.status == PENDING)
  }

  lemma SettledGood(mode: Columns, stored: Row, read: Row, now: int, status: int, body: string)
    requires Good(mode, stored) && Good(mode, read) && read.status == PENDING
    ensures Good(mode, Save(mode, stored, read, Settled(read, now, status, body)))
    ensures !Exhausted(read, status)
  {
  }

  lemma PayloadGood(mode: Columns, stored: Row, read: Row, body: Option<string>, headers: Option<map<string, string>>)
    requires Good(mode, stored) && Good(mode, read)
    ensures Good(mode, Save(mode, stored, read, WithPayload(read, body, headers)))
  {
  }

  lemma ApplyKeeps(mode: Columns, s: State, step: Step)
    requires Inv(mode, s)
    ensures Inv(mode, Apply(mode, s, step))
  {
    hide Settled, Exhausted, Save, Good;
    match step {
      case WriteResponse(k, status, body) =>
        if k < |s.flight| && s.flight[k].Some? && s.flight[k].value.reader.Worker? {
          var f := s.flight[k].value;
          assert GoodFlight(mode, f);
          SettledGood(mode, f.row, f.row, s.now, status, body);
          if f.id < |s.rows| && s.rows[f.id].Some? {
            SettledGood(mode, s.rows[f.id].value, f.row, s.now, status, body);
          }
        }
      case WritePayload(k, body, headers) =>
        if k < |s.flight| && s.flight[k].Some? {
          var f := s.flight[k].value;
          if f.id < |s.rows| && s.rows[f.id].Some? {
            PayloadGood(mode, s.rows[f.id].value, f.row, body, headers);
          }
        }
      case Create(requestId) =>
        NewGood(mode, requestId, Some(s.now + Delay(1).value));
      case _ =>
    }
  }

  lemma NewGood(mode: Columns, requestId: nat, next: Option<int>)
    ensures Good(mode, Row(requestId, PENDING, 0, None, next, None, None, None, None))
  {
  }

  lemma {:induction false} RunKeeps(mode: Columns, now: int, steps: seq<Step>)
    ensures Inv(mode, Run(mode, now, steps))
  {
    hide Apply;
    if |steps| > 0 {
      RunKeeps(mode, now, steps[..|steps| - 1]);
      ApplyKeeps(mode, Run(mode, now, steps[..|steps| - 1]), steps[|steps| - 1]);
    }
  }

  /** However reads and writes of any number of workers and handlers interleave, in either mode: a
      pending row has at most four attempts, so does every row that a worker has in flight, the
      delay after the next failure is defined, and no "retry exhausted" event is published. */
  lemma NeverExhausted(mode: Columns, now: int, steps: seq<Step>)
    ensures var s := Run(mode, now, steps);
      && s.alerts == 0
      && (forall i | 0 <= i < |s.rows| && s.rows[i].Some? && s.rows[i].value.status == PENDING ::
            Delay(s.rows[i].value.attemptCount + 1).Some?)
      && (forall k | 0 <= k < |s.flight| && s.flight[k].Some? && s.flight[k].value.reader.Worker? ::
            Delay(s.flight[k].value.row.attemptCount + 1).Some?)
  {
    hide Run;
    RunKeeps(mode, now, steps);
  }

  /** A store that writes whole rows keeps status and attempts together: PENDING and SUCCESS have at
      most four, FAILED has five. */
  lemma WholeRowInvariant(now: int, steps: seq<Step>, id: nat)
    requires id < |Run(WholeRow, now, steps).rows| && Run(WholeRow, now, steps).rows[id].Some?
    ensures var row := Run(WholeRow, now, steps).rows[id].value;
      if row.status == FAILED then row.attemptCount == 5
      else row.status in {PENDING, SUCCESS} && 0 <= row.attemptCount <= 4
  {
    hide Run;
    RunKeeps(WholeRow, now, steps);
  }

  /** When nothing comes between, a read and a write do what the worker does with the row. */
  lemma ReadWriteIsProcess(mode: Columns, now: int, e: RetryProtocol.Entry, status: int, body: string)
    requires e.row.status == PENDING
    ensures Save(mode, e.row, e.row, Settled(e.row, now, status, body))
         == RetryProperties.Processed(e, now, RetryProtocol.Response(status, body)).row
  {
    hide Delay;
  }

  /** A payload that is written right after its read stores what is given and nothing else. */
  lemma PayloadIsWritten(mode: Columns, s: State, id: nat, body: Option<string>, headers: Option<map<string, string>>)
    requires id < |s.rows| && s.rows[id].Some?
    ensures var s' := Apply(mode, Apply(mode, s, Read(Patcher, id)), WritePayload(|s.flight|, body, headers));
      var row := s.rows[id].value;
      s' == s.(flight := s.flight + [None], rows := s.rows[id := Some(row.(
        customBody := if body.Some? then body else row.customBody,
        customHeaders := if headers.Some? then headers else row.customHeaders))])
  {
  }

  /** A 5xx answer is the last exactly if it counts an attempt that has no delay. */
  lemma ExhaustedIff(row: Row, status: int)
    ensures Exhausted(row, status) <==> status >= 500 && !(1 <= row.attemptCount + 1 <= 5)
  {
  }

  /** A deleted row is never written again. */
  lemma DeletedStays(mode: Columns, s: State, step: Step, id: nat)
    requires id < |s.rows|
    ensures var s' := Apply(mode, s, step);
      id < |s'.rows| && (s'.rows[id].None? <==> s.rows[id].None? || step == Delete(id))
  {
    hide Settled, Save, Exhausted, WithPayload;
  }

  /* ----- status and attempts, when changed columns are written ----- */

  predicate RowsOk(s: State) {
    forall i | 0 <= i < |s.rows| && s.rows[i].Some? :: RowOk(s.rows[i].value)
  }

  /** Step `step` is the write of a worker, and the row it writes to is there. */
  predicate Responds(s: State, step: Step) {
    && step.WriteResponse? && step.k < |s.flight| && s.flight[step.k].Some?
    && var f := s.flight[step.k].value;
       f.reader.Worker? && f.id < |s.rows| && s.rows[f.id].Some?
  }

  /** No worker writes to a row that has failed meanwhile, unless its own fifth attempt failed too. */
  predicate Harmless(s: State, step: Step) {
    Responds(s, step) ==>
      var f := s.flight[step.k].value;
      s.rows[f.id].value.status == FAILED ==> step.status >= 400 && f.row.attemptCount == 4
  }

  lemma ChangedColumnsIff(stored: Row, read: Row, now: int, status: int, body: string)
    requires RowOk(stored) && Bounded(read) && read.status == PENDING
    ensures RowOk(Save(ChangedOnly, stored, read, Settled(read, now, status, body)))
        <==> (stored.status == FAILED ==> status >= 400 && read.attemptCount == 4)
  {
    hide Delay;
  }

  lemma PayloadOk(stored: Row, read: Row, body: Option<string>, headers: Option<map<string, string>>)
    requires RowOk(stored)
    ensures RowOk(Save(ChangedOnly, stored, read, WithPayload(read, body, headers)))
  {
  }

  lemma StepOkIff(s: State, step: Step)
    requires Inv(ChangedOnly, s) && RowsOk(s)
    ensures RowsOk(Apply(ChangedOnly, s, step)) <==> Harmless(s, step)
  {
    hide Settled, Exhausted, Save, RowOk, Bounded;
    var s' := Apply(ChangedOnly, s, step);
    match step {
      case WriteResponse(k, status, body) =>
        if Responds(s, step) {
          var f := s.flight[k].value;
          assert GoodFlight(ChangedOnly, f);
          ChangedColumnsIff(s.rows[f.id].value, f.row, s.now, status, body);
          assert RowsOk(s') <==> RowOk(s'.rows[f.id].value);
        }
      case WritePayload(k, body, headers) =>
        if k < |s.flight| && s.flight[k].Some? && s.flight[k].value.id < |s.rows| {
          var f := s.flight[k].value;
          if s.rows[f.id].Some? { PayloadOk(s.rows[f.id].value, f.row, body, headers); }
        }
      case Create(requestId) => NewOk(requestId, Some(s.now + Delay(1).value));
      case _ =>
    }
  }

  lemma NewOk(requestId: nat, next: Option<int>)
    ensures RowOk(Row(requestId, PENDING, 0, None, next, None, None, None, None))
  {
  }

  ghost predicate AlwaysOk(now: int, steps: seq<Step>) {
    forall n | 0 <= n <= |steps| :: RowsOk(Run(ChangedOnly, now, steps[..n]))
  }

  ghost predicate AlwaysHarmless(now: int, steps: seq<Step>) {
    forall n | 0 <= n < |steps| :: Harmless(Run(ChangedOnly, now, steps[..n]), steps[n])
  }

  lemma Prefixes(now: int, steps: seq<Step>)
    requires |steps| > 0
    ensures var before := steps[..|steps| - 1];
      && (AlwaysOk(now, steps) <==> AlwaysOk(now, before) && RowsOk(Run(ChangedOnly, now, steps)))
      && (AlwaysHarmless(now, steps) <==>
            AlwaysHarmless(now, before) && Harmless(Run(ChangedOnly, now, before), steps[|steps| - 1]))
  {
    hide Run, RowsOk, Harmless;
    var before := steps[..|steps| - 1];
    assert forall n | 0 <= n <= |before| :: before[..n] == steps[..n];
    assert steps[..|steps|] == steps;
  }

  /** Every stored PENDING or SUCCESS retry has at most four attempts and every FAILED one five,
      throughout a run of interleaved reads and writes, exactly if no worker in the run writes to a
      row that has failed meanwhile, except with a fifth failure of its own. */
  lemma {:induction false} StaysOkIff(now: int, steps: seq<Step>)
    ensures AlwaysOk(now, steps) <==> AlwaysHarmless(now, steps)
  {
    if |steps| > 0 {
      hide Apply, RowsOk, Harmless, Inv, AlwaysOk, AlwaysHarmless;
      var before := steps[..|steps| - 1];
      StaysOkIff(now, before);
      RunKeeps(ChangedOnly, now, before);
      Prefixes(now, steps);
      LastOk(now, before);
      if RowsOk(Run(ChangedOnly, now, before)) {
        StepOkIff(Run(ChangedOnly, now, before), steps[|steps| - 1]);
      }
    }
  }

  lemma LastOk(now: int, steps: seq<Step>)
    ensures AlwaysOk(now, steps) ==> RowsOk(Run(ChangedOnly, now, steps))
  {
    hide Run, RowsOk;
    assert steps[..|steps|] == steps;
  }

  /** A retry, and n failed attempts of it one after the other. */
  function Failures(n: nat): seq<Step> {
    if n == 0 then [Create(0)] else Failures(n - 1) + [Read(Worker, 0), WriteResponse(n - 1, 500, "")]
  }

  lemma RunTwo(mode: Columns, now: int, steps: seq<Step>, a: Step, b: Step)
    ensures Run(mode, now, steps + [a, b]) == Apply(mode, Apply(mode, Run(mode, now, steps), a), b)
  {
    hide Apply;
    assert (steps + [a, b])[..|steps| + 1] == steps + [a];
    assert (steps + [a])[..|steps|] == steps;
  }

  /** The only retry is pending with n attempts and n sends, and nothing is in flight. */
  predicate Tried(s: State, n: nat) {
    && |s.rows| == 1 && s.rows[0].Some? && RowOk(s.rows[0].value)
    && s.rows[0].value.status == PENDING && s.rows[0].value.attemptCount == n
    && s.sends == [n]
    && |s.flight| == n && (forall k | 0 <= k < n :: s.flight[k].None?)
  }

  lemma {:induction false} AfterFailures(mode: Columns, now: int, n: nat)
    requires n <= 4
    ensures Tried(Run(mode, now, Failures(n)), n)
  {
    if n == 0 {
      assert [Create(0)][..0] == [];
    } else {
      AfterFailures(mode, now, n - 1);
      RunTwo(mode, now, Failures(n - 1), Read(Worker, 0), WriteResponse(n - 1, 500, ""));
      FailsAgain(mode, Run(mode, now, Failures(n - 1)), n - 1);
    }
  }

  lemma FailsAgain(mode: Columns, s: State, n: nat)
    requires n < 4 && Tried(s, n)
    ensures Tried(Apply(mode, Apply(mode, s, Read(Worker, 0)), WriteResponse(n, 500, "")), n + 1)
  {
  }

  /** Two workers read the retry after n failures; the first fails, the second gets `status`. */
  function Overlapping(n: nat, status: int): seq<Step> {
    Failures(n) + [Read(Worker, 0), Read(Worker, 0)] + [WriteResponse(n, 500, ""), WriteResponse(n + 1, status, "")]
  }

  lemma RunOverlapping(mode: Columns, now: int, n: nat, status: int)
    requires n <= 4
    ensures var s := Run(mode, now, Failures(n));
      var s' := Apply(mode, Apply(mode, s, Read(Worker, 0)), Read(Worker, 0));
      && Tried(s, n)
      && Run(mode, now, Overlapping(n, status))
         == Apply(mode, Apply(mode, s', WriteResponse(n, 500, "")), WriteResponse(n + 1, status, ""))
  {
    hide Apply, Tried;
    AfterFailures(mode, now, n);
    RunTwo(mode, now, Failures(n), Read(Worker, 0), Read(Worker, 0));
    RunTwo(mode, now, Failures(n) + [Read(Worker, 0), Read(Worker, 0)],
           WriteResponse(n, 500, ""), WriteResponse(n + 1, status, ""));
  }

  /** A run from the empty store that breaks it: after four failures two workers overlap, one fails,
      the other succeeds, and the retry ends as SUCCESS with five attempts. */
  lemma ChangedColumnsCounterexample(now: int)
    ensures var s := Run(ChangedOnly, now, Overlapping(4, 200));
      && |s.rows| == 1 && s.rows[0].Some?
      && s.rows[0].value.status == SUCCESS && s.rows[0].value.attemptCount == 5
  {
    hide Run, Overlapping;
    RunOverlapping(ChangedOnly, now, 4, 200);
  }

  /* ----- sends and attempts ----- */

  /** The sends that a row accounts for. */
  function Ledger(r: Row): int {
    r.attemptCount + (if r.status == SUCCESS then 1 else 0)
  }

  /** How many workers have a retry in flight. */
  function Workers(flight: seq<Option<InFlight>>, id: nat): nat {
    if |flight| == 0 then 0
    else
      var f := flight[|flight| - 1];
      Workers(flight[..|flight| - 1], id) + (if f.Some? && f.value.reader.Worker? && f.value.id == id then 1 else 0)
  }

  lemma {:induction false} WorkersDone(flight: seq<Option<InFlight>>, k: nat, id: nat)
    requires k < |flight| && flight[k].Some?
    ensures var f := flight[k].value;
      Workers(flight, id) == Workers(flight[k := None], id) + (if f.reader.Worker? && f.id == id then 1 else 0)
  {
    var last := |flight| - 1;
    if k < last {
      WorkersDone(flight[..last], k, id);
      assert flight[k := None][..last] == flight[..last][k := None];
    } else {
      assert flight[k := None][..last] == flight[..last];
    }
  }

  lemma WorkersAdd(flight: seq<Option<InFlight>>, f: InFlight, id: nat)
    ensures Workers(flight + [Some(f)], id) == Workers(flight, id) + (if f.reader.Worker? && f.id == id then 1 else 0)
  {
    assert (flight + [Some(f)])[..|flight|] == flight;
  }

  lemma {:induction false} NoWorkers(flight: seq<Option<InFlight>>, id: nat)
    requires forall k | 0 <= k < |flight| && flight[k].Some? :: flight[k].value.id != id
    ensures Workers(flight, id) == 0
  {
    if |flight| > 0 { NoWorkers(flight[..|flight| - 1], id); }
  }

  /** Every send of a retry is on its row or still in flight. */
  predicate BalancedAt(s: State, id: nat) {
    id < |s.rows| && s.rows[id].Some? && id < |s.sends| ==>
      s.sends[id] == Ledger(s.rows[id].value) + Workers(s.flight, id)
  }

  ghost predicate Balanced(s: State) {
    forall id: nat :: BalancedAt(s, id)
  }

  /** When a worker's write, made from `read`, adds exactly one to what the stored row accounts for. */
  predicate CountsOnce(mode: Columns, stored: Row, read: Row, status: int) {
    if mode.WholeRow? then read.attemptCount == Ledger(stored)
    else if status >= 400 then
      read.attemptCount + (if stored.status == SUCCESS && read.attemptCount < 4 then 1 else 0) == Ledger(stored)
    else stored.status != SUCCESS
  }

  /** The write of one response: the attempts counted grow by one exactly under CountsOnce. */
  lemma LedgerIff(mode: Columns, stored: Row, read: Row, now: int, status: int, body: string)
    requires Bounded(read) && read.status == PENDING
    ensures Ledger(Save(mode, stored, read, Settled(read, now, status, body))) == Ledger(stored) + 1
        <==> CountsOnce(mode, stored, read, status)
  {
    hide Delay;
  }

  /** A payload write keeps the attempts counted, unless whole rows are written and they changed. */
  lemma LedgerPayload(mode: Columns, stored: Row, read: Row, body: Option<string>, headers: Option<map<string, string>>)
    ensures Ledger(Save(mode, stored, read, WithPayload(read, body, headers))) == Ledger(stored)
        <==> (mode.WholeRow? ==> Ledger(read) == Ledger(stored))
  {
  }

  /** The step loses no send and counts none twice. */
  predicate Exact(mode: Columns, s: State, step: Step) {
    && (Responds(s, step) ==>
          var f := s.flight[step.k].value;
          CountsOnce(mode, s.rows[f.id].value, f.row, step.status))
    && (mode.WholeRow? && Patches(s, step) ==>
          var f := s.flight[step.k].value;
          Ledger(f.row) == Ledger(s.rows[f.id].value))
  }

  /** The write of a payload handler, to a row that is there. */
  predicate Patches(s: State, step: Step) {
    && step.WritePayload? && step.k < |s.flight| && s.flight[step.k].Some?
    && var f := s.flight[step.k].value;
       f.reader.Patcher? && f.id < |s.rows| && s.rows[f.id].Some?
  }

  lemma WriteBalance(mode: Columns, s: State, k: nat, written: Row)
    requires Inv(mode, s) && Balanced(s) && k < |s.flight| && s.flight[k].Some?
    ensures var f, s' := s.flight[k].value, Write(mode, s, k, written);
      var one := if f.reader.Worker? then 1 else 0;
      Balanced(s') <==>
        (s.rows[f.id].Some? ==>
           Ledger(Save(mode, s.rows[f.id].value, f.row, written)) == Ledger(s.rows[f.id].value) + one)
  {
    hide Save, Ledger, Workers, Good;
    var f, s' := s.flight[k].value, Write(mode, s, k, written);
    forall id: nat ensures BalancedAt(s, id) && (id != f.id ==> BalancedAt(s', id)) {
      WorkersDone(s.flight, k, id);
    }
    WorkersDone(s.flight, k, f.id);
    assert Balanced(s') <==> BalancedAt(s', f.id);
  }

  lemma ReadBalance(s: State, f: InFlight)
    requires |s.sends| == |s.rows| && Balanced(s) && f.id < |s.rows|
    ensures Balanced(s.(flight := s.flight + [Some(f)],
                        sends := if f.reader.Worker? then SentOnce(s.sends, f.id) else s.sends))
  {
    hide Ledger, Workers;
    var s' := s.(flight := s.flight + [Some(f)],
                 sends := if f.reader.Worker? then SentOnce(s.sends, f.id) else s.sends);
    forall id: nat ensures BalancedAt(s', id) {
      WorkersAdd(s.flight, f, id);
      assert BalancedAt(s, id);
    }
  }

  lemma CreateBalance(mode: Columns, s: State, requestId: nat)
    requires Inv(mode, s) && Balanced(s)
    ensures Balanced(Apply(mode, s, Create(requestId)))
  {
    hide Workers, Good;
    NoWorkers(s.flight, |s.rows|);
    forall id: nat ensures BalancedAt(Apply(mode, s, Create(requestId)), id) {
      assert BalancedAt(s, id);
    }
  }

  lemma OtherBalance(s: State, s': State)
    requires Balanced(s) && s'.flight == s.flight && s'.sends == s.sends && |s'.rows| == |s.rows|
    requires forall i | 0 <= i < |s.rows| :: s'.rows[i] == s.rows[i] || s'.rows[i].None?
    ensures Balanced(s')
  {
    hide Workers, Ledger;
    forall id: nat ensures BalancedAt(s', id) { assert BalancedAt(s, id); }
  }

  lemma StepBalancedIff(mode: Columns, s: State, step: Step)
    requires Inv(mode, s) && Balanced(s)
    ensures Balanced(Apply(mode, s, step)) <==> Exact(mode, s, step)
  {
    hide Settled, Exhausted, Save, Ledger, Workers, Balanced, CountsOnce, WithPayload, Bounded;
    match step {
      case WriteResponse(k, status, body) => ResponseBalance(mode, s, step);
      case WritePayload(k, body, headers) =>
        if k < |s.flight| && s.flight[k].Some? && s.flight[k].value.reader.Patcher? {
          var f := s.flight[k].value;
          WriteBalance(mode, s, k, WithPayload(f.row, body, headers));
          if s.rows[f.id].Some? { LedgerPayload(mode, s.rows[f.id].value, f.row, body, headers); }
        }
      case Create(requestId) => CreateBalance(mode, s, requestId);
      case Read(reader, id) =>
        if id < |s.rows| && s.rows[id].Some? { ReadBalance(s, InFlight(reader, id, s.rows[id].value)); }
      case _ => OtherBalance(s, Apply(mode, s, step));
    }
  }

  lemma ResponseBalance(mode: Columns, s: State, step: Step)
    requires Inv(mode, s) && Balanced(s) && step.WriteResponse?
    ensures Balanced(Apply(mode, s, step)) <==> Exact(mode, s, step)
  {
    hide Settled, Exhausted, Save, Ledger, Workers, Balanced, CountsOnce;
    var k := step.k;
    if k < |s.flight| && s.flight[k].Some? && s.flight[k].value.reader.Worker? {
      var f := s.flight[k].value;
      var written := Settled(f.row, s.now, step.status, step.body);
      assert GoodFlight(mode, f);
      WriteBalance(mode, s, k, written);
      if s.rows[f.id].Some? {
        LedgerIff(mode, s.rows[f.id].value, f.row, s.now, step.status, step.body);
      }
      var s1 := Write(mode, s, k, written);
      if Balanced(s1) { OtherBalance(s1, s1.(alerts := s1.alerts + 1)); }
      if Balanced(s1.(alerts := s1.alerts + 1)) { OtherBalance(s1.(alerts := s1.alerts + 1), s1); }
    }
  }

  ghost predicate AlwaysBalanced(mode: Columns, now: int, steps: seq<Step>) {
    forall n | 0 <= n <= |steps| :: Balanced(Run(mode, now, steps[..n]))
  }

  ghost predicate AlwaysExact(mode: Columns, now: int, steps: seq<Step>) {
    forall n | 0 <= n < |steps| :: Exact(mode, Run(mode, now, steps[..n]), steps[n])
  }

  lemma BalancePrefixes(mode: Columns, now: int, steps: seq<Step>)
    requires |steps| > 0
    ensures var before := steps[..|steps| - 1];
      && (AlwaysBalanced(mode, now, steps) <==> AlwaysBalanced(mode, now, before) && Balanced(Run(mode, now, steps)))
      && (AlwaysExact(mode, now, steps) <==>
            AlwaysExact(mode, now, before) && Exact(mode, Run(mode, now, before), steps[|steps| - 1]))
  {
    hide Run, Balanced, Exact;
    var before := steps[..|steps| - 1];
    assert forall n | 0 <= n <= |before| :: before[..n] == steps[..n];
    assert steps[..|steps|] == steps;
  }

  lemma LastBalanced(mode: Columns, now: int, steps: seq<Step>)
    ensures AlwaysBalanced(mode, now, steps) ==> Balanced(Run(mode, now, steps))
  {
    hide Run, Balanced;
    assert steps[..|steps|] == steps;
  }

  lemma EmptyBalanced(mode: Columns, now: int)
    ensures AlwaysBalanced(mode, now, [])
  {
    assert forall id: nat :: BalancedAt(Run(mode, now, []), id);
  }

  /** Conservation under overlap, in either mode: throughout a run the sends of every retry are its
      attempts, plus one if it succeeded, plus the workers that have it in flight, exactly if every
      write of the run counts its one send once and no payload write brings old attempts back. */
  lemma {:induction false} SendsConservedIff(mode: Columns, now: int, steps: seq<Step>)
    ensures AlwaysBalanced(mode, now, steps) <==> AlwaysExact(mode, now, steps)
  {
    hide Apply, Balanced, Exact, Inv, AlwaysBalanced;
    if |steps| > 0 {
      hide AlwaysExact;
      var before := steps[..|steps| - 1];
      SendsConservedIff(mode, now, before);
      RunKeeps(mode, now, before);
      BalancePrefixes(mode, now, steps);
      LastBalanced(mode, now, before);
      if Balanced(Run(mode, now, before)) {
        StepBalancedIff(mode, Run(mode, now, before), steps[|steps| - 1]);
      }
    } else {
      assert steps == [];
      EmptyBalanced(mode, now);
    }
  }

  /** The write finds its row as it was read. */
  predicate Fresh(s: State, step: Step) {
    Responds(s, step) || Patches(s, step) ==>
      s.rows[s.flight[step.k].value.id].value == s.flight[step.k].value.row
  }

  lemma FreshIsExact(mode: Columns, s: State, step: Step)
    requires Inv(mode, s) && Fresh(s, step)
    ensures Harmless(s, step) && Exact(mode, s, step)
  {
    if Responds(s, step) { assert GoodFlight(mode, s.flight[step.k].value); }
  }

  /** Without overlap, that is if every write finds its row as it was read, a run keeps both. */
  lemma FreshRuns(mode: Columns, now: int, steps: seq<Step>)
    requires forall n | 0 <= n < |steps| :: Fresh(Run(mode, now, steps[..n]), steps[n])
    ensures AlwaysBalanced(mode, now, steps)
    ensures mode.ChangedOnly? ==> AlwaysOk(now, steps)
  {
    hide Run, Fresh, Harmless, Exact, Inv, AlwaysBalanced, AlwaysOk;
    forall n | 0 <= n < |steps|
      ensures Exact(mode, Run(mode, now, steps[..n]), steps[n]) && Harmless(Run(mode, now, steps[..n]), steps[n])
    {
      RunKeeps(mode, now, steps[..n]);
      FreshIsExact(mode, Run(mode, now, steps[..n]), steps[n]);
    }
    SendsConservedIff(mode, now, steps);
    if mode.ChangedOnly? { StaysOkIff(now, steps); }
  }

  /** A run that loses a send, in both modes: after n failures two workers overlap and both fail;
      n + 2 requests were sent and n + 1 attempts are counted. */
  lemma OverlapLosesAnAttempt(mode: Columns, now: int, n: nat)
    requires n < 4
    ensures var s := Run(mode, now, Overlapping(n, 500));
      && s.sends == [n + 2]
      && |s.rows| == 1 && s.rows[0].Some? && Ledger(s.rows[0].value) == n + 1
      && Workers(s.flight, 0) == 0
  {
    hide Run, Overlapping, Workers, Apply, Tried;
    RunOverlapping(mode, now, n, 500);
    TwoFail(mode, Run(mode, now, Failures(n)), n);
    NoWorkers(Run(mode, now, Overlapping(n, 500)).flight, 0);
  }

  lemma TwoFail(mode: Columns, s: State, n: nat)
    requires n < 4 && Tried(s, n)
    ensures var s2 := Apply(mode, Apply(mode, s, Read(Worker, 0)), Read(Worker, 0));
      var s4 := Apply(mode, Apply(mode, s2, WriteResponse(n, 500, "")), WriteResponse(n + 1, 500, ""));
      && s4.sends == [n + 2]
      && |s4.rows| == 1 && s4.rows[0].Some? && Ledger(s4.rows[0].value) == n + 1
      && forall k | 0 <= k < |s4.flight| :: s4.flight[k].None?
  {
    hide Apply;
    var row := s.rows[0].value;
    var s1 := Apply(mode, s, Read(Worker, 0));
    var s2 := Apply(mode, s1, Read(Worker, 0));
    WorkerReads(mode, s, row);
    WorkerReads(mode, s1, row);
    WorkerFails(mode, s2, n, row);
    WorkerFails(mode, Apply(mode, s2, WriteResponse(n, 500, "")), n + 1, row);
  }

  lemma WorkerReads(mode: Columns, s: State, row: Row)
    requires s.rows == [Some(row)] && row.status == PENDING && |s.sends| == 1
    ensures Apply(mode, s, Read(Worker, 0))
         == s.(flight := s.flight + [Some(InFlight(Worker, 0, row))], sends := [s.sends[0] + 1])
  {
  }

  lemma WorkerFails(mode: Columns, s: State, k: nat, read: Row)
    requires |s.rows| == 1 && s.rows[0].Some? && s.rows[0].value.status == PENDING
    requires k < |s.flight| && s.flight[k] == Some(InFlight(Worker, 0, read))
    requires read.status == PENDING && 0 <= read.attemptCount < 4
    ensures var s' := Apply(mode, s, WriteResponse(k, 500, ""));
      && s'.flight == s.flight[k := None] && s'.sends == s.sends
      && |s'.rows| == 1 && s'.rows[0].Some? && s'.rows[0].value.status == PENDING
      && s'.rows[0].value.attemptCount == read.attemptCount + 1
  {
  }
}
