/** The email outbox: a table of emails, worked off in batches of the oldest pending ones. */
module Outbox {
  import opened Wrappers

  datatype Status = Pending | Sent | Failed

  /** `mails` counts the sendMail calls made for the email; the table does not store it. */
  datatype Entry = Entry(
    id: nat,
    status: Status,
    attempts: int,
    maxAttempts: int,
    lastError: Option<string>,
    sentAt: Option<int>,
    mails: nat)

  const BATCH: nat := 20

  function Succeeded(e: Entry, now: int): Entry {
    e.(status := Sent, sentAt := Some(now), mails := e.mails + 1)
  }

  function FailedOnce(e: Entry, error: string): Entry {
    var attempts := e.attempts + 1;
    e.(attempts := attempts, lastError := Some(error), mails := e.mails + 1,
       status := if attempts >= e.maxAttempts then Failed else e.status)
  }

  /** One try to send an email: None is success, Some is the error thrown. */
  function Attempt(e: Entry, outcome: Option<string>, now: int): Entry {
    match outcome
    case None => Succeeded(e, now)
    case Some(error) => FailedOnce(e, error)
  }

  function New(id: nat, maxAttempts: Option<int>): Entry {
    Entry(id, Pending, 0, if maxAttempts.Some? then maxAttempts.value else 5, None, None, 0)
  }

  /** How many of the first n rows are pending; rows are in order of creation. */
  function PendingCount(rows: seq<Entry>, n: nat): (c: nat)
    requires n <= |rows|
    ensures c <= n
  {
    if n == 0 then 0 else PendingCount(rows, n - 1) + (if rows[n - 1].status.Pending? then 1 else 0)
  }

  /** Row j is among the `limit` oldest pending rows. */
  predicate InBatch(rows: seq<Entry>, j: nat, limit: nat)
    requires j < |rows|
  {
    rows[j].status.Pending? && PendingCount(rows, j) < limit
  }

  /** The table after one tick; `send` says how each email fares if it is tried. */
  function Tick(rows: seq<Entry>, send: nat -> Option<string>, now: int): (r: seq<Entry>)
    ensures |r| == |rows|
  {
    seq(|rows|, j requires 0 <= j < |rows| =>
      if InBatch(rows, j, BATCH) then Attempt(rows[j], send(rows[j].id), now) else rows[j])
  }

  ghost predicate UniqueIds(rows: seq<Entry>) {
    forall i, j | 0 <= i < j < |rows| :: rows[i].id != rows[j].id
  }

  class EmailOutbox {
    var rows: seq<Entry>

    constructor ()
      ensures rows == []
    {
      rows := [];
    }

    method Enqueue(id: nat, maxAttempts: Option<int>)
      modifies this
      ensures rows == old(rows) + [New(id, maxAttempts)]
    {
      rows := rows + [Entry(id, Pending, 0, if maxAttempts.Some? then maxAttempts.value else 5, None, None, 0)];
    }

    /** The oldest pending rows, at most `limit` of them. */
    method GetPending(limit: nat) returns (batch: seq<Entry>)
      requires UniqueIds(rows)
      ensures |batch| <= limit
      ensures forall j | 0 <= j < |rows| :: rows[j] in batch <==> InBatch(rows, j, limit)
      ensures forall k | 0 <= k < |batch| :: batch[k] in rows
      ensures UniqueIds(batch)
    {
      batch := [];
      var n := 0;
      while n < |rows| && |batch| < limit
        invariant n <= |rows| && |batch| == PendingCount(rows, n) <= limit
        invariant forall j | 0 <= j < n :: rows[j] in batch <==> InBatch(rows, j, limit)
        invariant forall k | 0 <= k < |batch| :: batch[k] in rows[..n]
        invariant UniqueIds(batch)
      {
        if rows[n].status.Pending? {
          batch := batch + [rows[n]];
        }
        n := n + 1;
      }
      forall j | n <= j < |rows| ensures !InBatch(rows, j, limit) && rows[j] !in batch {
        PendingCountGrows(rows, n, j);
      }
    }

    method MarkSent(id: nat, now: int)
      requires UniqueIds(rows)
      modifies this
      ensures |rows| == |old(rows)|
      ensures forall j | 0 <= j < |rows| ::
        rows[j] == if old(rows)[j].id == id then Succeeded(old(rows)[j], now) else old(rows)[j]
    {
      var i := 0;
      while i < |rows| && rows[i].id != id
        invariant i <= |rows| && forall j | 0 <= j < i :: rows[j].id != id
      {
        i := i + 1;
      }
      if i < |rows| {
        rows := rows[i := rows[i].(status := Sent, sentAt := Some(now), mails := rows[i].mails + 1)];
      }
    }

    method MarkFailed(id: nat, error: string)
      requires UniqueIds(rows)
      modifies this
      ensures |rows| == |old(rows)|
      ensures forall j | 0 <= j < |rows| ::
        rows[j] == if old(rows)[j].id == id then FailedOnce(old(rows)[j], error) else old(rows)[j]
    {
      var i := 0;
      while i < |rows| && rows[i].id != id
        invariant i <= |rows| && forall j | 0 <= j < i :: rows[j].id != id
      {
        i := i + 1;
      }
      if i < |rows| {
        var e := rows[i].(attempts := rows[i].attempts + 1, lastError := Some(error), mails := rows[i].mails + 1);
        if e.attempts >= e.maxAttempts {
          e := e.(status := Failed);
        }
        rows := rows[i := e];
      }
    }

    /** The cron job: every email of the batch is tried once. */
    method ProcessPending(send: nat -> Option<string>, now: int)
      requires UniqueIds(rows)
      modifies this
      ensures rows == Tick(old(rows), send, now) && UniqueIds(rows)
    {
      hide InBatch, PendingCount;
      var pending := GetPending(BATCH);
      for k := 0 to |pending|
        invariant |rows| == |old(rows)|
        invariant forall j | 0 <= j < |rows| ::
          rows[j] == if old(rows)[j] in pending[..k] then Attempt(old(rows)[j], send(old(rows)[j].id), now)
                     else old(rows)[j]
      {
        var entry := pending[k];
        assert entry in old(rows);
        assert entry !in pending[..k];
        match send(entry.id)
        case None => MarkSent(entry.id, now);
        case Some(error) => MarkFailed(entry.id, error);
        assert pending[..k + 1] == pending[..k] + [entry];
      }
      assert pending[..|pending|] == pending;
    }
  }

  lemma {:induction false} PendingCountGrows(rows: seq<Entry>, m: nat, n: nat)
    requires m <= n <= |rows|
    ensures PendingCount(rows, m) <= PendingCount(rows, n)
  {
    if m < n { PendingCountGrows(rows, m, n - 1); }
  }

  /* ----- waiting time ----- */

  /** How many more tries an email can get, if it is pending. */
  function Remaining(e: Entry): nat {
    if !e.status.Pending? then 0 else if e.maxAttempts - e.attempts > 1 then e.maxAttempts - e.attempts else 1
  }

  /** The tries all emails older than row p can still take. */
  function Ahead(rows: seq<Entry>, p: nat): nat
    requires p <= |rows|
  {
    if p == 0 then 0 else Ahead(rows, p - 1) + Remaining(rows[p - 1])
  }

  /** A try uses up one of the remaining ones, and if the email stays pending some remain. */
  lemma AttemptRemaining(e: Entry, outcome: Option<string>, now: int)
    requires e.status.Pending?
    ensures Remaining(Attempt(e, outcome, now)) < Remaining(e)
    ensures Attempt(e, outcome, now).status.Pending? ==> Remaining(Attempt(e, outcome, now)) > 0
  {
  }

  /** A tick uses up at least one try of every email in the batch, and creates none. */
  lemma {:induction false} TickAhead(rows: seq<Entry>, send: nat -> Option<string>, now: int, p: nat)
    requires p <= |rows|
    ensures Ahead(Tick(rows, send, now), p)
      + (if PendingCount(rows, p) < BATCH then PendingCount(rows, p) else BATCH) <= Ahead(rows, p)
  {
    if p > 0 {
      TickAhead(rows, send, now, p - 1);
      if InBatch(rows, p - 1, BATCH) {
        AttemptRemaining(rows[p - 1], send(rows[p - 1].id), now);
      }
    }
  }

  datatype Step = Run(send: nat -> Option<string>, now: int) | Add(id: nat, maxAttempts: Option<int>)

  function Apply(rows: seq<Entry>, s: Step): seq<Entry> {
    match s
    case Run(send, now) => Tick(rows, send, now)
    case Add(id, max) => rows + [New(id, max)]
  }

  function ApplyAll(rows: seq<Entry>, steps: seq<Step>): seq<Entry>
    decreases |steps|
  {
    if |steps| == 0 then rows else ApplyAll(Apply(rows, steps[0]), steps[1..])
  }

  function Ticks(steps: seq<Step>): nat {
    if |steps| == 0 then 0 else (if steps[0].Run? then 1 else 0) + Ticks(steps[1..])
  }

  lemma {:induction false} AheadPrefix(rows: seq<Entry>, more: seq<Entry>, p: nat)
    requires p <= |rows|
    ensures Ahead(rows + more, p) == Ahead(rows, p)
  {
    if p > 0 { AheadPrefix(rows, more, p - 1); }
  }

  /** The waiting bound: floor(R / 20) + r ticks. */
  function Bound(rows: seq<Entry>, p: nat): nat
    requires p < |rows|
  {
    Ahead(rows, p) / BATCH + Remaining(rows[p])
  }

  /** Each tick either settles the email or shortens its bound. */
  lemma TickBound(rows: seq<Entry>, send: nat -> Option<string>, now: int, p: nat)
    requires p < |rows| && rows[p].status.Pending?
    ensures var r := Tick(rows, send, now);
      r[p].status.Pending? ==> Bound(r, p) < Bound(rows, p)
  {
    TickAhead(rows, send, now, p);
    BatchQuotient(Ahead(rows, p), Ahead(Tick(rows, send, now), p));
    if InBatch(rows, p, BATCH) {
      AttemptRemaining(rows[p], send(rows[p].id), now);
    }
  }

  lemma BatchQuotient(a: nat, b: nat)
    requires b <= a
    ensures b / BATCH <= a / BATCH
    ensures b + BATCH <= a ==> b / BATCH < a / BATCH
  {
  }

  lemma SettledStep(rows: seq<Entry>, step: Step, p: nat)
    requires p < |rows| && !rows[p].status.Pending?
    ensures p < |Apply(rows, step)| && Apply(rows, step)[p] == rows[p]
  {
    match step {
      case Run(_, _) => assert !InBatch(rows, p, BATCH);
      case Add(_, _) =>
    }
  }

  lemma {:induction false} SettledStays(rows: seq<Entry>, steps: seq<Step>, p: nat)
    requires p < |rows| && !rows[p].status.Pending?
    ensures p < |ApplyAll(rows, steps)| && ApplyAll(rows, steps)[p] == rows[p]
    decreases |steps|
  {
    hide Apply;
    if |steps| > 0 {
      SettledStep(rows, steps[0], p);
      SettledStays(Apply(rows, steps[0]), steps[1..], p);
    }
  }

  /** Bounded waiting: after floor(R / 20) + r ticks a pending email is sent or failed, whatever
      happens to the emails tried and however many are added meanwhile. */
  lemma {:induction false} BoundedWaiting(rows: seq<Entry>, steps: seq<Step>, p: nat)
    requires p < |rows| && Ticks(steps) >= Ahead(rows, p) / 20 + Remaining(rows[p])
    ensures p < |ApplyAll(rows, steps)| && !ApplyAll(rows, steps)[p].status.Pending?
    decreases |steps|
  {
    if !rows[p].status.Pending? {
      SettledStays(rows, steps, p);
    } else {
      var next := Apply(rows, steps[0]);
      match steps[0] {
        case Run(send, now) => TickBound(rows, send, now, p);
        case Add(_, _) => AheadPrefix(rows, next[|rows|..], p);
      }
      if next[p].status.Pending? {
        BoundedWaiting(next, steps[1..], p);
      } else {
        SettledStays(next, steps[1..], p);
      }
    }
  }

  /* ----- number of mails ----- */

  function AtLeastOne(n: int): int {
    if n > 1 then n else 1
  }

  /** Calls and attempts agree, sentAt is set on sent emails only, and no email is tried more often than allowed. */
  predicate Counted(e: Entry) {
    && e.mails == e.attempts + (if e.status.Sent? then 1 else 0)
    && (e.sentAt.Some? <==> e.status.Sent?)
    && match e.status
       case Pending => e.mails < AtLeastOne(e.maxAttempts)
       case Sent => e.mails <= AtLeastOne(e.maxAttempts)
       case Failed => e.mails == AtLeastOne(e.maxAttempts)
  }

  /** Over every run each email is mailed at most max(1, maxAttempts) times, and a failed one that often. */
  lemma {:induction false} MailsCounted(steps: seq<Step>, rows: seq<Entry>)
    requires forall j | 0 <= j < |rows| :: Counted(rows[j])
    ensures forall j | 0 <= j < |ApplyAll(rows, steps)| :: Counted(ApplyAll(rows, steps)[j])
    decreases |steps|
  {
    if |steps| > 0 {
      var next := Apply(rows, steps[0]);
      forall j | 0 <= j < |next| ensures Counted(next[j]) {
        if steps[0].Run? {
          assert next[j] == rows[j] || next[j] == Attempt(rows[j], steps[0].send(rows[j].id), steps[0].now);
          assert Counted(rows[j]);
        }
      }
      MailsCounted(steps[1..], next);
    }
  }

  /* ----- single ticks ----- */

  ghost function Tried(rows: seq<Entry>, n: nat): set<nat>
    requires n <= |rows|
  {
    set j | 0 <= j < n && InBatch(rows, j, BATCH)
  }

  lemma TriedNext(rows: seq<Entry>, n: nat)
    requires n < |rows|
    ensures Tried(rows, n + 1) == if InBatch(rows, n, BATCH) then Tried(rows, n) + {n} else Tried(rows, n)
  {
    hide InBatch;
  }

  lemma {:induction false} BatchSize(rows: seq<Entry>, n: nat)
    requires n <= |rows|
    ensures |Tried(rows, n)| == if PendingCount(rows, n) < 20 then PendingCount(rows, n) else 20
  {
    if n > 0 {
      BatchSize(rows, n - 1);
      TriedNext(rows, n - 1);
      var before := Tried(rows, n - 1);
      assert n - 1 !in before;
      hide Tried;
    }
  }

  /** A tick tries exactly as many emails as are pending, but no more than 20; each of them becomes sent
      at this instant, or keeps the error and has one more attempt; all others stay as they are. */
  lemma TickTries(rows: seq<Entry>, send: nat -> Option<string>, now: int, p: nat)
    requires p < |rows|
    ensures |Tried(rows, |rows|)| == if PendingCount(rows, |rows|) < 20 then PendingCount(rows, |rows|) else 20
    ensures var e, e' := rows[p], Tick(rows, send, now)[p];
      if !InBatch(rows, p, BATCH) then e' == e
      else
        && e'.id == e.id && e'.maxAttempts == e.maxAttempts && e'.mails == e.mails + 1
        && (send(e.id).None? ==> e'.status == Sent && e'.sentAt == Some(now) && e'.attempts == e.attempts)
        && (send(e.id).Some? ==>
              && e'.attempts == e.attempts + 1 && e'.lastError == send(e.id)
              && e'.status == if e.attempts + 1 >= e.maxAttempts then Failed else Pending)
  {
    hide PendingCount;
    BatchSize(rows, |rows|);
    AttemptIs(rows[p], send(rows[p].id), now);
  }

  lemma AttemptIs(e: Entry, outcome: Option<string>, now: int)
    ensures var e' := Attempt(e, outcome, now);
      && e'.id == e.id && e'.maxAttempts == e.maxAttempts && e'.mails == e.mails + 1
      && (outcome.None? ==> e'.status == Sent && e'.sentAt == Some(now) && e'.attempts == e.attempts)
      && (outcome.Some? ==>
            && e'.attempts == e.attempts + 1 && e'.lastError == outcome
            && e'.status == if e.attempts + 1 >= e.maxAttempts then Failed else e.status)
  {
  }

  /** An email has the tries it was given, five if nothing was said. */
  lemma FiveTries(id: nat, given: Option<int>)
    ensures New(id, given).status == Pending && New(id, given).attempts == 0 && New(id, given).mails == 0
    ensures New(id, given).maxAttempts == if given.None? then 5 else given.value
  {
  }
}
