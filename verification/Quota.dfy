/** The request quota: which arrivals are stored as overlimit. */
module Quota {
  import opened PacketLimits
  import opened Wrappers

  datatype Row = Row(userId: nat, receivedAt: int, overlimit: bool)

  /** The billing facts one arrival is judged by: the packet's interval and parsed limit, where
      None means unlimited or no packet, and the end of the subscription, if there is one. */
  datatype Plan = Plan(interval: Interval, limit: Option<int>, subscriptionEnd: Option<int>)

  function CountInPeriod(rows: seq<Row>, userId: nat, start: int, end: int): nat {
    if |rows| == 0 then 0
    else
      var r := rows[|rows| - 1];
      CountInPeriod(rows[..|rows| - 1], userId, start, end)
      + (if r.userId == userId && start <= r.receivedAt < end then 1 else 0)
  }

  function Overlimit(rows: seq<Row>, userId: nat, plan: Plan, now: int): bool {
    var (start, end) := Period(plan.interval, plan.subscriptionEnd, now);
    plan.limit.Some? && CountInPeriod(rows, userId, start, end) >= plan.limit.value
  }

  class RequestRepository {
    var rows: seq<Row>

    constructor ()
      ensures rows == []
    {
      rows := [];
    }

    method CountByUserIdInPeriod(userId: nat, start: int, end: int) returns (count: nat)
      ensures count == CountInPeriod(rows, userId, start, end)
    {
      count := 0;
      for n := 0 to |rows|
        invariant count == CountInPeriod(rows[..n], userId, start, end)
      {
        if rows[n].userId == userId && start <= rows[n].receivedAt < end {
          count := count + 1;
        }
        assert rows[..n + 1][..n] == rows[..n];
      }
      assert rows[..|rows|] == rows;
    }

    /** The overlimit decision of the hooks controller, and the row the handler then saves. */
    method Receive(userId: nat, interval: Interval, limit: Option<int>, subscriptionEnd: Date?, now: Date)
      modifies this
      ensures var plan := Plan(interval, limit, if subscriptionEnd == null then None else Some(subscriptionEnd.t));
        rows == old(rows) + [Row(userId, now.t, Overlimit(old(rows), userId, plan, now.t))]
    {
      var overlimit := false;
      if limit.Some? {
        var start, end := SubscriptionPeriod(interval, subscriptionEnd, now);
        var used := CountByUserIdInPeriod(userId, start.t, end.t);
        overlimit := used >= limit.value;
      }
      rows := rows + [Row(userId, now.t, overlimit)];
    }
  }

  /* ----- runs ----- */

  datatype Event = Arrive(userId: nat, plan: Plan, now: int) | Delete(index: nat)

  function Step(rows: seq<Row>, e: Event): seq<Row> {
    match e
    case Arrive(userId, plan, now) => rows + [Row(userId, now, Overlimit(rows, userId, plan, now))]
    case Delete(i) => if i < |rows| then rows[..i] + rows[i + 1..] else rows
  }

  /** The store after a run of events that starts without requests. */
  function Run(events: seq<Event>): seq<Row> {
    if |events| == 0 then [] else Step(Run(events[..|events| - 1]), events[|events| - 1])
  }

  /** The user's rows received at instants that `keep` accepts, in order of arrival. */
  function Select(rows: seq<Row>, userId: nat, keep: int -> bool): seq<Row> {
    if |rows| == 0 then []
    else
      var r := rows[|rows| - 1];
      Select(rows[..|rows| - 1], userId, keep)
      + (if r.userId == userId && keep(r.receivedAt) then [r] else [])
  }

  /** The instants of one calendar unit, and those of a period. */
  function UnitOf(interval: Interval, at: int): int -> bool {
    t => SameUnit(interval, t, at)
  }

  function Between(start: int, end: int): int -> bool {
    t => start <= t < end
  }

  /** How many of the rows are not overlimit. */
  function Admitted(rows: seq<Row>): nat {
    if |rows| == 0 then 0 else Admitted(rows[..|rows| - 1]) + (if rows[|rows| - 1].overlimit then 0 else 1)
  }

  lemma {:induction false} AdmittedBound(rows: seq<Row>)
    ensures Admitted(rows) <= |rows|
  {
    if |rows| > 0 { AdmittedBound(rows[..|rows| - 1]); }
  }

  lemma AppendSelect(rows: seq<Row>, r: Row, userId: nat, keep: int -> bool)
    ensures var u, u' := Select(rows, userId, keep), Select(rows + [r], userId, keep);
      && u' == (if r.userId == userId && keep(r.receivedAt) then u + [r] else u)
      && Admitted(u') == Admitted(u) + (if r.userId == userId && keep(r.receivedAt) && !r.overlimit then 1 else 0)
  {
    assert (rows + [r])[..|rows|] == rows;
    var u := Select(rows, userId, keep);
    assert (u + [r])[..|u|] == u;
  }

  /** Deleting a row takes at most that row out of a selection. */
  lemma {:induction false} DeleteAdmitted(rows: seq<Row>, i: nat, userId: nat, keep: int -> bool)
    requires i < |rows|
    ensures Admitted(Select(rows[..i] + rows[i + 1..], userId, keep)) <= Admitted(Select(rows, userId, keep))
  {
    hide Select, Admitted;
    var init, last := rows[..|rows| - 1], rows[|rows| - 1];
    assert rows == init + [last];
    AppendSelect(init, last, userId, keep);
    if i < |rows| - 1 {
      DeleteAdmitted(init, i, userId, keep);
      AppendSelect(init[..i] + init[i + 1..], last, userId, keep);
      assert rows[..i] + rows[i + 1..] == init[..i] + init[i + 1..] + [last];
    } else {
      assert rows[..i] + rows[i + 1..] == init;
    }
  }

  /** Every arrival of the user at an instant that `keep` accepts is overlimit exactly if the rows
      of such instants number `limit` already. */
  ghost predicate Judged(events: seq<Event>, userId: nat, keep: int -> bool, limit: int) {
    forall i | 0 <= i < |events| && events[i].Arrive? && events[i].userId == userId && keep(events[i].now) ::
      JudgedAt(Run(events[..i]), events[i], keep, limit)
  }

  predicate JudgedAt(rows: seq<Row>, e: Event, keep: int -> bool, limit: int)
    requires e.Arrive?
  {
    Overlimit(rows, e.userId, e.plan, e.now) <==> |Select(rows, e.userId, keep)| >= limit
  }

  lemma JudgedPrefix(events: seq<Event>, userId: nat, keep: int -> bool, limit: int)
    requires |events| > 0 && Judged(events, userId, keep, limit)
    ensures Judged(events[..|events| - 1], userId, keep, limit)
  {
    var before := events[..|events| - 1];
    forall i | 0 <= i < |before| ensures before[..i] == events[..i] {
    }
  }

  lemma {:induction false} QuotaOf(events: seq<Event>, userId: nat, keep: int -> bool, limit: int)
    requires Judged(events, userId, keep, limit)
    ensures Admitted(Select(Run(events), userId, keep)) <= if limit > 0 then limit else 0
  {
    hide Overlimit, Select, Admitted, Judged;
    if |events| > 0 {
      var before, e := events[..|events| - 1], events[|events| - 1];
      JudgedPrefix(events, userId, keep, limit);
      QuotaOf(before, userId, keep, limit);
      var rows := Run(before);
      match e {
        case Arrive(user, plan, now) =>
          AppendSelect(rows, Row(user, now, Overlimit(rows, user, plan, now)), userId, keep);
          if user == userId && keep(now) {
            JudgedLast(events, userId, keep, limit);
            AdmittedBound(Select(rows, userId, keep));
          }
        case Delete(i) =>
          if i < |rows| { DeleteAdmitted(rows, i, userId, keep); }
      }
    } else {
      NothingAdmitted(userId, keep);
    }
  }

  lemma JudgedLast(events: seq<Event>, userId: nat, keep: int -> bool, limit: int)
    requires |events| > 0 && Judged(events, userId, keep, limit)
    requires var e := events[|events| - 1]; e.Arrive? && e.userId == userId && keep(e.now)
    ensures JudgedAt(Run(events[..|events| - 1]), events[|events| - 1], keep, limit)
  {
  }

  lemma NothingAdmitted(userId: nat, keep: int -> bool)
    ensures Select([], userId, keep) == [] && Admitted([]) == 0
  {
  }

  /* ----- without a limit ----- */

  /** An arrival of a user without a limit, or without a packet, is never overlimit. */
  lemma UnlimitedAdmitted(rows: seq<Row>, userId: nat, plan: Plan, now: int)
    requires plan.limit.None?
    ensures Step(rows, Arrive(userId, plan, now)) == rows + [Row(userId, now, false)]
  {
  }

  /** A user who has no limit at any of his arrivals never has an overlimit row. */
  lemma {:induction false} UnlimitedNeverOver(events: seq<Event>, userId: nat)
    requires forall i | 0 <= i < |events| && events[i].Arrive? && events[i].userId == userId ::
               events[i].plan.limit.None?
    ensures forall k | 0 <= k < |Run(events)| && Run(events)[k].userId == userId :: !Run(events)[k].overlimit
  {
    hide Overlimit;
    if |events| > 0 {
      var before, e := events[..|events| - 1], events[|events| - 1];
      UnlimitedNeverOver(before, userId);
      if e.Arrive? && e.userId == userId { UnlimitedAdmitted(Run(before), userId, e.plan, e.now); }
    }
  }

  /** A deletion makes room: with the period exactly full, the next arrival is judged anew. */
  lemma DeletionFrees(rows: seq<Row>, i: nat, userId: nat, plan: Plan, now: int)
    requires i < |rows| && plan.limit.Some?
    requires var (start, end) := Period(plan.interval, plan.subscriptionEnd, now);
      rows[i].userId == userId && start <= rows[i].receivedAt < end
      && CountInPeriod(rows, userId, start, end) == plan.limit.value
    ensures Overlimit(rows, userId, plan, now) && !Overlimit(Step(rows, Delete(i)), userId, plan, now)
  {
    hide Period;
    var (start, end) := Period(plan.interval, plan.subscriptionEnd, now);
    DeleteCount(rows, i, userId, start, end);
  }

  lemma {:induction false} DeleteCount(rows: seq<Row>, i: nat, userId: nat, start: int, end: int)
    requires i < |rows|
    ensures CountInPeriod(rows[..i] + rows[i + 1..], userId, start, end)
         == CountInPeriod(rows, userId, start, end)
          - (if rows[i].userId == userId && start <= rows[i].receivedAt < end then 1 else 0)
  {
    var init, rest := rows[..|rows| - 1], rows[..i] + rows[i + 1..];
    if i < |rows| - 1 {
      DeleteCount(init, i, userId, start, end);
      assert rest[..|rest| - 1] == init[..i] + init[i + 1..];
    } else {
      assert rest == init;
    }
  }

  /* ----- without a subscription ----- */

  /** At each of the user's arrivals in the calendar unit the user has no subscription and one and the
      same packet; other users, and other units, are as they like. */
  ghost predicate Unsubscribed(events: seq<Event>, userId: nat, interval: Interval, limit: int, at: int) {
    forall i | 0 <= i < |events| && events[i].Arrive? && events[i].userId == userId
               && SameUnit(interval, events[i].now, at) ::
      events[i].plan == Plan(interval, Some(limit), None)
  }

  lemma {:induction false} CountIsSelect(rows: seq<Row>, userId: nat, start: int, end: int, keep: int -> bool)
    requires forall i | 0 <= i < |rows| :: keep(rows[i].receivedAt) <==> start <= rows[i].receivedAt < end
    ensures CountInPeriod(rows, userId, start, end) == |Select(rows, userId, keep)|
  {
    if |rows| > 0 { CountIsSelect(rows[..|rows| - 1], userId, start, end, keep); }
  }

  /** Without a subscription, the count the decision looks at is that of the calendar unit. */
  lemma UnitJudged(events: seq<Event>, userId: nat, interval: Interval, limit: int, at: int)
    requires Unsubscribed(events, userId, interval, limit, at) && CivilAt(at).y >= 100
    ensures Judged(events, userId, UnitOf(interval, at), limit)
  {
    hide JudgedAt, SameUnit, CivilAt, Run;
    var keep := UnitOf(interval, at);
    forall i | 0 <= i < |events| && events[i].Arrive? && events[i].userId == userId && keep(events[i].now)
      ensures JudgedAt(Run(events[..i]), events[i], keep, limit)
    {
      UnitJudgedAt(Run(events[..i]), events[i], interval, limit, at);
    }
  }

  lemma UnitJudgedAt(rows: seq<Row>, e: Event, interval: Interval, limit: int, at: int)
    requires e.Arrive? && e.plan == Plan(interval, Some(limit), None)
    requires SameUnit(interval, e.now, at) && CivilAt(at).y >= 100
    ensures JudgedAt(rows, e, UnitOf(interval, at), limit)
  {
    hide Period, SameUnit, Select, CivilAt;
    var now, keep := e.now, UnitOf(interval, at);
    UnitYear(interval, now, at);
    var (start, end) := Period(interval, None, now);
    forall k | 0 <= k < |rows| ensures keep(rows[k].receivedAt) <==> start <= rows[k].receivedAt < end {
      PeriodIsCalendarUnit(interval, now, rows[k].receivedAt);
      UnitSame(interval, rows[k].receivedAt, now, at);
    }
    CountIsSelect(rows, e.userId, start, end, keep);
  }

  lemma UnitYear(interval: Interval, now: int, at: int)
    requires SameUnit(interval, now, at)
    ensures CivilAt(now).y == CivilAt(at).y
  {
    hide CivilAt;
  }

  lemma UnitSame(interval: Interval, t: int, now: int, at: int)
    requires SameUnit(interval, now, at)
    ensures SameUnit(interval, t, at) <==> SameUnit(interval, t, now)
  {
    hide CivilAt;
  }

  /** Over every run of arrivals and deletions, no calendar unit ever holds more than L stored
      requests of the user that are not overlimit. */
  lemma QuotaHolds(events: seq<Event>, userId: nat, interval: Interval, limit: int, at: int)
    requires Unsubscribed(events, userId, interval, limit, at) && CivilAt(at).y >= 100
    ensures Admitted(Select(Run(events), userId, UnitOf(interval, at))) <= if limit > 0 then limit else 0
  {
    hide Judged, Select, Admitted, Run;
    UnitJudged(events, userId, interval, limit, at);
    QuotaOf(events, userId, UnitOf(interval, at), limit);
  }

  /** The first L rows are admitted and no others. */
  ghost predicate AdmitsFirst(rows: seq<Row>, limit: int) {
    forall k | 0 <= k < |rows| :: rows[k].overlimit <==> k >= limit
  }

  lemma {:induction false} FirstOf(events: seq<Event>, userId: nat, keep: int -> bool, limit: int)
    requires Judged(events, userId, keep, limit)
    requires forall i | 0 <= i < |events| :: events[i].Arrive?
    ensures AdmitsFirst(Select(Run(events), userId, keep), limit)
  {
    hide Overlimit, AdmitsFirst, Select, Judged;
    if |events| > 0 {
      var before, e := events[..|events| - 1], events[|events| - 1];
      JudgedPrefix(events, userId, keep, limit);
      FirstOf(before, userId, keep, limit);
      var rows := Run(before);
      var r := Row(e.userId, e.now, Overlimit(rows, e.userId, e.plan, e.now));
      AppendSelect(rows, r, userId, keep);
      if e.userId == userId && keep(e.now) { JudgedLast(events, userId, keep, limit); }
      AdmitsNext(Select(rows, userId, keep), r, limit);
    } else {
      NothingAdmitted(userId, keep);
      AdmitsNext([], Row(userId, 0, false), limit);
    }
  }

  lemma AdmitsNext(u: seq<Row>, r: Row, limit: int)
    ensures AdmitsFirst(u, limit) && (r.overlimit <==> |u| >= limit) ==> AdmitsFirst(u + [r], limit)
    ensures AdmitsFirst([], limit)
  {
  }

  /** Without deletions exactly the first L arrivals of each calendar unit are admitted. */
  lemma FirstAreAdmitted(events: seq<Event>, userId: nat, interval: Interval, limit: int, at: int)
    requires Unsubscribed(events, userId, interval, limit, at) && CivilAt(at).y >= 100
    requires forall i | 0 <= i < |events| :: events[i].Arrive?
    ensures AdmitsFirst(Select(Run(events), userId, UnitOf(interval, at)), limit)
  {
    hide Judged, Select, AdmitsFirst, Run;
    UnitJudged(events, userId, interval, limit, at);
    FirstOf(events, userId, UnitOf(interval, at), limit);
  }

  /* ----- with a subscription ----- */

  /** At each of the user's arrivals inside the period of `plan` the user has this plan; before, after,
      and for other users there may be any others. */
  ghost predicate Subscribed(events: seq<Event>, userId: nat, plan: Plan, at: int) {
    var (start, end) := Period(plan.interval, plan.subscriptionEnd, at);
    && plan.limit.Some? && plan.subscriptionEnd.Some?
    && forall i | 0 <= i < |events| && events[i].Arrive? && events[i].userId == userId
                  && start <= events[i].now < end ::
         events[i].plan == plan
  }

  lemma PeriodFixed(plan: Plan, now: int, now': int)
    requires plan.subscriptionEnd.Some?
    ensures Period(plan.interval, plan.subscriptionEnd, now) == Period(plan.interval, plan.subscriptionEnd, now')
  {
  }

  /** An arrival with the plan is judged by the rows of the one period, whenever it comes. */
  lemma SubscribedCount(rows: seq<Row>, e: Event, plan: Plan, at: int)
    requires e.Arrive? && e.plan == plan && plan.limit.Some? && plan.subscriptionEnd.Some?
    ensures var (start, end) := Period(plan.interval, plan.subscriptionEnd, at);
      JudgedAt(rows, e, Between(start, end), plan.limit.value)
  {
    hide Period, Select;
    var (start, end) := Period(plan.interval, plan.subscriptionEnd, at);
    PeriodFixed(plan, e.now, at);
    CountIsSelect(rows, e.userId, start, end, Between(start, end));
  }

  /** Within the subscription's period the quota holds as well. */
  lemma SubscribedQuota(events: seq<Event>, userId: nat, plan: Plan, at: int)
    requires Subscribed(events, userId, plan, at)
    ensures var (start, end) := Period(plan.interval, plan.subscriptionEnd, at);
      Admitted(Select(Run(events), userId, Between(start, end)))
        <= if plan.limit.value > 0 then plan.limit.value else 0
  {
    hide Period, Select, Run, Admitted, JudgedAt;
    var (start, end) := Period(plan.interval, plan.subscriptionEnd, at);
    forall i | 0 <= i < |events| && events[i].Arrive? && events[i].userId == userId && start <= events[i].now < end
      ensures JudgedAt(Run(events[..i]), events[i], Between(start, end), plan.limit.value)
    {
      SubscribedCount(Run(events[..i]), events[i], plan, at);
    }
    QuotaOf(events, userId, Between(start, end), plan.limit.value);
  }

  /** Arrivals after the recorded end of the user's subscription, while it is not renewed. */
  ghost predicate Stale(late: seq<Event>, userId: nat, plan: Plan) {
    && plan.subscriptionEnd.Some?
    && (forall i | 0 <= i < |late| :: late[i].Arrive? && late[i].now >= plan.subscriptionEnd.value)
    && (forall i | 0 <= i < |late| && late[i].userId == userId :: late[i].plan == plan)
  }

  /** They are not counted: all of the user's are admitted if the period was not full, and all are
      overlimit if it was, however many there are. */
  lemma {:induction false} StaleEndNeverFills(events: seq<Event>, userId: nat, plan: Plan, late: seq<Event>, now: int)
    requires Stale(late, userId, plan)
    ensures var rows, rows' := Run(events), Run(events + late);
      && |rows'| == |rows| + |late|
      && (forall k | |rows| <= k < |rows'| && rows'[k].userId == userId ::
            rows'[k].overlimit <==> Overlimit(rows, userId, plan, now))
      && (Overlimit(rows', userId, plan, now) <==> Overlimit(rows, userId, plan, now))
    decreases |late|
  {
    hide Period;
    if |late| == 0 {
      assert events + late == events;
    } else {
      var init, e := late[..|late| - 1], late[|late| - 1];
      var all := events + late;
      assert all[..|all| - 1] == events + init && all[|all| - 1] == e;
      StaleEndNeverFills(events, userId, plan, init, now);
      var rows, rows' := Run(events + init), Run(all);
      assert rows'[..|rows|] == rows;
      PeriodEnd(plan, now);
      PeriodFixed(plan, e.now, now);
    }
  }

  lemma PeriodEnd(plan: Plan, now: int)
    requires plan.subscriptionEnd.Some?
    ensures Period(plan.interval, plan.subscriptionEnd, now).1 == plan.subscriptionEnd.value
  {
  }
}
