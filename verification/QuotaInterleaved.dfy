/** The quota when the decision and the save of a request come apart: the controller counts, and the
    handler saves later, with other requests in between. */
module QuotaInterleaved {
  import opened Calendar
  import opened PacketLimits
  import opened Quota
  import opened Wrappers

  /** A request that was judged and is not saved yet. */
  datatype Decision = Decision(userId: nat, decidedAt: int, overlimit: bool)

  datatype State = State(now: int, rows: seq<Row>, flight: seq<Option<Decision>>)

  /** Store saves decision k; `at` is the receivedAt the request got some time after it was judged. */
  datatype Step =
    | Wait(ms: nat)
    | Decide(userId: nat, plan: Plan)
    | Store(k: nat, at: int)
    | Remove(index: nat)

  function Apply(s: State, step: Step): State {
    match step
    case Wait(ms) => s.(now := s.now + ms)
    case Decide(userId, plan) =>
      s.(flight := s.flight + [Some(Decision(userId, s.now, Overlimit(s.rows, userId, plan, s.now)))])
    case Store(k, at) =>
      if !CanStore(s, k, at) then s
      else
        var d := s.flight[k].value;
        s.(rows := s.rows + [Row(d.userId, at, d.overlimit)], flight := s.flight[k := None])
    case Remove(i) => s.(rows := Quota.Step(s.rows, Delete(i)))
  }

  predicate CanStore(s: State, k: nat, at: int) {
    k < |s.flight| && s.flight[k].Some? && s.flight[k].value.decidedAt <= at <= s.now
  }

  function Run(now: int, steps: seq<Step>): State {
    if |steps| == 0 then State(now, [], []) else Apply(Run(now, steps[..|steps| - 1]), steps[|steps| - 1])
  }

  /* ----- decisions in flight ----- */

  /** The user's decisions in flight. */
  function InFlight(flight: seq<Option<Decision>>, userId: nat): nat {
    if |flight| == 0 then 0
    else
      var d := flight[|flight| - 1];
      InFlight(flight[..|flight| - 1], userId) + (if d.Some? && d.value.userId == userId then 1 else 0)
  }

  /** Those that were admitted and can still be received before `end`. */
  predicate Awaited(d: Option<Decision>, userId: nat, end: int) {
    d.Some? && d.value.userId == userId && !d.value.overlimit && d.value.decidedAt < end
  }

  function Pending(flight: seq<Option<Decision>>, userId: nat, end: int): nat {
    if |flight| == 0 then 0
    else
      Pending(flight[..|flight| - 1], userId, end) + (if Awaited(flight[|flight| - 1], userId, end) then 1 else 0)
  }

  lemma {:induction false} PendingInFlight(flight: seq<Option<Decision>>, userId: nat, end: int)
    ensures Pending(flight, userId, end) <= InFlight(flight, userId)
  {
    if |flight| > 0 { PendingInFlight(flight[..|flight| - 1], userId, end); }
  }

  lemma FlightAdd(flight: seq<Option<Decision>>, d: Option<Decision>, userId: nat, end: int)
    ensures InFlight(flight + [d], userId)
         == InFlight(flight, userId) + (if d.Some? && d.value.userId == userId then 1 else 0)
    ensures Pending(flight + [d], userId, end)
         == Pending(flight, userId, end) + (if Awaited(d, userId, end) then 1 else 0)
  {
    assert (flight + [d])[..|flight|] == flight;
  }

  lemma {:induction false} FlightDone(flight: seq<Option<Decision>>, k: nat, userId: nat, end: int)
    requires k < |flight| && flight[k].Some?
    ensures InFlight(flight[k := None], userId)
         == InFlight(flight, userId) - (if flight[k].value.userId == userId then 1 else 0)
    ensures Pending(flight[k := None], userId, end)
         == Pending(flight, userId, end) - (if Awaited(flight[k], userId, end) then 1 else 0)
  {
    var last := |flight| - 1;
    if k < last {
      FlightDone(flight[..last], k, userId, end);
      assert flight[k := None][..last] == flight[..last][k := None];
    } else {
      assert flight[k := None][..last] == flight[..last];
    }
  }

  /* ----- the bound ----- */

  /** The user never has more than `peak` decisions in flight. */
  ghost predicate Peak(now: int, steps: seq<Step>, userId: nat, peak: nat) {
    forall n | 0 <= n <= |steps| :: InFlight(Run(now, steps[..n]).flight, userId) <= peak
  }

  /** The plan's period at some instant. */
  predicate IsPeriod(plan: Plan, at: int, start: int, end: int) {
    && Period(plan.interval, plan.subscriptionEnd, at) == (start, end)
    && (plan.subscriptionEnd.Some? || CivilAt(at).y >= 100)
  }

  /** In the period the user's requests are judged by this plan. */
  ghost predicate OnPlan(now: int, steps: seq<Step>, userId: nat, plan: Plan, start: int, end: int) {
    forall n | 0 <= n < |steps| && steps[n].Decide? && steps[n].userId == userId
               && start <= Run(now, steps[..n]).now < end :: steps[n].plan == plan
  }

  /** Every instant of the period has that period. */
  lemma PeriodAt(plan: Plan, at: int, start: int, end: int, t: int)
    requires IsPeriod(plan, at, start, end) && start <= t < end
    ensures Period(plan.interval, plan.subscriptionEnd, t) == (start, end)
  {
    hide Period, CivilAt, SameUnit;
    if plan.subscriptionEnd.Some? {
      PeriodFixed(plan, at, t);
    } else {
      PeriodIsCalendarUnit(plan.interval, at, t);
      UnitYear(plan.interval, t, at);
      PeriodSame(plan.interval, t, at);
    }
  }

  lemma PeriodSame(interval: Interval, t: int, at: int)
    requires SameUnit(interval, t, at) && CivilAt(at).y >= 100
    ensures Period(interval, None, t) == Period(interval, None, at)
  {
    hide CivilAt, Period, MakeDate, FirstDay, NextFirstDay;
    CalendarPeriod(interval, t);
    CalendarPeriod(interval, at);
    UnitSameDays(interval, CivilAt(t), CivilAt(at));
  }

  lemma UnitSameDays(interval: Interval, c: Civil, r: Civil)
    requires c.y == r.y && (interval.Month? ==> c.m == r.m)
    ensures FirstDay(interval, c) == FirstDay(interval, r) && NextFirstDay(interval, c) == NextFirstDay(interval, r)
  {
    hide MakeDay;
  }

  predicate Clocked(s: State) {
    && (forall i | 0 <= i < |s.rows| :: s.rows[i].receivedAt <= s.now)
    && (forall k | 0 <= k < |s.flight| && s.flight[k].Some? :: s.flight[k].value.decidedAt <= s.now)
  }

  /** Admitted rows of the period, and decisions that may become such. */
  function Held(s: State, userId: nat, start: int, end: int): nat {
    Admitted(Select(s.rows, userId, Between(start, end))) + Pending(s.flight, userId, end)
  }

  function Bound(limit: int, peak: nat): nat {
    (if limit > 1 then limit - 1 else 0) + peak
  }

  lemma {:induction false} NothingYet(rows: seq<Row>, userId: nat, start: int, end: int)
    requires forall i | 0 <= i < |rows| :: rows[i].receivedAt < start
    ensures Select(rows, userId, Between(start, end)) == []
  {
    if |rows| > 0 { NothingYet(rows[..|rows| - 1], userId, start, end); }
  }

  lemma DecideHeld(s: State, step: Step, userId: nat, plan: Plan, at: int, start: int, end: int, peak: nat)
    requires step.Decide? && Clocked(s) && IsPeriod(plan, at, start, end) && plan.limit.Some?
    requires step.userId == userId && start <= s.now < end ==> step.plan == plan
    requires Held(s, userId, start, end) <= Bound(plan.limit.value, peak)
    requires InFlight(Apply(s, step).flight, userId) <= peak
    ensures Held(Apply(s, step), userId, start, end) <= Bound(plan.limit.value, peak)
  {
    hide Period, CivilAt, Select, Admitted, Pending, InFlight, Overlimit, IsPeriod, CountInPeriod;
    var d := Decision(step.userId, s.now, Overlimit(s.rows, step.userId, step.plan, s.now));
    FlightAdd(s.flight, Some(d), userId, end);
    PendingInFlight(Apply(s, step).flight, userId, end);
    if Awaited(Some(d), userId, end) {
      if s.now < start {
        NothingYet(s.rows, userId, start, end);
        NothingAdmitted(userId, Between(start, end));
      } else {
        PeriodAt(plan, at, start, end, s.now);
        CountIsSelect(s.rows, userId, start, end, Between(start, end));
        AdmittedBound(Select(s.rows, userId, Between(start, end)));
        WithinLimit(s.rows, userId, plan, s.now, start, end);
      }
    }
  }

  lemma WithinLimit(rows: seq<Row>, userId: nat, plan: Plan, now: int, start: int, end: int)
    requires Period(plan.interval, plan.subscriptionEnd, now) == (start, end) && plan.limit.Some?
    ensures !Overlimit(rows, userId, plan, now) ==> CountInPeriod(rows, userId, start, end) < plan.limit.value
  {
    hide Period;
  }

  lemma StoreHeld(s: State, k: nat, at: int, userId: nat, start: int, end: int)
    ensures Held(Apply(s, Store(k, at)), userId, start, end) <= Held(s, userId, start, end)
  {
    hide Select, Admitted, Pending, InFlight;
    if CanStore(s, k, at) {
      var d := s.flight[k].value;
      FlightDone(s.flight, k, userId, end);
      AppendSelect(s.rows, Row(d.userId, at, d.overlimit), userId, Between(start, end));
    }
  }

  lemma ApplyClocked(s: State, step: Step)
    requires Clocked(s)
    ensures Clocked(Apply(s, step))
  {
    hide Overlimit;
  }

  lemma {:induction false} RunClocked(now: int, steps: seq<Step>)
    ensures Clocked(Run(now, steps))
  {
    hide Apply;
    if |steps| > 0 {
      RunClocked(now, steps[..|steps| - 1]);
      ApplyClocked(Run(now, steps[..|steps| - 1]), steps[|steps| - 1]);
    }
  }

  lemma PeakPrefix(now: int, steps: seq<Step>, userId: nat, peak: nat)
    requires |steps| > 0
    ensures Peak(now, steps, userId, peak)
        <==> Peak(now, steps[..|steps| - 1], userId, peak) && InFlight(Run(now, steps).flight, userId) <= peak
  {
    hide Run, InFlight;
    var before := steps[..|steps| - 1];
    assert forall n | 0 <= n <= |before| :: before[..n] == steps[..n];
    assert steps[..|steps|] == steps;
  }

  lemma PlanPrefix(now: int, steps: seq<Step>, userId: nat, plan: Plan, start: int, end: int)
    requires |steps| > 0 && OnPlan(now, steps, userId, plan, start, end)
    ensures var before, step := steps[..|steps| - 1], steps[|steps| - 1];
      && OnPlan(now, before, userId, plan, start, end)
      && (step.Decide? && step.userId == userId && start <= Run(now, before).now < end ==> step.plan == plan)
  {
    hide Run;
    var before := steps[..|steps| - 1];
    assert forall n | 0 <= n <= |before| :: before[..n] == steps[..n];
  }

  lemma {:induction false} HeldBound(now: int, steps: seq<Step>, userId: nat, plan: Plan, at: int, start: int, end: int,
                                     peak: nat)
    requires plan.limit.Some? && IsPeriod(plan, at, start, end)
    requires OnPlan(now, steps, userId, plan, start, end) && Peak(now, steps, userId, peak)
    ensures Held(Run(now, steps), userId, start, end) <= Bound(plan.limit.value, peak)
  {
    hide IsPeriod, OnPlan, Peak, Held, Bound, Clocked, Apply;
    if |steps| == 0 {
      EmptyHeld(now, userId, start, end);
    } else {
      var before, step := steps[..|steps| - 1], steps[|steps| - 1];
      PeakPrefix(now, steps, userId, peak);
      PlanPrefix(now, steps, userId, plan, start, end);
      HeldBound(now, before, userId, plan, at, start, end, peak);
      RunClocked(now, before);
      match step {
        case Decide(_, _) => DecideHeld(Run(now, before), step, userId, plan, at, start, end, peak);
        case Store(k, t) => StoreHeld(Run(now, before), k, t, userId, start, end);
        case _ => OtherHeld(Run(now, before), step, userId, start, end);
      }
    }
  }

  lemma EmptyHeld(now: int, userId: nat, start: int, end: int)
    ensures Held(State(now, [], []), userId, start, end) == 0
  {
  }

  lemma OtherHeld(s: State, step: Step, userId: nat, start: int, end: int)
    requires step.Wait? || step.Remove?
    ensures Held(Apply(s, step), userId, start, end) <= Held(s, userId, start, end)
  {
    hide Select, Admitted, Pending;
    if step.Remove? && step.index < |s.rows| { DeleteAdmitted(s.rows, step.index, userId, Between(start, end)); }
  }

  /** If the user never has more than P requests between decision and save, a period holds at most
      L - 1 + P stored requests that are not overlimit (P, if L is below 1), in every run, whatever is
      deleted and whoever else sends. With P = 1, that is without overlap, this is the limit itself. */
  lemma OverlapBound(now: int, steps: seq<Step>, userId: nat, plan: Plan, at: int, start: int, end: int, peak: nat)
    requires plan.limit.Some? && IsPeriod(plan, at, start, end)
    requires OnPlan(now, steps, userId, plan, start, end) && Peak(now, steps, userId, peak)
    ensures Admitted(Select(Run(now, steps).rows, userId, Between(start, end))) <= Bound(plan.limit.value, peak)
  {
    hide IsPeriod, OnPlan, Peak, Run, Select, Admitted, Pending;
    HeldBound(now, steps, userId, plan, at, start, end, peak);
  }

  /* ----- the bound is reached ----- */

  /** n requests one after the other, then p decisions, then the saves of the first m of these. */
  function Serial(now: int, plan: Plan, n: nat): seq<Step> {
    if n == 0 then [] else Serial(now, plan, n - 1) + [Decide(0, plan)] + [Store(n - 1, now)]
  }

  function Decisions(now: int, plan: Plan, n: nat, p: nat): seq<Step> {
    if p == 0 then Serial(now, plan, n) else Decisions(now, plan, n, p - 1) + [Decide(0, plan)]
  }

  function Burst(now: int, plan: Plan, n: nat, p: nat, m: nat): seq<Step> {
    if m == 0 then Decisions(now, plan, n, p) else Burst(now, plan, n, p, m - 1) + [Store(n + m - 1, now)]
  }

  /** The user has n admitted rows, all received now, and p decisions in flight after n + m that are
      done. */
  predicate Reached(s: State, now: int, n: nat, done: nat, p: nat) {
    && s.now == now
    && |s.rows| == n && (forall i | 0 <= i < n :: s.rows[i] == Row(0, now, false))
    && |s.flight| == done + p
    && (forall k | 0 <= k < done :: s.flight[k].None?)
    && (forall k | done <= k < done + p :: s.flight[k] == Some(Decision(0, now, false)))
  }

  lemma {:induction false} AllAdmitted(rows: seq<Row>, now: int, start: int, end: int)
    requires start <= now < end && forall i | 0 <= i < |rows| :: rows[i] == Row(0, now, false)
    ensures Select(rows, 0, Between(start, end)) == rows && Admitted(rows) == |rows|
    ensures CountInPeriod(rows, 0, start, end) == |rows|
  {
    if |rows| > 0 {
      AllAdmitted(rows[..|rows| - 1], now, start, end);
      assert rows == rows[..|rows| - 1] + [rows[|rows| - 1]];
    }
  }

  lemma {:induction false} InFlightReached(flight: seq<Option<Decision>>, now: int, done: nat, p: nat)
    requires |flight| == done + p
    requires forall k | 0 <= k < done :: flight[k].None?
    requires forall k | done <= k < done + p :: flight[k] == Some(Decision(0, now, false))
    ensures InFlight(flight, 0) == p
  {
    if p > 0 {
      InFlightReached(flight[..|flight| - 1], now, done, p - 1);
    } else if done > 0 {
      InFlightReached(flight[..|flight| - 1], now, done - 1, 0);
    }
  }

  lemma DecideReached(s: State, now: int, n: nat, done: nat, p: nat, plan: Plan, start: int, end: int)
    requires Reached(s, now, n, done, p) && start <= now < end
    requires Period(plan.interval, plan.subscriptionEnd, now) == (start, end)
    requires plan.limit.Some? && n < plan.limit.value
    ensures Reached(Apply(s, Decide(0, plan)), now, n, done, p + 1)
  {
    hide Period, CountInPeriod, Overlimit;
    AllAdmitted(s.rows, now, start, end);
    WithinIff(s.rows, plan, now, start, end);
  }

  lemma WithinIff(rows: seq<Row>, plan: Plan, now: int, start: int, end: int)
    requires Period(plan.interval, plan.subscriptionEnd, now) == (start, end) && plan.limit.Some?
    ensures Overlimit(rows, 0, plan, now) <==> CountInPeriod(rows, 0, start, end) >= plan.limit.value
  {
    hide Period;
  }

  lemma StoreReached(s: State, now: int, n: nat, done: nat, p: nat)
    requires Reached(s, now, n, done, p) && p > 0
    ensures Reached(Apply(s, Store(done, now)), now, n + 1, done + 1, p - 1)
  {
  }

  lemma RunStep(now: int, steps: seq<Step>, step: Step)
    ensures Run(now, steps + [step]) == Apply(Run(now, steps), step)
  {
    hide Apply;
    assert (steps + [step])[..|steps|] == steps;
  }

  /** One step further on a run that stays within the peak. */
  lemma PeakStep(now: int, steps: seq<Step>, step: Step, peak: nat)
    requires Peak(now, steps, 0, peak) && InFlight(Run(now, steps + [step]).flight, 0) <= peak
    ensures Peak(now, steps + [step], 0, peak)
  {
    hide Run, Peak;
    PeakPrefix(now, steps + [step], 0, peak);
    assert (steps + [step])[..|steps|] == steps;
  }

  lemma ExtendReached(now: int, steps: seq<Step>, step: Step, peak: nat, n: nat, done: nat, p: nat)
    requires Peak(now, steps, 0, peak) && Reached(Apply(Run(now, steps), step), now, n, done, p) && p <= peak
    ensures Peak(now, steps + [step], 0, peak) && Reached(Run(now, steps + [step]), now, n, done, p)
  {
    hide Run, Apply, Peak;
    RunStep(now, steps, step);
    InFlightReached(Run(now, steps + [step]).flight, now, done, p);
    PeakStep(now, steps, step, peak);
  }

  lemma {:induction false} SerialReached(now: int, plan: Plan, n: nat, start: int, end: int, peak: nat)
    requires Period(plan.interval, plan.subscriptionEnd, now) == (start, end) && start <= now < end
    requires plan.limit.Some? && n <= plan.limit.value && peak > 0
    ensures Peak(now, Serial(now, plan, n), 0, peak) && Reached(Run(now, Serial(now, plan, n)), now, n, n, 0)
  {
    hide Period, Apply, Peak, Reached, Run;
    if n == 0 {
      NothingReached(now, peak);
    } else {
      SerialReached(now, plan, n - 1, start, end, peak);
      var before, decide, store := Serial(now, plan, n - 1), Decide(0, plan), Store(n - 1, now);
      DecideReached(Run(now, before), now, n - 1, n - 1, 0, plan, start, end);
      ExtendReached(now, before, decide, peak, n - 1, n - 1, 1);
      StoreReached(Run(now, before + [decide]), now, n - 1, n - 1, 1);
      ExtendReached(now, before + [decide], store, peak, n, n, 0);
    }
  }

  lemma NothingReached(now: int, peak: nat)
    ensures Peak(now, [], 0, peak) && Reached(Run(now, []), now, 0, 0, 0)
  {
  }

  lemma {:induction false} DecisionsReached(now: int, plan: Plan, n: nat, p: nat, start: int, end: int, peak: nat)
    requires Period(plan.interval, plan.subscriptionEnd, now) == (start, end) && start <= now < end
    requires plan.limit.Some? && n < plan.limit.value && p <= peak && peak > 0
    ensures Peak(now, Decisions(now, plan, n, p), 0, peak)
    ensures Reached(Run(now, Decisions(now, plan, n, p)), now, n, n, p)
  {
    hide Period, Apply, Peak, Reached, Run, Serial;
    if p == 0 {
      SerialReached(now, plan, n, start, end, peak);
    } else {
      DecisionsReached(now, plan, n, p - 1, start, end, peak);
      var before := Decisions(now, plan, n, p - 1);
      DecideReached(Run(now, before), now, n, n, p - 1, plan, start, end);
      ExtendReached(now, before, Decide(0, plan), peak, n, n, p);
    }
  }

  lemma {:induction false} BurstReached(now: int, plan: Plan, n: nat, p: nat, m: nat, start: int, end: int)
    requires Period(plan.interval, plan.subscriptionEnd, now) == (start, end) && start <= now < end
    requires plan.limit.Some? && n < plan.limit.value && m <= p && p > 0
    ensures Peak(now, Burst(now, plan, n, p, m), 0, p)
    ensures Reached(Run(now, Burst(now, plan, n, p, m)), now, n + m, n + m, p - m)
  {
    hide Period, Apply, Peak, Reached, Run, Decisions;
    if m == 0 {
      DecisionsReached(now, plan, n, p, start, end, p);
    } else {
      BurstReached(now, plan, n, p, m - 1, start, end);
      var before := Burst(now, plan, n, p, m - 1);
      StoreReached(Run(now, before), now, n + m - 1, n + m - 1, p - m + 1);
      ExtendReached(now, before, Store(n + m - 1, now), p, n + m, n + m, p - m);
    }
  }

  /** For every limit L and every overlap P there is a run with at most P requests of the user between
      decision and save in which the period ends up with exactly L - 1 + P that are not overlimit: the
      quota is exceeded by P - 1. */
  lemma OverlapReachesBound(now: int, plan: Plan, peak: nat, start: int, end: int)
    requires Period(plan.interval, plan.subscriptionEnd, now) == (start, end) && start <= now < end
    requires plan.limit.Some? && plan.limit.value >= 1 && peak > 0
    ensures var steps := Burst(now, plan, plan.limit.value - 1, peak, peak);
      && Peak(now, steps, 0, peak)
      && Admitted(Select(Run(now, steps).rows, 0, Between(start, end))) == plan.limit.value - 1 + peak
  {
    hide Period, Peak, Run, Burst, Select, Admitted;
    var n := plan.limit.value - 1;
    BurstReached(now, plan, n, peak, peak, start, end);
    AllAdmitted(Run(now, Burst(now, plan, n, peak, peak)).rows, now, start, end);
  }

  /** No row and no decision in flight of the user is overlimit. */
  predicate NeverOver(s: State, userId: nat) {
    && (forall i | 0 <= i < |s.rows| && s.rows[i].userId == userId :: !s.rows[i].overlimit)
    && (forall k | 0 <= k < |s.flight| && s.flight[k].Some? && s.flight[k].value.userId == userId ::
          !s.flight[k].value.overlimit)
  }

  /** A user who has no limit at any of his decisions never has an overlimit row, whatever overlaps. */
  lemma {:induction false} UnlimitedOverlap(now: int, steps: seq<Step>, userId: nat)
    requires forall i | 0 <= i < |steps| && steps[i].Decide? && steps[i].userId == userId :: steps[i].plan.limit.None?
    ensures NeverOver(Run(now, steps), userId)
  {
    hide Apply, NeverOver;
    if |steps| > 0 {
      UnlimitedOverlap(now, steps[..|steps| - 1], userId);
      UnlimitedStep(Run(now, steps[..|steps| - 1]), steps[|steps| - 1], userId);
    } else {
      NothingOver(now, userId);
    }
  }

  lemma UnlimitedStep(s: State, step: Step, userId: nat)
    requires NeverOver(s, userId) && (step.Decide? && step.userId == userId ==> step.plan.limit.None?)
    ensures NeverOver(Apply(s, step), userId)
  {
    hide Period, CountInPeriod;
  }

  lemma NothingOver(now: int, userId: nat)
    ensures NeverOver(State(now, [], []), userId)
  {
  }
}
