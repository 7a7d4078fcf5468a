/** The alert table: detection with deduplication and cooldown, scanner resolution, user patches. */
module Alerts {
  import opened Wrappers

  const ALERT_COOLDOWN_MS := 30 * 60 * 1000

  datatype ScannerStatus = Active | Resolved

  datatype Status = Unread | Read | Dismissed

  /** A row of webhook_alerts. Instants are milliseconds; an alert is named by its position. */
  datatype Alert = Alert(
    endpoint: nat,
    kind: string,
    userId: nat,
    status: Status,
    scanner: ScannerStatus,
    createdAt: int,
    updatedAt: int)

  /** `notified` lists the alerts that in-app notifications were published for. */
  datatype Store = Store(now: int, alerts: seq<Alert>, notified: seq<nat>)

  predicate Of(a: Alert, e: nat, kind: string) {
    a.endpoint == e && a.kind == kind
  }

  predicate Eligible(a: Alert, e: nat, kind: string, onlyActive: bool) {
    Of(a, e, kind) && (onlyActive ==> a.scanner == Active)
  }

  /** Among the first n alerts, the one created last. */
  function NewestAmong(alerts: seq<Alert>, n: nat, e: nat, kind: string, onlyActive: bool): (r: Option<nat>)
    requires n <= |alerts|
    ensures r.Some? ==> r.value < n && Eligible(alerts[r.value], e, kind, onlyActive)
  {
    if n == 0 then None
    else
      var best := NewestAmong(alerts, n - 1, e, kind, onlyActive);
      if Eligible(alerts[n - 1], e, kind, onlyActive)
         && (best.None? || alerts[n - 1].createdAt >= alerts[best.value].createdAt)
      then Some(n - 1)
      else best
  }

  lemma {:induction false} NewestIsLast(alerts: seq<Alert>, n: nat, e: nat, kind: string, onlyActive: bool)
    requires n <= |alerts|
    ensures var r := NewestAmong(alerts, n, e, kind, onlyActive);
      && (r.Some? ==> forall j | 0 <= j < n && Eligible(alerts[j], e, kind, onlyActive) ::
                        alerts[j].createdAt <= alerts[r.value].createdAt)
      && (r.None? ==> forall j | 0 <= j < n :: !Eligible(alerts[j], e, kind, onlyActive))
  {
    if n > 0 { NewestIsLast(alerts, n - 1, e, kind, onlyActive); }
  }

  function Newest(alerts: seq<Alert>, e: nat, kind: string, onlyActive: bool): (r: Option<nat>)
    ensures r.Some? ==> r.value < |alerts| && Eligible(alerts[r.value], e, kind, onlyActive)
    ensures r.Some? ==> forall j | 0 <= j < |alerts| && Eligible(alerts[j], e, kind, onlyActive) ::
                          alerts[j].createdAt <= alerts[r.value].createdAt
    ensures r.None? ==> forall j | 0 <= j < |alerts| :: !Eligible(alerts[j], e, kind, onlyActive)
  {
    NewestIsLast(alerts, |alerts|, e, kind, onlyActive);
    NewestAmong(alerts, |alerts|, e, kind, onlyActive)
  }

  predicate InCooldown(s: Store, e: nat, kind: string) {
    var latest := Newest(s.alerts, e, kind, false);
    && latest.Some?
    && s.alerts[latest.value].scanner == Resolved
    && s.now - s.alerts[latest.value].updatedAt < ALERT_COOLDOWN_MS
  }

  predicate HasActive(s: Store, e: nat, kind: string) {
    Newest(s.alerts, e, kind, true).Some?
  }

  function Detect(s: Store, e: nat, kind: string, userId: nat): Store {
    if HasActive(s, e, kind) || InCooldown(s, e, kind) then s
    else
      s.(alerts := s.alerts + [Alert(e, kind, userId, Unread, Active, s.now, s.now)],
         notified := s.notified + [|s.alerts|])
  }

  /** A scanner that finds nothing wrong any more. */
  function ResolveActive(s: Store, e: nat, kind: string): Store {
    var active := Newest(s.alerts, e, kind, true);
    if active.None? then s
    else
      var a := s.alerts[active.value];
      s.(alerts := s.alerts[active.value := a.(scanner := Resolved, updatedAt := s.now)])
  }

  /** A user patch; anything written gets a new updatedAt, even if nothing else changes. */
  function Patch(s: Store, id: nat, userId: nat, status: Option<Status>, scanner: Option<ScannerStatus>): Store {
    if id >= |s.alerts| || s.alerts[id].userId != userId then s
    else
      var a := s.alerts[id];
      s.(alerts := s.alerts[id := a.(status := if status.Some? then status.value else a.status,
                                     scanner := if scanner.Some? then scanner.value else a.scanner,
                                     updatedAt := s.now)])
  }

  datatype Step =
    | Wait(ms: nat)
    | DetectAlert(e: nat, kind: string, userId: nat)
    | ScannerResolve(e: nat, kind: string)
    | UserPatch(id: nat, userId: nat, status: Option<Status>, scanner: Option<ScannerStatus>)

  function Apply(s: Store, step: Step): Store {
    match step
    case Wait(ms) => s.(now := s.now + ms)
    case DetectAlert(e, kind, userId) => Detect(s, e, kind, userId)
    case ScannerResolve(e, kind) => ResolveActive(s, e, kind)
    case UserPatch(id, userId, status, scanner) => Patch(s, id, userId, status, scanner)
  }

  function Run(now: int, steps: seq<Step>): Store {
    if |steps| == 0 then Store(now, [], []) else Apply(Run(now, steps[..|steps| - 1]), steps[|steps| - 1])
  }

  /* ----- the listener and the repository, as they run ----- */

  class WebhookAlert {
    const endpoint: nat
    const kind: string
    const userId: nat
    const createdAt: int
    var status: Status
    var scanner: ScannerStatus
    var updatedAt: int

    constructor (a: Alert)
      ensures ToAlert() == a
    {
      endpoint, kind, userId, createdAt := a.endpoint, a.kind, a.userId, a.createdAt;
      status, scanner, updatedAt := a.status, a.scanner, a.updatedAt;
    }

    function ToAlert(): Alert
      reads this
    {
      Alert(endpoint, kind, userId, status, scanner, createdAt, updatedAt)
    }

    method Update(status: Option<Status>, scanner: Option<ScannerStatus>)
      modifies this
      ensures ToAlert() == old(ToAlert()).(
        status := if status.Some? then status.value else old(this.status),
        scanner := if scanner.Some? then scanner.value else old(this.scanner))
    {
      if status.Some? && status.value != this.status { this.status := status.value; }
      if scanner.Some? && scanner.value != this.scanner { this.scanner := scanner.value; }
    }

    method Resolve(now: int)
      modifies this
      ensures ToAlert() == old(ToAlert()).(scanner := Resolved, updatedAt := now)
    {
      scanner := Resolved;
      updatedAt := now;
    }
  }

  datatype PatchOutcome = NotFound | Unauthorized | Patched

  class AlertStore {
    var now: int
    var alerts: seq<Alert>
    var notified: seq<nat>

    constructor (now: int)
      ensures Now() == Store(now, [], [])
    {
      this.now, alerts, notified := now, [], [];
    }

    function Now(): Store
      reads this
    {
      Store(now, alerts, notified)
    }

    method FindNewest(e: nat, kind: string, onlyActive: bool) returns (r: Option<nat>)
      ensures r == Newest(alerts, e, kind, onlyActive)
    {
      r := None;
      for i := 0 to |alerts|
        invariant r == NewestAmong(alerts, i, e, kind, onlyActive)
      {
        if Eligible(alerts[i], e, kind, onlyActive)
           && (r.None? || alerts[i].createdAt >= alerts[r.value].createdAt) {
          r := Some(i);
        }
      }
    }

    /** WebhookAlertRepository.update: a fresh entity, stamped now. */
    method Save(id: nat, alert: WebhookAlert)
      requires id < |alerts|
      modifies `alerts
      ensures alerts == old(alerts)[id := alert.ToAlert().(updatedAt := now)]
    {
      alerts := alerts[id := Alert(alert.endpoint, alert.kind, alert.userId, alert.status, alert.scanner,
                                   alert.createdAt, now)];
    }

    method Handle(e: nat, kind: string, userId: nat) returns (id: nat)
      modifies this
      ensures Now() == Detect(old(Now()), e, kind, userId)
      ensures id < |alerts| && Of(alerts[id], e, kind)
    {
      var active := FindNewest(e, kind, true);
      if active.Some? {
        return active.value;
      }
      var latest := FindNewest(e, kind, false);
      if latest.Some? && alerts[latest.value].scanner == Resolved
         && now - alerts[latest.value].updatedAt < ALERT_COOLDOWN_MS {
        return latest.value;
      }
      id := |alerts|;
      alerts := alerts + [Alert(e, kind, userId, Unread, Active, now, now)];
      notified := notified + [id];
    }

    method ResolveIfActive(e: nat, kind: string)
      modifies this
      ensures Now() == ResolveActive(old(Now()), e, kind)
    {
      var active := FindNewest(e, kind, true);
      if active.Some? {
        var alert := new WebhookAlert(alerts[active.value]);
        alert.Resolve(now);
        Save(active.value, alert);
      }
    }

    method ExecuteUpdate(id: nat, userId: nat, status: Option<Status>, scanner: Option<ScannerStatus>)
      returns (outcome: PatchOutcome)
      modifies this
      ensures Now() == Patch(old(Now()), id, userId, status, scanner)
      ensures outcome.Patched? <==> id < |old(alerts)| && old(alerts)[id].userId == userId
      ensures outcome.NotFound? <==> id >= |old(alerts)|
    {
      if id >= |alerts| {
        return NotFound;
      }
      var alert := new WebhookAlert(alerts[id]);
      if alert.userId != userId {
        return Unauthorized;
      }
      alert.Update(status, scanner);
      Save(id, alert);
      outcome := Patched;
    }
  }

  /* ----- what every run keeps ----- */

  predicate Stamped(s: Store, i: nat)
    requires i < |s.alerts|
  {
    s.alerts[i].createdAt <= s.alerts[i].updatedAt <= s.now
  }

  /** Two alerts of one endpoint and type are created 30 minutes apart. */
  predicate Apart(alerts: seq<Alert>, i: nat, j: nat)
    requires i < |alerts| && j < |alerts|
  {
    Of(alerts[i], alerts[j].endpoint, alerts[j].kind) ==> alerts[i].createdAt + ALERT_COOLDOWN_MS <= alerts[j].createdAt
  }

  predicate Inv(s: Store) {
    && (forall i | 0 <= i < |s.alerts| :: Stamped(s, i))
    && (forall i, j | 0 <= i < j < |s.alerts| :: Apart(s.alerts, i, j))
    && |s.notified| == |s.alerts|
    && (forall i | 0 <= i < |s.notified| :: s.notified[i] == i)
  }

  lemma DetectInv(s: Store, e: nat, kind: string, userId: nat)
    requires Inv(s)
    ensures Inv(Detect(s, e, kind, userId))
  {
    hide Newest;
    var s' := Detect(s, e, kind, userId);
    if s' != s {
      var n := |s.alerts|;
      var latest := Newest(s.alerts, e, kind, false);
      forall i | 0 <= i < n ensures Apart(s'.alerts, i, n) {
        if Of(s.alerts[i], e, kind) { assert Stamped(s, latest.value); }
      }
      forall i, j | 0 <= i < j < n ensures Apart(s'.alerts, i, j) {
        assert Apart(s.alerts, i, j);
      }
      forall i | 0 <= i < n ensures Stamped(s', i) { assert Stamped(s, i); }
    }
  }

  /** Writing an alert back, with what cannot change unchanged. */
  lemma WriteInv(s: Store, id: nat, a: Alert)
    requires Inv(s) && id < |s.alerts|
    requires a == s.alerts[id].(status := a.status, scanner := a.scanner, updatedAt := s.now)
    ensures Inv(s.(alerts := s.alerts[id := a]))
  {
    var s' := s.(alerts := s.alerts[id := a]);
    assert Stamped(s, id);
    forall i | 0 <= i < |s.alerts| ensures Stamped(s', i) { assert Stamped(s, i); }
    forall i, j | 0 <= i < j < |s.alerts| ensures Apart(s'.alerts, i, j) { assert Apart(s.alerts, i, j); }
  }

  lemma ApplyInv(s: Store, step: Step)
    requires Inv(s)
    ensures Inv(Apply(s, step))
  {
    hide Newest, Detect, Inv;
    match step {
      case Wait(ms) => WaitInv(s, ms);
      case DetectAlert(e, kind, userId) => DetectInv(s, e, kind, userId);
      case ScannerResolve(e, kind) =>
        var active := Newest(s.alerts, e, kind, true);
        if active.Some? {
          WriteInv(s, active.value, s.alerts[active.value].(scanner := Resolved, updatedAt := s.now));
        }
      case UserPatch(id, userId, status, scanner) =>
        var s' := Patch(s, id, userId, status, scanner);
        if s' != s { WriteInv(s, id, s'.alerts[id]); }
    }
  }

  lemma WaitInv(s: Store, ms: nat)
    requires Inv(s)
    ensures Inv(s.(now := s.now + ms))
  {
    var s' := s.(now := s.now + ms);
    forall i | 0 <= i < |s.alerts| ensures Stamped(s', i) { assert Stamped(s, i); }
  }

  lemma {:induction false} RunInv(now: int, steps: seq<Step>)
    ensures Inv(Run(now, steps))
  {
    hide Apply, Inv;
    if |steps| > 0 {
      RunInv(now, steps[..|steps| - 1]);
      ApplyInv(Run(now, steps[..|steps| - 1]), steps[|steps| - 1]);
    } else {
      EmptyInv(now);
    }
  }

  lemma EmptyInv(now: int)
    ensures Inv(Store(now, [], []))
  {
  }

  /** Any two alerts of one endpoint and type are created at least 30 minutes apart, whatever is
      detected, resolved or patched in between (reactivation included), and each alert has exactly
      one in-app notification. */
  lemma CreationsApart(now: int, steps: seq<Step>, i: nat, j: nat)
    requires i < j < |Run(now, steps).alerts|
    ensures var s := Run(now, steps);
      && (Of(s.alerts[i], s.alerts[j].endpoint, s.alerts[j].kind)
          ==> s.alerts[j].createdAt - s.alerts[i].createdAt >= 30 * 60000)
      && s.notified == seq(|s.alerts|, k => k)
  {
    hide Run;
    RunInv(now, steps);
    var s := Run(now, steps);
    assert Apart(s.alerts, i, j);
    assert s.notified == seq(|s.alerts|, k => k);
  }

  /** The alerts among the first n that were created for an endpoint and type between two instants,
      both included. */
  function Created(alerts: seq<Alert>, n: nat, e: nat, kind: string, from: int, to: int): nat
    requires n <= |alerts|
  {
    if n == 0 then 0
    else
      Created(alerts, n - 1, e, kind, from, to)
      + (if Of(alerts[n - 1], e, kind) && from <= alerts[n - 1].createdAt <= to then 1 else 0)
  }

  lemma {:induction false} CreatedSpaced(alerts: seq<Alert>, n: nat, e: nat, kind: string, from: int, to: int,
                                        last: int)
    requires n <= |alerts|
    requires forall i, j | 0 <= i < j < n :: Apart(alerts, i, j)
    requires forall i | 0 <= i < n && Of(alerts[i], e, kind) && from <= alerts[i].createdAt <= to ::
               alerts[i].createdAt <= last
    ensures var c := Created(alerts, n, e, kind, from, to); c > 0 ==> (c - 1) * ALERT_COOLDOWN_MS <= last - from
  {
    if n > 0 {
      var a := alerts[n - 1];
      if Of(a, e, kind) && from <= a.createdAt <= to {
        forall i | 0 <= i < n - 1 && Of(alerts[i], e, kind)
          ensures alerts[i].createdAt <= a.createdAt - ALERT_COOLDOWN_MS
        {
          assert Apart(alerts, i, n - 1);
        }
        CreatedSpaced(alerts, n - 1, e, kind, from, to, a.createdAt - ALERT_COOLDOWN_MS);
      } else {
        CreatedSpaced(alerts, n - 1, e, kind, from, to, last);
      }
    }
  }

  /** Any closed window of W minutes sees at most floor(W / 30) + 1 new alerts of one endpoint and
      type, however often it is detected. */
  lemma AlertRate(now: int, steps: seq<Step>, e: nat, kind: string, from: int, minutes: nat)
    ensures var alerts := Run(now, steps).alerts;
      Created(alerts, |alerts|, e, kind, from, from + minutes * 60000) <= minutes / 30 + 1
  {
    hide Run, Created;
    RunInv(now, steps);
    var alerts := Run(now, steps).alerts;
    CreatedSpaced(alerts, |alerts|, e, kind, from, from + minutes * 60000, from + minutes * 60000);
  }

  /* ----- one active alert ----- */

  predicate SingleActive(alerts: seq<Alert>, e: nat, kind: string) {
    forall i, j | 0 <= i < j < |alerts| :: !(Eligible(alerts[i], e, kind, true) && Eligible(alerts[j], e, kind, true))
  }

  predicate Reactivates(step: Step) {
    step.UserPatch? && step.scanner == Some(Active)
  }

  lemma ApplySingle(s: Store, step: Step, e: nat, kind: string)
    requires SingleActive(s.alerts, e, kind) && !Reactivates(step)
    ensures SingleActive(Apply(s, step).alerts, e, kind)
  {
    hide Newest, InCooldown;
  }

  /** An endpoint and type never has two active alerts unless a user reactivates one. */
  lemma {:induction false} AtMostOneActive(now: int, steps: seq<Step>, e: nat, kind: string)
    requires forall i | 0 <= i < |steps| :: !Reactivates(steps[i])
    ensures SingleActive(Run(now, steps).alerts, e, kind)
  {
    hide Apply, SingleActive;
    if |steps| > 0 {
      AtMostOneActive(now, steps[..|steps| - 1], e, kind);
      ApplySingle(Run(now, steps[..|steps| - 1]), steps[|steps| - 1], e, kind);
    } else {
      NoneActive(now, e, kind);
    }
  }

  lemma NoneActive(now: int, e: nat, kind: string)
    ensures SingleActive(Store(now, [], []).alerts, e, kind)
  {
  }

  /** A reactivating patch keeps it exactly if no other alert of that endpoint and type is active. */
  lemma ReactivationIff(s: Store, id: nat, userId: nat, status: Option<Status>)
    requires id < |s.alerts| && s.alerts[id].userId == userId
    requires SingleActive(s.alerts, s.alerts[id].endpoint, s.alerts[id].kind)
    ensures var e, kind := s.alerts[id].endpoint, s.alerts[id].kind;
      SingleActive(Patch(s, id, userId, status, Some(Active)).alerts, e, kind)
      <==> forall i | 0 <= i < |s.alerts| && i != id :: !Eligible(s.alerts[i], e, kind, true)
  {
    var e, kind := s.alerts[id].endpoint, s.alerts[id].kind;
    var s' := Patch(s, id, userId, status, Some(Active));
    assert Eligible(s'.alerts[id], e, kind, true);
    forall i | 0 <= i < |s.alerts| && i != id ensures s'.alerts[i] == s.alerts[i] {
    }
  }

  /** The step is an owner's patch that reactivates an alert of the endpoint and type while another of
      them is active. */
  predicate Doubles(s: Store, step: Step, e: nat, kind: string) {
    && Reactivates(step)
    && step.id < |s.alerts| && s.alerts[step.id].userId == step.userId && Of(s.alerts[step.id], e, kind)
    && exists i | 0 <= i < |s.alerts| && i != step.id :: Eligible(s.alerts[i], e, kind, true)
  }

  lemma StepSingleIff(s: Store, step: Step, e: nat, kind: string)
    requires SingleActive(s.alerts, e, kind)
    ensures SingleActive(Apply(s, step).alerts, e, kind) <==> !Doubles(s, step, e, kind)
  {
    if !Reactivates(step) {
      ApplySingle(s, step, e, kind);
    } else if step.id < |s.alerts| && s.alerts[step.id].userId == step.userId {
      if Of(s.alerts[step.id], e, kind) {
        ReactivationIff(s, step.id, step.userId, step.status);
      } else {
        var s' := Apply(s, step);
        assert forall i | 0 <= i < |s.alerts| ::
          Eligible(s'.alerts[i], e, kind, true) == Eligible(s.alerts[i], e, kind, true);
      }
    }
  }

  ghost predicate AlwaysSingle(now: int, steps: seq<Step>, e: nat, kind: string) {
    forall n | 0 <= n <= |steps| :: SingleActive(Run(now, steps[..n]).alerts, e, kind)
  }

  ghost predicate NeverDoubles(now: int, steps: seq<Step>, e: nat, kind: string) {
    forall n | 0 <= n < |steps| :: !Doubles(Run(now, steps[..n]), steps[n], e, kind)
  }

  lemma SinglePrefix(now: int, steps: seq<Step>, e: nat, kind: string)
    requires |steps| > 0
    ensures var before := steps[..|steps| - 1];
      && (AlwaysSingle(now, steps, e, kind) <==>
            AlwaysSingle(now, before, e, kind) && SingleActive(Run(now, steps).alerts, e, kind))
      && (NeverDoubles(now, steps, e, kind) <==>
            NeverDoubles(now, before, e, kind) && !Doubles(Run(now, before), steps[|steps| - 1], e, kind))
  {
    hide Run, SingleActive, Doubles;
    var before := steps[..|steps| - 1];
    assert forall n | 0 <= n <= |before| :: before[..n] == steps[..n];
    assert steps[..|steps|] == steps;
  }

  lemma LastSingle(now: int, steps: seq<Step>, e: nat, kind: string)
    ensures AlwaysSingle(now, steps, e, kind) ==> SingleActive(Run(now, steps).alerts, e, kind)
  {
    hide Run, SingleActive;
    assert steps[..|steps|] == steps;
  }

  /** Throughout a run an endpoint and type has at most one active alert exactly if no owner in the run
      reactivates one while another is active. */
  lemma {:induction false} SingleActiveIff(now: int, steps: seq<Step>, e: nat, kind: string)
    ensures AlwaysSingle(now, steps, e, kind) <==> NeverDoubles(now, steps, e, kind)
  {
    hide Apply, SingleActive, Doubles, AlwaysSingle, NeverDoubles;
    if |steps| > 0 {
      var before := steps[..|steps| - 1];
      SingleActiveIff(now, before, e, kind);
      SinglePrefix(now, steps, e, kind);
      LastSingle(now, before, e, kind);
      if SingleActive(Run(now, before).alerts, e, kind) {
        StepSingleIff(Run(now, before), steps[|steps| - 1], e, kind);
      }
    } else {
      assert steps == [];
      NothingSingle(now, e, kind);
    }
  }

  lemma NothingSingle(now: int, e: nat, kind: string)
    ensures AlwaysSingle(now, [], e, kind) && NeverDoubles(now, [], e, kind)
  {
  }

  /** Any patch of the newest alert that does not reactivate it restarts its cooldown, even one that
      only marks it as read: with no alert active, a detection ms later raises an alert exactly if ms
      is 30 minutes or more. */
  lemma TouchRestartsCooldown(s: Store, e: nat, kind: string, status: Option<Status>, scanner: Option<ScannerStatus>,
                              ms: nat, userId: nat)
    requires !HasActive(s, e, kind) && Newest(s.alerts, e, kind, false).Some? && scanner != Some(Active)
    ensures var id := Newest(s.alerts, e, kind, false).value;
      var s' := Apply(Patch(s, id, s.alerts[id].userId, status, scanner), Wait(ms));
      Detect(s', e, kind, userId) != s' <==> ms >= 30 * 60000
  {
    hide Newest;
    var id := Newest(s.alerts, e, kind, false).value;
    var touched := Patch(s, id, s.alerts[id].userId, status, scanner).alerts;
    assert !Eligible(s.alerts[id], e, kind, true);
    forall i | 0 <= i < |s.alerts| ensures touched[i].createdAt == s.alerts[i].createdAt
      && Of(touched[i], e, kind) == Of(s.alerts[i], e, kind) && !Eligible(touched[i], e, kind, true)
    {
      assert !Eligible(s.alerts[i], e, kind, true);
    }
    NewestSame(s.alerts, touched, e, kind);
  }

  /** A detection raises an alert exactly if none is active and the newest of the endpoint and type, if
      there is one, was last written at least 30 minutes ago; it is the user's, unread and active. */
  lemma DetectIff(s: Store, e: nat, kind: string, userId: nat)
    ensures var s' := Detect(s, e, kind, userId);
      var newest := Newest(s.alerts, e, kind, false);
      && (s' != s <==>
            && (forall i | 0 <= i < |s.alerts| && Of(s.alerts[i], e, kind) :: s.alerts[i].scanner == Resolved)
            && (newest.Some? ==> s.now - s.alerts[newest.value].updatedAt >= 30 * 60000))
      && (s' != s ==>
            && s'.alerts == s.alerts + [Alert(e, kind, userId, Unread, Active, s.now, s.now)]
            && s'.notified == s.notified + [|s.alerts|])
      && s'.now == s.now
  {
    hide NewestAmong;
    var active := Newest(s.alerts, e, kind, true);
    if active.None? {
      forall i | 0 <= i < |s.alerts| && Of(s.alerts[i], e, kind) ensures s.alerts[i].scanner == Resolved {
        assert !Eligible(s.alerts[i], e, kind, true);
      }
    } else {
      assert Eligible(s.alerts[active.value], e, kind, true);
    }
  }

  /** Of the endpoint and type no alert comes after alert i. */
  predicate ComesLast(alerts: seq<Alert>, i: nat, e: nat, kind: string)
    requires i < |alerts|
  {
    forall j | 0 <= j < |alerts| && alerts[j].endpoint == e && alerts[j].kind == kind ::
      alerts[j].createdAt < alerts[i].createdAt || (alerts[j].createdAt == alerts[i].createdAt && j <= i)
  }

  lemma {:induction false} NewestTies(alerts: seq<Alert>, n: nat, e: nat, kind: string, j: nat)
    requires j < n <= |alerts| && Of(alerts[j], e, kind)
    ensures var r := NewestAmong(alerts, n, e, kind, false);
      r.Some? && (alerts[j].createdAt < alerts[r.value].createdAt
                  || (alerts[j].createdAt == alerts[r.value].createdAt && j <= r.value))
  {
    if j < n - 1 { NewestTies(alerts, n - 1, e, kind, j); }
  }

  /** Only alerts of the endpoint and type matter to a detection: it raises one exactly if all of them are
      resolved and the one created last, if any, was last written at least 30 minutes ago. */
  lemma OwnAlertsDecide(s: Store, e: nat, kind: string, userId: nat)
    ensures Detect(s, e, kind, userId) != s <==>
      forall i | 0 <= i < |s.alerts| && s.alerts[i].endpoint == e && s.alerts[i].kind == kind ::
        && s.alerts[i].scanner == Resolved
        && (ComesLast(s.alerts, i, e, kind) ==> s.now - s.alerts[i].updatedAt >= 30 * 60000)
  {
    hide Detect, NewestAmong;
    DetectIff(s, e, kind, userId);
    var newest := Newest(s.alerts, e, kind, false);
    forall j | 0 <= j < |s.alerts| && s.alerts[j].endpoint == e && s.alerts[j].kind == kind
      ensures newest.Some? && (ComesLast(s.alerts, j, e, kind) ==> j == newest.value)
      ensures newest.Some? && (s.alerts[j].createdAt < s.alerts[newest.value].createdAt
        || (s.alerts[j].createdAt == s.alerts[newest.value].createdAt && j <= newest.value))
    {
      NewestTies(s.alerts, |s.alerts|, e, kind, j);
    }
  }

  /** Detections and resolutions leave the alerts of other endpoints and types alone. */
  lemma OthersStay(s: Store, e: nat, kind: string, userId: nat, i: nat)
    requires i < |s.alerts| && (s.alerts[i].endpoint != e || s.alerts[i].kind != kind)
    ensures var d, r := Detect(s, e, kind, userId), ResolveActive(s, e, kind);
      |s.alerts| <= |d.alerts| && d.alerts[i] == s.alerts[i] && |r.alerts| == |s.alerts| && r.alerts[i] == s.alerts[i]
  {
    hide NewestAmong;
  }

  /** An owner's patch stores what is given, for that alert only; anyone else's does nothing. */
  lemma PatchIs(s: Store, id: nat, userId: nat, status: Option<Status>, scanner: Option<ScannerStatus>)
    ensures var s' := Patch(s, id, userId, status, scanner);
      && s'.notified == s.notified && s'.now == s.now && |s'.alerts| == |s.alerts|
      && (forall i | 0 <= i < |s.alerts| && (i != id || s.alerts[i].userId != userId) :: s'.alerts[i] == s.alerts[i])
      && (id < |s.alerts| && s.alerts[id].userId == userId ==>
            && (status.Some? ==> s'.alerts[id].status == status.value)
            && (status.None? ==> s'.alerts[id].status == s.alerts[id].status)
            && (scanner.Some? ==> s'.alerts[id].scanner == scanner.value)
            && (scanner.None? ==> s'.alerts[id].scanner == s.alerts[id].scanner)
            && s'.alerts[id].updatedAt == s.now && s'.alerts[id].createdAt == s.alerts[id].createdAt)
  {
  }

  /** A scanner's resolution starts the cooldown: with the active alert the newest and no other active,
      a detection ms later raises an alert exactly if ms is 30 minutes or more. */
  lemma ResolveStartsCooldown(s: Store, e: nat, kind: string, userId: nat, ms: nat)
    requires SingleActive(s.alerts, e, kind) && HasActive(s, e, kind)
    requires Newest(s.alerts, e, kind, true) == Newest(s.alerts, e, kind, false)
    ensures var s' := Apply(ResolveActive(s, e, kind), Wait(ms));
      Detect(s', e, kind, userId) != s' <==> ms >= 30 * 60000
  {
    hide Newest, Detect;
    var id := Newest(s.alerts, e, kind, true).value;
    var s' := Apply(ResolveActive(s, e, kind), Wait(ms));
    forall i | 0 <= i < |s.alerts|
      ensures s'.alerts[i].createdAt == s.alerts[i].createdAt && Of(s'.alerts[i], e, kind) == Of(s.alerts[i], e, kind)
      ensures !Eligible(s'.alerts[i], e, kind, true)
    {
      if i != id { assert s'.alerts[i] == s.alerts[i]; }
    }
    NewestSame(s.alerts, s'.alerts, e, kind);
    DetectIff(s', e, kind, userId);
  }

  /* ----- no alert after a resolution ----- */

  /** Alert i was resolved at instant t or later, as the newest of its endpoint and type; those created
      since come 30 minutes after t. */
  predicate Cooling(s: Store, i: nat, t: int) {
    && i < |s.alerts|
    && (forall j | i < j < |s.alerts| :: LaterBy(s.alerts, i, j, t))
    && (Youngest(s.alerts, i) ==> s.alerts[i].scanner == Resolved && s.alerts[i].updatedAt >= t)
  }

  /** No later alert is of its endpoint and type. */
  predicate Youngest(alerts: seq<Alert>, i: nat)
    requires i < |alerts|
  {
    forall j | i < j < |alerts| :: !Of(alerts[j], alerts[i].endpoint, alerts[i].kind)
  }

  predicate LaterBy(alerts: seq<Alert>, i: nat, j: nat, t: int)
    requires i < |alerts| && j < |alerts|
  {
    Of(alerts[j], alerts[i].endpoint, alerts[i].kind) ==> alerts[j].createdAt >= t + 30 * 60000
  }

  lemma CoolingDetect(s: Store, e: nat, kind: string, userId: nat, i: nat, t: int)
    requires Inv(s) && Cooling(s, i, t)
    ensures Cooling(Detect(s, e, kind, userId), i, t)
  {
    hide Detect, Newest;
    DetectIff(s, e, kind, userId);
    var s', n := Detect(s, e, kind, userId), |s.alerts|;
    if s' != s {
      var newest := Newest(s.alerts, e, kind, false);
      forall j | i < j < n ensures LaterBy(s'.alerts, i, j, t) { assert LaterBy(s.alerts, i, j, t); }
      if Of(s.alerts[i], e, kind) {
        NewestAfter(s, e, kind, i);
        assert Stamped(s, newest.value);
        if newest.value > i { assert LaterBy(s.alerts, i, newest.value, t); }
        assert Of(s'.alerts[n], s'.alerts[i].endpoint, s'.alerts[i].kind);
      } else {
        YoungestSame(s.alerts, s'.alerts, i);
      }
      assert LaterBy(s'.alerts, i, n, t);
    }
  }

  lemma YoungestSame(a: seq<Alert>, b: seq<Alert>, i: nat)
    requires i < |a| <= |b|
    requires forall j | i <= j < |a| :: b[j].endpoint == a[j].endpoint && b[j].kind == a[j].kind
    ensures Youngest(b, i) ==> Youngest(a, i)
  {
    if Youngest(b, i) {
      forall j | i < j < |a| ensures !Of(a[j], a[i].endpoint, a[i].kind) {
        assert !Of(b[j], b[i].endpoint, b[i].kind);
      }
    }
  }

  /** The newest alert is i or a later one; if it is i there is no later one. */
  lemma NewestAfter(s: Store, e: nat, kind: string, i: nat)
    requires Inv(s) && i < |s.alerts| && Of(s.alerts[i], e, kind)
    ensures var newest := Newest(s.alerts, e, kind, false);
      && newest.Some? && newest.value >= i
      && (newest.value == i ==> Youngest(s.alerts, i))
  {
    hide Newest;
    var newest := Newest(s.alerts, e, kind, false);
    assert Eligible(s.alerts[i], e, kind, false);
    var m := newest.value;
    assert m < i ==> Apart(s.alerts, m, i);
    forall j | m < j < |s.alerts| ensures !Of(s.alerts[j], e, kind) {
      assert Apart(s.alerts, m, j);
      assert Of(s.alerts[j], e, kind) ==> Eligible(s.alerts[j], e, kind, false);
    }
  }

  /** A written alert keeps its place in time; only its statuses and updatedAt change. */
  lemma CoolingWrite(s: Store, id: nat, a: Alert, i: nat, t: int)
    requires Inv(s) && Cooling(s, i, t) && id < |s.alerts| && t <= s.now
    requires a == s.alerts[id].(status := a.status, scanner := a.scanner, updatedAt := s.now)
    requires a.scanner == Resolved || a.scanner == s.alerts[id].scanner
    ensures Cooling(s.(alerts := s.alerts[id := a]), i, t)
  {
    var s' := s.(alerts := s.alerts[id := a]);
    forall j | i < j < |s.alerts| ensures LaterBy(s'.alerts, i, j, t) { assert LaterBy(s.alerts, i, j, t); }
    YoungestSame(s.alerts, s'.alerts, i);
  }

  lemma CoolingStep(s: Store, step: Step, i: nat, t: int)
    requires Inv(s) && Cooling(s, i, t) && t <= s.now && !Reactivates(step)
    ensures Cooling(Apply(s, step), i, t) && t <= Apply(s, step).now
  {
    hide Newest, Detect, Cooling, Inv;
    match step {
      case Wait(ms) => CoolingWait(s, ms, i, t);
      case DetectAlert(e, kind, userId) =>
        CoolingDetect(s, e, kind, userId, i, t);
        DetectIff(s, e, kind, userId);
      case ScannerResolve(e, kind) =>
        var active := Newest(s.alerts, e, kind, true);
        if active.Some? {
          CoolingWrite(s, active.value, s.alerts[active.value].(scanner := Resolved, updatedAt := s.now), i, t);
        }
      case UserPatch(id, userId, status, scanner) =>
        var s' := Patch(s, id, userId, status, scanner);
        if s' != s { CoolingWrite(s, id, s'.alerts[id], i, t); }
    }
  }

  lemma CoolingWait(s: Store, ms: nat, i: nat, t: int)
    requires Cooling(s, i, t)
    ensures Cooling(s.(now := s.now + ms), i, t)
  {
    var s' := s.(now := s.now + ms);
    forall j | i < j < |s'.alerts| ensures LaterBy(s'.alerts, i, j, t) { assert LaterBy(s.alerts, i, j, t); }
  }

  /** As long as nothing is reactivated, an active alert has no later one of its endpoint and type. */
  predicate ActiveNewest(s: Store) {
    forall i, j | 0 <= i < j < |s.alerts| && s.alerts[i].scanner == Active ::
      !Of(s.alerts[j], s.alerts[i].endpoint, s.alerts[i].kind)
  }

  lemma ActiveNewestStep(s: Store, step: Step)
    requires ActiveNewest(s) && !Reactivates(step)
    ensures ActiveNewest(Apply(s, step))
  {
    hide Newest, Detect;
    match step {
      case DetectAlert(e, kind, userId) =>
        DetectIff(s, e, kind, userId);
      case _ =>
    }
  }

  lemma {:induction false} RunActiveNewest(now: int, steps: seq<Step>)
    requires forall i | 0 <= i < |steps| :: !Reactivates(steps[i])
    ensures ActiveNewest(Run(now, steps))
  {
    hide Apply, ActiveNewest;
    if |steps| > 0 {
      RunActiveNewest(now, steps[..|steps| - 1]);
      ActiveNewestStep(Run(now, steps[..|steps| - 1]), steps[|steps| - 1]);
    } else {
      NothingNewest(now);
    }
  }

  lemma NothingNewest(now: int)
    ensures ActiveNewest(Store(now, [], []))
  {
  }

  /** The step resolves alert i. */
  predicate Resolves(s: Store, step: Step, i: nat) {
    && i < |s.alerts| && i < |Apply(s, step).alerts|
    && s.alerts[i].scanner == Active && Apply(s, step).alerts[i].scanner == Resolved
  }

  lemma ResolvesCools(s: Store, step: Step, i: nat)
    requires Inv(s) && ActiveNewest(s) && Resolves(s, step, i)
    ensures Cooling(Apply(s, step), i, s.now) && Apply(s, step).now == s.now
  {
    hide Newest, Detect;
    match step {
      case DetectAlert(e, kind, userId) => DetectIff(s, e, kind, userId);
      case ScannerResolve(e, kind) => ResolveKeepsPlaces(s, e, kind);
      case _ =>
    }
  }

  lemma ResolveKeepsPlaces(s: Store, e: nat, kind: string)
    ensures var s' := ResolveActive(s, e, kind);
      && |s'.alerts| == |s.alerts| && s'.now == s.now
      && forall j | 0 <= j < |s.alerts| ::
           s'.alerts[j] == s.alerts[j] || s'.alerts[j] == s.alerts[j].(scanner := Resolved, updatedAt := s.now)
  {
    hide Newest;
  }

  lemma {:induction false} RunCooling(now: int, before: seq<Step>, after: seq<Step>, i: nat, t: int)
    requires Cooling(Run(now, before), i, t) && t <= Run(now, before).now
    requires forall k | 0 <= k < |after| :: !Reactivates(after[k])
    ensures Cooling(Run(now, before + after), i, t) && t <= Run(now, before + after).now
    decreases |after|
  {
    hide Apply, Cooling, Inv;
    if |after| == 0 {
      assert before + after == before;
    } else {
      var init, steps := after[..|after| - 1], before + after;
      assert steps[..|steps| - 1] == before + init && steps[|steps| - 1] == after[|after| - 1];
      RunCooling(now, before, init, i, t);
      RunInv(now, before + init);
      CoolingStep(Run(now, before + init), after[|after| - 1], i, t);
    }
  }

  /** In a run without reactivation, however an alert is resolved, by a scanner or by its owner, none of
      its endpoint and type is created within the next 30 minutes. */
  lemma NoAlertAfterResolution(now: int, before: seq<Step>, step: Step, after: seq<Step>, i: nat, j: nat)
    requires forall k | 0 <= k < |before| :: !Reactivates(before[k])
    requires !Reactivates(step) && forall k | 0 <= k < |after| :: !Reactivates(after[k])
    requires Resolves(Run(now, before), step, i)
    requires i < j < |Run(now, before + [step] + after).alerts|
    ensures var s, s' := Run(now, before), Run(now, before + [step] + after);
      && i < |s.alerts|
      && (Of(s'.alerts[j], s'.alerts[i].endpoint, s'.alerts[i].kind) ==> s'.alerts[j].createdAt >= s.now + 30 * 60000)
  {
    hide Run, Apply, Inv, ActiveNewest;
    var s := Run(now, before);
    RunInv(now, before);
    RunActiveNewest(now, before);
    ResolvesCools(s, step, i);
    RunOne(now, before, step);
    RunCooling(now, before + [step], after, i, s.now);
    assert LaterBy(Run(now, before + [step] + after).alerts, i, j, s.now);
  }

  lemma RunOne(now: int, steps: seq<Step>, step: Step)
    ensures Run(now, steps + [step]) == Apply(Run(now, steps), step)
  {
    hide Apply;
    assert (steps + [step])[..|steps|] == steps;
  }

  lemma {:induction false} NewestSameAmong(a: seq<Alert>, b: seq<Alert>, n: nat, e: nat, kind: string)
    requires n <= |a| == |b|
    requires forall i | 0 <= i < n :: b[i].createdAt == a[i].createdAt && Of(b[i], e, kind) == Of(a[i], e, kind)
    ensures NewestAmong(a, n, e, kind, false) == NewestAmong(b, n, e, kind, false)
  {
    if n > 0 { NewestSameAmong(a, b, n - 1, e, kind); }
  }

  lemma NewestSame(a: seq<Alert>, b: seq<Alert>, e: nat, kind: string)
    requires |a| == |b|
    requires forall i | 0 <= i < |a| :: b[i].createdAt == a[i].createdAt && Of(b[i], e, kind) == Of(a[i], e, kind)
    ensures Newest(a, e, kind, false) == Newest(b, e, kind, false)
  {
    NewestSameAmong(a, b, |a|, e, kind);
  }
}
