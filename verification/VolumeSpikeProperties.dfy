/** What a volume scan reports, and which alerts are active after it. */
module VolumeSpikeProperties {
  import opened Alerts
  import opened VolumeSpike
  import opened Wrappers

  /** A count is the number of the endpoint's requests from start, included, to end, excluded. */
  lemma {:induction false} CountIsNumber(requests: seq<Request>, n: nat, e: nat, start: int, end: int)
    requires n <= |requests|
    ensures CountFirst(requests, n, e, start, end)
         == |set i | 0 <= i < n && requests[i].endpoint == e && start <= requests[i].receivedAt < end|
  {
    var all := set i | 0 <= i < n && requests[i].endpoint == e && start <= requests[i].receivedAt < end;
    if n > 0 {
      CountIsNumber(requests, n - 1, e, start, end);
      var before := set i | 0 <= i < n - 1 && requests[i].endpoint == e && start <= requests[i].receivedAt < end;
      var r := requests[n - 1];
      assert all == if r.endpoint == e && start <= r.receivedAt < end then before + {n - 1} else before;
    } else {
      assert all == {};
    }
  }

  /** The windows are the last 3600 seconds and the last 604800. */
  lemma WindowsAre(requests: seq<Request>, e: nat, now: int)
    ensures Current(requests, e, now)
         == |set i | 0 <= i < |requests| && requests[i].endpoint == e && now - 3600000 <= requests[i].receivedAt < now|
    ensures SevenDays(requests, e, now)
         == |set i | 0 <= i < |requests| && requests[i].endpoint == e
                     && now - 604800000 <= requests[i].receivedAt < now|
  {
    CountIsNumber(requests, |requests|, e, now - 3600000, now);
    CountIsNumber(requests, |requests|, e, now - 604800000, now);
  }

  predicate Spiking(currentRate: nat, sevenDays: nat) {
    sevenDays > 0 && 56 * currentRate > sevenDays
  }

  predicate SpikingNow(ep: Endpoint, requests: seq<Request>, now: int) {
    Spiking(Current(requests, ep.id, now), SevenDays(requests, ep.id, now))
  }

  /** Endpoints whose alerts the scan decides on. */
  predicate Considered(ep: Endpoint, requests: seq<Request>, now: int) {
    ep.access && SevenDays(requests, ep.id, now) > 0
  }

  lemma RateRule(currentRate: nat, sevenDays: nat)
    ensures var normalRate := sevenDays as real / 168.0;
      && (normalRate <= 0.0 <==> sevenDays == 0)
      && (currentRate as real > normalRate * 3.0 <==> 56 * currentRate > sevenDays)
      && (Spiking(currentRate, sevenDays) ==>
            && currentRate as real / normalRate > 3.0
            && (currentRate <= sevenDays ==> currentRate as real / normalRate <= 168.0))
  {
    var c, d := currentRate as real, sevenDays as real;
    var normalRate := d / 168.0;
    assert normalRate * 168.0 == d;
    assert (56 * currentRate) as real == 56.0 * c;
    if sevenDays > 0 {
      QuotientOrder(c, normalRate, 3.0);
      QuotientOrder(c, normalRate, 168.0);
    }
  }

  lemma QuotientOrder(c: real, rate: real, x: real)
    requires rate > 0.0
    ensures c / rate > x <==> c > rate * x
  {
    var m := c / rate;
    assert m * rate == c;
    assert (m - x) * rate == m * rate - x * rate;
  }

  /** One endpoint: an event exactly if its user has access and 56 times the last hour's requests
      exceed the last week's, which are not 0. */
  lemma ScanEndpointIs(s: Scan, ep: Endpoint, currentRate: nat, sevenDays: nat)
    ensures var s' := ScanEndpoint(s, ep, currentRate, sevenDays);
      if ep.access && Spiking(currentRate, sevenDays) then
        && s'.store == Detect(s.store, ep.id, "volume_spike", ep.userId)
        && |s'.spikes| == |s.spikes| + 1 && s'.spikes[..|s.spikes|] == s.spikes
        && s'.spikes[|s.spikes|]
           == Spike(ep.id, sevenDays as real / 168.0, currentRate as real,
                    currentRate as real / (sevenDays as real / 168.0))
        && s'.spikes[|s.spikes|].multiplier > 3.0
        && (currentRate <= sevenDays ==> s'.spikes[|s.spikes|].multiplier <= 168.0)
      else
        && s'.spikes == s.spikes
        && s'.store == (if ep.access && sevenDays > 0 then ResolveActive(s.store, ep.id, "volume_spike") else s.store)
  {
    hide Detect, ResolveActive;
    RateRule(currentRate, sevenDays);
  }

  /** The endpoints among the first n that spike and have access, in order. */
  function SpikingOf(list: seq<Endpoint>, n: nat, requests: seq<Request>, now: int): seq<nat>
    requires n <= |list|
  {
    if n == 0 then []
    else
      SpikingOf(list, n - 1, requests, now)
      + (if list[n - 1].access && SpikingNow(list[n - 1], requests, now) then [list[n - 1].id] else [])
  }

  /** What an event reports: the last hour, the weekly average per hour, and the one over the other. */
  predicate ReportedAt(spike: Spike, requests: seq<Request>, now: int) {
    var sevenDays := SevenDays(requests, spike.endpoint, now);
    && sevenDays > 0
    && spike.normalRate == sevenDays as real / 168.0
    && spike.currentRate == Current(requests, spike.endpoint, now) as real
    && spike.multiplier == spike.currentRate / (sevenDays as real / 168.0)
  }

  predicate Reported(spikes: seq<Spike>, requests: seq<Request>, now: int) {
    forall i | 0 <= i < |spikes| :: ReportedAt(spikes[i], requests, now)
  }

  predicate InRange(spikes: seq<Spike>) {
    forall i | 0 <= i < |spikes| :: 3.0 < spikes[i].multiplier <= 168.0
  }

  function EndpointsOf(spikes: seq<Spike>): seq<nat> {
    seq(|spikes|, i requires 0 <= i < |spikes| => spikes[i].endpoint)
  }

  lemma {:induction false} SpikesOfFirst(s: Scan, list: seq<Endpoint>, n: nat, requests: seq<Request>)
    requires n <= |list| && s.spikes == []
    ensures var s' := ScanFirst(s, list, n, requests);
      && EndpointsOf(s'.spikes) == SpikingOf(list, n, requests, s.store.now)
      && InRange(s'.spikes) && Reported(s'.spikes, requests, s.store.now)
  {
    hide ScanEndpoint, Count, Detect, ResolveActive;
    if n > 0 {
      SpikesOfFirst(s, list, n - 1, requests);
      var s1, ep, now := ScanFirst(s, list, n - 1, requests), list[n - 1], s.store.now;
      ScanEndpointIs(s1, ep, Current(requests, ep.id, now), SevenDays(requests, ep.id, now));
      CurrentWithin(requests, ep.id, now);
    }
  }

  lemma CurrentWithin(requests: seq<Request>, e: nat, now: int)
    ensures Current(requests, e, now) <= SevenDays(requests, e, now)
  {
    CountWider(requests, |requests|, e, now - BASELINE_DAYS * HOURS_IN_DAY * HOURLY_WINDOW_MS,
               now - HOURLY_WINDOW_MS, now);
  }

  /** A pass publishes one event for each active endpoint with access whose last hour exceeds three
      times the weekly average, in the order of the listing, and no other; each reported multiplier
      is above 3 and at most 168. The listing holds every active endpoint, each once. */
  lemma PassSpikes(s: Scan, endpoints: seq<Endpoint>, requests: seq<Request>)
    requires s.spikes == [] && Unique(endpoints)
    ensures var list := Listed(endpoints);
      && EndpointsOf(Pass(s, endpoints, requests).spikes) == SpikingOf(list, |list|, requests, s.store.now)
      && InRange(Pass(s, endpoints, requests).spikes)
      && Reported(Pass(s, endpoints, requests).spikes, requests, s.store.now)
      && Unique(list) && NewestFirst(list)
      && forall ep :: ep in list <==> ep in endpoints && ep.isActive
  {
    hide ScanFirst, SpikingOf, EndpointsOf, InRange, Reported, Unique, Listed;
    var list := Listed(endpoints);
    ListedNewestFirst(endpoints);
    SpikesOfFirst(s, list, |list|, requests);
    ListedUnique(endpoints);
    forall ep ensures ep in list <==> ep in endpoints && ep.isActive { ListedHas(endpoints, ep); }
  }

  /* ----- the alerts after a pass ----- */

  predicate SameAt(a: Alert, b: Alert, e: nat, kind: string) {
    Of(a, e, kind) || Of(b, e, kind) ==> a == b
  }

  /** Two alert lists show the same alerts for an endpoint and type, in the same places. */
  predicate SameFor(a: seq<Alert>, b: seq<Alert>, e: nat, kind: string) {
    && |a| <= |b|
    && (forall i | 0 <= i < |a| :: SameAt(a[i], b[i], e, kind))
    && (forall i | |a| <= i < |b| :: !Of(b[i], e, kind))
  }

  lemma NewestStep(alerts: seq<Alert>, n: nat, e: nat, kind: string, onlyActive: bool)
    requires n < |alerts|
    ensures var best := NewestAmong(alerts, n, e, kind, onlyActive);
      NewestAmong(alerts, n + 1, e, kind, onlyActive)
      == if Eligible(alerts[n], e, kind, onlyActive)
            && (best.None? || alerts[n].createdAt >= alerts[best.value].createdAt)
         then Some(n) else best
  {
  }

  lemma NewestSameStep(a: seq<Alert>, b: seq<Alert>, n: nat, e: nat, kind: string, onlyActive: bool)
    requires n < |a| && n < |b| && SameAt(a[n], b[n], e, kind)
    requires NewestAmong(a, n, e, kind, onlyActive) == NewestAmong(b, n, e, kind, onlyActive)
    requires var best := NewestAmong(a, n, e, kind, onlyActive); best.Some? ==> a[best.value] == b[best.value]
    ensures NewestAmong(a, n + 1, e, kind, onlyActive) == NewestAmong(b, n + 1, e, kind, onlyActive)
  {
    hide NewestAmong;
    NewestStep(a, n, e, kind, onlyActive);
    NewestStep(b, n, e, kind, onlyActive);
  }

  lemma NewestIs(alerts: seq<Alert>, n: nat, e: nat, kind: string, onlyActive: bool)
    requires n <= |alerts|
    ensures var best := NewestAmong(alerts, n, e, kind, onlyActive);
      best.Some? ==> best.value < n && Of(alerts[best.value], e, kind)
  {
  }

  lemma {:induction false} NewestSamePrefix(a: seq<Alert>, b: seq<Alert>, n: nat, e: nat, kind: string,
                                            onlyActive: bool)
    requires n <= |a| && n <= |b| && forall i | 0 <= i < n :: SameAt(a[i], b[i], e, kind)
    ensures NewestAmong(a, n, e, kind, onlyActive) == NewestAmong(b, n, e, kind, onlyActive)
  {
    if n > 0 {
      hide NewestAmong;
      NewestSamePrefix(a, b, n - 1, e, kind, onlyActive);
      NewestIs(a, n - 1, e, kind, onlyActive);
      NewestSameStep(a, b, n - 1, e, kind, onlyActive);
    }
  }

  lemma {:induction false} NewestQuiet(b: seq<Alert>, m: nat, n: nat, e: nat, kind: string, onlyActive: bool)
    requires m <= n <= |b| && forall i | m <= i < n :: !Of(b[i], e, kind)
    ensures NewestAmong(b, n, e, kind, onlyActive) == NewestAmong(b, m, e, kind, onlyActive)
  {
    if m < n {
      hide NewestAmong, Of;
      NewestQuiet(b, m, n - 1, e, kind, onlyActive);
      NewestStep(b, n - 1, e, kind, onlyActive);
    }
  }

  lemma NewestFrame(a: seq<Alert>, b: seq<Alert>, e: nat, kind: string, onlyActive: bool)
    requires SameFor(a, b, e, kind)
    ensures NewestAmong(b, |b|, e, kind, onlyActive) == NewestAmong(a, |a|, e, kind, onlyActive)
  {
    hide NewestAmong, Of, SameAt;
    NewestSamePrefix(a, b, |a|, e, kind, onlyActive);
    NewestQuiet(b, |a|, |b|, e, kind, onlyActive);
  }

  lemma FrameFor(s: Store, s': Store, e: nat, kind: string)
    requires SameFor(s.alerts, s'.alerts, e, kind) && s'.now == s.now
    ensures HasActive(s', e, kind) == HasActive(s, e, kind)
    ensures InCooldown(s', e, kind) == InCooldown(s, e, kind)
    ensures SingleActive(s.alerts, e, kind) ==> SingleActive(s'.alerts, e, kind)
  {
    hide NewestAmong;
    NewestFrame(s.alerts, s'.alerts, e, kind, true);
    NewestFrame(s.alerts, s'.alerts, e, kind, false);
    if SingleActive(s.alerts, e, kind) {
      forall i, j | 0 <= i < j < |s'.alerts|
        ensures !(Eligible(s'.alerts[i], e, kind, true) && Eligible(s'.alerts[j], e, kind, true))
      {
        SingleFrame(s.alerts, s'.alerts, i, j, e, kind);
      }
    }
  }

  lemma SingleFrame(a: seq<Alert>, b: seq<Alert>, i: nat, j: nat, e: nat, kind: string)
    requires SameFor(a, b, e, kind) && SingleActive(a, e, kind) && i < j < |b|
    ensures !(Eligible(b[i], e, kind, true) && Eligible(b[j], e, kind, true))
  {
    if j < |a| { assert !(Eligible(a[i], e, kind, true) && Eligible(a[j], e, kind, true)); }
  }

  lemma ScanOther(s: Scan, ep: Endpoint, currentRate: nat, sevenDays: nat, e: nat)
    requires e != ep.id
    ensures var s' := ScanEndpoint(s, ep, currentRate, sevenDays);
      SameFor(s.store.alerts, s'.store.alerts, e, VOLUME_SPIKE) && s'.store.now == s.store.now
  {
    hide Newest, InCooldown, HasActive;
    ScanEndpointIs(s, ep, currentRate, sevenDays);
  }

  /** What the scan of an endpoint leaves: nothing active if it does not spike; if it does, an active
      alert, unless the last one was resolved less than 30 minutes ago. */
  predicate Settled(s: Store, ep: Endpoint, requests: seq<Request>, now: int) {
    Considered(ep, requests, now) ==>
      if SpikingNow(ep, requests, now) then HasActive(s, ep.id, VOLUME_SPIKE) || InCooldown(s, ep.id, VOLUME_SPIKE)
      else !HasActive(s, ep.id, VOLUME_SPIKE)
  }

  lemma DetectLeaves(s: Store, e: nat, kind: string, userId: nat)
    ensures var s' := Detect(s, e, kind, userId); HasActive(s', e, kind) || InCooldown(s', e, kind)
  {
    hide Newest, InCooldown;
    var s' := Detect(s, e, kind, userId);
    if s' != s { assert Eligible(s'.alerts[|s.alerts|], e, kind, true); }
  }

  lemma ResolveLeaves(s: Store, e: nat, kind: string)
    requires SingleActive(s.alerts, e, kind)
    ensures !HasActive(ResolveActive(s, e, kind), e, kind)
  {
    hide Newest;
    var active := Newest(s.alerts, e, kind, true);
    var s' := ResolveActive(s, e, kind);
    forall i | 0 <= i < |s'.alerts| ensures !Eligible(s'.alerts[i], e, kind, true) {
      if active.Some? && i != active.value { assert s'.alerts[i] == s.alerts[i]; }
    }
  }

  lemma ScanSettles(s: Scan, ep: Endpoint, requests: seq<Request>, now: int)
    requires SingleActive(s.store.alerts, ep.id, VOLUME_SPIKE)
    ensures Settled(ScanEndpoint(s, ep, Current(requests, ep.id, now), SevenDays(requests, ep.id, now)).store,
                    ep, requests, now)
  {
    hide HasActive, InCooldown, Detect, ResolveActive, Count, ScanEndpoint, SingleActive;
    ScanEndpointIs(s, ep, Current(requests, ep.id, now), SevenDays(requests, ep.id, now));
    DetectLeaves(s.store, ep.id, VOLUME_SPIKE, ep.userId);
    ResolveLeaves(s.store, ep.id, VOLUME_SPIKE);
  }

  lemma {:induction false} FirstSettles(s: Scan, list: seq<Endpoint>, n: nat, p: nat, requests: seq<Request>)
    requires Unique(list) && n <= |list| && p < |list|
    requires SingleActive(s.store.alerts, list[p].id, VOLUME_SPIKE)
    ensures var s' := ScanFirst(s, list, n, requests);
      && s'.store.now == s.store.now
      && if p < n then Settled(s'.store, list[p], requests, s.store.now)
         else SingleActive(s'.store.alerts, list[p].id, VOLUME_SPIKE)
  {
    hide HasActive, InCooldown, SingleActive, ScanEndpoint, SameFor, SpikingNow, Considered, Count;
    if n > 0 {
      FirstSettles(s, list, n - 1, p, requests);
      var s1, ep, now := ScanFirst(s, list, n - 1, requests), list[n - 1], s.store.now;
      var current, sevenDays := Current(requests, ep.id, now), SevenDays(requests, ep.id, now);
      if p == n - 1 {
        ScanSettles(s1, ep, requests, now);
        ScanNow(s1, ep, current, sevenDays);
      } else {
        ScanOther(s1, ep, current, sevenDays, list[p].id);
        FrameFor(s1.store, ScanEndpoint(s1, ep, current, sevenDays).store, list[p].id, VOLUME_SPIKE);
      }
    }
  }

  lemma ScanNow(s: Scan, ep: Endpoint, currentRate: nat, sevenDays: nat)
    ensures ScanEndpoint(s, ep, currentRate, sevenDays).store.now == s.store.now
  {
  }

  /** After a pass, an active endpoint with access and requests in the last week has an active
      volume_spike alert only if it is spiking; and if it is spiking it has one, or its last one
      was resolved less than 30 minutes ago. */
  lemma PassSettles(s: Scan, endpoints: seq<Endpoint>, requests: seq<Request>, ep: Endpoint)
    requires Unique(endpoints) && ep in endpoints && ep.isActive
    requires Considered(ep, requests, s.store.now)
    requires SingleActive(s.store.alerts, ep.id, VOLUME_SPIKE)
    ensures var s', spiking := Pass(s, endpoints, requests).store, SpikingNow(ep, requests, s.store.now);
      && (HasActive(s', ep.id, VOLUME_SPIKE) ==> spiking)
      && (spiking ==> HasActive(s', ep.id, VOLUME_SPIKE) || InCooldown(s', ep.id, VOLUME_SPIKE))
  {
    hide HasActive, InCooldown, SingleActive, ScanFirst, Listed, SpikingNow, Considered, Unique;
    var list := Listed(endpoints);
    ListedUnique(endpoints);
    ListedHas(endpoints, ep);
    var p :| 0 <= p < |list| && list[p] == ep;
    FirstSettles(s, list, |list|, p, requests);
  }

  /** A pass is detections and scanner resolutions, so it keeps what they keep. */
  lemma {:induction false} PassKeeps(s: Scan, list: seq<Endpoint>, n: nat, requests: seq<Request>, e: nat, kind: string)
    requires n <= |list| && Inv(s.store) && SingleActive(s.store.alerts, e, kind)
    ensures var s' := ScanFirst(s, list, n, requests); Inv(s'.store) && SingleActive(s'.store.alerts, e, kind)
  {
    hide Detect, ResolveActive, ScanEndpoint, Inv, SingleActive, Count;
    if n > 0 {
      PassKeeps(s, list, n - 1, requests, e, kind);
      var s1, ep, now := ScanFirst(s, list, n - 1, requests), list[n - 1], s.store.now;
      ScanEndpointIs(s1, ep, Current(requests, ep.id, now), SevenDays(requests, ep.id, now));
      var detect, resolve := DetectAlert(ep.id, VOLUME_SPIKE, ep.userId), ScannerResolve(ep.id, VOLUME_SPIKE);
      ApplyInv(s1.store, detect);
      ApplyInv(s1.store, resolve);
      ApplySingle(s1.store, detect, e, kind);
      ApplySingle(s1.store, resolve, e, kind);
    }
  }
}
