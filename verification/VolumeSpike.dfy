/** The volume scan: pages over the active endpoints and compares the last hour with the last week. */
module VolumeSpike {
  import opened Alerts

  const HOURLY_WINDOW_MS := 60 * 60 * 1000
  const BASELINE_DAYS := 7
  const HOURS_IN_DAY := 24
  const SPIKE_THRESHOLD_MULTIPLIER := 3
  const PAGE_LIMIT := 100
  const VOLUME_SPIKE := "volume_spike"

  /** An endpoint, and whether its user's packet includes the detection. */
  datatype Endpoint = Endpoint(id: nat, userId: nat, access: bool, isActive: bool, createdAt: int)

  datatype Request = Request(endpoint: nat, receivedAt: int)

  /** A published volume_spike event. */
  datatype Spike = Spike(endpoint: nat, normalRate: real, currentRate: real, multiplier: real)

  datatype Scan = Scan(store: Store, spikes: seq<Spike>)

  /* ----- counting requests ----- */

  function CountFirst(requests: seq<Request>, n: nat, e: nat, start: int, end: int): nat
    requires n <= |requests|
  {
    if n == 0 then 0
    else
      CountFirst(requests, n - 1, e, start, end)
      + (if requests[n - 1].endpoint == e && start <= requests[n - 1].receivedAt < end then 1 else 0)
  }

  function Count(requests: seq<Request>, e: nat, start: int, end: int): nat {
    CountFirst(requests, |requests|, e, start, end)
  }

  lemma {:induction false} CountWider(requests: seq<Request>, n: nat, e: nat, wide: int, start: int, end: int)
    requires n <= |requests| && wide <= start
    ensures CountFirst(requests, n, e, start, end) <= CountFirst(requests, n, e, wide, end)
  {
    if n > 0 { CountWider(requests, n - 1, e, wide, start, end); }
  }

  function Current(requests: seq<Request>, e: nat, now: int): nat {
    Count(requests, e, now - HOURLY_WINDOW_MS, now)
  }

  function SevenDays(requests: seq<Request>, e: nat, now: int): nat {
    Count(requests, e, now - BASELINE_DAYS * HOURS_IN_DAY * HOURLY_WINDOW_MS, now)
  }

  /* ----- the listing that the pages are cut from ----- */

  function Insert(e: Endpoint, list: seq<Endpoint>): seq<Endpoint> {
    if |list| == 0 || list[0].createdAt <= e.createdAt then [e] + list else [list[0]] + Insert(e, list[1..])
  }

  /** The active endpoints, newest first. */
  function Listed(endpoints: seq<Endpoint>): seq<Endpoint> {
    if |endpoints| == 0 then []
    else
      var rest := Listed(endpoints[1..]);
      if endpoints[0].isActive then Insert(endpoints[0], rest) else rest
  }

  function Min(a: nat, b: nat): nat {
    if a < b then a else b
  }

  /** getAll for active endpoints, ordered by creation, newest first. */
  function GetAll(endpoints: seq<Endpoint>, limit: nat, offset: nat): seq<Endpoint> {
    var list := Listed(endpoints);
    list[Min(offset, |list|)..Min(offset + limit, |list|)]
  }

  predicate Unique(endpoints: seq<Endpoint>) {
    forall i, j | 0 <= i < j < |endpoints| :: endpoints[i].id != endpoints[j].id
  }

  lemma {:induction false} InsertHas(e: Endpoint, list: seq<Endpoint>, x: Endpoint)
    ensures x in Insert(e, list) <==> x == e || x in list
  {
    if |list| > 0 && list[0].createdAt > e.createdAt {
      InsertHas(e, list[1..], x);
      assert x in list <==> x == list[0] || x in list[1..];
    }
  }

  lemma {:induction false} ListedHas(endpoints: seq<Endpoint>, x: Endpoint)
    ensures x in Listed(endpoints) <==> x in endpoints && x.isActive
  {
    if |endpoints| > 0 {
      ListedHas(endpoints[1..], x);
      assert x in endpoints <==> x == endpoints[0] || x in endpoints[1..];
      if endpoints[0].isActive { InsertHas(endpoints[0], Listed(endpoints[1..]), x); }
    }
  }

  lemma {:induction false} InsertUnique(e: Endpoint, list: seq<Endpoint>)
    requires Unique(list) && forall i | 0 <= i < |list| :: list[i].id != e.id
    ensures Unique(Insert(e, list))
  {
    if |list| > 0 && list[0].createdAt > e.createdAt {
      InsertUnique(e, list[1..]);
      var rest := Insert(e, list[1..]);
      forall i | 0 <= i < |rest| ensures rest[i].id != list[0].id {
        InsertHas(e, list[1..], rest[i]);
      }
    }
  }

  lemma {:induction false} ListedUnique(endpoints: seq<Endpoint>)
    requires Unique(endpoints)
    ensures Unique(Listed(endpoints))
  {
    if |endpoints| > 0 {
      ListedUnique(endpoints[1..]);
      var rest := Listed(endpoints[1..]);
      forall i | 0 <= i < |rest| ensures rest[i].id != endpoints[0].id {
        ListedHas(endpoints[1..], rest[i]);
      }
      if endpoints[0].isActive { InsertUnique(endpoints[0], rest); }
    }
  }

  predicate NewestFirst(list: seq<Endpoint>) {
    forall i, j | 0 <= i < j < |list| :: list[i].createdAt >= list[j].createdAt
  }

  lemma {:induction false} InsertNewestFirst(e: Endpoint, list: seq<Endpoint>)
    requires NewestFirst(list)
    ensures NewestFirst(Insert(e, list))
  {
    if |list| > 0 && list[0].createdAt > e.createdAt {
      InsertNewestFirst(e, list[1..]);
      var rest := Insert(e, list[1..]);
      forall i | 0 <= i < |rest| ensures list[0].createdAt >= rest[i].createdAt { InsertHas(e, list[1..], rest[i]); }
    }
  }

  lemma {:induction false} ListedNewestFirst(endpoints: seq<Endpoint>)
    ensures NewestFirst(Listed(endpoints))
  {
    if |endpoints| > 0 {
      ListedNewestFirst(endpoints[1..]);
      if endpoints[0].isActive { InsertNewestFirst(endpoints[0], Listed(endpoints[1..])); }
    }
  }

  /* ----- one endpoint, and a pass ----- */

  function ScanEndpoint(s: Scan, ep: Endpoint, currentRate: nat, sevenDays: nat): Scan {
    var normalRate := sevenDays as real / (BASELINE_DAYS * HOURS_IN_DAY) as real;
    if !ep.access || normalRate <= 0.0 then s
    else if currentRate as real <= normalRate * SPIKE_THRESHOLD_MULTIPLIER as real then
      s.(store := ResolveActive(s.store, ep.id, VOLUME_SPIKE))
    else
      Scan(Detect(s.store, ep.id, VOLUME_SPIKE, ep.userId),
           s.spikes + [Spike(ep.id, normalRate, currentRate as real, currentRate as real / normalRate)])
  }

  function ScanFirst(s: Scan, list: seq<Endpoint>, n: nat, requests: seq<Request>): Scan
    requires n <= |list|
  {
    if n == 0 then s
    else
      var ep, now := list[n - 1], s.store.now;
      ScanEndpoint(ScanFirst(s, list, n - 1, requests), ep,
                   Current(requests, ep.id, now), SevenDays(requests, ep.id, now))
  }

  /** One pass over a table that does not change meanwhile. */
  function Pass(s: Scan, endpoints: seq<Endpoint>, requests: seq<Request>): Scan {
    ScanFirst(s, Listed(endpoints), |Listed(endpoints)|, requests)
  }

  predicate CountsOf(counts: map<nat, nat>, requests: seq<Request>, n: nat, start: int, end: int)
    requires n <= |requests|
  {
    && (forall e | e in counts :: counts[e] == CountFirst(requests, n, e, start, end))
    && (forall i | 0 <= i < n && start <= requests[i].receivedAt < end :: requests[i].endpoint in counts)
  }

  lemma {:induction false} NoCount(requests: seq<Request>, n: nat, e: nat, start: int, end: int)
    requires n <= |requests|
    requires forall i | 0 <= i < n && start <= requests[i].receivedAt < end :: requests[i].endpoint != e
    ensures CountFirst(requests, n, e, start, end) == 0
  {
    if n > 0 { NoCount(requests, n - 1, e, start, end); }
  }

  lemma CountIs(counts: map<nat, nat>, requests: seq<Request>, e: nat, start: int, end: int)
    requires CountsOf(counts, requests, |requests|, start, end)
    ensures (if e in counts then counts[e] else 0) == Count(requests, e, start, end)
  {
    if e !in counts { NoCount(requests, |requests|, e, start, end); }
  }

  predicate Counted(current: map<nat, nat>, baseline: map<nat, nat>, requests: seq<Request>, now: int) {
    && CountsOf(current, requests, |requests|, now - HOURLY_WINDOW_MS, now)
    && CountsOf(baseline, requests, |requests|, now - BASELINE_DAYS * HOURS_IN_DAY * HOURLY_WINDOW_MS, now)
  }

  lemma CountedIs(current: map<nat, nat>, baseline: map<nat, nat>, requests: seq<Request>, now: int, e: nat)
    requires Counted(current, baseline, requests, now)
    ensures (if e in current then current[e] else 0) == Current(requests, e, now)
    ensures (if e in baseline then baseline[e] else 0) == SevenDays(requests, e, now)
  {
    hide CountsOf, Count;
    CountIs(current, requests, e, now - HOURLY_WINDOW_MS, now);
    CountIs(baseline, requests, e, now - BASELINE_DAYS * HOURS_IN_DAY * HOURLY_WINDOW_MS, now);
  }

  lemma NothingScanned(s: Scan, list: seq<Endpoint>, requests: seq<Request>)
    ensures ScanFirst(s, list, 0, requests) == s
  {
  }

  class VolumeSpikeScannerCron {
    const store: AlertStore
    var endpoints: seq<Endpoint>
    var requests: seq<Request>
    var spikes: seq<Spike>

    constructor (store: AlertStore, endpoints: seq<Endpoint>, requests: seq<Request>)
      ensures this.store == store && this.endpoints == endpoints && this.requests == requests && spikes == []
    {
      this.store, this.endpoints, this.requests, spikes := store, endpoints, requests, [];
    }

    function Now(): Scan
      reads this, store
    {
      Scan(store.Now(), spikes)
    }

    method CountByEndpointInPeriod(start: int, end: int) returns (counts: map<nat, nat>)
      ensures CountsOf(counts, requests, |requests|, start, end)
    {
      counts := map[];
      for i := 0 to |requests|
        invariant CountsOf(counts, requests, i, start, end)
      {
        var r := requests[i];
        if start <= r.receivedAt < end {
          if r.endpoint !in counts { NoCount(requests, i, r.endpoint, start, end); }
          counts := counts[r.endpoint := (if r.endpoint in counts then counts[r.endpoint] else 0) + 1];
        }
      }
    }

    method ScanOne(ep: Endpoint, currentRate: nat, sevenDaysCount: nat)
      requires store as object != this
      modifies store, `spikes
      ensures Now() == ScanEndpoint(old(Now()), ep, currentRate, sevenDaysCount)
    {
      if !ep.access {
        return;
      }
      var normalRate := sevenDaysCount as real / (BASELINE_DAYS * HOURS_IN_DAY) as real;
      if normalRate <= 0.0 {
        return;
      }
      var threshold := normalRate * SPIKE_THRESHOLD_MULTIPLIER as real;
      if currentRate as real <= threshold {
        store.ResolveIfActive(ep.id, VOLUME_SPIKE);
        return;
      }
      var multiplier := currentRate as real / normalRate;
      spikes := spikes + [Spike(ep.id, normalRate, currentRate as real, multiplier)];
      var _ := store.Handle(ep.id, VOLUME_SPIKE, ep.userId);
    }

    /** The endpoints of one page, which are the next of the listing. */
    method ScanBatch(batch: seq<Endpoint>, currentByEndpoint: map<nat, nat>, baselineByEndpoint: map<nat, nat>,
                     ghost before: Scan, ghost list: seq<Endpoint>, ghost offset: nat)
      requires store as object != this
      requires offset + |batch| <= |list| && batch == list[offset..offset + |batch|]
      requires Now() == ScanFirst(before, list, offset, requests)
      requires Counted(currentByEndpoint, baselineByEndpoint, requests, before.store.now)
      modifies store, `spikes
      ensures Now() == ScanFirst(before, list, offset + |batch|, requests)
    {
      hide Count, CountFirst, ScanEndpoint, Counted;
      for i := 0 to |batch|
        invariant Now() == ScanFirst(before, list, offset + i, requests)
      {
        var id := batch[i].id;
        assert batch[i] == list[offset + i];
        CountedIs(currentByEndpoint, baselineByEndpoint, requests, before.store.now, id);
        ScanOne(batch[i],
                if id in currentByEndpoint then currentByEndpoint[id] else 0,
                if id in baselineByEndpoint then baselineByEndpoint[id] else 0);
      }
    }

    /** The paging loop visits every active endpoint once, in the order of the listing. */
    method Process()
      requires store as object != this
      modifies store, `spikes
      ensures Now() == Pass(old(Now()), endpoints, requests)
    {
      hide CountsOf, ScanFirst, Listed;
      ghost var before := Now();
      var now := store.now;
      var currentByEndpoint := CountByEndpointInPeriod(now - HOURLY_WINDOW_MS, now);
      var baselineByEndpoint :=
        CountByEndpointInPeriod(now - BASELINE_DAYS * HOURS_IN_DAY * HOURLY_WINDOW_MS, now);
      ghost var list := Listed(endpoints);
      NothingScanned(before, list, requests);
      var page := 0;
      while true
        invariant 0 <= page * PAGE_LIMIT <= |list|
        invariant Now() == ScanFirst(before, list, page * PAGE_LIMIT, requests)
        decreases |list| - page * PAGE_LIMIT
      {
        var offset := page * PAGE_LIMIT;
        var batch := GetAll(endpoints, PAGE_LIMIT, offset);
        if |batch| == 0 {
          break;
        }
        ScanBatch(batch, currentByEndpoint, baselineByEndpoint, before, list, offset);
        if |batch| < PAGE_LIMIT {
          break;
        }
        page := page + 1;
      }
    }
  }
}
