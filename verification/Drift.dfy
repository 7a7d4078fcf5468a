/** Which payloads of a run raise a drift event, and which become versions. */
module Drift {
  import opened EndpointSchemas
  import opened Json
  import opened KeyOrder
  import opened Schema
  import opened SchemaDiff
  import opened VersionChain
  import opened Wrappers

  /* ----- reference: one endpoint and key, payload after payload ----- */

  /** A payload that was scanned: its flattened schema, and whether the user could generate DTOs. */
  datatype Scanned = Scanned(schema: Flat, access: bool)

  predicate Drifts(base: Flat, schema: Flat) {
    !IsSchemaDiffEmpty(DiffSchemas(base, schema))
  }

  /** What the next payload is compared with: the first payload, then each drifted one that was
      scanned with access. */
  function Baseline(h: seq<Scanned>): Option<Flat> {
    if |h| == 0 then None
    else
      var base, x := Baseline(h[..|h| - 1]), h[|h| - 1];
      if base.None? || (x.access && Drifts(base.value, x.schema)) then Some(x.schema) else base
  }

  /** Payload i raises an event. */
  predicate Fires(h: seq<Scanned>, i: nat)
    requires i < |h|
  {
    Baseline(h[..i]).Some? && Drifts(Baseline(h[..i]).value, h[i].schema)
  }

  function Fired(h: seq<Scanned>): seq<Diff> {
    if |h| == 0 then []
    else
      var last := |h| - 1;
      if Fires(h, last)
      then Fired(h[..last]) + [DiffSchemas(Baseline(h[..last]).value, h[last].schema).value]
      else Fired(h[..last])
  }

  /** How many payloads became versions. */
  function Written(h: seq<Scanned>): nat {
    if |h| == 0 then 0
    else
      var last := |h| - 1;
      Written(h[..last]) + (if Baseline(h[..last]).None? || (Fires(h, last) && h[last].access) then 1 else 0)
  }

  /* ----- the store, reduced to one endpoint and key ----- */

  predicate Concerns(s: Store, step: Step, e: nat, key: string) {
    && step.ScanPayload? && step.e == e && KeyOf(step.eventType) == key
    && !Falsy(step.payload) && e in s.endpoints
  }

  /** The payloads of a run that are scanned for the endpoint and key. */
  function History(s: Store, steps: seq<Step>, e: nat, key: string): seq<Scanned> {
    if |steps| == 0 then []
    else
      var before, step := steps[..|steps| - 1], steps[|steps| - 1];
      History(s, before, e, key)
      + (if Concerns(Run(s, before), step, e, key) then [Scanned(Flatten(step.payload, ""), step.access)] else [])
  }

  /** The generation commands of a run that add a version for the endpoint and key. */
  function Copies(s: Store, steps: seq<Step>, e: nat, key: string): nat {
    if |steps| == 0 then 0
    else
      var before, step := steps[..|steps| - 1], steps[|steps| - 1];
      Copies(s, before, e, key)
      + (if step == GenerateDto(e, Some(key), true) && e in Run(s, before).endpoints
            && GetLatest(Run(s, before).rows, e, Some(key)).Some? then 1 else 0)
  }

  function EventsOf(events: seq<Event>, e: nat, key: string): seq<Diff> {
    if |events| == 0 then []
    else
      var before, event := events[..|events| - 1], events[|events| - 1];
      EventsOf(before, e, key)
      + (if event.endpoint == e && KeyOf(event.eventType) == key then [event.diff] else [])
  }

  lemma EventsAdd(events: seq<Event>, event: Event, e: nat, key: string)
    ensures EventsOf(events + [event], e, key)
         == EventsOf(events, e, key)
          + (if event.endpoint == e && KeyOf(event.eventType) == key then [event.diff] else [])
  {
    assert (events + [event])[..|events|] == events;
  }

  /** A store before the endpoint's first scan for the key. */
  predicate Unscanned(s: Store, e: nat, key: string) {
    && LatestSchema(s.rows, e, Some(key)).None?
    && LatestSchema(s.rows, e, None).None?
    && EventsOf(s.events, e, key) == []
    && Versions(s.rows, e, Some(key)) == []
  }

  lemma EmptyUnscanned(e: nat, key: string)
    ensures ChainInv(EMPTY.rows) && Unscanned(EMPTY, e, key)
  {
    EmptyChain();
  }

  /** The store shows the history h for the endpoint and key. */
  predicate Shows(s: Store, e: nat, key: string, h: seq<Scanned>, copies: nat) {
    && LatestSchema(s.rows, e, Some(key)) == Baseline(h)
    && LatestSchema(s.rows, e, None).None?
    && EventsOf(s.events, e, key) == Fired(h)
    && |Versions(s.rows, e, Some(key))| == Written(h) + copies
  }

  lemma ShowsScan(s: Store, e: nat, eventType: Option<string>, schema: Flat, access: bool, h: seq<Scanned>,
                  copies: nat)
    requires ChainInv(s.rows) && Shows(s, e, KeyOf(eventType), h, copies)
    ensures Shows(ScanSchema(s, e, eventType, schema, access), e, KeyOf(eventType), h + [Scanned(schema, access)],
                  copies)
  {
    hide ChainInv, GetLatest, CreateNextVersion, DiffSchemas, Versions, EventsOf;
    var key := KeyOf(eventType);
    var h' := h + [Scanned(schema, access)];
    assert h'[..|h|] == h;
    ChainCreate(s.rows, e, Some(key), schema, e, Some(key));
    CreateLatest(s.rows, e, Some(key), schema, e, Some(key));
    CreateLatest(s.rows, e, Some(key), schema, e, None);
    if Baseline(h).Some? {
      EventsAdd(s.events, Event(e, eventType, DiffOrEmpty(Baseline(h).value, schema)), e, key);
    }
  }

  /** What other steps leave of it. */
  lemma ShowsOther(s: Store, step: Step, e: nat, key: string, h: seq<Scanned>, copies: nat)
    requires ChainInv(s.rows) && Shows(s, e, key, h, copies)
    requires !Concerns(s, step, e, key)
    ensures var copied := step == GenerateDto(e, Some(key), true) && e in s.endpoints
                          && GetLatest(s.rows, e, Some(key)).Some?;
      Shows(Apply(s, step), e, key, h, if copied then copies + 1 else copies)
  {
    hide ChainInv, GetLatest, CreateNextVersion, DiffSchemas, Versions, EventsOf, Flatten, Fired, Baseline, Written;
    match step {
      case CreateEndpoint(_) =>
      case GenerateDto(e1, key1, _) =>
        var source := SourceRow(s.rows, e1, key1);
        if source.Some? {
          var schema := s.rows[source.value].schema;
          ChainCreate(s.rows, e1, key1, schema, e, Some(key));
          CreateLatest(s.rows, e1, key1, schema, e, Some(key));
          CreateLatest(s.rows, e1, key1, schema, e, None);
        }
      case ScanPayload(e1, eventType, payload, access) =>
        if !Falsy(payload) && e1 in s.endpoints {
          ScanOther(s, e1, eventType, Flatten(payload, ""), access, e, key);
        }
    }
  }

  lemma ScanOther(s: Store, e1: nat, eventType: Option<string>, schema: Flat, access: bool, e: nat, key: string)
    requires ChainInv(s.rows) && (e1 != e || KeyOf(eventType) != key)
    ensures var s' := ScanSchema(s, e1, eventType, schema, access);
      && LatestSchema(s'.rows, e, Some(key)) == LatestSchema(s.rows, e, Some(key))
      && LatestSchema(s'.rows, e, None) == LatestSchema(s.rows, e, None)
      && EventsOf(s'.events, e, key) == EventsOf(s.events, e, key)
      && Versions(s'.rows, e, Some(key)) == Versions(s.rows, e, Some(key))
  {
    hide ChainInv, LatestSchema, CreateNextVersion, DiffSchemas, Versions, EventsOf;
    var key1 := KeyOf(eventType);
    ChainCreate(s.rows, e1, Some(key1), schema, e, Some(key));
    CreateLatest(s.rows, e1, Some(key1), schema, e, Some(key));
    CreateLatest(s.rows, e1, Some(key1), schema, e, None);
    var latest := GetLatest(s.rows, e1, Some(key1));
    if latest.Some? {
      EventsAdd(s.events, Event(e1, eventType, DiffOrEmpty(s.rows[latest.value].schema, schema)), e, key);
    }
  }

  /** However scans of other endpoints and event types and generation commands are interleaved, the
      store does for one endpoint and key what the reference does payload after payload: same latest
      schema, same events with the same diffs, and one version for each payload that became one plus
      one for each generation command. */
  lemma {:induction false} RunShows(s: Store, steps: seq<Step>, e: nat, key: string)
    requires ChainInv(s.rows) && Unscanned(s, e, key)
    ensures Shows(Run(s, steps), e, key, History(s, steps, e, key), Copies(s, steps, e, key))
  {
    hide ChainInv, Apply, GetLatest, Concerns, Shows, Unscanned;
    if |steps| == 0 {
      UnscannedShows(s, e, key);
    } else {
      var before, step := steps[..|steps| - 1], steps[|steps| - 1];
      var s1, h, copies := Run(s, before), History(s, before, e, key), Copies(s, before, e, key);
      RunChain(s, before);
      RunShows(s, before, e, key);
      if Concerns(s1, step, e, key) {
        ConcernedScan(s1, step, e, key);
        ShowsScan(s1, e, step.eventType, Flatten(step.payload, ""), step.access, h, copies);
      } else {
        assert h + [] == h;
        ShowsOther(s1, step, e, key, h, copies);
      }
    }
  }

  lemma UnscannedShows(s: Store, e: nat, key: string)
    requires Unscanned(s, e, key)
    ensures Shows(s, e, key, [], 0)
  {
  }

  lemma ConcernedScan(s: Store, step: Step, e: nat, key: string)
    requires Concerns(s, step, e, key)
    ensures step.ScanPayload? && KeyOf(step.eventType) == key && !step.GenerateDto?
    ensures Apply(s, step) == ScanSchema(s, e, step.eventType, Flatten(step.payload, ""), step.access)
  {
  }

  /* ----- what is scanned ----- */

  /** A scan of anything but null, false, 0 and the empty string, for an endpoint that exists, leaves
      the key with a latest version; the key is "__default__" if there is no event type. */
  lemma ScanLeavesVersion(s: Store, e: nat, eventType: Option<string>, payload: Json, access: bool)
    requires ChainInv(s.rows) && e in s.endpoints
    requires payload != JNull && payload != JBool(false) && payload != JNum("0") && payload != JStr("")
    ensures var key := if eventType.Some? then eventType.value else "__default__";
      LatestSchema(Scan(s, e, eventType, payload, access).rows, e, Some(key)).Some?
  {
    hide ChainInv, CreateNextVersion, DiffSchemas, Flatten;
    CreateLatest(s.rows, e, Some(KeyOf(eventType)), Flatten(payload, ""), e, Some(KeyOf(eventType)));
  }

  /** Those four, and payloads for endpoints that do not exist, are no-ops. */
  lemma ScanSkips(s: Store, e: nat, eventType: Option<string>, payload: Json, access: bool)
    requires e !in s.endpoints || payload == JNull || payload == JBool(false) || payload == JNum("0")
          || payload == JStr("")
    ensures Scan(s, e, eventType, payload, access) == s
  {
  }

  /** An endpoint is there from its creation on. */
  lemma {:induction false} EndpointThere(steps: seq<Step>, e: nat)
    ensures e in Run(EMPTY, steps).endpoints <==> CreateEndpoint(e) in steps
  {
    if |steps| > 0 {
      var before, step := steps[..|steps| - 1], steps[|steps| - 1];
      EndpointThere(before, e);
      assert steps == before + [step];
      ApplyEndpoints(Run(EMPTY, before), step, e);
    }
  }

  lemma ApplyEndpoints(s: Store, step: Step, e: nat)
    ensures e in Apply(s, step).endpoints <==> e in s.endpoints || step == CreateEndpoint(e)
  {
    hide GetLatest, CreateNextVersion, DiffSchemas, Flatten;
  }

  /** The payloads scanned for the endpoint and event type since the endpoint was created, read off
      the steps alone. */
  function Payloads(steps: seq<Step>, e: nat, eventType: Option<string>): seq<Scanned> {
    if |steps| == 0 then []
    else
      var before, step := steps[..|steps| - 1], steps[|steps| - 1];
      Payloads(before, e, eventType)
      + (if step.ScanPayload? && step.e == e && step.eventType == eventType && CreateEndpoint(e) in before
         then [Scanned(Flatten(step.payload, ""), step.access)] else [])
  }

  /** When every payload is an object or an array and no event type is the text "__default__", as from
      the queue that scans, the history that the drift laws speak of has one entry for every scan of
      the endpoint and event type since the endpoint was created. */
  lemma {:induction false} EveryScanCounts(steps: seq<Step>, e: nat, eventType: Option<string>)
    requires forall i | 0 <= i < |steps| && steps[i].ScanPayload? ::
               IsContainer(steps[i].payload) && steps[i].eventType != Some("__default__")
    requires eventType != Some("__default__")
    ensures History(EMPTY, steps, e, if eventType.Some? then eventType.value else "__default__")
         == Payloads(steps, e, eventType)
  {
    hide Run, Flatten;
    if |steps| > 0 {
      var before, step := steps[..|steps| - 1], steps[|steps| - 1];
      EveryScanCounts(before, e, eventType);
      EndpointThere(before, e);
      assert steps[|steps| - 1] == step;
    }
  }

  /** A generation command for the default key with no version of its own starts it from the latest
      row without an event type. */
  lemma GenerateFallsBack(s: Store, e: nat)
    requires ChainInv(s.rows) && e in s.endpoints
    requires LatestSchema(s.rows, e, Some("__default__")).None? && LatestSchema(s.rows, e, None).Some?
    ensures var s' := Generate(s, e, Some("__default__"), true);
      && LatestSchema(s'.rows, e, Some("__default__")) == LatestSchema(s.rows, e, None)
      && LatestSchema(s'.rows, e, None) == LatestSchema(s.rows, e, None)
      && |s'.rows| == |s.rows| + 1 && s'.rows[|s.rows|].version == 1
  {
    hide ChainInv;
    var schema := LatestSchema(s.rows, e, None).value;
    CreateLatest(s.rows, e, Some("__default__"), schema, e, Some("__default__"));
    CreateLatest(s.rows, e, Some("__default__"), schema, e, None);
  }

  /** For any other key without a version a generation command changes nothing, nor does one that fails. */
  lemma GenerateNeedsSource(s: Store, e: nat, eventType: Option<string>)
    ensures Generate(s, e, eventType, false) == s
    ensures GetLatest(s.rows, e, eventType).None? && eventType != Some("__default__") ==>
      Generate(s, e, eventType, true) == s
  {
  }

  /* ----- with and without access to DTO generation ----- */

  ghost predicate AllAccess(h: seq<Scanned>, access: bool) {
    forall i | 0 <= i < |h| :: h[i].access == access
  }

  /** The schema of payload i differs from that of the payload before it. */
  predicate Changed(h: seq<Scanned>, i: nat)
    requires i < |h|
  {
    i > 0 && h[i].schema != h[i - 1].schema
  }

  /** It differs, but only in removed paths with inherited names. */
  predicate MissedAt(h: seq<Scanned>, i: nat)
    requires i < |h|
  {
    i > 0 && Missed(h[i - 1].schema, h[i].schema)
  }

  ghost predicate NoneMissed(h: seq<Scanned>) {
    forall i | 0 <= i < |h| :: !MissedAt(h, i)
  }

  ghost predicate FiresOnChange(h: seq<Scanned>) {
    forall i | 0 <= i < |h| :: Fires(h, i) <==> Changed(h, i)
  }

  function Changes(h: seq<Scanned>): nat {
    if |h| == 0 then 0 else Changes(h[..|h| - 1]) + (if Changed(h, |h| - 1) then 1 else 0)
  }

  lemma DriftsIffDiffers(base: Flat, schema: Flat)
    ensures Drifts(base, schema) <==> base != schema && !Missed(base, schema)
    ensures Missed(base, schema) ==> base != schema
    ensures Ordinary(base) ==> !Missed(base, schema)
  {
    hide DiffSchemas, Missed, Ordinary;
    NoDiffIffEqual(base, schema);
    NoDiff(base, schema);
  }

  lemma HistoryPrefix(h: seq<Scanned>)
    requires |h| > 0
    ensures var before, last := h[..|h| - 1], |h| - 1;
      && (FiresOnChange(h) <==> FiresOnChange(before) && (Fires(h, last) <==> Changed(h, last)))
      && (NoneMissed(h) <==> NoneMissed(before) && !MissedAt(h, last))
  {
    hide Drifts, Missed, Baseline;
    var before := h[..|h| - 1];
    forall i | 0 <= i < |before|
      ensures Fires(before, i) == Fires(h, i) && Changed(before, i) == Changed(h, i)
      ensures MissedAt(before, i) == MissedAt(h, i)
    {
      assert before[..i] == h[..i];
    }
  }

  /** With access, as long as nothing was missed, the baseline is the payload before. */
  lemma {:induction false} AccessBaseline(h: seq<Scanned>)
    requires AllAccess(h, true)
    ensures FiresOnChange(h) <==> NoneMissed(h)
    ensures NoneMissed(h) && |h| > 0 ==> Baseline(h) == Some(h[|h| - 1].schema) && Written(h) == 1 + Changes(h)
  {
    hide Drifts, Missed, NoneMissed, FiresOnChange;
    if |h| == 0 {
      NothingScanned(h);
    } else {
      var last := |h| - 1;
      HistoryPrefix(h);
      AccessBaseline(h[..last]);
      if last > 0 { DriftsIffDiffers(h[last - 1].schema, h[last].schema); }
    }
  }

  lemma NothingScanned(h: seq<Scanned>)
    requires |h| == 0
    ensures FiresOnChange(h) && NoneMissed(h)
  {
  }

  lemma {:induction false} NoAccessBaseline(h: seq<Scanned>)
    requires AllAccess(h, false) && |h| > 0
    ensures Baseline(h) == Some(h[0].schema)
    ensures Written(h) == 1
  {
    hide Drifts;
    if |h| > 1 { NoAccessBaseline(h[..|h| - 1]); }
  }

  /** With access an event is raised exactly at the payloads whose schema differs from the one
      before, throughout a run, exactly if at no payload the only change is the removal of paths with
      inherited names; then the latest schema is the last payload's, and the versions are 1 plus the
      number of changes, plus the generation commands. */
  lemma DriftWithAccess(s: Store, steps: seq<Step>, e: nat, key: string)
    requires ChainInv(s.rows) && Unscanned(s, e, key)
    requires AllAccess(History(s, steps, e, key), true)
    ensures var s', h := Run(s, steps), History(s, steps, e, key);
      && EventsOf(s'.events, e, key) == Fired(h)
      && (FiresOnChange(h) <==> NoneMissed(h))
      && (NoneMissed(h) && |h| > 0 ==>
            && LatestSchema(s'.rows, e, Some(key)) == Some(h[|h| - 1].schema)
            && |Versions(s'.rows, e, Some(key))| == 1 + Changes(h) + Copies(s, steps, e, key))
  {
    hide ChainInv, Unscanned, Run, History, Copies, Versions, LatestSchema, EventsOf, Fired, Written,
      Changes, NoneMissed, FiresOnChange, AllAccess, Baseline;
    RunShows(s, steps, e, key);
    AccessBaseline(History(s, steps, e, key));
  }

  /** Why the paths matter: when a property called toString disappears from the payload, the schema
      differs from the one before but no event is raised, even with access. */
  lemma RemovalMissed()
    ensures var h := [Scanned(map["toString" := "string"], true), Scanned(map[], true)];
      Changed(h, 1) && !Fires(h, 1)
  {
    hide Drifts;
    var first, second := Scanned(map["toString" := "string"], true), Scanned(map[], true);
    var h := [first, second];
    assert h[..1] == [first];
    assert [first][..0] == [];
    assert "toString" in first.schema;
    RemovalUnnoticed();
    NoDrift(first.schema, second.schema);
  }

  lemma NoDrift(base: Flat, schema: Flat)
    requires DiffSchemas(base, schema).None?
    ensures !Drifts(base, schema)
  {
  }

  lemma NoBaseline(h: seq<Scanned>)
    ensures Baseline(h[..0]).None?
  {
  }

  /** Without access: payload i raises an event exactly if its schema drifts from the first
      payload's, which stays the latest, and no scan adds a version after the first. */
  lemma DriftWithoutAccess(s: Store, steps: seq<Step>, e: nat, key: string)
    requires ChainInv(s.rows) && Unscanned(s, e, key)
    requires AllAccess(History(s, steps, e, key), false)
    ensures var s', h := Run(s, steps), History(s, steps, e, key);
      && (forall i | 0 <= i < |h| :: Fires(h, i) <==> i > 0 && Drifts(h[0].schema, h[i].schema))
      && (forall i | 0 <= i < |h| && !Missed(h[0].schema, h[i].schema) :: Fires(h, i) <==> h[i].schema != h[0].schema)
      && EventsOf(s'.events, e, key) == Fired(h)
      && (|h| > 0 ==>
            && LatestSchema(s'.rows, e, Some(key)) == Some(h[0].schema)
            && |Versions(s'.rows, e, Some(key))| == 1 + Copies(s, steps, e, key))
  {
    hide ChainInv, Drifts, Ordinary, Unscanned, Run, History, Copies, Versions, LatestSchema, EventsOf, Fired, Written,
      Baseline;
    var h := History(s, steps, e, key);
    RunShows(s, steps, e, key);
    if |h| > 0 { NoAccessBaseline(h); }
    forall i | 0 <= i < |h| ensures Fires(h, i) <==> i > 0 && Drifts(h[0].schema, h[i].schema) {
      if i > 0 { NoAccessBaseline(h[..i]); } else { NoBaseline(h); }
    }
    forall i | 0 <= i < |h| && !Missed(h[0].schema, h[i].schema)
      ensures Fires(h, i) <==> h[i].schema != h[0].schema
    {
      DriftsIffDiffers(h[0].schema, h[i].schema);
      DriftsIffDiffers(h[0].schema, h[0].schema);
    }
  }

  /** Both for a run of the service from its beginning. */
  lemma DriftFromStart(steps: seq<Step>, e: nat, key: string)
    ensures var s', h := Run(EMPTY, steps), History(EMPTY, steps, e, key);
      && EventsOf(s'.events, e, key) == Fired(h)
      && (AllAccess(h, true) ==> (FiresOnChange(h) <==> NoneMissed(h)))
      && (AllAccess(h, false) ==> forall i | 0 <= i < |h| :: Fires(h, i) <==> i > 0 && Drifts(h[0].schema, h[i].schema))
  {
    hide ChainInv, Unscanned, Run, History, EventsOf, Fired, Fires, Drifts, NoneMissed, FiresOnChange, AllAccess, Shows;
    EmptyUnscanned(e, key);
    RunShows(EMPTY, steps, e, key);
    ShownEvents(Run(EMPTY, steps), e, key, History(EMPTY, steps, e, key), Copies(EMPTY, steps, e, key));
    if AllAccess(History(EMPTY, steps, e, key), true) { DriftWithAccess(EMPTY, steps, e, key); }
    if AllAccess(History(EMPTY, steps, e, key), false) { DriftWithoutAccess(EMPTY, steps, e, key); }
  }

  lemma ShownEvents(s: Store, e: nat, key: string, h: seq<Scanned>, copies: nat)
    requires Shows(s, e, key, h, copies)
    ensures EventsOf(s.events, e, key) == Fired(h)
  {
  }

  /** From payload to event: two payloads drift exactly if their shapes differ, unless the change is
      missed. */
  lemma DriftIffShapeDiffers(x: Json, y: Json)
    requires Readable(x) && Readable(y)
    ensures Drifts(Flatten(x, ""), Flatten(y, ""))
        <==> ShapeOf(x) != ShapeOf(y) && !Missed(Flatten(x, ""), Flatten(y, ""))
  {
    hide Drifts, Flatten, ShapeOf, Readable, Missed, Ordinary;
    DriftsIffDiffers(Flatten(x, ""), Flatten(y, ""));
    FlattenIffSameShape(x, y);
  }

  /** No listing of a payload's keys, at any depth, ever drifts exactly if of each path only one type
      can be printed last. The queue that scans reads payloads back from a jsonb column, which fixes
      their key order, so there a payload has one listing only. */
  lemma ReorderedNeverDriftsIff(x: Json)
    requires IsContainer(x) && Valid(x) && Listed(x)
    ensures (forall y | Valid(y) && Listed(y) && Same(x, y, {}) ::
               !Drifts(Flatten(x, ""), Flatten(y, ""))) <==> Settled(x)
  {
    hide Flatten, Same, Valid, Listed, CanEnd, Drifts;
    if Settled(x) {
      forall y | Valid(y) && Listed(y) && Same(x, y, {}) ensures !Drifts(Flatten(x, ""), Flatten(y, "")) {
        SettledSame(x, y);
        DriftsIffDiffers(Flatten(x, ""), Flatten(y, ""));
      }
    } else {
      var q, t, u :| q != PROTO && CanEnd(x, "", q, t) && CanEnd(x, "", q, u) && t != u;
      var y := Relisted(x, q, t);
      var z := Relisted(x, q, u);
      OwnTypesDrift(Flatten(x, ""), Flatten(y, ""), Flatten(z, ""), q);
      SamePaths(x, y, q);
    }
  }

  /** Of two records with different types for a path, one drifts from any record with that path. */
  lemma OwnTypesDrift(f: Flat, g: Flat, h: Flat, q: string)
    requires q in g && q in h && g[q] != h[q]
    ensures q in f ==> Drifts(f, g) || Drifts(f, h)
  {
    hide IsInherited, DiffSchemas, DiffOrEmpty;
    DiffParts(f, g);
    DiffParts(f, h);
    PathAt(f, g, q);
    PathAt(f, h, q);
  }
}
