/** What every run keeps of the schema versions and of the endpoint's snapshot. */
module VersionChain {
  import opened EndpointSchemas
  import opened Json
  import opened Schema
  import opened SchemaDiff
  import opened Wrappers

  /** The rows of one endpoint and event type, in the order they were stored. */
  function Versions(rows: seq<VersionRow>, e: nat, key: Option<string>): (v: seq<nat>)
    ensures forall p | 0 <= p < |v| :: v[p] < |rows| && Is(rows[v[p]], e, key)
  {
    if |rows| == 0 then []
    else
      var last := |rows| - 1;
      var v := Versions(rows[..last], e, key);
      if Is(rows[last], e, key) then v + [last] else v
  }

  /** Row p of a key: version p + 1, latest only if it is the last, linked to the row before it. */
  predicate Linked(rows: seq<VersionRow>, v: seq<nat>, p: nat)
    requires p < |v|
  {
    && v[p] < |rows|
    && rows[v[p]].version == p + 1
    && (rows[v[p]].isLatest <==> p == |v| - 1)
    && rows[v[p]].prev == (if p == 0 then None else Some(v[p - 1]))
  }

  predicate Chained(rows: seq<VersionRow>, v: seq<nat>) {
    forall p | 0 <= p < |v| :: Linked(rows, v, p)
  }

  ghost predicate ChainInv(rows: seq<VersionRow>) {
    forall e: nat, key: Option<string> :: Chained(rows, Versions(rows, e, key))
  }

  lemma {:induction false} VersionsComplete(rows: seq<VersionRow>, e: nat, key: Option<string>, i: nat)
    requires i < |rows| && Is(rows[i], e, key)
    ensures i in Versions(rows, e, key)
  {
    var last := |rows| - 1;
    if i < last { VersionsComplete(rows[..last], e, key, i); }
  }

  lemma {:induction false} VersionsSame(rows: seq<VersionRow>, rows': seq<VersionRow>, e: nat, key: Option<string>)
    requires |rows| == |rows'|
    requires forall i | 0 <= i < |rows| :: Is(rows[i], e, key) <==> Is(rows'[i], e, key)
    ensures Versions(rows, e, key) == Versions(rows', e, key)
  {
    if |rows| > 0 { VersionsSame(rows[..|rows| - 1], rows'[..|rows| - 1], e, key); }
  }

  lemma VersionsAdd(rows: seq<VersionRow>, row: VersionRow, e: nat, key: Option<string>)
    ensures Versions(rows + [row], e, key) == Versions(rows, e, key) + (if Is(row, e, key) then [|rows|] else [])
  {
    assert (rows + [row])[..|rows|] == rows;
  }

  /** In a chain the row found as latest is the last one. */
  lemma LatestIsLast(rows: seq<VersionRow>, e: nat, key: Option<string>)
    requires Chained(rows, Versions(rows, e, key))
    ensures var v := Versions(rows, e, key);
      GetLatest(rows, e, key) == (if v == [] then None else Some(v[|v| - 1]))
  {
    hide GetLatest, Versions;
    var v := Versions(rows, e, key);
    var latest := GetLatest(rows, e, key);
    assert |v| > 0 ==> Linked(rows, v, |v| - 1);
    if latest.Some? {
      VersionsComplete(rows, e, key, latest.value);
      var p :| 0 <= p < |v| && v[p] == latest.value;
      assert Linked(rows, v, p);
    }
  }

  lemma ChainCreate(rows: seq<VersionRow>, e: nat, key: Option<string>, schema: Flat, e': nat, key': Option<string>)
    requires ChainInv(rows)
    ensures var rows' := CreateNextVersion(rows, e, key, schema);
      && Versions(rows', e', key') == Versions(rows, e', key') + (if e == e' && key == key' then [|rows|] else [])
      && Chained(rows', Versions(rows', e', key'))
  {
    hide Versions, GetLatest, Linked;
    var latest := GetLatest(rows, e, key);
    LatestIsLast(rows, e, key);
    var cleared := if latest.None? then rows
                   else rows[latest.value := rows[latest.value].(isLatest := false)];
    var row := VersionRow(e, key, if latest.None? then 1 else rows[latest.value].version + 1, true, latest, schema);
    assert CreateNextVersion(rows, e, key, schema) == cleared + [row];
    VersionsSame(rows, cleared, e', key');
    VersionsAdd(cleared, row, e', key');
    var v := Versions(rows, e', key');
    var v' := Versions(cleared + [row], e', key');
    assert Chained(rows, v);
    forall p | 0 <= p < |v'| ensures Linked(cleared + [row], v', p) {
      LinkedCreate(rows, v, latest, row, v', p);
    }
  }

  lemma LinkedCreate(rows: seq<VersionRow>, v: seq<nat>, latest: Option<nat>, row: VersionRow, v': seq<nat>, p: nat)
    requires latest.Some? ==> latest.value < |rows|
    requires Chained(rows, v) && p < |v'|
    requires forall q | 0 <= q < |v| :: v[q] < |rows|
    requires (v' == v && (latest.None? || latest.value !in v))
          || (v' == v + [|rows|]
              && latest == (if v == [] then None else Some(v[|v| - 1]))
              && row.version == (if v == [] then 1 else rows[v[|v| - 1]].version + 1)
              && row.isLatest && row.prev == latest)
    ensures var cleared := if latest.None? then rows
                           else rows[latest.value := rows[latest.value].(isLatest := false)];
      Linked(cleared + [row], v', p)
  {
    if |v| > 0 { assert Linked(rows, v, |v| - 1); }
    if p < |v| { assert Linked(rows, v, p); }
  }

  lemma ApplyChain(s: Store, step: Step)
    requires ChainInv(s.rows)
    ensures ChainInv(Apply(s, step).rows)
  {
    hide Versions, Chained, EndpointSchemas.Apply;
    var s' := Apply(s, step);
    if s'.rows != s.rows {
      var c := CreatedBy(s, step);
      forall e': nat, key': Option<string> ensures Chained(s'.rows, Versions(s'.rows, e', key')) {
        ChainCreate(s.rows, c.0, c.1, c.2, e', key');
      }
    }
  }

  /** The version that a step creates, if it changes the rows at all. */
  lemma CreatedBy(s: Store, step: Step) returns (c: (nat, Option<string>, Flat))
    requires Apply(s, step).rows != s.rows
    ensures Apply(s, step).rows == CreateNextVersion(s.rows, c.0, c.1, c.2)
  {
    hide GetLatest, CreateNextVersion, Flatten, DiffSchemas;
    match step {
      case ScanPayload(e, eventType, payload, access) =>
        c := (e, Some(KeyOf(eventType)), Flatten(payload, ""));
      case GenerateDto(e, eventType, generated) =>
        c := (e, eventType, s.rows[SourceRow(s.rows, e, eventType).value].schema);
    }
  }

  lemma {:induction false} RunChain(s: Store, steps: seq<Step>)
    requires ChainInv(s.rows)
    ensures ChainInv(Run(s, steps).rows)
  {
    hide ChainInv, Apply;
    if |steps| > 0 {
      RunChain(s, steps[..|steps| - 1]);
      ApplyChain(Run(s, steps[..|steps| - 1]), steps[|steps| - 1]);
    }
  }

  /** Following the links from `link` passes versions n, n - 1, ..., 1 and then ends. */
  predicate WalksDown(rows: seq<VersionRow>, link: Option<nat>, n: nat)
    decreases n
  {
    if n == 0 then link.None?
    else
      && link.Some? && link.value < |rows|
      && rows[link.value].version == n
      && WalksDown(rows, rows[link.value].prev, n - 1)
  }

  lemma {:induction false} ChainWalks(rows: seq<VersionRow>, v: seq<nat>, p: nat)
    requires Chained(rows, v) && p <= |v|
    ensures WalksDown(rows, if p == 0 then None else Some(v[p - 1]), p)
  {
    if p > 0 {
      assert Linked(rows, v, p - 1);
      ChainWalks(rows, v, p - 1);
    }
  }

  /** After any scans and generation commands, for every endpoint and event type: the versions are
      1 to n without gap or repetition, only the row with version n is marked latest, that is the
      row found as latest, and the links from it pass n, n - 1, ..., 1. */
  lemma VersionChain(steps: seq<Step>, e: nat, key: Option<string>)
    ensures var rows := Run(EMPTY, steps).rows;
      var v := Versions(rows, e, key);
      && (forall i | 0 <= i < |rows| && Is(rows[i], e, key) :: i in v)
      && (forall p | 0 <= p < |v| :: rows[v[p]].version == p + 1 && (rows[v[p]].isLatest <==> p == |v| - 1))
      && GetLatest(rows, e, key) == (if v == [] then None else Some(v[|v| - 1]))
      && WalksDown(rows, GetLatest(rows, e, key), |v|)
  {
    hide Run, Versions, GetLatest, Linked, WalksDown;
    EmptyChain();
    RunChain(EMPTY, steps);
    var rows := Run(EMPTY, steps).rows;
    var v := Versions(rows, e, key);
    assert Chained(rows, v);
    LatestIsLast(rows, e, key);
    ChainWalks(rows, v, |v|);
    forall i | 0 <= i < |rows| && Is(rows[i], e, key) ensures i in v {
      VersionsComplete(rows, e, key, i);
    }
    forall p | 0 <= p < |v| ensures rows[v[p]].version == p + 1 && (rows[v[p]].isLatest <==> p == |v| - 1) {
      LinkedMeans(rows, v, p);
    }
  }

  lemma LinkedMeans(rows: seq<VersionRow>, v: seq<nat>, p: nat)
    requires Chained(rows, v) && p < |v| && v[p] < |rows|
    ensures rows[v[p]].version == p + 1 && (rows[v[p]].isLatest <==> p == |v| - 1)
  {
    assert Linked(rows, v, p);
  }

  lemma EmptyChain()
    ensures ChainInv(EMPTY.rows)
  {
  }

  /* ----- the snapshot ----- */

  function LatestSchema(rows: seq<VersionRow>, e: nat, key: Option<string>): Option<Flat> {
    var latest := GetLatest(rows, e, key);
    if latest.Some? then Some(rows[latest.value].schema) else None
  }

  lemma CreateLatest(rows: seq<VersionRow>, e: nat, key: Option<string>, schema: Flat, e': nat, key': Option<string>)
    requires ChainInv(rows)
    ensures LatestSchema(CreateNextVersion(rows, e, key, schema), e', key')
         == (if e == e' && key == key' then Some(schema) else LatestSchema(rows, e', key'))
  {
    hide Versions, GetLatest, Chained;
    var rows' := CreateNextVersion(rows, e, key, schema);
    ChainCreate(rows, e, key, schema, e', key');
    LatestIsLast(rows, e', key');
    LatestIsLast(rows', e', key');
  }

  /** The key of the last version that a scan wrote for the endpoint. */
  function LastKey(writes: seq<(nat, string)>, e: nat): Option<string> {
    if |writes| == 0 then None
    else if writes[|writes| - 1].0 == e then Some(writes[|writes| - 1].1)
    else LastKey(writes[..|writes| - 1], e)
  }

  /** What the snapshot of an endpoint holds: nothing before the first version, then the latest
      schema of the key written last, and no other key. */
  predicate Tracks(s: Store, e: nat) {
    var key := LastKey(s.writes, e);
    if e !in s.endpoints then key.None?
    else if key.None? then s.endpoints[e].None?
    else
      var latest := LatestSchema(s.rows, e, key);
      latest.Some? && s.endpoints[e] == Some(map[key.value := latest.value])
  }

  lemma TracksSave(s: Store, e: nat, key: string, schema: Flat, e': nat)
    requires ChainInv(s.rows) && e in s.endpoints && Tracks(s, e')
    ensures Tracks(SaveVersion(s, e, key, schema), e')
  {
    hide CreateNextVersion, LatestSchema, ChainInv;
    var last := LastKey(s.writes, e');
    CreateLatest(s.rows, e, Some(key), schema, e', if e == e' then Some(key) else last);
    assert (s.writes + [(e, key)])[..|s.writes|] == s.writes;
  }

  lemma TracksGenerate(s: Store, e: nat, eventType: Option<string>, generated: bool, e': nat)
    requires ChainInv(s.rows) && Tracks(s, e')
    ensures Tracks(Generate(s, e, eventType, generated), e')
  {
    hide CreateNextVersion, GetLatest, ChainInv;
    var source := SourceRow(s.rows, e, eventType);
    if source.Some? {
      CreateLatest(s.rows, e, eventType, s.rows[source.value].schema, e', LastKey(s.writes, e'));
    }
  }

  lemma TracksEvents(s: Store, events: seq<Event>, e: nat)
    requires Tracks(s, e)
    ensures Tracks(s.(events := events), e)
  {
  }

  lemma ApplyTracks(s: Store, step: Step, e': nat)
    requires ChainInv(s.rows) && Tracks(s, e')
    ensures Tracks(Apply(s, step), e')
  {
    hide GetLatest, ChainInv, Flatten, DiffSchemas, CreateNextVersion, SaveVersion, Generate;
    match step {
      case CreateEndpoint(e) =>
      case GenerateDto(e, eventType, generated) => TracksGenerate(s, e, eventType, generated, e');
      case ScanPayload(e, eventType, payload, access) =>
        if !Falsy(payload) && e in s.endpoints {
          TracksScan(s, e, eventType, Flatten(payload, ""), access, e');
        }
    }
  }

  lemma TracksScan(s: Store, e: nat, eventType: Option<string>, schema: Flat, access: bool, e': nat)
    requires ChainInv(s.rows) && e in s.endpoints && Tracks(s, e')
    ensures Tracks(ScanSchema(s, e, eventType, schema, access), e')
  {
    hide GetLatest, ChainInv, DiffSchemas, SaveVersion, Tracks;
    var key := KeyOf(eventType);
    TracksSave(s, e, key, schema, e');
    var latest := GetLatest(s.rows, e, Some(key));
    if latest.Some? {
      var diff := DiffSchemas(s.rows[latest.value].schema, schema);
      if !IsSchemaDiffEmpty(diff) {
        var s1 := s.(events := s.events + [Event(e, eventType, diff.value)]);
        TracksEvents(s, s1.events, e');
        TracksSave(s1, e, key, schema, e');
      }
    }
  }

  lemma {:induction false} RunTracks(s: Store, steps: seq<Step>, e: nat)
    requires ChainInv(s.rows) && Tracks(s, e)
    ensures Tracks(Run(s, steps), e)
  {
    hide ChainInv, Apply, Tracks;
    if |steps| > 0 {
      var before := steps[..|steps| - 1];
      RunTracks(s, before, e);
      RunChain(s, before);
      ApplyTracks(Run(s, before), steps[|steps| - 1], e);
    }
  }

  predicate SnapshotAgrees(s: Store, e: nat, key: string) {
    && e in s.endpoints && s.endpoints[e].Some?
    && key in s.endpoints[e].value
    && LatestSchema(s.rows, e, Some(key)) == Some(s.endpoints[e].value[key])
  }

  /** The endpoint's schema for a key is the latest version's exactly when the last version that a
      scan wrote for the endpoint was for that key; otherwise the key is missing from it.
      Generation commands do not disturb this. */
  lemma SnapshotIffLastWritten(steps: seq<Step>, e: nat, key: string)
    ensures var s := Run(EMPTY, steps);
      && (SnapshotAgrees(s, e, key) <==> LastKey(s.writes, e) == Some(key))
      && (e in s.endpoints && s.endpoints[e].Some? && LastKey(s.writes, e) != Some(key)
          ==> key !in s.endpoints[e].value)
  {
    hide Run, LatestSchema, LastKey;
    EmptyTracks(e);
    EmptyChain();
    RunTracks(EMPTY, steps, e);
  }

  lemma EmptyTracks(e: nat)
    ensures Tracks(EMPTY, e)
  {
  }

  /** With two event types the snapshot forgets: after a scan for each, both keys have a latest
      version but only the second is in the snapshot. */
  lemma SnapshotForgets()
    ensures var scan := (key: string) => ScanPayload(0, Some(key), JObj([]), true);
      var s := Run(EMPTY, [CreateEndpoint(0), scan("a"), scan("b")]);
      LatestSchema(s.rows, 0, Some("a")).Some? && SnapshotAgrees(s, 0, "b") && !SnapshotAgrees(s, 0, "a")
  {
    var a, b := ScanPayload(0, Some("a"), JObj([]), true), ScanPayload(0, Some("b"), JObj([]), true);
    var s1 := Run(EMPTY, [CreateEndpoint(0)]);
    assert [CreateEndpoint(0), a][..1] == [CreateEndpoint(0)];
    var s2 := Run(EMPTY, [CreateEndpoint(0), a]);
    assert s2 == SaveVersion(s1, 0, "a", map[]);
    assert s2.rows == [VersionRow(0, Some("a"), 1, true, None, map[])];
    assert [CreateEndpoint(0), a, b][..2] == [CreateEndpoint(0), a];
    var s3 := Run(EMPTY, [CreateEndpoint(0), a, b]);
    assert s3 == SaveVersion(s2, 0, "b", map[]);
    EmptyChain();
    RunChain(EMPTY, [CreateEndpoint(0), a]);
    CreateLatest(s2.rows, 0, Some("b"), map[], 0, Some("a"));
    SnapshotIffLastWritten([CreateEndpoint(0), a, b], 0, "a");
    SnapshotIffLastWritten([CreateEndpoint(0), a, b], 0, "b");
  }

  /** Every row is for the default key, and its endpoint's last written key is the default. */
  predicate DefaultOnly(s: Store) {
    && (forall w | w in s.writes :: w.1 == DEFAULT_EVENT_TYPE_KEY)
    && (forall i | 0 <= i < |s.rows| ::
          s.rows[i].eventType == Some(DEFAULT_EVENT_TYPE_KEY)
          && LastKey(s.writes, s.rows[i].endpoint) == Some(DEFAULT_EVENT_TYPE_KEY))
  }

  lemma {:induction false} LastKeyOf(writes: seq<(nat, string)>, e: nat)
    ensures LastKey(writes, e).Some? ==> (e, LastKey(writes, e).value) in writes
  {
    if |writes| > 0 { LastKeyOf(writes[..|writes| - 1], e); }
  }

  lemma DefaultOnlySave(s: Store, e: nat, schema: Flat)
    requires DefaultOnly(s)
    ensures DefaultOnly(SaveVersion(s, e, DEFAULT_EVENT_TYPE_KEY, schema))
  {
    hide GetLatest;
    assert (s.writes + [(e, DEFAULT_EVENT_TYPE_KEY)])[..|s.writes|] == s.writes;
  }

  lemma DefaultOnlyGenerate(s: Store, e: nat, eventType: Option<string>, generated: bool)
    requires DefaultOnly(s)
    ensures DefaultOnly(Generate(s, e, eventType, generated))
  {
    hide GetLatest, LastKey;
  }

  lemma DefaultOnlyApply(s: Store, step: Step)
    requires DefaultOnly(s) && (step.ScanPayload? ==> step.eventType.None?)
    ensures DefaultOnly(EndpointSchemas.Apply(s, step))
  {
    hide GetLatest, DefaultOnly, Flatten, DiffSchemas, SaveVersion, Generate;
    match step {
      case CreateEndpoint(e) => DefaultOnlyFrame(s, EndpointSchemas.Apply(s, step));
      case GenerateDto(e, eventType, generated) => DefaultOnlyGenerate(s, e, eventType, generated);
      case ScanPayload(e, eventType, payload, access) =>
        var schema := Flatten(payload, "");
        DefaultOnlySave(s, e, schema);
        var latest := GetLatest(s.rows, e, Some(DEFAULT_EVENT_TYPE_KEY));
        if latest.Some? {
          var diff := DiffSchemas(s.rows[latest.value].schema, schema);
          if !IsSchemaDiffEmpty(diff) {
            var s1 := s.(events := s.events + [Event(e, eventType, diff.value)]);
            DefaultOnlyFrame(s, s1);
            DefaultOnlySave(s1, e, schema);
          }
        }
    }
  }

  lemma DefaultOnlyFrame(s: Store, s': Store)
    requires DefaultOnly(s) && s'.rows == s.rows && s'.writes == s.writes
    ensures DefaultOnly(s')
  {
  }

  lemma {:induction false} DefaultOnlyRun(steps: seq<Step>)
    requires forall i | 0 <= i < |steps| && steps[i].ScanPayload? :: steps[i].eventType.None?
    ensures DefaultOnly(Run(EMPTY, steps))
  {
    hide EndpointSchemas.Apply;
    if |steps| > 0 {
      DefaultOnlyRun(steps[..|steps| - 1]);
      DefaultOnlyApply(Run(EMPTY, steps[..|steps| - 1]), steps[|steps| - 1]);
    }
  }

  /** The queue that scans webhooks passes no event type. In every run of that kind, commands
      included, each endpoint's snapshot is exactly its latest schema under the default key. */
  lemma DefaultSnapshot(steps: seq<Step>, e: nat)
    requires forall i | 0 <= i < |steps| && steps[i].ScanPayload? :: steps[i].eventType.None?
    requires e in Run(EMPTY, steps).endpoints
    ensures var s := Run(EMPTY, steps);
      var latest := LatestSchema(s.rows, e, Some(DEFAULT_EVENT_TYPE_KEY));
      s.endpoints[e] == if latest.Some? then Some(map[DEFAULT_EVENT_TYPE_KEY := latest.value]) else None
  {
    hide Run, GetLatest, LastKey;
    EmptyTracks(e);
    EmptyChain();
    RunTracks(EMPTY, steps, e);
    DefaultOnlyRun(steps);
    LastKeyOf(Run(EMPTY, steps).writes, e);
  }
}
