/** The table of schema versions, the snapshot on the endpoint, and the scans and commands that
    write them. */
module EndpointSchemas {
  import opened Json
  import opened Schema
  import opened SchemaDiff
  import opened Wrappers

  const DEFAULT_EVENT_TYPE_KEY := "__default__"

  /** A row of endpoint_schemas; `prev` is the position of the row it replaced. */
  datatype VersionRow = VersionRow(
    endpoint: nat,
    eventType: Option<string>,
    version: int,
    isLatest: bool,
    prev: Option<nat>,
    schema: Flat)

  /** The column `schemas` of an endpoint. */
  type Snapshot = Option<map<string, Flat>>

  /** A published schema_drift event. */
  datatype Event = Event(endpoint: nat, eventType: Option<string>, diff: Diff)

  /** `writes` is not stored: the endpoint and key of each version written by a scan. */
  datatype Store = Store(
    rows: seq<VersionRow>,
    endpoints: map<nat, Snapshot>,
    events: seq<Event>,
    writes: seq<(nat, string)>)

  predicate Is(row: VersionRow, e: nat, key: Option<string>) {
    row.endpoint == e && row.eventType == key
  }

  /** Among the first n rows, the one of the highest version that is marked latest. */
  function LatestAmong(rows: seq<VersionRow>, n: nat, e: nat, key: Option<string>): (r: Option<nat>)
    requires n <= |rows|
    ensures r.Some? ==> r.value < n && Is(rows[r.value], e, key) && rows[r.value].isLatest
    ensures r.None? ==> forall i | 0 <= i < n && Is(rows[i], e, key) :: !rows[i].isLatest
    ensures r.Some? ==> forall i | 0 <= i < n && Is(rows[i], e, key) && rows[i].isLatest ::
      rows[i].version <= rows[r.value].version
  {
    if n == 0 then None
    else
      var best := LatestAmong(rows, n - 1, e, key);
      var row := rows[n - 1];
      if Is(row, e, key) && row.isLatest && (best.None? || row.version > rows[best.value].version)
      then Some(n - 1)
      else best
  }

  function GetLatest(rows: seq<VersionRow>, e: nat, key: Option<string>): (r: Option<nat>)
    ensures r.Some? ==> r.value < |rows| && Is(rows[r.value], e, key) && rows[r.value].isLatest
    ensures r.None? ==> forall i | 0 <= i < |rows| && Is(rows[i], e, key) :: !rows[i].isLatest
  {
    LatestAmong(rows, |rows|, e, key)
  }

  function CreateNextVersion(rows: seq<VersionRow>, e: nat, key: Option<string>, schema: Flat): seq<VersionRow> {
    var latest := GetLatest(rows, e, key);
    if latest.None? then rows + [VersionRow(e, key, 1, true, None, schema)]
    else
      var row := rows[latest.value];
      rows[latest.value := row.(isLatest := false)] + [VersionRow(e, key, row.version + 1, true, latest, schema)]
  }

  function KeyOf(eventType: Option<string>): string {
    if eventType.Some? then eventType.value else DEFAULT_EVENT_TYPE_KEY
  }

  /** What JavaScript takes for false. */
  predicate Falsy(payload: Json) {
    payload == JNull || payload == JBool(false) || payload == JNum("0") || payload == JStr("")
  }

  /** A new version and the endpoint saved with it. The mapper that loads an endpoint leaves its
      schemas out, so the one just written is all that is saved. */
  function SaveVersion(s: Store, e: nat, key: string, schema: Flat): Store {
    s.(rows := CreateNextVersion(s.rows, e, Some(key), schema),
       endpoints := s.endpoints[e := Some(map[key := schema])],
       writes := s.writes + [(e, key)])
  }

  function Scan(s: Store, e: nat, eventType: Option<string>, payload: Json, access: bool): Store {
    if Falsy(payload) || e !in s.endpoints then s
    else ScanSchema(s, e, eventType, Flatten(payload, ""), access)
  }

  function ScanSchema(s: Store, e: nat, eventType: Option<string>, schema: Flat, access: bool): Store {
    var key := KeyOf(eventType);
    var latest := GetLatest(s.rows, e, Some(key));
    if latest.None? then SaveVersion(s, e, key, schema)
    else
      var diff := DiffSchemas(s.rows[latest.value].schema, schema);
      if IsSchemaDiffEmpty(diff) then s
      else
        var s1 := s.(events := s.events + [Event(e, eventType, diff.value)]);
        if access then SaveVersion(s1, e, key, schema) else s1
  }

  /** The row whose schema a generation command copies: the latest of its key or, for the default
      key, the latest of the rows without an event type. */
  function SourceRow(rows: seq<VersionRow>, e: nat, eventType: Option<string>): Option<nat> {
    var latest := GetLatest(rows, e, eventType);
    if latest.None? && eventType == Some(DEFAULT_EVENT_TYPE_KEY) then GetLatest(rows, e, None) else latest
  }

  /** `generated` says whether the artifacts could be generated; if not the command fails. */
  function Generate(s: Store, e: nat, eventType: Option<string>, generated: bool): Store {
    var source := SourceRow(s.rows, e, eventType);
    if e !in s.endpoints || source.None? || !generated then s
    else s.(rows := CreateNextVersion(s.rows, e, eventType, s.rows[source.value].schema))
  }

  datatype Step =
    | CreateEndpoint(e: nat)
    | ScanPayload(e: nat, eventType: Option<string>, payload: Json, access: bool)
    | GenerateDto(e: nat, eventType: Option<string>, generated: bool)

  function Apply(s: Store, step: Step): Store {
    match step
    case CreateEndpoint(e) => if e in s.endpoints then s else s.(endpoints := s.endpoints[e := None])
    case ScanPayload(e, eventType, payload, access) => Scan(s, e, eventType, payload, access)
    case GenerateDto(e, eventType, generated) => Generate(s, e, eventType, generated)
  }

  function Run(s: Store, steps: seq<Step>): Store {
    if |steps| == 0 then s else Apply(Run(s, steps[..|steps| - 1]), steps[|steps| - 1])
  }

  const EMPTY := Store([], map[], [], [])

  /* ----- the store, as it runs ----- */

  /** The endpoint aggregate, as far as its schemas go. */
  class Endpoint {
    const id: nat
    var schemas: Snapshot
    var lastSchemaAt: Option<int>

    /** EndpointMapper.toDomain: schemas and lastSchemaAt are not passed on. */
    constructor (id: nat)
      ensures this.id == id && schemas == None && lastSchemaAt == None
    {
      this.id := id;
      schemas, lastSchemaAt := None, None;
    }

    method SaveSchema(schema: Flat, key: Option<string>, now: int)
      modifies this
      ensures lastSchemaAt == Some(now)
      ensures schemas == Some((if old(schemas).Some? then old(schemas).value else map[])[KeyOf(key) := schema])
    {
      var schemaKey := if key.Some? then key.value else DEFAULT_EVENT_TYPE_KEY;
      if schemas.None? { schemas := Some(map[]); }
      schemas := Some(schemas.value[schemaKey := schema]);
      lastSchemaAt := Some(now);
    }
  }

  datatype Outcome = EndpointNotFound | LatestSchemaNotFound | GenerationFailed | Saved(row: nat)

  class SchemaStore {
    var rows: seq<VersionRow>
    var endpoints: map<nat, Snapshot>
    var events: seq<Event>
    var lastSchemaAt: map<nat, Option<int>>
    ghost var writes: seq<(nat, string)>

    constructor ()
      ensures Now() == EMPTY && lastSchemaAt == map[]
    {
      rows, endpoints, events, lastSchemaAt, writes := [], map[], [], map[], [];
    }

    ghost function Now(): Store
      reads this
    {
      Store(rows, endpoints, events, writes)
    }

    /** getLatest: the row of that key marked latest; of several, the highest version. */
    method FindLatest(e: nat, key: Option<string>) returns (latest: Option<nat>)
      ensures latest == GetLatest(rows, e, key)
    {
      latest := None;
      for i := 0 to |rows|
        invariant latest == LatestAmong(rows, i, e, key)
      {
        if Is(rows[i], e, key) && rows[i].isLatest
           && (latest.None? || rows[i].version > rows[latest.value].version) {
          latest := Some(i);
        }
      }
    }

    method NextVersion(e: nat, key: Option<string>, schema: Flat) returns (row: nat)
      modifies `rows
      ensures rows == CreateNextVersion(old(rows), e, key, schema)
      ensures row == |rows| - 1 == |old(rows)|
    {
      var latest := FindLatest(e, key);
      var version := 1;
      if latest.Some? {
        version := rows[latest.value].version + 1;
        rows := rows[latest.value := rows[latest.value].(isLatest := false)];
      }
      row := |rows|;
      rows := rows + [VersionRow(e, key, version, true, latest, schema)];
    }

    /** EndpointRepository.save of an endpoint that exists. */
    method SaveEndpoint(endpoint: Endpoint)
      requires endpoint.id in endpoints
      modifies `endpoints, `lastSchemaAt
      ensures endpoints == old(endpoints)[endpoint.id := endpoint.schemas]
      ensures lastSchemaAt == old(lastSchemaAt)[endpoint.id := endpoint.lastSchemaAt]
    {
      endpoints := endpoints[endpoint.id := endpoint.schemas];
      lastSchemaAt := lastSchemaAt[endpoint.id := endpoint.lastSchemaAt];
    }

    method ScanContext(e: nat, eventType: Option<string>, payload: Json, access: bool, now: int)
      requires !payload.JStr? || payload.s == ""
      modifies this
      ensures Now() == Scan(old(Now()), e, eventType, payload, access)
      ensures lastSchemaAt == if |rows| > |old(rows)| then old(lastSchemaAt)[e := Some(now)] else old(lastSchemaAt)
    {
      hide DiffSchemas, Flatten, SaveVersion, GetLatest;
      if Falsy(payload) {
        return;
      }
      var schema := FlattenSchema(payload, "");
      if e !in endpoints {
        return;
      }
      var endpoint := new Endpoint(e);
      var schemaKey := if eventType.Some? then eventType.value else DEFAULT_EVENT_TYPE_KEY;
      var latest := FindLatest(e, Some(schemaKey));
      if latest.Some? {
        var diff := DiffSchemas(rows[latest.value].schema, schema);
        if IsSchemaDiffEmpty(diff) {
          return;
        }
        events := events + [Event(e, eventType, diff.value)];
        if !access {
          return;
        }
      }
      WriteVersion(endpoint, schemaKey, schema, now);
    }

    /** The next version, and the endpoint saved with it. */
    method WriteVersion(endpoint: Endpoint, key: string, schema: Flat, now: int)
      requires endpoint.id in endpoints && endpoint.schemas == None && endpoint as object != this
      modifies this, endpoint
      ensures Now() == SaveVersion(old(Now()), endpoint.id, key, schema)
      ensures lastSchemaAt == old(lastSchemaAt)[endpoint.id := Some(now)]
      ensures |rows| == |old(rows)| + 1
    {
      hide CreateNextVersion, GetLatest;
      var _ := NextVersion(endpoint.id, Some(key), schema);
      endpoint.SaveSchema(schema, Some(key), now);
      SaveEndpoint(endpoint);
      writes := writes + [(endpoint.id, key)];
    }

    method ExecuteCreateSchema(e: nat, eventType: Option<string>, generated: bool) returns (outcome: Outcome)
      modifies this
      ensures Now() == Generate(old(Now()), e, eventType, generated)
      ensures outcome.EndpointNotFound? <==> e !in old(endpoints)
      ensures outcome.LatestSchemaNotFound? <==> e in old(endpoints) && SourceRow(old(rows), e, eventType).None?
      ensures outcome.Saved? ==> outcome.row == |rows| - 1 && |rows| == |old(rows)| + 1
      ensures !outcome.Saved? ==> Now() == old(Now())
    {
      if e !in endpoints {
        return EndpointNotFound;
      }
      var latest := FindLatest(e, eventType);
      if latest.None? && eventType == Some(DEFAULT_EVENT_TYPE_KEY) {
        latest := FindLatest(e, None);
      }
      if latest.None? {
        return LatestSchemaNotFound;
      }
      if !generated {
        return GenerationFailed;
      }
      var row := NextVersion(e, eventType, rows[latest.value].schema);
      outcome := Saved(row);
    }
  }
}
