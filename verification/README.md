# A model of hookscope-be

hookscope-be receives webhooks, stores them, forwards and retries them, watches their shape and
their volume, and raises alerts. This project models the parts of it that keep state or transform
payloads, and proves what they keep over every input and every run. `dafny verify dfyconfig.toml`
checks all of it.

| files | what they model |
|---|---|
| `Json`, `JsonText`, `HashPayload` | JSON values, the text that is hashed, `sortKeys` |
| `Schema`, `SchemaOrder`, `SchemaRoundTrip`, `KeyOrder`, `SchemaDiff` | `flattenSchema`, its dot notation and when that can be read back, `diffSchemas` |
| `EndpointSchemas`, `VersionChain`, `Drift` | the schema version table, the endpoint's snapshot, the drift scan, code-generation commands |
| `Calendar`, `PacketLimits`, `Quota`, `QuotaInterleaved` | UTC dates, billing periods, the overlimit decision |
| `RetryAggregate`, `RetryProtocol`, `RetryProperties`, `RetryDrain`, `RetryInterleaved` | retries, their delayed jobs, the worker, manual runs |
| `Alerts`, `VolumeSpike`, `VolumeSpikeProperties` | alert deduplication, cooldown and resolution; the volume scan |
| `Outbox` | the email outbox |
| `Cleanup` | the chain of request cleanup jobs |
| `StripeSignature` | the Stripe signature header |

Code that changes state is a class whose methods are proved equal to a function of the old state;
the lemmas are about runs of these functions. Every handler, job or scan is one atomic step over a
store with one clock, except in `RetryInterleaved` and `QuotaInterleaved`, where a job or a handler
reads in one step and writes in another. Network answers, clocks, generated ids and parsed packet features are parameters,
so each statement holds for all of them.

## What the proofs turned up

Each of these is a lemma, or an exact condition in one.

* A retry that has failed five times still has a delay configured, so its fifth failure queues one
  more job, and the branch that reports an exhausted retry, with its alert, is never reached
  (`ExhaustedUnreachable`, and `NeverExhausted` under interleaving).
* A 4xx answer leaves a retry PENDING with no job; a status of 0 counts as a success although the
  first forward counts it as a failure. The model follows the worker (`NoLostRetry`).
* `RetryRepository.save` finds the entity it loaded in the same entity manager and assigns to it, so
  it writes the columns that changed. Two overlapping jobs can then leave SUCCESS with five attempts
  (`ChangedColumnsCounterexample`); `StaysOkIff` says exactly in which runs this does not happen.
  Overlapping jobs can also send more often than they count (`OverlapLosesAnAttempt`);
  `SendsConservedIff` says exactly when they do not. Without overlap both hold (`FreshRuns`).
* The mapper that loads an endpoint leaves its schemas out, so saving one event type's schema drops
  the others from the snapshot (`SnapshotIffLastWritten`, `SnapshotForgets`). With the default key
  alone, which is what the scan queue uses, snapshot and latest version agree (`DefaultSnapshot`).
* `diffSchemas` looks paths up with `in`, which also finds what every object inherits: dropping a
  property named `toString` is not noticed (`NoDiff`, `RemovalMissed`, and `DriftWithAccess` for runs).
* `sortKeys` and `flattenSchema` lose a property named `__proto__` (`ProtoNotHashed`), and keys with
  dots make paths collide, so that key order decides the type (`DottedKeysCollide`; exactly when is
  `KeyOrderIrrelevantIff`). The scan itself reads payloads back from a jsonb column, which fixes their
  key order, so there a payload has one listing only.
* A number beyond the range of a double is parsed as infinite and hashed as null
  (`InfinityHashedAsNull`).
* An array is printed as its plain path with type "array", not as a path that ends in `[]`, which is
  what src/endpoint/constants.ts documents (`ArraysUnmarked`).
* `Date.UTC` reads the years 0 to 99 as 1900 to 1999, which is visible on February 29th of the year
  0 (`AddMonthsUtc`, `PeriodLength`) and moves the periods of such years (`CalendarPeriod`).
* A period is taken from the recorded end of the subscription even when that end has passed, and
  requests after it are not counted, so the quota does not fill any more (`StaleEndNeverFills`).
* Requests that overlap between the count and the save exceed the quota, by exactly one less than
  their number at worst (`OverlapBound`, `OverlapReachesBound`).
* Marking the newest alert as read restarts the cooldown (`TouchRestartsCooldown`).

## Model

| member | source | states |
|---|---|---|
| `JsonText.TextInjective` | src/shared/utils/hash-payload/index.ts:3-7 | two values have one serialised text exactly if they are the same, property order included, where an infinite number counts as null |
| `JsonText.TextsAre` | src/shared/utils/hash-payload/index.ts:4-6 | the texts of null, booleans, numbers, infinite numbers, empty containers and arrays of two, written out as JSON prints them |
| `JsonText.ObjectTextIs` | src/shared/utils/hash-payload/index.ts:4-6 | the text of an object of two properties, written out |
| `JsonText.EscapesAre` | src/shared/utils/hash-payload/index.ts:4-6 | the escapes of quotes, backslashes and control characters |
| `Json.SetPropIs` | src/shared/utils/hash-payload/index.ts:14-20 | assigning a property replaces or adds that one and keeps the others; `__proto__` is none |
| `Json.StrLessIs` | src/shared/utils/hash-payload/index.ts:12-13 | keys are sorted by the first character that differs, a prefix first |
| `HashPayload.CopySorted` | src/shared/utils/hash-payload/index.ts:9-23 | the recursion with its accumulator computes the sorted copy |
| `HashPayload.SortKeysObject` | src/shared/utils/hash-payload/index.ts:11-21 | a sorted object lists its keys in property order (array indices first, then string order) and has every key but `__proto__`, with its sorted value |
| `HashPayload.SortKeysIdempotent` | src/shared/utils/hash-payload/index.ts:9-23 | sorting a sorted copy changes nothing |
| `HashPayload.CanonicalText` | src/shared/utils/hash-payload/index.ts:3-23 | two payloads have the same hashed text exactly if they are the same JSON value up to key order at every depth, `__proto__` aside and with infinite numbers counting as null |
| `HashPayload.HashIffSameValue` | src/shared/utils/hash-payload/index.ts:3-7 | with an injective hash, equal hashes exactly for equal JSON values, in the same sense; without `__proto__` and infinite numbers nothing is set aside |
| `HashPayload.ProtoNotHashed` | src/shared/utils/hash-payload/index.ts:14-20 | two different payloads with one hash: a `__proto__` property is lost |
| `HashPayload.InfinityHashedAsNull` | src/shared/utils/hash-payload/index.ts:4-6 | two different payloads with one hash: a number beyond the range of a double, and null |
| `Schema.FlattenSchema` | src/shared/utils/schema/index.ts:7-43 | the reduce with its in-place accumulator and recursion computes the flattened record, for objects and arrays |
| `Schema.FlattenSpec` | src/shared/utils/schema/index.ts:7-43 | where the printed keys are clean, the record holds a path and a type exactly if the dot rules, read on the payload's shape, give the path that type |
| `Schema.LeafTypes` | src/shared/utils/schema/index.ts:35-37 | the record of one property that is no object or array names its type: null, boolean, number or string |
| `Schema.ArrayIndexIs` | src/shared/utils/schema/index.ts:14-15 | the keys that are listed first are the decimal texts of the numbers below 2^32 - 1 |
| `Schema.RoundTrip` | src/endpoint/constants.ts:11-20 | reading the flattened record back by the dot rules rebuilds the payload's shape, with empty objects vanishing |
| `Schema.FlattenIffSameShape` | src/shared/utils/schema/index.ts:7-43 | payloads that can be read back flatten to one record exactly if their shapes are equal |
| `SchemaRoundTrip.RoundTripIff` | src/endpoint/constants.ts:11-20 | for every payload: the record can be read back exactly if every printed key is non-empty and free of `.` and `[`, and a top-level `__proto__`, if any, is an object |
| `SchemaOrder.FlattenLast` | src/shared/utils/schema/index.ts:12-42 | for every payload, the record holds for a path the type that was printed for it last, whatever the keys |
| `KeyOrder.KeyOrderIrrelevantIff` | src/shared/utils/schema/index.ts:12-42 | for every payload: no order in which its objects can list their keys changes the record exactly if of each path only one type can be printed last |
| `KeyOrder.Ended` | src/shared/utils/schema/index.ts:12-42 | the type that any listing prints last for a path is one that `CanEnd` allows, that is of an entry that can move to the end, or of an array index after which nothing prints the path |
| `KeyOrder.IndexKeysHide` | src/shared/utils/schema/index.ts:12-42 | a payload that prints a path with two types and yet has one record in every listing, because one of its keys is an array index |
| `SchemaRoundTrip.ReadableConsistent` | src/shared/utils/schema/index.ts:7-43 | what can be read back prints no path with two types |
| `SchemaRoundTrip.KeyOrderIrrelevant` | src/shared/utils/schema/index.ts:7-43 | reordering the keys of a payload that can be read back does not change its record |
| `Schema.SameShape` | src/shared/utils/schema/index.ts:12-42 | reordering keys at any depth never changes the shape of a payload |
| `KeyOrder.ConsistentSettled` | src/shared/utils/schema/index.ts:12-42 | a payload that prints no path with two types has one type that can be printed last for each, so its key order is irrelevant |
| `SchemaRoundTrip.ArraysUnmarked` | src/endpoint/constants.ts:14-20 | the documented form of an array, a path that ends in `[]`, is printed exactly for keys that themselves end so; the code prints the plain path with type "array" |
| `Schema.DottedKeysCollide` | src/shared/utils/schema/index.ts:14-36 | with a dot in a key, two paths collide and key order decides the type |
| `SchemaDiff.DiffCovers` | src/shared/utils/schema/index.ts:45-60 | added, removed and typeChanged are disjoint and together are all differing paths but the unnoticed ones, with both types |
| `SchemaDiff.DiffIs` | src/shared/utils/schema/index.ts:45-60 | removed and added are the paths of just one record and typeChanged the common ones with other types, the twelve names of `Object.prototype` aside, written out; without these there is no diff exactly if the records are equal |
| `SchemaDiff.NoDiff` | src/shared/utils/schema/index.ts:55-71 | there is no diff exactly if the only differences are removed paths with inherited names |
| `SchemaDiff.NoDiffIffEqual` | src/shared/utils/schema/index.ts:45-60 | "no diff exactly for equal records" holds exactly unless the only changes are unnoticed removals |
| `SchemaDiff.RemovalUnnoticed` | src/shared/utils/schema/index.ts:49-50 | a removal that yields no diff |
| `SchemaDiff.ApplyDiff` | src/shared/utils/schema/index.ts:45-60 | applying the diff to the previous record gives the current one; unnoticed paths stay |
| `SchemaDiff.SwapDiff` | src/shared/utils/schema/index.ts:45-60 | swapping the arguments swaps added with removed for all records; the same paths change type exactly if no inherited name is in just one record, and then from and to swap |
| `EndpointSchemas.Endpoint.SaveSchema` | src/endpoint/domain/aggregates/endpoint.ts:181-188 | sets the schema of one key, the default key if none is given, keeps the others it has loaded, and stamps lastSchemaAt |
| `EndpointSchemas.SchemaStore.FindLatest` | src/endpoint/adapters/outbound/persistence/repositories/endpoint-schema.repository.ts:28-45 | the row marked latest for the endpoint and key, of several the highest version |
| `EndpointSchemas.SchemaStore.NextVersion` | src/endpoint/adapters/outbound/persistence/repositories/endpoint-schema.repository.ts:47-86 | clears the mark on the old latest row and adds the next version, linked to it |
| `EndpointSchemas.SchemaStore.SaveEndpoint` | src/endpoint/adapters/outbound/persistence/repositories/endpoint.repository.ts:24-36 | the stored snapshot and lastSchemaAt become the loaded endpoint's, which has only what was set since loading |
| `EndpointSchemas.SchemaStore.WriteVersion` | src/webhook/adapters/outbound/persistence/services/schema-drift-scanner.service.ts:109-116 | one more version, and the endpoint saved with that schema alone and stamped |
| `EndpointSchemas.SchemaStore.ScanContext` | src/webhook/adapters/outbound/persistence/services/schema-drift-scanner.service.ts:50-121 | a scan's branches: no payload, no endpoint, first version, no drift, drift with and without access |
| `Drift.ScanLeavesVersion` | src/webhook/adapters/outbound/persistence/services/schema-drift-scanner.service.ts:51-82 | a scan of anything but null, false, 0 and the empty string, for an existing endpoint, leaves the key, or the default one, with a latest version |
| `Drift.ScanSkips` | src/webhook/adapters/outbound/persistence/services/schema-drift-scanner.service.ts:51-60 | those four payloads, and scans for endpoints that do not exist, change nothing |
| `Drift.GenerateFallsBack` | src/endpoint/application/commands/create-endpoint-schema/create-endpoint-schema.handler.ts:30-64 | a generation command for the default key starts it from the latest row without an event type |
| `Drift.GenerateNeedsSource` | src/endpoint/application/commands/create-endpoint-schema/create-endpoint-schema.handler.ts:30-57 | for any other key without a version, and when generation fails, it changes nothing |
| `EndpointSchemas.SchemaStore.ExecuteCreateSchema` | src/endpoint/application/commands/create-endpoint-schema/create-endpoint-schema.handler.ts:21-67 | copies the latest schema into a new version, with the fallback to rows without event type; which error comes when, and that errors change nothing |
| `VersionChain.VersionChain` | src/endpoint/adapters/outbound/persistence/repositories/endpoint-schema.repository.ts:47-86 | in every run, per endpoint and event type: versions are 1 to n, only row n is latest and it is the one found, links walk n, n - 1, ..., 1 and end |
| `VersionChain.SnapshotIffLastWritten` | src/endpoint/adapters/outbound/persistence/mappers/endpoint.mapper.ts:12-31 | in every run the snapshot has a key's latest schema exactly if the last version a scan wrote for the endpoint was for that key, else it lacks the key |
| `VersionChain.SnapshotForgets` | src/endpoint/adapters/outbound/persistence/mappers/endpoint.mapper.ts:12-31 | two event types after which the first is missing from the snapshot |
| `VersionChain.DefaultSnapshot` | src/webhook/adapters/outbound/persistence/services/schema-drift-scanner.service.ts:62-80 | when scans carry no event type, the snapshot is exactly the latest schema under the default key, across generation commands |
| `Drift.RunShows` | src/webhook/adapters/outbound/persistence/services/schema-drift-scanner.service.ts:50-121 | however other endpoints, event types and commands interleave, the store gives one endpoint and key the events, diffs, latest schema and version count of a payload-after-payload reference |
| `Drift.EveryScanCounts` | src/webhook/adapters/outbound/persistence/services/schema-drift-scanner.service.ts:50-64 | the payloads the drift laws are about are all those scanned for the endpoint and event type since the endpoint was created, if they are objects and arrays |
| `Drift.DriftWithAccess` | src/webhook/adapters/outbound/persistence/services/schema-drift-scanner.service.ts:84-117 | with access an event is raised exactly at payloads whose schema differs from the previous one's, throughout a run, exactly if no payload's only change is an unnoticed removal; then versions are 1 plus these changes, plus generation commands, and the latest is the last payload's |
| `Drift.DriftWithoutAccess` | src/webhook/adapters/outbound/persistence/services/schema-drift-scanner.service.ts:84-117 | without access an event is raised exactly at payloads whose schema drifts from the first one's, which stays the latest; scans add no version |
| `Drift.RemovalMissed` | src/shared/utils/schema/index.ts:50-50 | a schema change that raises no event, even with access |
| `Drift.DriftIffShapeDiffers` | src/webhook/adapters/outbound/persistence/services/schema-drift-scanner.service.ts:55-86 | from payload to event: payloads that can be read back drift exactly if their shapes differ and the change is not missed |
| `Drift.ReorderedNeverDriftsIff` | src/webhook/adapters/outbound/persistence/services/schema-drift-scanner.service.ts:55-86 | for every payload: no listing of its keys drifts exactly if of each path only one type can be printed last |
| `Drift.DriftFromStart` | src/webhook/adapters/outbound/persistence/services/schema-drift-scanner.service.ts:50-121 | both kinds of user, for every run from the empty store |
| `PacketLimits.AddMonthsUtc` | src/billing/application/utils/packet-limits.ts:22-32 | lands in the exact target month with day min(day, last day) and unchanged time of day, for any offset; one exception |
| `PacketLimits.AddYearsUtc` | src/billing/application/utils/packet-limits.ts:34-42 | same month and day of the target year, February 29th clamped, unchanged time of day |
| `PacketLimits.SubscriptionPeriod` | src/billing/application/utils/packet-limits.ts:106-120 | the period is the subscription's end, or the end of the calendar unit, and one interval back |
| `PacketLimits.PeriodLength` | src/billing/application/utils/packet-limits.ts:106-120 | periods are whole days: 365 or 366 for a year; 28 to 31 for a month exactly unless it ends on March 31st of the year 0 |
| `PacketLimits.CalendarPeriod` | src/billing/application/utils/packet-limits.ts:44-50 | for every instant: without a subscription the period runs from the first instant of the calendar unit to that of the next exactly unless `Date.UTC` is given a year from 0 to 99 |
| `PacketLimits.PeriodIsCalendarUnit` | src/billing/application/utils/packet-limits.ts:106-120 | without a subscription, and with no such year, an instant is in the period exactly if it is in the same UTC month or year, so start <= now < end |
| `Calendar.CivilUnique` | src/billing/application/utils/packet-limits.ts:22-50 | a valid date is the only one with its day number, and is read back from it |
| `Calendar.CivilSuccession` | src/billing/application/utils/packet-limits.ts:22-50 | day 0 is January 1st, 1970, and each day has the date after that of the day before, by the Gregorian month lengths |
| `PacketLimits.DayIs` | src/billing/application/utils/packet-limits.ts:22-50 | a day has 86400000 milliseconds |
| `Quota.RequestRepository.CountByUserIdInPeriod` | src/request/adapters/outbound/persistence/repositories/request.repository.ts:78-87 | counts the user's requests from start, included, to end, excluded |
| `Quota.RequestRepository.Receive` | src/request/adapters/inbound/http/controllers/hooks.controller.ts:80-92 | the overlimit decision, which is no if there is no limit, and that the request is stored with it |
| `Quota.QuotaHolds` | src/request/adapters/inbound/http/controllers/hooks.controller.ts:80-92 | over every run of arrivals and deletions no calendar unit holds more than L stored requests that are not overlimit of a user who has no subscription in that unit |
| `Quota.SubscribedQuota` | src/request/adapters/inbound/http/controllers/hooks.controller.ts:80-92 | a subscription's period never holds more than L of them either, whatever plans come before and after |
| `Quota.UnlimitedNeverOver` | src/request/adapters/inbound/http/controllers/hooks.controller.ts:80-92 | over every run a user who has no limit, or no packet, at any arrival has no row that is overlimit |
| `Quota.DeletionFrees` | src/request/adapters/outbound/persistence/repositories/request.repository.ts:78-87 | in a period that is exactly full, deleting one of its requests makes the next arrival admitted |
| `Quota.StaleEndNeverFills` | src/billing/application/utils/packet-limits.ts:113-118 | after the recorded end of a subscription, until it is renewed, arrivals are not counted: they are all admitted if the period was not full, and all overlimit if it was |
| `QuotaInterleaved.OverlapBound` | src/request/adapters/inbound/http/controllers/hooks.controller.ts:84-128 | with decision and save apart, in every run in which the user has at most P requests between them, a period holds at most L - 1 + P that are not overlimit; with P = 1 that is L |
| `QuotaInterleaved.OverlapReachesBound` | src/request/application/commands/receive-request/receive-request.handler.ts:51-67 | for every L and P there is such a run that ends with exactly L - 1 + P |
| `QuotaInterleaved.UnlimitedOverlap` | src/request/adapters/inbound/http/controllers/hooks.controller.ts:80-92 | the same however decisions and saves of such a user interleave |
| `Quota.FirstAreAdmitted` | src/request/application/commands/receive-request/receive-request.handler.ts:51-67 | without deletions exactly the first L arrivals of each unit are stored as not overlimit |
| `RetryAggregate.Retry.OnFail` | src/retry/domain/aggregates/retry.ts:121-131 | what a failure changes: FAILED from the fifth attempt on |
| `RetryAggregate.Retry.OnSuccess` | src/retry/domain/aggregates/retry.ts:133-138 | what a success changes: no attempt is counted |
| `RetryAggregate.Retry.UpdatePayload` | src/retry/domain/aggregates/retry.ts:144-147 | overrides body or headers only if given |
| `RetryProtocol.RetryWorker.HandleForwardFailed` | src/request/application/listeners/forward-failed.listener.ts:25-45 | stores a pending retry and queues its first job |
| `RetryProperties.FailureStartsRetry` | src/request/application/listeners/forward-failed.listener.ts:25-45 | the first failure of a stored request adds one pending retry and one job for it, due in 30 seconds |
| `RetryProtocol.RetryWorker.ExecuteRunManually` | src/retry/application/commands/run-retry-manually/run-retry-manually.handler.ts:21-33 | updates the payload and queues a job due at once, if the retry exists |
| `RetryProperties.ManualRunSends` | src/retry/application/commands/run-retry-manually/run-retry-manually.handler.ts:21-33 | a manual run of a pending retry adds exactly one job, processing it at once sends the request, and the body and headers are the given ones or else those it had |
| `RetryProperties.PatchStores` | src/retry/application/commands/update-retry-payload/update-retry-payload.handler.ts:19-31 | an update stores the body and headers that are given, keeps the rest, and queues nothing |
| `RetryProtocol.RetryWorker.ProcessJob` | src/retry/adapters/outbound/queue/processors/retry.queue.processor.ts:62-214 | one due job: missing retry, missing request, not pending, null, >= 500, 4xx, other answers |
| `RetryProperties.AnswerDecides` | src/retry/adapters/outbound/queue/processors/retry.queue.processor.ts:143-205 | in every reachable state, which answer ends in SUCCESS, counts an attempt, fails for good or queues a job, after which of the five delays; what is stored of it |
| `RetryProperties.DropTakesItsOwn` | src/retry/adapters/outbound/persistence/entities/retry.entity.ts:23-27 | deleting a request takes exactly its own retries along and leaves the queue |
| `RetryProperties.RequestsThere` | src/retry/adapters/outbound/queue/processors/retry.queue.processor.ts:96-104 | a request is there from its arrival until it is deleted |
| `RetryProperties.SendsConserved` | src/retry/adapters/outbound/queue/processors/retry.queue.processor.ts:106-205 | in every run, manual runs included, sends are attempts plus one if SUCCESS, and at most 5; FAILED has 5 attempts, others at most 4 |
| `RetryProperties.ExhaustedUnreachable` | src/retry/adapters/outbound/queue/processors/retry.queue.processor.ts:143-182 | in every run the next delay of a pending retry is defined and no exhausted alert is published |
| `RetryProperties.TerminalStays` | src/retry/adapters/outbound/queue/processors/retry.queue.processor.ts:106-114 | in every run a retry that is SUCCESS or FAILED keeps its status, attempts and sends through whatever follows |
| `RetryProperties.NoLostRetry` | src/retry/adapters/outbound/queue/processors/retry.queue.processor.ts:143-203 | without manual runs a pending retry has exactly one job if its last answer was absent or >= 500, else none |
| `RetryProperties.AttemptTimes` | src/retry/constants.ts:6-12 | without manual runs attempts 1 to 5 come no earlier than 30, 60, 180, 780 and 4380 seconds after creation |
| `RetryProperties.NextAttemptIsDue` | src/retry/adapters/outbound/queue/processors/retry.queue.processor.ts:144-154 | without manual runs the stored instant of the next attempt is the one its job is due at |
| `RetryDrain.WorkDecreases` | src/retry/adapters/outbound/queue/processors/retry.queue.processor.ts:106-205 | every processed job lowers twice the attempts left plus the queued jobs |
| `RetryDrain.DrainBound` | src/retry/adapters/outbound/queue/processors/retry.queue.processor.ts:106-205 | once new failures and manual runs stop, at most that many jobs are processed, whatever is interleaved |
| `RetryDrain.QueueEmpties` | src/retry/adapters/outbound/queue/processors/retry.queue.processor.ts:106-205 | after any run, worked in any order with any answers, the queue becomes empty; without manual runs what is then still pending got an answer that is not retried |
| `RetryInterleaved.NeverExhausted` | src/retry/adapters/outbound/queue/processors/retry.queue.processor.ts:143-182 | with reads and writes of workers and handlers interleaved at will, pending rows and rows in flight always have a next delay, and no exhausted alert is published |
| `RetryInterleaved.ExhaustedIff` | src/retry/adapters/outbound/queue/processors/retry.queue.processor.ts:143-182 | the branch that publishes that alert is the one of an attempt number other than 1 to 5 |
| `RetryInterleaved.StaysOkIff` | src/retry/adapters/outbound/persistence/repositories/retry.repository.ts:64-73 | as the store writes, throughout every interleaved run PENDING and SUCCESS have at most 4 attempts and FAILED has 5 exactly if no worker writes to a row that has failed meanwhile, except with a fifth failure |
| `RetryInterleaved.WholeRowInvariant` | src/retry/adapters/outbound/queue/processors/retry.queue.processor.ts:143-205 | for a store that would write whole rows: PENDING and SUCCESS have at most 4 attempts, FAILED has 5, under any interleaving |
| `RetryInterleaved.ChangedColumnsIff` | src/retry/domain/aggregates/retry.ts:121-138 | one write of changed columns by a worker keeps this exactly unless the stored row has failed meanwhile, save for a fifth failure |
| `RetryInterleaved.ChangedColumnsCounterexample` | src/retry/adapters/outbound/queue/processors/retry.queue.processor.ts:143-205 | a run from the empty store that ends in SUCCESS with 5 attempts |
| `RetryInterleaved.SendsConservedIff` | src/retry/adapters/outbound/queue/processors/retry.queue.processor.ts:130-205 | throughout every interleaved run the sends of each retry are its attempts, plus one if SUCCESS, plus the workers in flight, exactly if every write counts its send once and no payload write restores old attempts |
| `RetryInterleaved.LedgerIff` | src/retry/domain/aggregates/retry.ts:121-138 | when one write counts its send once, for each way of writing, in terms of the row stored and the row read |
| `RetryInterleaved.FreshRuns` | src/retry/adapters/outbound/persistence/repositories/retry.repository.ts:64-73 | a run in which every write finds its row as it was read keeps both |
| `RetryInterleaved.ReadWriteIsProcess` | src/retry/adapters/outbound/queue/processors/retry.queue.processor.ts:89-205 | with nothing in between, a read and a write leave the row as one atomic job does |
| `RetryInterleaved.PayloadIsWritten` | src/retry/application/commands/update-retry-payload/update-retry-payload.handler.ts:19-31 | with nothing in between, an update writes the given body and headers and no other column |
| `RetryInterleaved.DeletedStays` | src/retry/adapters/outbound/persistence/entities/retry.entity.ts:23-27 | only a deletion removes a row, and no write brings it back |
| `RetryInterleaved.OverlapLosesAnAttempt` | src/retry/adapters/outbound/queue/processors/retry.queue.processor.ts:130-205 | runs from the empty store in which two overlapping jobs send twice and count one attempt |
| `Alerts.WebhookAlert.Update` | src/webhook/domain/aggreagates/webhook-alert.ts:108-115 | changes the statuses that are given, and no timestamp |
| `Alerts.WebhookAlert.Resolve` | src/webhook/domain/aggreagates/webhook-alert.ts:117-120 | resolved, stamped now |
| `Alerts.AlertStore.FindNewest` | src/webhook/adapters/outbound/persistence/repositories/webhook-alert.repository.ts:120-153 | the newest alert of an endpoint and type, or the newest active one |
| `Alerts.AlertStore.Save` | src/webhook/adapters/outbound/persistence/repositories/webhook-alert.repository.ts:113-118 | writing an alert back restamps updatedAt |
| `Alerts.AlertStore.Handle` | src/webhook/application/listeners/alert-detected.listener.ts:47-101 | a detection returns the active alert, or the newest one in its cooldown, or creates one with a notification |
| `Alerts.OwnAlertsDecide` | src/webhook/application/listeners/alert-detected.listener.ts:47-64 | a detection raises an alert exactly if all alerts of that endpoint and type are resolved and the one created last was last written 30 minutes ago or more |
| `Alerts.DetectIff` | src/webhook/application/listeners/alert-detected.listener.ts:47-101 | what the new alert holds, unread and active, and that it alone is notified |
| `Alerts.OthersStay` | src/webhook/adapters/outbound/persistence/repositories/webhook-alert.repository.ts:120-153 | detections and resolutions leave the alerts of other endpoints and types alone |
| `Alerts.AlertStore.ResolveIfActive` | src/webhook/adapters/inbound/cron/volume-spike-scanner.cron.ts:104-114 | a scanner resolves the newest active alert, if any |
| `Alerts.AlertStore.ExecuteUpdate` | src/webhook/application/commands/update-webhook-alert/update-webhook-alert.handler.ts:16-36 | a user patch, refused for other users' alerts |
| `Alerts.PatchIs` | src/webhook/application/commands/update-webhook-alert/update-webhook-alert.handler.ts:16-36 | the owner's statuses are stored where given, the write is stamped, and nothing else changes; for anyone else nothing does |
| `Alerts.CreationsApart` | src/webhook/application/listeners/alert-detected.listener.ts:47-101 | in every run alerts of one endpoint and type are created at least 30 minutes apart, and each alert has exactly one in-app notification |
| `Alerts.AlertRate` | src/webhook/application/listeners/alert-detected.listener.ts:27-64 | any closed window of W minutes sees at most floor(W / 30) + 1 new alerts of one endpoint and type |
| `Alerts.ResolveStartsCooldown` | src/webhook/domain/aggreagates/webhook-alert.ts:117-120 | after a scanner resolved the active alert, a detection raises one exactly from 30 minutes later on |
| `Alerts.NoAlertAfterResolution` | src/webhook/application/listeners/alert-detected.listener.ts:57-64 | in every run without reactivation, for 30 minutes after a scanner or the owner resolved an alert none of its endpoint and type is created |
| `Alerts.AtMostOneActive` | src/webhook/application/listeners/alert-detected.listener.ts:47-55 | in every run without reactivating patches an endpoint and type has at most one active alert |
| `Alerts.ReactivationIff` | src/webhook/application/commands/update-webhook-alert/update-webhook-alert.handler.ts:31-33 | a reactivating patch keeps that exactly if no other alert of the endpoint and type is active |
| `Alerts.SingleActiveIff` | src/webhook/application/commands/update-webhook-alert/update-webhook-alert.handler.ts:16-36 | throughout every run an endpoint and type has at most one active alert exactly if no owner reactivates one while another is active |
| `Alerts.TouchRestartsCooldown` | src/orm/entities/base.entity.ts:11-16 | after any patch of the newest alert that does not reactivate it, a detection raises an alert exactly from 30 minutes later on |
| `VolumeSpike.VolumeSpikeScannerCron.CountByEndpointInPeriod` | src/request/adapters/outbound/persistence/repositories/request.repository.ts:89-111 | the count of each endpoint with requests in the period |
| `VolumeSpikeProperties.WindowsAre` | src/webhook/adapters/inbound/cron/volume-spike-scanner.cron.ts:53-62 | the two counts are the numbers of the endpoint's requests in the last 3600 and the last 604800 seconds |
| `VolumeSpike.VolumeSpikeScannerCron.ScanOne` | src/webhook/adapters/inbound/cron/volume-spike-scanner.cron.ts:90-131 | one endpoint: no access, no baseline, resolve, or detect with the reported rates |
| `VolumeSpike.VolumeSpikeScannerCron.Process` | src/webhook/adapters/inbound/cron/volume-spike-scanner.cron.ts:51-140 | the paging loop ends and scans the listing of active endpoints, each once and in order |
| `VolumeSpikeProperties.ScanEndpointIs` | src/webhook/adapters/inbound/cron/volume-spike-scanner.cron.ts:95-131 | an event exactly if the user has access and 56 * current > sevenDays > 0; it reports the hourly average, the last hour and their quotient, which is above 3 |
| `VolumeSpikeProperties.PassSpikes` | src/webhook/adapters/inbound/cron/volume-spike-scanner.cron.ts:51-140 | a pass publishes exactly one event for each spiking active endpoint with access; with these rates, and multipliers in (3, 168]; the listing has every active endpoint once, newest first |
| `VolumeSpikeProperties.PassSettles` | src/webhook/adapters/inbound/cron/volume-spike-scanner.cron.ts:97-131 | after a pass an eligible endpoint has an active alert only if it spikes, and if it spikes it has one or is in its cooldown |
| `VolumeSpikeProperties.PassKeeps` | src/webhook/adapters/inbound/cron/volume-spike-scanner.cron.ts:51-140 | a pass keeps the alert invariants |
| `Outbox.EmailOutbox.Enqueue` | src/mailer/adapters/outbound/persistence/repositories/email-outbox.repository.ts:45-67 | a new pending email, 5 attempts if not told otherwise |
| `Outbox.EmailOutbox.GetPending` | src/mailer/adapters/outbound/persistence/repositories/email-outbox.repository.ts:69-79 | exactly the oldest pending emails, up to the limit |
| `Outbox.EmailOutbox.MarkSent` | src/mailer/adapters/outbound/persistence/repositories/email-outbox.repository.ts:81-91 | the one email becomes sent, stamped with the instant |
| `Outbox.EmailOutbox.MarkFailed` | src/mailer/adapters/outbound/persistence/repositories/email-outbox.repository.ts:93-106 | the one email has one more attempt and the error, and is failed when attempts run out |
| `Outbox.EmailOutbox.ProcessPending` | src/mailer/email-outbox.processor.ts:22-45 | one tick tries each email of the batch once and touches no other |
| `Outbox.TickTries` | src/mailer/email-outbox.processor.ts:22-45 | a tick tries min(20, pending) emails; each is then sent and stamped, or has one more attempt and the error, and no other changes |
| `Outbox.FiveTries` | src/mailer/adapters/outbound/persistence/repositories/email-outbox.repository.ts:45-67 | a new email is pending and has the attempts given, else 5 |
| `Outbox.TickBound` | src/mailer/email-outbox.processor.ts:22-45 | each tick settles an email or lowers its bound floor(R / 20) + r |
| `Outbox.BoundedWaiting` | src/mailer/adapters/outbound/persistence/repositories/email-outbox.repository.ts:69-106 | a pending email is sent or failed within floor(R / 20) + r ticks, R the attempts left to older ones and r its own, however many are added later |
| `Outbox.MailsCounted` | src/mailer/adapters/outbound/persistence/repositories/email-outbox.repository.ts:81-106 | no email is mailed more than max(1, maxAttempts) times, a failed one exactly that often, and exactly the sent ones have an instant |
| `Cleanup.RequestCleanup.Execute` | src/request/application/commands/run-request-cleanup/run-request-cleanup.handler.ts:21-71 | deletes up to 1000 expired rows and queues another job if it deleted that many |
| `Cleanup.RequestCleanup.Drain` | src/request/adapters/outbound/queue/processors/request-cleanup.queue.processor.ts:19-27 | the queue empties after n / 1000 + 1 jobs, leaving the rows that are not expired |
| `Cleanup.ChainLength` | src/request/application/commands/run-request-cleanup/run-request-cleanup.handler.ts:67-70 | every chain has exactly floor(n / 1000) + 1 jobs and leaves exactly the rows that are not expired, whichever rows each job picks |
| `StripeSignature.ParseStripeSignature` | src/webhook/adapters/outbound/external/stripe-webhook.provider.ts:43-62 | the loop over the parts and the map of lists compute the parsed header |
| `StripeSignature.ParsePrinted` | src/webhook/adapters/outbound/external/stripe-webhook.provider.ts:43-62 | parsing a header printed from any pairs, with spaces around them, text after a second `=`, and malformed parts between them, gives the first t and the first v1 |
| `StripeSignature.SpacesAre` | src/webhook/adapters/outbound/external/stripe-webhook.provider.ts:43-62 | what is trimmed has blanks, tabs and line ends and no visible ASCII character |

## Left out

* Strings are sequences of Unicode scalar values: surrogate pairs sort and escape as one character,
  and lone surrogates do not occur.
* The order in which a flattened record lists its paths, and so the order inside added, removed and
  typeChanged.
* Payloads that are a bare string: `flattenSchema` would list its characters. The HTTP layer stores
  only objects and arrays as bodies.
- WholeRowInvariant: is about a store that would write whole rows; what the code does is `StaysOkIff`.
- QuotaHolds: takes the count and the save of a request as one step; `OverlapBound` takes them apart.
  It states the quota for years from 100 on, because `Date.UTC` shifts the calendar units of
  earlier years.
* Invalid dates and dates outside the range of a time value.
* The parsers of packet features. A limit is a parameter; as written, "1,000" parses to null, which
  means unlimited.
* In `Quota` the instant of the overlimit decision and the stored receivedAt are taken to be one.
* Negative zero is taken to be 0, as which it is printed.
* Ties: emails with equal createdAt go in order of insertion, and endpoints with equal createdAt keep
  one order between pages.
* The deletion of endpoints; CreateWebhookAlertCommand and RetryRepository.updateAttempt and cancel,
  which nothing dispatches or calls.
* Database errors, crashes between two writes and overlapping cron ticks.
* The SQL of the retention query: which rows are expired is a given set, judged at one instant, and the
  count the driver reports is taken to be the number of deleted rows.
* Floating-point rounding of rates: they are real numbers.
* External deliveries of alerts (email, Slack, Discord) and the text built for them; the duplicate
  scanner, which only detects, and the silence scanner, which detects and resolves like the volume scanner.
* HTTP, guards, validation, ciphers, signatures, users, notifications delivery, templates and the
  generation of DTO code.
