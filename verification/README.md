# FluxLens verification model

This project models the parts of FluxLens that carry its promises, and proves them with Dafny:

- the **curation engine**: six strategies that select a digest, trading freshness against source diversity;
- the **hash-chained audit log**: its canonical text, the in-memory chain, and the Postgres store as a
  protocol between several writers;
- the **decision layer** over the log: retrieval of precedents, guardrails, and audited decisions, also
  when requests interleave;
- the **curator process** and the **alert buffer**, the two small stateful loops around them.

Run `dafny verify dfyconfig.toml` to check everything.

## How the model is built

| file | content |
|---|---|
| `Prelude.dfy` | options and results, finite sequences, stable sorting |
| `Canonical.dfy` | the canonical event |
| `Digests.dfy`, `Curation.dfy` | what the strategies select (functions, relations), and the loops that do it |
| `DigestFacts.dfy`, `Optimality.dfy`, `StrategyTheorems.dfy`, `FreshnessTheorems.dfy`, `DiversityTheorems.dfy`, `PreferredTheorems.dfy`, `ScoreTheorems.dfy` | the theory of the strategies |
| `AuditText.dfy`, `AuditTextFacts.dfy`, `AuditChain.dfy`, `ForgedLogs.dfy` | the hashed text and what its parts say; the chain, its verification, tamper evidence; exactly which changed logs verify |
| `PostgresStore.dfy`, `PostgresRuns.dfy`, `PostgresProgress.dfy` | the table, the store, runs of many writers, and what their appends achieve |
| `Precedents.dfy`, `PrecedentTheorems.dfy` | `FindMatches` as a join over the chain |
| `Guardrails.dfy`, `Orchestrator.dfy`, `OrchestratorRuns.dfy`, `HumanInTheLoop.dfy` | one request, interleaved runs, and the loop that operators close |
| `Curator.dfy`, `Alerts.dfy`, `AlertRuns.dfy` | the curator process; the alert buffer and its runs |

Modelling decisions:

- Ranging over a Go map and `rand.Shuffle` are nondeterministic methods. `Digests.SelectOutcome` is therefore
  a relation, and every theorem about a digest holds for all map orders and all shuffles.
- `sort.SliceStable` is a function whose result is shown to be the only one possible; `sort.Slice` is a method
  that promises nothing on ties.
- A Go slice that a function builds and returns is a local sequence. Loops of the source are loops here; the
  classes `Chain`, `Store`, `Service`, `Guardrails`, `Process` and the alert `Store` hold the source's fields.
- Instants are integers (nanoseconds), scores and percentages are reals. `AgeAt` saturates as Go's `Duration` does,
  the chain's sequence wraps at 2^64, and the table's key ends at 2^63 - 1.
- The number of evicted heads is computed with a rounding after each operation (`Request.round`). `RoundsTo` holds of
  float64 arithmetic, for counts up to 2^53, and of exact arithmetic (`EXACT`).
- Hypotheses named in the table: "consistent" means that events with one EventID are equal, so an event may be
  delivered twice; "K covers the survivors" means K is at least the number of heads that are not evicted.
- SHA-256, JSON compaction, JSON decoding, case folding and the guardrails' patterns are function-valued
  parameters. Nothing assumes that SHA-256 is injective: results say "the same log, or these two records collide".
- Wall clocks, ULIDs, the model's reply, the outcome of a database INSERT and database faults are inputs. An INSERT
  that times out at its caller may still commit later, between other writers' steps (`PostgresRuns.Land`).

Where the code and its own text differ, the model follows the code:

- `internal/auditlog/chain.go:7-8` promises that any tampering is detected. Verification alone cannot keep that
  promise: from any position on, records can be edited, dropped, inserted or moved, and with the hashes computed
  anew the log verifies (`ForgedLogs.RewriteUndetected`, `ForgedLogs.EditUndetected`). It also accepts a
  truncated tail (`AuditChain.TruncationUndetected`) and changed payload spacing (`AuditChain.PayloadRewrite`).
  The promise holds exactly up to a hash that is kept elsewhere: with the head hash, only the true log passes
  (`ForgedLogs.HeadHashExactly`), and with the hash of record i, only the true first i + 1 records do
  (`ForgedLogs.KeptHashExactly`). A single replaced record passes exactly when it is sealed over its predecessor
  and, unless it is the last, keeps its hash (`ForgedLogs.OneRecordEditExactly`).
- `docs/adr/0005-hash-chain-audit-log.md` says that the chain stays intact above dropped old partitions.
  A retained tail never verifies (`AuditChain.DroppedHeadRejected`).
- `internal/auditlog/postgres/store.go:17-24` keeps a chain per tenant, but the primary key is the sequence alone:
  the first tenant to append is the only one that ever can (`PostgresRuns.OneTenantOwnsTable`).
- `internal/curation/strategies.go:44` calls RedundancyScore a fraction of the selection; it is the removed share of the input.
- Strategy 4 is documented to fill up with the freshest events. With fewer slots than survivors it keeps the oldest
  survivors instead; `FreshnessTheorems.Strategy4OptimalExactly` says exactly when it is still optimal, and
  `FreshnessTheorems.Strategy4BeatsRandomEviction` when it still scores at least as high as strategy 5.
- With K = 0 strategies 4 to 6 may return one event (`FreshnessTheorems.CoreSizeExactly`). That is the only case in
  which a higher percentage can score higher (`FreshnessTheorems.FreshnessFallsExactly`).
- In float64 the percentage can keep one source more than it asks for, and also one fewer, just under the percentage
  (`DiversityTheorems.RoundingKeepsOneMore`, `DiversityTheorems.RoundingKeepsOneFewer`). It is met exactly when
  rounding evicts no more heads than exact arithmetic (`DiversityTheorems.MeetsPercentageExactly`).
- With fewer slots than survivors strategy 6 may pass over fresher digests as well;
  `PreferredTheorems.Strategy6OptimalExactly` says exactly when it does not.
- `internal/auditlog/postgres/store.go:160-182` drops read errors: a snapshot cut short looks complete and verifies
  (`PostgresStore.BrokenSnapshotVerifies`).

## Model

| member | source | states |
|---|---|---|
| `Sorting.StableSortCorrect` | internal/curation/strategies.go:110-114 | the newest-first sort permutes, orders, and keeps the order of equal timestamps |
| `Sorting.StableSortUnique` | internal/curation/strategies.go:110-114 | order and stability leave one possible result, so the library's algorithm does not matter |
| `Curation.FilterSuppressed` | internal/curation/strategies.go:95-108 | keeps, in order, the events whose ID is not suppressed, and counts the others |
| `StrategyTheorems.UnsuppressedConcat` | internal/curation/strategies.go:95-108 | the filter goes event by event and keeps the order |
| `Curation.LatestPerSource` | internal/curation/strategies.go:296-305 | the loop computes the map of source-latest events |
| `DigestFacts.LatestMapFirstNewest` | internal/curation/strategies.go:296-305 | the map's entry for a source is the first of that source's newest events |
| `DigestFacts.HeadsFacts` | internal/curation/strategies.go:296-305 | in any map order, the heads are one event per source of the pool, none older than any event of its source |
| `Curation.RangeValues` | internal/curation/strategies.go:133-135 | ranging over the map lists every entry once, in an order nobody may rely on |
| `Curation.SelectLatest` | internal/curation/strategies.go:118-125 | strategy 1 is the first K of the newest-first sort |
| `Curation.SelectLatestPerSource` | internal/curation/strategies.go:130-141 | strategy 2 is the first K of the sorted heads |
| `Curation.SelectHybrid` | internal/curation/strategies.go:145-172 | strategy 3 is K heads in map order, topped up by the freshest unrepresented IDs |
| `Curation.GuaranteedDiversityCore` | internal/curation/strategies.go:238-294 | strategies 4 and 5: evict the share of heads that the percentage allows, oldest or any, then fill |
| `Curation.SelectPreferredSources` | internal/curation/strategies.go:198-234 | strategy 6: strategy 4's digest, its oldest event replaced by the newest preferred one if none is present |
| `Curation.ComputeFreshness` | internal/curation/strategies.go:307-326 | average of one minus age over the greatest age of the unfiltered input; 0 when empty, 1 when nothing has aged |
| `Curation.ComputeDiversity` | internal/curation/strategies.go:328-344 | selected sources over input sources |
| `Curation.Select` | internal/curation/strategies.go:49-93 | errors for negative K and unknown strategies; otherwise filter, one of the strategy's selections, sort, three scores |
| `ScoreTheorems.RefusedExactly` | internal/curation/strategies.go:49-84 | refused exactly for a negative K or an unknown strategy |
| `ScoreTheorems.ClockOnlyIfUnset` | internal/curation/strategies.go:49-60 | the clock stands in for a time that is not set, and matters to no other request |
| `DigestFacts.FillGreedy` | internal/curation/strategies.go:283-292 | whatever the fill loop leaves out is represented by its ID, or the digest is full of additions at least as new |
| `Optimality.CutoffDominance` | internal/curation/strategies.go:182-184 | for every cutoff instant, strategy 4's digest has at least as many events from then on as any rival |
| `Optimality.Strategy4Optimal` | internal/curation/strategies.go:174-184 | with a consistent pool and K covering the survivors, strategy 4 is at least as fresh, position by position, as every digest of its size that covers as many sources |
| `Optimality.Strategy4MaximisesWeight` | internal/curation/strategies.go:174-184 | hence, under the same hypotheses, it maximises the total of every weight that never decreases with the timestamp |
| `Optimality.CoreIsRival` | internal/curation/strategies.go:190-192 | consistent pool, K covering the survivors: whatever heads are evicted, the result has the same size and meets the same floor |
| `FreshnessTheorems.Strategy4BeatsRandomEviction` | internal/curation/strategies.go:186-192 | through `Select`, for consistent events: strategy 4's FreshnessScore is at least strategy 5's for every shuffle if and only if K covers the survivors or the oldest survivor and the newest head are equally old |
| `FreshnessTheorems.LowerFloorFresher` | internal/curation/strategies.go:255-280 | for consistent events and every K from 1 on, evicting more of the oldest heads never lowers the total of a monotone weight |
| `FreshnessTheorems.FreshnessFallsWithDiversity` | internal/curation/strategies.go:255-264 | through `Select`, for consistent events and every K from 1 on: raising DiversityPercent never raises strategy 4's FreshnessScore |
| `FreshnessTheorems.FreshnessFallsExactly` | internal/curation/strategies.go:255-280 | the same for every K, as an equivalence: it fails only at K = 0, when the lower percentage alone evicts every head and the other's event does not score 0 |
| `FreshnessTheorems.Strategy4OptimalExactly` | internal/curation/strategies.go:272-280 | for consistent events and K from 1 on, strategy 4 is the freshest digest that its size and floor allow if and only if K covers the survivors or all survivors are equally new |
| `FreshnessTheorems.BeatsEveryShuffleExactly` | internal/curation/strategies.go:255-280 | position by position, dropping the oldest is as fresh as every random eviction under exactly that condition |
| `FreshnessTheorems.CoreSizeExactly` | internal/curation/strategies.go:272-280 | if an ID determines its source, the digest has min(K, distinct IDs) events if and only if K is at least 1 or no head survives the eviction |
| `StrategyTheorems.SelectShape` | internal/curation/strategies.go:49-108 | selections are newest-first, from the unsuppressed input, of the expected size, and (strategies 2 to 6) free of repeated IDs; sizes of strategies 3 to 6 for K from 1 on; these and the absence of repeats if an ID determines its source |
| `StrategyTheorems.ScoresWithinUnit` | internal/curation/strategies.go:307-351 | all three scores lie in [0, 1] for whatever `Select` returns |
| `ScoreTheorems.DiversityExactly` | internal/curation/strategies.go:328-344 | through `Select`: diversity is the share of the input's sources shown, 1 exactly when all are, 0 exactly when nothing is selected |
| `ScoreTheorems.MaximalDiversityScore` | internal/curation/strategies.go:127-172 | strategies 2 and 3 score min(K, unsuppressed sources) over the input's sources |
| `ScoreTheorems.RedundancyExactly` | internal/curation/strategies.go:346-351 | redundancy is the suppressed share of the input, 0 exactly when none is suppressed, 1 exactly when all are |
| `ScoreTheorems.SuppressedCountExactly` | internal/curation/strategies.go:95-108 | that count is 0 exactly when no event is suppressed, and complete exactly when all are |
| `ScoreTheorems.FreshnessExactly` | internal/curation/strategies.go:307-326 | freshness of a non-empty digest is one less the mean age over the greatest age of the input; 1 exactly when every selected event has age 0, 0 exactly when the greatest age is positive and all have it |
| `Canonical.Event.AgeExactly` | internal/canonical/event.go:154-160 | the age is the elapsed time, not below 0 nor above the widest Duration |
| `DiversityTheorems.DiversityFloor` | internal/curation/strategies.go:174-234 | strategies 4 to 6 cover min(K, survivors) sources; at least the percentage if K covers the survivors and rounding evicts no more heads than exact arithmetic; for K from 1 on, strategy 6 shows a preferred source whenever one is left |
| `DiversityTheorems.InjectionCoverage` | internal/curation/strategies.go:194-234 | strategy 6's replacement never lowers the number of sources covered |
| `DiversityTheorems.RoundingKeepsOneMore` | internal/curation/strategies.go:264 | of 5 sources at 80%, exact arithmetic evicts one and a float64-like rounding none |
| `DiversityTheorems.RoundingKeepsOneFewer` | internal/curation/strategies.go:264 | of 3 sources at 33.333333333333336%, a float64-like rounding evicts two, which misses the percentage |
| `DiversityTheorems.MeetsPercentageExactly` | internal/curation/strategies.go:263-270 | for every rounding, the survivors are at least the percentage of the sources if and only if no more heads are evicted than in exact arithmetic |
| `DiversityTheorems.EvictsAllItMay` | internal/curation/strategies.go:263-270 | in exact arithmetic as many heads are evicted as the percentage allows |
| `DiversityTheorems.Strategy6Optimal` | internal/curation/strategies.go:194-234 | consistent pool, K covering the survivors: strategy 6 is the freshest digest of its size that meets the floor and shows a preferred source |
| `DiversityTheorems.Strategy6IsRival` | internal/curation/strategies.go:194-234 | and its digest is itself such a one |
| `PreferredTheorems.Strategy6OptimalExactly` | internal/curation/strategies.go:194-234 | consistent pool, K from 1 on: strategy 6 is the freshest such digest that its size allows if and only if K covers the survivors, or no preferred event is left, or a condition on the timestamps of the kept heads, the newest head and the newest preferred event holds |
| `DiversityTheorems.InjectionIsCheapest` | internal/curation/strategies.go:212-233 | for any digest without a preferred event, no other one-for-one replacement that brings one in leaves a greater monotone weight |
| `DiversityTheorems.MaximalDiversity` | internal/curation/strategies.go:127-172 | strategies 2 and 3 cover min(K, sources) sources and no K events of the pool cover more |
| `DiversityTheorems.LatestPerSourceFreshest` | internal/curation/strategies.go:127-141 | strategy 2 is the freshest digest of its size with one event per source |
| `DiversityTheorems.LatestFreshest` | internal/curation/strategies.go:116-125 | strategy 1 is the freshest digest of its size, also when it repeats an event |
| `DiversityTheorems.LatestSelects` | internal/curation/strategies.go:118-125 | strategy 1 returns the first K of the stable newest-first order |
| `DiversityTheorems.ZeroPercentIsLatest` | internal/curation/strategies.go:238-294 | strategy 4 at 0% returns the very sequence of strategy 1 if and only if that repeats no ID, so whenever IDs are unique |
| `DiversityTheorems.FullPercentIsHybrid` | internal/curation/strategies.go:145-294 | strategy 4 at 100% with a slot per source selects the same events as strategy 3, whatever the map orders |
| `AuditText.FormatInjective` | internal/auditlog/chain.go:160 | the RFC 3339 text of a UTC instant determines it to the nanosecond |
| `AuditText.EscapeEnds` | internal/auditlog/chain.go:158-164 | a JSON-escaped string is determined by its text up to the closing quote |
| `AuditTextFacts.CanonicalLayout` | internal/auditlog/chain.go:150-165 | the five fields in their order, the sequence without leading zeros |
| `AuditTextFacts.FormatFields` | internal/auditlog/chain.go:160 | for years of four digits, which digits are year, month, day, hour, minute and second |
| `AuditTextFacts.FractionExactly` | internal/auditlog/chain.go:160 | the digits after the point are the nanoseconds, without trailing zeros |
| `AuditTextFacts.DecodeEscape` | internal/auditlog/chain.go:158-164 | a decoder for section 7 of RFC 8259 gives every escaped string back |
| `AuditTextFacts.EscapePlain` | internal/auditlog/chain.go:158-164 | exactly the strings of plain characters are written as they are |
| `AuditText.CanonicalTextInjective` | internal/auditlog/chain.go:150-165 | for previous hashes that are empty or 64 hex digits: one canonical text, one record (sequence, instant, kind, compact payload and previous hash) |
| `AuditChain.CanonicalCodecSound` | internal/auditlog/chain.go:139-165 | if SHA-256 yields 64 hex digits, the program's codec has what the chain theorems ask for |
| `AuditChain.VerifyRecords` | internal/auditlog/chain.go:90-106 | true exactly on linked records; an error exactly when the first defect is a payload that is not JSON |
| `AuditChain.Chain.Append` | internal/auditlog/chain.go:51-78 | refuses an empty kind or an unencodable payload and changes nothing; otherwise adds one linked record of that kind, payload and instant, and moves the head |
| `AuditChain.Chain.Verify` | internal/auditlog/chain.go:83-87 | a chain built by `Append` always verifies |
| `AuditChain.FindCollision` | internal/auditlog/chain.go:136-146 | from two verified logs sharing a hash: equal prefixes at the same position, or the positions of two records whose texts collide |
| `AuditChain.TamperingDetected` | internal/auditlog/chain.go:3-8 | an edit, removal, insertion or move before a record whose hash is kept fails verification, or the two logs exhibit a collision |
| `AuditChain.HeadHashDeterminesLog` | internal/auditlog/chain.go:120-125 | two verified logs with one head hash are the same log up to payload spacing, or exhibit a collision |
| `AuditChain.TruncationUndetected` | internal/auditlog/chain.go:90-106 | every prefix of a verified log verifies |
| `AuditChain.DroppedHeadRejected` | internal/auditlog/chain.go:90-106 | no proper tail of a verified log verifies |
| `AuditChain.PayloadRewrite` | internal/auditlog/chain.go:158-164 | a rewritten payload passes if and only if it compacts to the same text or the two texts collide |
| `ForgedLogs.ContentsVerifyExactly` | internal/auditlog/chain.go:90-106 | some verified log has given contents if and only if every payload can be encoded |
| `ForgedLogs.RewriteUndetected` | internal/auditlog/chain.go:3-8 | from any position on, a verified log can be given any other encodable contents and still verify |
| `ForgedLogs.EditUndetected` | internal/auditlog/chain.go:3-8 | in particular one record can be given another kind and payload |
| `ForgedLogs.OneRecordEditExactly` | internal/auditlog/chain.go:90-106 | one replaced record passes if and only if it is sealed over its predecessor's hash and, below the last record, keeps its own |
| `ForgedLogs.InteriorEditDetected` | internal/auditlog/chain.go:3-8 | below the last record, a single edit that passes changes no hashed field or exhibits a collision |
| `ForgedLogs.HeadHashExactly` | internal/auditlog/chain.go:120-125 | without a collision, a log verifies under the true head hash if and only if it is the true log up to payload spacing |
| `ForgedLogs.KeptHashExactly` | internal/auditlog/chain.go:90-106 | the same for the hash of any record, and the records up to it |
| `PostgresStore.Store.Open` | internal/auditlog/postgres/store.go:27-48 | opening fails with the driver, the ping or the head query; otherwise it caches the tenant's greatest sequence plus one and its hash, or an empty head |
| `PostgresStore.LastRowExactly` | internal/auditlog/postgres/store.go:50-58 | the head query finds the tenant's row of the greatest sequence, if the tenant has one |
| `PostgresStore.Store.Append` | internal/auditlog/postgres/store.go:75-113 | one INSERT at the cached sequence; the head moves only if it is acknowledged |
| `PostgresStore.Store.Verify` | internal/auditlog/postgres/store.go:116-141 | an error when the query or a scan fails; otherwise verifies the tenant's rows in sequence order, as the columns read back, with an error exactly when the first defect is a payload that is not JSON |
| `PostgresStore.Store.Snapshot` | internal/auditlog/postgres/store.go:160-182 | the rows that arrived before a failure, without a sign of it |
| `PostgresStore.BrokenSnapshotVerifies` | internal/auditlog/postgres/store.go:160-182 | what arrived verifies whenever the whole chain does |
| `PostgresRuns.EveryRunIsSafe` | internal/auditlog/postgres/store.go:50-113 | over every interleaving of opens, appends with any outcome, late commits and crashes: sequences 0 to n-1, linked hashes, and every cached head and every row in flight continues a prefix |
| `PostgresRuns.RowsOnlyGrow` | internal/auditlog/postgres/store.go:75-113 | no later step changes or removes a row, so an acknowledged append is never lost |
| `PostgresRuns.AppendKeepsChain` | internal/auditlog/postgres/store.go:75-113 | an INSERT takes effect only from a head that marks the whole table, and then extends it by that record |
| `PostgresRuns.LandKeepsChain` | internal/auditlog/postgres/store.go:100-107 | an INSERT that timed out can land only at the end of the table, and then extends the chain |
| `PostgresRuns.StaleAppendFails` | deploy/postgres-init/01-schema.sql:46-47 | a writer behind the table can only fail, and changes nothing |
| `PostgresProgress.AcknowledgedIsCurrent` | internal/auditlog/postgres/store.go:107-112 | an acknowledged append adds its one record and leaves its writer up to date |
| `PostgresProgress.OpenedIsCurrent` | internal/auditlog/postgres/store.go:44-68 | opening on an empty table or the tenant's own gives an up-to-date writer |
| `PostgresRuns.StaleUntilReopened` | internal/auditlog/postgres/store.go:50-113 | it stays behind through every continuation until it is opened again |
| `PostgresRuns.UnacknowledgedCommit` | internal/auditlog/postgres/store.go:102-110 | an INSERT that commits but reports an error leaves its row, and its writer stale |
| `PostgresRuns.LateCommitMakesStale` | internal/auditlog/postgres/store.go:100-110 | a late commit leaves a writer that still caches the head it timed out with stale as well |
| `PostgresRuns.CurrentAppendSucceeds` | internal/auditlog/postgres/store.go:75-113 | a current writer whose INSERT commits succeeds exactly when the record can be built |
| `PostgresProgress.CurrentAppendOutcome` | internal/auditlog/postgres/store.go:75-113 | what each outcome of an up-to-date writer's INSERT comes to: row, result, head, and after a timeout the late commit |
| `PostgresProgress.UndisturbedAppends` | internal/auditlog/postgres/store.go:75-113 | progress: any number of committed appends by an up-to-date writer, undisturbed, adds exactly their records in order |
| `PostgresProgress.UndisturbedAppendsSucceed` | internal/auditlog/postgres/store.go:75-113 | and each of them is acknowledged |
| `PostgresRuns.OneTenantOwnsTable` | deploy/postgres-init/01-schema.sql:46-54 | in every reachable state all rows are of one tenant, and every other tenant's append fails |
| `PostgresRuns.ReachableTablesVerify` | internal/auditlog/postgres/store.go:116-141 | if stored hashed fields read back as written, `Verify` is true in every reachable state |
| `PostgresRuns.LossyColumnsFailVerify` | deploy/postgres-init/01-schema.sql:48-50 | if a stored hashed field reads back changed, an untouched table fails `Verify`, or a collision is in hand |
| `Precedents.NormalizeTwice` | internal/precedents/match.go:179-185 | a normalized tenant is non-empty and stays as it is when normalized again |
| `Precedents.NormalizeExactly` | internal/precedents/match.go:179-185 | a normalized tenant is the text without the spaces around it, or "default" when there is nothing else |
| `Precedents.PlainTenantStays` | internal/precedents/match.go:179-185 | a name without spaces around it stays as it is |
| `Precedents.CriteriaAreDimensions` | internal/precedents/match.go:160-177 | the code's comparisons amount to agreement in type, source, severity and tenant |
| `Precedents.ScanChain` | internal/precedents/match.go:68-125 | one pass collects the passing decisions by hash and all well-formed actions |
| `Precedents.FindMatches` | internal/precedents/match.go:62-158 | the hash-map pass yields the first max (or 5) pairs of the declarative join, each once, newest decision first |
| `PrecedentTheorems.NoNewerOmitted` | internal/precedents/match.go:151-158 | a pair is left out only when the answer is full of pairs at least as new |
| `PrecedentTheorems.AnswerSize` | internal/precedents/match.go:62-66 | at most the number asked for, or 5 |
| `PrecedentTheorems.AnswersTell` | internal/precedents/match.go:127-149 | each precedent comes from a passed decision and an operator action on it, tells what both tell, and agrees with the query |
| `PrecedentTheorems.AnswersStayInTenant` | internal/precedents/match.go:160-185 | a query for a tenant without spaces around its name is answered with that very tenant |
| `PrecedentTheorems.NamesWithDistinctHashes` | internal/precedents/match.go:97-107 | with distinct hashes an action's hash stands for whichever passing decision carries it |
| `PrecedentTheorems.OnlyActionsMatter` | internal/precedents/match.go:71-137 | a record that is no operator action, also a new decision that nothing names, changes no answer to any query |
| `PrecedentTheorems.ActionAddsOnePair` | internal/precedents/match.go:127-149 | an action on a passing decision adds exactly one pair, if the decision matches |
| `PrecedentTheorems.ActionOnNothing` | internal/precedents/match.go:127-137 | an action on a hash that no passing decision carries changes no answer |
| `Guardrails.Guardrails.ValidateInput` | internal/orchestrator/guardrails.go:52-68 | reports the first of: too long, an injection pattern, a custom check |
| `Guardrails.Guardrails.ValidateOutput` | internal/orchestrator/guardrails.go:72-91 | reports the first defect of a response |
| `Guardrails.InputAccepted` | internal/orchestrator/guardrails.go:52-68 | accepted exactly when within the size limit, free of injection patterns, and passing every custom check |
| `Guardrails.ByteLengthIsUtf8` | internal/orchestrator/guardrails.go:53-55 | the length that is limited is that of the UTF-8 form (RFC 3629) |
| `Guardrails.OutputAccepted` | internal/orchestrator/guardrails.go:72-91 | accepted exactly when classified, in range, confident or flagged, and passing every custom check |
| `Guardrails.InputDefectOrder` | internal/orchestrator/guardrails.go:52-68 | which defect of an input is reported when there are several |
| `Guardrails.OutputDefectOrder` | internal/orchestrator/guardrails.go:72-91 | which defect of a response is reported when there are several |
| `Guardrails.FirstErrorIsFirst` | internal/orchestrator/guardrails.go:60-91 | of several custom checks, the first that fails is reported |
| `Canonical.Event.ValidExactly` | internal/canonical/event.go:123-149 | an event is valid exactly when its required fields are present and its severity is known |
| `Orchestrator.VerdictExactly` | internal/orchestrator/orchestrator.go:79-157 | exactly when a request passes, and exactly which rejection it gets otherwise |
| `Orchestrator.PromptHashDetermines` | internal/orchestrator/orchestrator.go:183-187 | for contexts without NUL, one prompt hash means one context and instruction, or a collision |
| `Orchestrator.CriteriaOfEvent` | internal/orchestrator/precedents.go:47-54 | the query is about the event, for its own tenant, or the configured one, or "default" |
| `Orchestrator.UnreviewedOnlyIfConfident` | internal/orchestrator/orchestrator.go:113-146 | review is waived only for a passed reply with confidence in [0, 1] and at or above the floor |
| `Orchestrator.Service.Decide` | internal/orchestrator/orchestrator.go:61-162 | one audited record of the kind that the verdict calls for, AuditChainPrev the head before it; no record for a missing provider or an invalid event |
| `Orchestrator.Service.SuggestWithPrecedents` | internal/orchestrator/precedents.go:36-120 | precedents are an answer of `FindMatches` on the chain as it was; the decision cites them and is audited as one record |
| `Orchestrator.Service.RecordOperatorAction` | internal/orchestrator/orchestrator.go:166-181 | three actions are recorded, any other is refused without a record |
| `Orchestrator.BuildSteps` | internal/orchestrator/precedents.go:123-142 | the model's answer first, then one step per precedent in order |
| `Orchestrator.StepsCitePrecedents` | internal/orchestrator/precedents.go:123-142 | the steps cite exactly the precedents used |
| `Orchestrator.StepTells` | internal/orchestrator/precedents.go:128-136 | a precedent's step says what was decided on what, what the operator did, and any remark or suggestion |
| `Orchestrator.StepsExactly` | internal/orchestrator/precedents.go:123-150 | a passed request gets the model's answer and one step per precedent; a rejected one a single step that cites nothing and names the suggestion or the status |
| `OrchestratorRuns.ChainOnlyGrows` | internal/auditlog/chain.go:51-78 | over interleaved runs the chain verifies at all times, its sequences count its records, and it is only extended |
| `OrchestratorRuns.PlansAreSound` | internal/orchestrator/orchestrator.go:61-157 | a request is refused exactly without a provider or a valid event; otherwise the disposition, the decision's identity, the record's kind and its entry are exactly those of the request |
| `OrchestratorRuns.FinishedRequestsOwnRecords` | internal/orchestrator/orchestrator.go:61-162 | every finished request owns one record, whose kind follows from the request and its verdict, and whose entry is about the event and its tenant and tells what the returned decision tells; the verdict is as above; AuditChainPrev is an earlier head, and the record's PrevHash if nothing intervened |
| `OrchestratorRuns.PrevTellsInterleaving` | internal/orchestrator/orchestrator.go:80-148 | AuditChainPrev is the record's PrevHash if and only if nothing intervened, unless the chain exhibits a collision |
| `OrchestratorRuns.DecideIsThreeSteps` | internal/orchestrator/orchestrator.go:61-162 | the three steps of a run, uninterrupted, are `Service.Decide` |
| `OrchestratorRuns.SuggestIsThreeSteps` | internal/orchestrator/precedents.go:36-120 | likewise for `Service.SuggestWithPrecedents` |
| `OrchestratorRuns.CitationsPointBack` | internal/orchestrator/precedents.go:54-116 | if payloads read back as encoded: each cited hash names an earlier passed decision that agrees with the citing record in type, source, severity and tenant, and on which an operator acted, also earlier |
| `OrchestratorRuns.CitationsStayInTenant` | internal/orchestrator/precedents.go:47-54 | in particular each precedent that a recorded suggestion cites is of the tenant of the event it was asked about |
| `OrchestratorRuns.CitedRecordsAreEarlier` | internal/orchestrator/precedents.go:101-116 | under the same hypothesis the citation graph is acyclic: whatever carries a cited hash stands earlier, or the chain exhibits a collision |
| `HumanInTheLoop.ResolvedDecisionIsFound` | internal/precedents/match.go:62-149 | if payloads decode as encoded: a passed decision on which an operator acted is a match for every valid event like it, and the precedent tells the answer and the action, or the chain exhibits a collision |
| `HumanInTheLoop.ResolvedDecisionIsCited` | internal/precedents/match.go:151-158 | so every answer about such an event has it, unless it is full of decisions at least as new |
| `Curator.PruneSuppression` | cmd/curator/main.go:139-151 | above the limit half of the entries go, and no more, whichever the map yields; up to it none do |
| `Curator.DigestSize` | cmd/curator/main.go:77-95 | a digest has at most max(K, 1) events |
| `Curator.Process.Tick` | cmd/curator/main.go:73-110 | a flush emits a digest that avoids the remembered IDs, remembers it, prunes, and empties the window; empty windows and errors emit nothing |
| `Curator.RepeatsOnlyAfterPruning` | cmd/curator/main.go:91-94 | an ID emitted twice was pruned in between, and the set stays within max(10000, K) after every flush |
| `AlertRuns.RunDeduplicates` | internal/alerts/store.go:40-54 | over any calls since the last Clear, the history holds, in order, exactly the alerts that no earlier accepted alert of their key blocks |
| `AlertRuns.DeduplicationExists` | internal/alerts/store.go:43-49 | every sequence of calls has such a deduplication |
| `AlertRuns.RunIsSpaced` | internal/alerts/store.go:43-49 | accepted alerts of one key stay a window apart throughout a run, even if the clock steps back between calls |
| `AlertRuns.RunIsOrdered` | internal/alerts/store.go:43-49 | under a non-decreasing clock the history is in the order of time |
| `AlertRuns.KeysExactly` | internal/alerts/store.go:30-37 | with rule IDs that have no vertical bar, two alerts share a key exactly when they agree in rule and event |
| `AlertRuns.KeysCanMeet` | internal/alerts/store.go:30-37 | otherwise alerts of different rules and events can meet in one key |
| `Alerts.Store.Add` | internal/alerts/store.go:40-54 | an alert is dropped exactly when one of its key was accepted within the window; the buffer is the last max accepted |
| `Alerts.Store.Snapshot` | internal/alerts/store.go:57-66 | a fresh array that is the exact reverse of the buffer |
| `Alerts.Store.Clear` | internal/alerts/store.go:76-81 | forgets the buffer and the dedupe history |

## Left out

- Curation.Select: works on sequence values, so aliasing between the request's slice and the selectors' slices is not expressed; nor is the allocation of K slots up front, which panics in strategies 3 to 6 for a huge K.
- AuditText.CanonicalTextInjective: kinds are sequences of Unicode scalar values; Go's replacement of invalid UTF-8 is not modelled, nor the step from calendar fields to Go's `time.Time`.
- Precedents.FindMatches: JSON decoding and `strings.EqualFold` are parameters, the latter as equality of folded texts.
- OrchestratorRuns.FinishedRequestsOwnRecords: guardrail settings stay fixed during a run, and the chain is the in-memory one.
- Several tenants making progress in one table: impossible, see `PostgresRuns.OneTenantOwnsTable`.
- "Every operator action names an existing decision": the code does not check it.
- IEEE rounding of scores, a NaN percentage, ULIDs, wall clocks, and the internals of SHA-256 and of the JSON encoder.
- `AuditChain.Chain` and the alert store hold a mutex in the source; each method here is one atomic step.
- The alert store's switch for a zero dedupe window: its constructor always sets 45 seconds.
- Kafka, HTTP, WebSocket, metrics, YAML and the dashboard: input, output and presentation.
- CDC connectors, API keys and RBAC, gateway ring buffers: small lookups or the same patterns again.
