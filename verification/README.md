# Proofs about the ingest tracker and the gap lifecycle of yaad-index

yaad-index keeps markdown files in a vault and mirrors them into SQLite. This project models the
part of its HTTP daemon where the state is: the tracker that turns plugin streams into long-polled
records, the locked read-merge-write that every envelope and every fill call goes through, the life
of a gap (open, deferred, filled) with the edges derived from canonical-type gaps, the bounded
cursor scan that hands gaps to agents and operators, instance routing, and the archive/restore/delete
state machine. `dafny verify dfyconfig.toml` checks all of it.

How the pieces fit:

| module | what it is |
|---|---|
| `Base`, `Vault`, `Store` | optional values, Go's string order, sorting; the vault file as a value; the shared catalog (rows, edges with their foreign key, files, fail-fast locks, bus) as a class |
| `Tracker`, `TrackerRuns`, `TrackerService` | the tracker's critical sections as functions; every interleaving of callers, runners and waiters over them; the class whose methods are proved equal to them |
| `Reingest`, `Diff`, `CanonicalEdges`, `Persist` | the stages of one persisted envelope and the whole call |
| `EntityRuns`, `IndexRuns` | one entity (file, edges, rows) under any mix of fills and re-ingests, and the agreement of its labels and edges over such runs |
| `WriteProtocol`, `Writers` | every interleaving of locked writers, and the two concrete writers as jobs of it |
| `GapSpecs`, `Fill`, `GapLifecycle`, `FillEdges`, `IndexAgreement`, `FillHandler`, `FillMeaning` | layered specs, parsing, applying, the lifecycle invariant, derived edges, the whole fill call, and what it does and refuses in terms of the request |
| `Pagination`, `NeedsFill`, `QueueMeaning`, `QueueReports` | keyset pagination in general, the needs-fill page as an instance, what the whole queue lists, the totals and the diagnostics |
| `Routing`, `FormatOrder`, `PickInstance` | template substitution in map order, when that order shows, and the decision chain around it |
| `Lifecycle` | archive, restore and delete as two-step transitions with faults |

Map iteration order, plugin streams, the scheduler, store and vault failures are all arbitrary: they
are parameters or nondeterministic choices, and the results hold for every one of them.

## What the code does that its comments do not say

* A re-ingest always takes the plugin's `data`, the plugin's open list and no gap state, although the
  comment on `buildVaultEntity` says existing data is kept when the new data is empty. After it
  nothing is left of earlier fills but summary, tags and what the plugin sends again
  (`FillsAreForgotten`, `FillsSurviveReingestIff`, `EmptyDataWipesWitness`), and the registered gaps
  are in order exactly when the plugin names as open those without a value (`ReingestInOrderIff`). A
  plugin that always lists `summary` leaves a filled one both open and valued
  (`RelistedSummaryWitness`); one that sends neither data nor gaps leaves a filled field neither
  (`OrphanedGapWitness`).
* A fill call breaks "open or filled, never both" in exactly two ways (`FillKeepsOrderIff`): setting
  `summary` or `tags` to something that stores no value there (`""`, `[]`, or labels) where nothing
  sits under `data:` closes the gap and leaves no value (`BlankSummaryWitness`), and clearing one of
  them where something does re-opens the gap and leaves the value (`ClearedSummaryWitness`).
* Clearing re-opens a field only if the operator registered it; a workflow-injected gap loses its
  shape when it is set (`SetThenClearReopensIff`, `WorkflowGapLostWitness`).
* A label whose name slugs to nothing is accepted; the file and the row are written, and the edge
  stage stops there. The list in the file then holds a label no edge points at
  (`EmptySlugWitness`). Among fill calls and store errors apart, this is the only way list and edges
  of a registered gap under an ordinary name come apart (`AllStillAgreeIff`, `AgreementOverRunIff`).
* A re-ingest replaces the list under `data:` and only ever adds edges. A plugin that does not send the
  labels again leaves their edges behind (`StaleEdgeWitness`), and one that sends an edge named like
  the gap links a label the list lacks (`PluginEdgeWitness`). List and edges agree afterwards exactly
  when the sent list names all the edges there are and the ones it adds (`ReingestAgreesIff`), and
  over mixed runs exactly when every step keeps them together (`AgreementOverMixedRunIff`,
  `RegisteredOverMixedRunIff`).
* A re-ingest writes the plugin's data to the row, without the summary, tags and note text the file
  carries over; the row mirrors the file again exactly when the plugin sends those too
  (`RowMirrorsFileIff`, `StaleRowWitness`).
* A canonical-type gap under the reserved name `summary` or `tags` gets edges but stores no labels
  (`ReservedGapAgreesIff`, `ReservedGapAfterCallIff`, `ReservedGapWitness`).
* Replaying `entity.updated` events reproduces the data exactly when no changed key holds an explicit
  null (`ReplayIff`, `UndoIff`).
* The page query of `/v1/needs-fill` passes over a partially filled entity: once one field of an
  entity whose gaps all come from the kind config is set or deferred, the row is no longer selected,
  while its other gaps would still surface (`PartialFillHidesTheRest`, `HiddenEntityWitness`,
  `SelectedOverRunIff`). `AllWorkListedIff` says exactly when a walk misses nothing.
* `capped` of the source-filtered total is also true when the cap falls exactly on the last row
  (`CountBySource`).
* The order in which captures are put into a template shows exactly when a value in use brings in the
  placeholder of another capture (`OrderIrrelevantIff`, `BracedValueWitness`), and then some globs
  route the same URL both ways unless both texts are refused as unresolved (`SameResultIff`).
* A delegated agent token is an operator to the fill handler and an agent to the queue; its queue
  shows agent-strategy gaps that its fills are refused for (`ShownGapRefusedIff`,
  `DelegatedPairWitness`).
* Archiving or restoring with a file in both layouts replaces the one at the target
  (`ContentsChangeIff`, `ArchiveOverwritesWitness`).
* The fan-out has no case for a record that ended as not_found and reports it as a failure
  (`RunFanOutInstance`).

## Model

| member | source | states |
|---|---|---|
| TrackerRuns.RunnerClosesExactlyOnce | internal/api/ingest_tracker.go:781-925 | In every interleaving and for every stream, a record's channel is closed at most once, and when its runner has returned it is closed, the record is terminal and no key leads to it |
| TrackerRuns.RunKeepsInv | internal/api/ingest_tracker.go:533-925 | The tracker invariant (index consistent, runner phase and record state in step, snapshots final) holds in every reachable state |
| TrackerRuns.DedupNeverJoinsFinishedRun | internal/api/ingest_tracker.go:561-609 | At any point of any run beginAttempt hands out a pending record carrying the attempt's key, and it is the only pending one of that key |
| TrackerRuns.OnlyOwnRunnerWrites | internal/api/ingest_tracker.go:738-925 | A step changes a record only if it is a settling step of that record's own runner, the record was pending, and the runner has then reported |
| TrackerRuns.TerminalForever | internal/api/ingest_tracker.go:936-963 | A terminal record keeps every field for the rest of the run, while later envelopes are persisted |
| TrackerRuns.WaitersAgree | internal/api/ingest_tracker.go:1689-1717 | No waiter returns a pending snapshot; all waiters on one record, whenever they looked, return the same snapshot, and it stays the record's content |
| TrackerRuns.BlockedWaiterHasHope | internal/api/ingest_tracker.go:1689-1717 | No lost wakeup: a blocked waiter can wake now or after one more possible step |
| Tracker.LaterEnvelopesCannotChangeTheAnswer | internal/api/ingest_tracker.go:781-925 | Two streams that agree up to their first envelope give the caller the same transition whatever follows |
| Tracker.BeginKeepsConsistent | internal/api/ingest_tracker.go:533-591 | beginAttempt keeps the index consistent: keys point at pending records that carry them, each keyed pending record is indexed, channels are closed exactly on terminal records |
| Tracker.TransitKeepsConsistent | internal/api/ingest_tracker.go:598-609 | So does every settling critical section (fields, key removal and close in one step) |
| Tracker.OnePendingRecordPerKey | internal/api/ingest_tracker.go:561-590 | Two pending records never share a key |
| Tracker.BeginReturnsPending | internal/api/ingest_tracker.go:561-590 | The record returned is pending with an open channel, and subscribing changes nothing |
| Tracker.BeginCreates | internal/api/ingest_tracker.go:533-591 | A run in flight under the key is joined and nothing changes; otherwise one record is added, with nothing on it but what the attempt says, listed under its planned id or else its URL |
| Tracker.SettledKeyIsFree | internal/api/ingest_tracker.go:598-609 | After settling, the key is free for a fresh attempt |
| Tracker.InvocationKeyInjective | internal/api/ingest_tracker.go:553-560 | For names free of ':' and '/', two plugin attempts share a key if and only if plugin, instance and URL agree |
| TrackerService.IngestTracker.BeginAttempt | internal/api/ingest_tracker.go:533-591 | The method does to the heap exactly what Begin does to the model; a new record is spawned if and only if no run is in flight under the key |
| TrackerService.IngestTracker.ClearInvocationKeyLocked | internal/api/ingest_tracker.go:598-609 | Removes the key only while the index still names this record |
| TrackerService.IngestTracker.MarkFailed | internal/api/ingest_tracker.go:738-746 | Settles a pending record as failed and releases its key, keeping the tracker valid |
| TrackerService.IngestTracker.MarkNotFound | internal/api/ingest_tracker.go:766-773 | The same for not_found |
| TrackerService.IngestTracker.SettleLocked | internal/api/ingest_tracker.go:863-925 | One settling critical section is Transit on the model; the channel is proved open before it is closed |
| TrackerService.IngestTracker.HandleFirstEnvelope | internal/api/ingest_tracker.go:863-925 | The record after the first envelope, field by field: options give disambiguation, nothing gives not_found, an entity without id or kind or a failed persist gives failed, open gaps give needs_fill with content and gaps, anything else complete; the error propagates exactly when a persist failed |
| TrackerService.IngestTracker.PersistSubsequentEnvelope | internal/api/ingest_tracker.go:936-963 | A malformed later envelope is skipped without an error; no record is touched |
| TrackerService.IngestTracker.RunPluginSimulation | internal/api/ingest_tracker.go:781-848 | For every stream (nil envelopes, persist failures, errors propagated or swallowed, a stream error anywhere): where it stops, the record's final fields by the first envelope or, without one, by whether the stream erred, its channel closed once and its key gone, and the envelopes on disk exactly those that landed, in stream order |
| TrackerService.IngestTracker.Wait | internal/api/ingest_tracker.go:1689-1717 | Returns the record's terminal content, or the timeout/cancellation only if the record was pending; a terminal record is returned at once |
| TrackerService.IngestTracker.RunFanOutInstance | internal/api/ingest_command_fanout.go:288-334 | The entry repeats the final state of the instance's own record or says the wait was cut short |
| TrackerService.IngestTracker.DispatchFanOut | internal/api/ingest_command_fanout.go:239-282 | One result per enabled instance in declaration order whatever fails, each about its own record, and no two instances share a record |
| Reingest.BuildVaultEntity | internal/api/ingest_tracker.go:1273-1393 | The merge loops compute Merged, the function the run lemmas are about |
| Reingest.MergedFile | internal/api/ingest_tracker.go:1273-1393 | That function field by field: the plugin's half is new, summary, tags and notes are as they were, one provenance entry and at most one source are added, edges and attachments change only if sent |
| Reingest.SourcesOverRun | internal/api/ingest_tracker.go:1273-1393 | Over any run of re-ingests the source list is the union in first-encounter order |
| Reingest.SourceListOverRun | internal/api/ingest_tracker.go:1273-1393 | It stays duplicate-free, loses nothing, and its first element never changes |
| Reingest.ProvenanceOverRun | internal/api/ingest_tracker.go:1273-1393 | The earlier provenance stays a prefix and grows by one entry per ingest |
| Reingest.KeptOverRun | internal/api/ingest_tracker.go:1273-1393 | Summary, tags and notes survive; edges change only with a non-nil edge list; a non-empty attachment list never becomes empty |
| Reingest.FillsAreForgotten | internal/api/ingest_tracker.go:1255-1393 | Two files that differ only in data, open list and gap state are the same file after one or more re-ingests |
| Reingest.FillsSurviveReingestIff | internal/api/ingest_tracker.go:1255-1393 | A field that has a value has the same one after a re-ingest if and only if it is a summary or tags held outside data, or the plugin sends that very value |
| Reingest.EmptyDataWipesWitness | internal/api/ingest_tracker.go:1255-1260 | With empty plugin data a filled value is gone, where the comment promises it stays |
| EntityRuns.ReingestInOrderIff | internal/api/ingest_tracker.go:1273-1393 | Whatever was there before, registered gaps are open or valued but not both after a re-ingest if and only if the plugin lists exactly the ones without a sent or carried-over value |
| EntityRuns.LifecycleOverMixedRun | internal/api/ingest_tracker.go:1273-1393 | Over any mix of accepted fills and re-ingests the lifecycle invariant holds all along if and only if every step is clean |
| EntityRuns.IngestRestoresOrder | internal/api/ingest_tracker.go:1273-1393 | At any point of a run, also out of order, a clean fetch puts the file in order and any other does not |
| EntityRuns.ProvenanceOverMixedRun | internal/api/operator_fill.go:321-339 | Provenance over such a run is the initial list plus one entry per ingest and per fill that sets something, in order |
| EntityRuns.FreshLabelRun | internal/canonical/dataview.go:190-214 | From a freshly materialized label file, the invariant holds all along if and only if every step is clean |
| EntityRuns.RelistedSummaryWitness | internal/api/ingest_tracker.go:1273-1393 | A plugin that lists summary over a filled one leaves it open and valued |
| EntityRuns.OrphanedGapWitness | internal/api/ingest_tracker.go:1273-1393 | A plugin that sends no data and no gaps leaves a filled field neither open nor valued |
| EntityRuns.FilledIsStep | internal/api/operator_fill.go:346-409 | Every fill call that reached the edge stage is a step of such a run |
| EntityRuns.PersistedIsStep | internal/api/ingest_tracker.go:984-1139 | So is every persisted envelope |
| EntityRuns.RowMirrorsFileIff | internal/api/fill.go:44-67 | At any point of a run the row is the projection of the file after a fill, and after an ingest if and only if the plugin sent the carried-over summary, tags and note text in its data |
| EntityRuns.StaleRowWitness | internal/api/ingest_tracker.go:1063-1067 | After an ingest without the summary the file keeps it and the row has lost it |
| IndexRuns.ReingestAgreesIff | internal/api/ingest_tracker.go:1513-1552 | After a re-ingest edges and stored labels of a field agree if and only if the sent list names exactly the edges that were there and those the plugin's own edges add |
| IndexRuns.ReingestKeepsAgreementIff | internal/api/ingest_tracker.go:1513-1552 | From agreement: if and only if the sent list is the old one plus what the plugin's edges add |
| IndexRuns.StaleEdgeWitness | internal/api/ingest_tracker.go:1313-1317 | An ingest in order for the lifecycle that leaves an edge without a label |
| IndexRuns.PluginEdgeWitness | internal/api/ingest_tracker.go:1513-1552 | An ingest whose edge has no label in the file |
| IndexRuns.CallKeepsIff | internal/api/canonical_edges.go:78-163 | One accepted fill and any ordinary field, however typed: agreement survives if and only if the call does not store the field, or its stage got past it (or its labels were linked already), or, where it is not canonical, there were no edges |
| IndexRuns.AgreementOverMixedRunIff | internal/api/operator_fill.go:346-409 | Over any mix of fills and re-ingests, with stopped stages and workflow retyping, agreement on any set of ordinary fields holds all along if and only if every step keeps it |
| IndexRuns.RegisteredOverMixedRunIff | internal/api/operator_fill.go:346-409 | For the registered canonical gaps: if and only if no fill names a label that slugs to nothing and every fetch lists all edges |
| IndexRuns.TablesOverMixedRun | internal/api/ingest_tracker.go:1439-1552 | Over any such run every edge keeps a row to point at, rows of other entities stay as they were and no edge of another entity is lost |
| Diff.QueueEntityUpdated | internal/api/ingest_tracker.go:316-363 | For any map orders, the events are exactly one per changed key, in sorted key order, with the values before and after |
| Diff.ReplayIff | internal/api/ingest_tracker.go:316-363 | Replaying the events on the old data gives the new data if and only if no changed key is null in the new data |
| Diff.UndoIff | internal/api/ingest_tracker.go:316-363 | Undoing them on the new data gives the old data if and only if no changed key was null in the old data |
| CanonicalEdges.MaterializeThinLabelRows | internal/api/ingest_tracker.go:1439-1505 | Pass one touches no existing row, gives every well-formed target of an allowed kind a row, counts the others under their kind, and queues its created events |
| CanonicalEdges.PersistCanonicalEdges | internal/api/ingest_tracker.go:1513-1552 | Pass two adds exactly the landed candidates, one event each in order, and counts candidates of disabled types |
| CanonicalEdges.TwoPassEdges | internal/api/ingest_tracker.go:1439-1552 | An edge lands if and only if it is a complete candidate of an enabled type whose head pre-existed or is a label of the source-type or an enabled kind, and whose tail has a row by then |
| CanonicalEdges.ThinRowsAre | internal/api/ingest_tracker.go:1439-1505 | The rows after pass one: the old ones as they were, and a thin one for exactly the ids that are pointed at and name an allowed kind |
| CanonicalEdges.LandedInOrder | internal/api/ingest_tracker.go:1513-1552 | Edges are added and announced in the order of the candidates |
| CanonicalEdges.CreatedByFirst | internal/api/ingest_tracker.go:1439-1505 | A created event blames the first candidate that points at the new row |
| CanonicalEdges.DroppedOfTypeIsSize | internal/api/ingest_tracker.go:1513-1552 | The type counter grows by the number of complete candidates of that disabled type |
| Vault.LabelKindIff | internal/canonical/labels.go:43-49 | An id is a label of a kind if and only if it is that kind, a colon, and something |
| CanonicalEdges.DroppedHeadsAreCounted | internal/api/ingest_tracker.go:1439-1505 | A candidate that misses its head is no label at all or was counted under its kind |
| CanonicalEdges.DroppedOfKindIsSize | internal/api/ingest_tracker.go:1439-1505 | The counter grows by the number of distinct targets of the disabled kind |
| CanonicalEdges.CreatedEventsAreTrue | internal/api/ingest_tracker.go:1439-1505 | A created event names a row absent before and thin after, and a candidate that points at it |
| CanonicalEdges.NewRowsAnnouncedOnce | internal/api/ingest_tracker.go:1439-1505 | Every new row is announced, once |
| Persist.PersistLocked | internal/api/ingest_tracker.go:984-1139 | File, row, edges, drop counters and queued events after any combination of failures, and exactly when the call succeeds |
| Persist.WriteIngestVaultFile | internal/api/ingest_tracker.go:1163-1218 | Read, merge, write: the error is decided by the first failing step, and a failure leaves the file alone |
| Persist.PersistEnvelope | internal/api/ingest_tracker.go:973-1139 | What each exit leaves, field by field: the file (a silent plugin keeps the old body), the entity's row, thin rows, edges; when it succeeds; the lock table as it began; events true, in queue order and only after the release; drops counted exactly on success |
| Persist.EventsTrue | internal/api/ingest_tracker.go:984-1139 | Created events name rows new in this step, updated events the change of the entity's data, edge events edges in the table |
| Store.Catalog.Drain | internal/eventbus/eventbus.go:535-554 | Publishes the whole queue in order, with the publisher's lock gone |
| Store.Catalog.Acquire | internal/writelocks/writelocks.go:121-152 | Fail-fast: succeeds if and only if nobody holds the artifact |
| WriteProtocol.NoLostUpdates | internal/api/ingest_tracker.go:973-1050 | In every interleaving of locked writers an entity's provenance is the initial list plus one entry per landed write, in lock order, none missing and none twice |
| WriteProtocol.PublishedAfterRelease | internal/api/ingest_tracker.go:984-1139 | Nothing is published while its publisher holds the lock; each publisher's events come out in queue order |
| WriteProtocol.NextKeepsInv | internal/api/operator_fill.go:97-376 | Every step keeps mutual exclusion, "what was read is still on disk", and the provenance and bus invariants |
| Writers.WritersAreJobs | internal/api/operator_fill.go:321-339 | The ingest merge appends its entry and a fill appends one exactly if it sets something, so both are jobs of the protocol |
| Fill.ParseOperatorFillOps | internal/api/operator_fill.go:556-648 | For any field order: accepted means every field is valid and the ops are exactly the fields' parses, sorted; rejected means some field has that error |
| Fill.ParseOrderIrrelevant | internal/api/operator_fill.go:556-648 | Acceptance and the accepted op list do not depend on map order |
| Fill.DeferOnlyOnOpenGap | internal/api/operator_fill.go:575-722 | A defer or undefer op survives parsing only for an open gap |
| Fill.VaultDoc.ApplyOperatorFillOps | internal/api/operator_fill.go:856-936 | The in-place loop over data, gaps and gap state computes ApplyOps and returns the fields in op order |
| Fill.VaultDoc.RemoveGap | internal/api/operator_fill.go:960-969 | Removes every occurrence and keeps the order of the rest |
| Fill.FillOverwriteData | internal/api/fill.go:81-93 | A field has a value if it is in data or is a non-empty summary or tags |
| GapLifecycle.FillKeepsOrderIff | internal/api/operator_fill.go:556-956 | An accepted call keeps "open or filled, never both; deferred only while open; open list duplicate-free" for registered gaps if and only if no registered reserved field was set blank with nothing under data, or cleared with something there |
| GapLifecycle.LifecycleOverRun | internal/api/operator_fill.go:556-956 | Over any sequence of accepted calls, for all triggers, force flags and times, the invariant holds all along if and only if no call does either |
| GapLifecycle.InOrderMeans | internal/api/fill.go:81-93 | The invariant is, in the file's terms, exactly: open if and only if valueless, deferred implies both, open list duplicate-free |
| GapLifecycle.ApplyOpsHere | internal/api/operator_fill.go:856-936 | A field ends as its own op alone would leave it |
| GapLifecycle.BlankOpsComeFromBlankRequests | internal/api/operator_fill.go:727-839 | Which request values parse to a blank set op |
| GapLifecycle.BlankSummaryWitness | internal/api/operator_fill.go:856-936 | A concrete blank summary after which the gap is neither open nor filled |
| GapLifecycle.ClearedSummaryWitness | internal/api/operator_fill.go:903-922 | A concrete forced clear after which a summary kept under data is both open and filled |
| GapLifecycle.SetThenClearReopensIff | internal/api/operator_fill.go:856-936 | Set then clear re-opens the gap if and only if the operator registered it |
| GapLifecycle.WorkflowGapLostWitness | internal/api/operator_fill.go:856-936 | Two accepted calls after which a workflow-injected gap is neither open nor filled nor specified |
| FillEdges.ApplyCanonicalTypeEdges | internal/api/canonical_edges.go:78-163 | Succeeds if and only if every label is well-formed; then the table is what the ops say and every target has a row. A failure leaves exactly the ops before it and the stopped op's labels before the malformed one; no existing row and no other entity's edge changes. The events announce each edge made, in order, and each new row once |
| FillEdges.ApplyLabels | internal/api/canonical_edges.go:120-163 | One field's labels up to the first malformed one: rows, edges and events so far |
| IndexAgreement.ReplacedGapAgreesIff | internal/api/canonical_edges.go:78-163 | After an accepted call that replaces a gap's edges, edges and stored labels agree if and only if the stage got past the gap's op, or stopped before it with the new labels already there |
| IndexAgreement.UntouchedGapAgreesIff | internal/api/canonical_edges.go:78-163 | A canonical gap whose edges the call does not replace agrees if and only if it did |
| IndexAgreement.FillKeepsAgreementIff | internal/api/canonical_edges.go:78-163 | The same for a registered, not retyped gap in agreement before |
| IndexAgreement.AllStillAgreeIff | internal/api/operator_fill.go:346-409 | After an accepted call every canonical gap still agrees if and only if no canonical field's list holds a name that slugs to nothing |
| IndexAgreement.EmptySlugWitness | internal/api/canonical_edges.go:353-445 | A concrete accepted label list after which stored labels and edges differ |
| IndexAgreement.AgreementOverRun | internal/api/operator_fill.go:870-922 | Over any run, stopped stages included, a registered gap keeps agreeing as long as no stage stops at or before the gap's own op |
| IndexAgreement.AgreementOverRunIff | internal/api/operator_fill.go:870-922 | Over any run the registered canonical gaps agree all along if and only if no call names a label that slugs to nothing |
| IndexAgreement.RowsOverRun | internal/api/canonical_edges.go:78-163 | Over any run, stopped stages included, every edge target keeps a row and rows of other entities stay as they were |
| IndexAgreement.HandledIsStep | internal/api/operator_fill.go:360-409 | Every fill call that reached the edge stage is a step of such a run |
| IndexAgreement.OtherEdgesUntouched | internal/api/canonical_edges.go:78-163 | Edges of other entities and of non-canonical types never change, whether the stage runs through or stops |
| IndexAgreement.OtherEdgesOverRun | internal/api/canonical_edges.go:78-163 | Nor do they over any run of fill calls |
| IndexAgreement.ReservedGapAgreesIff | internal/api/operator_fill.go:870-922 | For a canonical-type gap named summary or tags the new edges agree with the stored labels if and only if the data key of that name happens to hold the same labels |
| IndexAgreement.ReservedGapAfterCallIff | internal/api/operator_fill.go:870-922 | The same after an accepted call and its stage, by whether the stage got past the gap, stopped at it or before it |
| IndexAgreement.ReservedGapWitness | internal/api/operator_fill.go:870-922 | A concrete accepted call on such a gap whose edge nothing in the file backs |
| IndexAgreement.AcceptedLabelsSoundIff | internal/api/canonical_edges.go:353-445 | An accepted label list passes the edge stage if and only if no accepted name slugs to nothing |
| FillMeaning.AcceptedIff | internal/api/operator_fill.go:556-839 | A call is accepted if and only if every field may be touched (open and not the agents' alone for an operator, valued with force, valueless for an operator; a defer only if open), every value fits its field, and no deferred field has data |
| FillMeaning.AcceptedTouches | internal/api/operator_fill.go:575-610 | Over accepted calls: every requested field is open, or has a value and the call forces, or has none and the operator asks |
| FillMeaning.GateCodes | internal/api/operator_fill.go:575-610 | Exactly when a field is refused as agent-only, already filled, unknown, or not deferrable |
| FillMeaning.ValueCodes | internal/api/operator_fill.go:669-839 | The code of a value that does not fit, by type; a label list has the code of its first misfit |
| FillMeaning.AcceptedMeans | internal/api/operator_fill.go:856-936 | After an accepted call a null has emptied its field, a defer has marked it, any other value is stored as sent, stamped and closed; nothing about any other field changes |
| FillMeaning.UnforcedKeepsValues | internal/api/operator_fill.go:597-603 | Without force a field that is not open keeps its value |
| FillMeaning.EffectiveMeans | internal/api/needs_fill.go:711-780 | A gap has a spec if the config or a workflow gives it one, and each of its parts is the workflow's if that is not empty, else the config's |
| FillMeaning.OverwriteDataMeans | internal/api/fill.go:81-93 | What counts as a value, and which |
| FillMeaning.WrittenFile | internal/api/operator_fill.go:311-339 | The file written is the one read with the fields done and one provenance entry more exactly if the request sets something |
| FillMeaning.LoadedMeans | internal/api/operator_fill.go:140-220 | The file on disk, a fresh one with the kind's gaps open, or none |
| FillMeaning.UnresolvedIff | internal/api/canonical_edges.go:515-589 | The resolver gate in terms of the request: some canonical list names a resolver-owned label without a row |
| FillMeaning.DeferCheckIff | internal/api/operator_fill.go:942-956 | The defer check in terms of the request |
| FillMeaning.CompletionsMeans | internal/api/operator_fill.go:439-456 | One fill.completed for each field the request sets and no other, by field name |
| FillMeaning.RowDataMeans | internal/api/fill.go:44-67 | The row's data key by key |
| FillMeaning.JoinLinesAppends | internal/api/fill.go:55-65 | Note texts are joined in order, newlines only between non-empty ones |
| FillMeaning.WithoutInOrder | internal/api/operator_fill.go:960-969 | Removing a gap keeps the rest in order |
| FillHandler.Admit | internal/api/operator_fill.go:264-301 | Parse, resolver gate and defer check: accepted ops are the parse; a refusal means nothing was acceptable, and its code is that of a field, of an unresolved label, or of a deferred field with data |
| FillHandler.Commit | internal/api/operator_fill.go:346-431 | File, row, provenance row, edges and paragraphs in that order: the first failing step ends it, and what each leaves of the entity's file, of rows, edges and events |
| FillHandler.FillEntity | internal/api/operator_fill.go:97-450 | A refused call changes nothing, publishes nothing and could not have been accepted; an accepted one ends at its first failing step and leaves exactly the file, row and edges its ops describe up to there; its events are true and follow the release |
| NeedsFill.BuildNeedsFillEntry | internal/api/needs_fill.go:551-645 | The loop yields exactly the gaps that are open, not deferred, shaped, and meant for the view, with their layered specs; nothing when there are none |
| QueueMeaning.EntryMeans | internal/api/needs_fill.go:551-645 | There is an entry if and only if some gap shows, and it has exactly the gaps that show, each with its effective spec, its description as prompt and its data schema, and the entity's id, kind and content |
| QueueMeaning.EntryForMeans | internal/api/needs_fill.go:330-375 | A row has an entry if and only if its file can be read, comes from the plugin asked for, and has a gap to show |
| QueueMeaning.QueueIs | internal/api/needs_fill.go:297-401 | The whole queue: in id order and each once, the entries of exactly the rows that pass the page query and have one |
| NeedsFill.QueueAndWriterAgree | internal/api/needs_fill.go:758-780 | A surfaced gap has the same effective spec on the write side, and its gate admits the matching trigger for any value |
| NeedsFill.GateAndViewExactly | internal/api/operator_fill.go:575-594 | For an open, shaped, non-deferred gap the operator view and the operator gate coincide; agents may write more than their view shows |
| NeedsFill.SomeAudienceIff | internal/api/needs_fill.go:575-607 | A gap surfaces to some audience if and only if it is shaped and not deferred |
| NeedsFill.ShownGapRefusedIff | internal/api/operator_fill.go:237-249 | Per claim: a gap the caller's own view shows is refused by the caller's own fill if and only if the claim is a delegated pair and the gap is agent-strategy |
| NeedsFill.DelegatedPairWitness | internal/api/needs_fill.go:266-285 | A concrete claim, gap and request of that kind |
| NeedsFill.NeedsFillPage | internal/api/needs_fill.go:297-401 | For any limit, batch size and cap of at least one, the response is the page that starts behind the cursor; the cursor is omitted exactly when neither limit nor cap stopped the scan |
| NeedsFill.PaginationIsExact | internal/api/needs_fill.go:297-401 | Following next_cursor to the end, with any limits, yields exactly the selected rows whose file surfaces, each once, in id order |
| NeedsFill.AllWorkListedIff | internal/store/sqlite.go:402-412 | A complete walk lists every entity with something to show if and only if each one's row has data and a gap state that is absent or still has an entry neither filled nor deferred |
| Pagination.PageBounds | internal/api/needs_fill.go:297-401 | A page holds at most limit entries and examines at most cap rows; a final page reached the end; any other moved the cursor strictly forward |
| Pagination.FullPageStopsAtOnce | internal/api/needs_fill.go:375-380 | A full page looks no further than the row that filled it |
| Pagination.WalkIsExact | internal/api/needs_fill.go:393-401 | Following the cursor takes at most one page per remaining row and one more, and collects every entry once |
| Pagination.SeekResumes | internal/store/sqlite.go:380-462 | A cursor taken from the stream resumes right behind its row |
| QueueReports.CountBySource | internal/api/needs_fill.go:159-190 | Counts the distinct owned candidates among the first cap; capped if and only if the cap is at most the number of candidates |
| QueueReports.DiagnoseNeedsFill | internal/api/needs_fill_diagnostics.go:54-87 | Every figure is the number of rows of its class, each sample the first 25 of them |
| QueueReports.SampleHas | internal/api/needs_fill_diagnostics.go:71-84 | A row is in the sample of its class if and only if it is of the class and fewer than 25 rows before it are |
| QueueReports.ClassesPartition | internal/api/needs_fill_diagnostics.go:54-87 | The figures add up to the total short of unreadable files |
| QueueReports.ClassMeaning | internal/api/needs_fill_diagnostics.go:54-87 | Hidden from both if and only if every open gap is deferred or shapeless; operator-only if and only if every live gap is operator-strategy |
| QueueReports.OtherClassMeaning | internal/api/needs_fill_diagnostics.go:57-68 | Missing, unreadable and without open gaps |
| QueueReports.OfClassInOrder | internal/api/needs_fill_diagnostics.go:71-84 | The rows of a class, from which its sample is taken, in the order of the enumeration |
| QueueReports.ListAllCandidates | internal/api/needs_fill_diagnostics.go:110-125 | The enumeration collects the whole candidate stream for any batch size |
| QueueReports.PartialFillHidesTheRest | internal/store/sqlite.go:389-412 | After a call that sets or defers a field of an entity with no pending gap state, untouched gaps still surface in the view but the row is not selected |
| QueueReports.SelectedOverRunIff | internal/store/sqlite.go:402-412 | Over any run of fills such a row is selected if and only if its gap state is empty |
| QueueReports.HiddenEntityWitness | internal/store/sqlite.go:402-412 | A concrete entity with an open gap that no page lists |
| Routing.AnyOrderIsSimultaneous | internal/api/instance_routing.go:222-228 | Sequential replacement in any map order equals simultaneous substitution |
| Routing.LeftoverIffUncaptured | internal/api/instance_routing.go:138-146 | The leftover check fires if and only if some placeholder was not captured |
| Routing.FormatMatchTemplate | internal/api/instance_routing.go:222-228 | The loop's result comes from some order of the captures |
| Routing.BracedValueWitness | internal/api/instance_routing.go:222-228 | With a brace in a captured value two orders give different texts |
| FormatOrder.OrderIrrelevantIff | internal/api/instance_routing.go:222-228 | All map orders format to the same text if and only if no value the template uses brings in the placeholder of another capture |
| FormatOrder.TameIsHarmless | internal/api/instance_routing.go:222-228 | Values in which no placeholder can start bring in nothing, in every template |
| FormatOrder.HarmlessIsSimultaneous | internal/api/instance_routing.go:222-228 | In that case the text is simultaneous substitution |
| PickInstance.PickInstance | internal/api/instance_routing.go:68-183 | The whole answer over the instances as declared: the shortcuts, each error in its order, and otherwise the first enabled instance with a matching glob, or Unrouted if and only if there is none |
| PickInstance.Walk | internal/api/instance_routing.go:157-182 | Returns the first enabled instance in declaration order with a matching glob, or Unrouted if and only if there is none |
| PickInstance.ExtractURLCaptures | internal/api/instance_routing.go:192-215 | The captures of the first pattern that matches, or none if and only if none does |
| PickInstance.RoutedExactly | internal/api/instance_routing.go:119-183 | End to end: unresolved-placeholder error if and only if a template name is uncaptured, else the first owner of the simultaneously formatted value |
| PickInstance.RoutingIsDeterministic | internal/api/instance_routing.go:119-183 | Two runs on the same input agree whatever the map order, whenever no value in use brings in another capture's placeholder |
| PickInstance.SameResultIff | internal/api/instance_routing.go:119-183 | For any template and captures: the map order can never change the result, whatever the globs match, if and only if it cannot change a text that passes the leftover check |
| Lifecycle.Shelves.Transition | internal/api/entities_archive.go:79-211 | Archive and restore under the lock are Apply on the store's state, for every failing step |
| Lifecycle.Shelves.Destroy | internal/api/entities_delete.go:71-199 | Delete under the lock likewise; edges from and to the entity go if and only if the row goes |
| Lifecycle.Shelves.MoveBetweenArchive | internal/vault/writer.go:743-800 | The move with its idempotence rule |
| Lifecycle.ContentsChangeIff | internal/api/entities_archive.go:144-201 | Whatever fails, a call changes what is stored for a path if and only if it destroys an archived row's archived file or moves one file over another |
| Lifecycle.FilesOverRun | internal/api/entities_archive.go:144-201 | Over any run with any failures from any start, a path's content is no longer what it was if and only if some call destroyed an archived file there or moved one file over another |
| Lifecycle.SingleFilesOverRun | internal/api/entities_delete.go:129-189 | Starting with no file in both layouts: if and only if a delete of an archived row took it out of the archive |
| Lifecycle.DeleteKeepsActive | internal/api/entities_delete.go:129-189 | Delete never touches the active layout |
| Lifecycle.RetryAmidOthers | internal/api/entities_archive.go:144-201 | Any number of interrupted attempts, with other entities' calls in between, then a clean one: outcome, row and files are as if the first attempt had gone through |
| Lifecycle.RetryReaches | internal/api/entities_delete.go:158-189 | The same for one interrupted attempt |
| Lifecycle.TransitionMeans | internal/api/entities_archive.go:79-201 | Archive and restore: each outcome exactly when, and what each leaves of row and files |
| Lifecycle.DeleteMeans | internal/api/entities_delete.go:77-189 | Delete likewise |
| Lifecycle.CallMeans | internal/api/entities_archive.go:144-201 | A call moves its own row and path only, and ids without a path are refused |
| Lifecycle.PathMeans | internal/vault/writer.go:875-885 | Which path an id names, or that it names none |
| Lifecycle.DoneMeans | internal/api/entities_archive.go:144-201 | Success means the row's flag is set and the file is in the layout the flag names and in no other |
| Lifecycle.RestoreUndoesArchive | internal/vault/writer.go:725-800 | Archive and restore undo each other on an entity in good order |
| Lifecycle.ArchiveOverwritesWitness | internal/vault/writer.go:779-800 | A concrete archive that loses the older of two files |

## Left out

- Persist.PersistEnvelope: provenance rows, notation and alias tables appear only by the failure of their write, day-reference edges not at all; the file and entity row they derive from are exact.
- Persist.PersistLocked: the same.
- FillHandler.Commit: the provenance row appears only by the failure of its write; the entry itself is exact in the file.
- FillHandler.FillEntity: the paragraphs a label's data adds to its target's file, and the fill.completed events of the targets, are not modelled; that the stage can end the call after the edges and before the entity's own fill.completed events is.
- FormatOrder.OrderIrrelevantIff: is about values that read as placeholders and text in which none can start; it leaves out a value that ends in the middle of what could be a placeholder (what it becomes depends on the text behind it), and a placeholder that is brought in and comes back in its own value. `SameResultIff` has neither condition.
- WriteProtocol.NoLostUpdates: covers writers that take the entity lock; the fixture ingest path and the legacy note append write without it.
- IndexAgreement.AgreementOverRunIff: is about fill calls without store errors and specs in which exactly the registered gaps are canonical; `IndexRuns.AgreementOverMixedRunIff` has re-ingests and any typing, and `ReservedGapAfterCallIff` the reserved names.
- IndexRuns.AgreementOverMixedRunIff: is about ordinary field names, and about steps that reached the edge stage; the edges a day reference in the data adds are not part of it.
- GapLifecycle.FillKeepsOrderIff: is about gaps registered in the kind config; a workflow-injected gap loses its shape when it is filled or deferred.
- NeedsFill.PaginationIsExact: is about the rows the page query selects on a fixed store; which fillable entities that query passes over is stated by `AllWorkListedIff`, `PartialFillHidesTheRest` and `SelectedOverRunIff`.
- HTTP and JSON decoding, including the unwrapping of a `{"fields": ...}` body, status envelopes, logging and CLI commands.
- Authentication and the operator gate on user content; a claim is a value here.
- The fixture simulation in `runSimulation` appears only as a step of `TrackerRuns`; its URLs and delays are not modelled.
- Plugin processes, markdown parsing, the marker splice of bodies, git commits, attachment staging and dispatch: a plugin is an arbitrary stream, the splice a given result, an attachment list a given value.
- SQL, regular expressions, `path.Match`, slug derivation and base64 cursors: a query is its predicate over rows, the others are function parameters or part of the input.
- Store errors inside the two edge passes (logged and skipped by the code), the resolver auto-fetch and any edge writer other than the pass-through one.
- Provenance rows in the database, notation and alias tables beyond their failure, day-reference scanning, edge metadata.
- Timestamps other than fill and provenance stamps; `archived_at` is a flag, `gap_call_done_at` is never set outside the program's tests and is taken as null.
- The canonical-label and user-content subfolder layouts of the vault in archive moves; only the plain active and archive paths exist here.
- Store failures while listing needs-fill candidates (the request fails as a whole), the `exclude` option and the instruction text of an entry.
- Cache TTL, force-refetch, deployments without a vault, and the startup warning about overlapping globs.
