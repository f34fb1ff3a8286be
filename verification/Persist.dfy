/** persistEnvelope: one envelope's way through the write lock, the vault file, the entity row,
    the canonical edges and, once the lock is gone, the event bus. */
module Persist {
  import opened Base
  import opened Vault
  import opened Store
  import opened CanonicalEdges
  import opened Reingest
  import Diff

  /** What goes wrong outside this code during one call. */
  datatype Faults = Faults(
    readFails: bool,
    writeFails: bool,
    probeFails: bool,
    upsertFails: bool,
    provenanceFails: bool,
    notationsFails: bool,
    aliasesFails: bool)

  datatype Error =
    | Conflict(holder: string)
    | VaultRead | BodyMerge | VaultWrite
    | EntityWrite | ProvenanceWrite | NotationsWrite | AliasesWrite

  /** The plugin's envelope. `spliced` is the result of splicing `content` between the plugin
      markers of the existing body, None when the plugin emitted a marker itself. */
  datatype Input = Input(fetch: Fetch, content: string, spliced: Option<string>)

  function CandidatesOf(f: Fetch): Candidates {
    if f.edges.Some? then f.edges.value else []
  }

  /** mergePluginBodyForVault: silence keeps the old body. */
  function MergedBody(existing: Option<Entity>, in_: Input): Option<string> {
    if in_.content == "" then Some(if existing.Some? then existing.value.cleanContent else "")
    else in_.spliced
  }

  predicate BeforeVaultWrite(e: Error) {
    e.Conflict? || e.VaultRead? || e.BodyMerge? || e.VaultWrite?
  }

  function FilesAfter(files: map<string, Entity>, in_: Input, error: Option<Error>): map<string, Entity> {
    var existing := Lookup(files, in_.fetch.id);
    if (error.Some? && BeforeVaultWrite(error.value)) || MergedBody(existing, in_).None? then files
    else files[in_.fetch.id := Merged(existing, in_.fetch.(body := MergedBody(existing, in_).value))]
  }

  /** What the data column gets: a plugin that sends no data at all stores the literal null. */
  function StoredData(f: Fetch): Option<map<string, Value>> {
    if f.sent || f.data != map[] then Some(f.data) else None
  }

  function OwnRow(rows: map<string, Row>, f: Fetch): map<string, Row> {
    rows[f.id := Row(f.kind, StoredData(f), map[], f.id in rows && rows[f.id].archived)]
  }

  /** The rows after an ingest that went through: its own, and thin ones for its edge targets. */
  function IngestedRows(rows: map<string, Row>, f: Fetch, guard: Guard): map<string, Row> {
    WithThinRows(OwnRow(rows, f), CandidatesOf(f), guard)
  }

  /** The edges such an ingest adds. */
  function IngestedEdges(rows: map<string, Row>, f: Fetch, guard: Guard): set<Edge> {
    set e | e in Landed(CandidatesOf(f), IngestedRows(rows, f, guard), guard)
  }

  function RowsAfter(rows: map<string, Row>, in_: Input, guard: Guard, error: Option<Error>): map<string, Row> {
    match error
    case None => IngestedRows(rows, in_.fetch, guard)
    case Some(e) => if BeforeVaultWrite(e) || e.EntityWrite? then rows else OwnRow(rows, in_.fetch)
  }

  function NewEdges(rows: map<string, Row>, in_: Input, guard: Guard, error: Option<Error>): set<Edge> {
    if error.Some? then {} else IngestedEdges(rows, in_.fetch, guard)
  }

  function DataIn(rows: map<string, Row>, id: string): map<string, Value> {
    if id in rows && rows[id].data.Some? then rows[id].data.value else map[]
  }

  /** The events about the envelope's own entity: created on first sight, otherwise one update
      per changed data key; none if the probe failed or the row was not written. */
  ghost predicate OwnEvents(events: seq<Event>, rows: map<string, Row>, f: Fetch, faults: Faults,
                            error: Option<Error>)
  {
    if (error.Some? && (BeforeVaultWrite(error.value) || error.value.EntityWrite?)) || faults.probeFails
    then events == []
    else if f.id !in rows then events == [EntityCreated(f.id, f.kind, f.id)]
    else exists delta: seq<Diff.Change> ::
           Diff.IsDelta(DataIn(rows, f.id), f.data, delta) && Announced(events, f, delta)
  }

  /** One event per changed key, in the order of the keys. */
  ghost predicate Announced(events: seq<Event>, f: Fetch, delta: seq<Diff.Change>) {
    |events| == |delta| && forall i :: 0 <= i < |delta| ==> events[i] == EntityUpdated(f.id, f.kind, delta[i])
  }

  function EdgeStageEvents(rows: map<string, Row>, in_: Input, guard: Guard): seq<Event> {
    var own, edges := OwnRow(rows, in_.fetch), CandidatesOf(in_.fetch);
    CreatedEvents(edges, own, guard) + EdgeEvents(Landed(edges, WithThinRows(own, edges, guard), guard))
  }

  /** An event says something true about the step from `before` to `after`. */
  predicate Truthful(e: Event, before: map<string, Row>, after: map<string, Row>, edges: set<Edge>) {
    match e
    case EntityCreated(id, kind, _) => id !in before && id in after && after[id].kind == kind
    case EntityUpdated(id, kind, change) =>
      && id in before && id in after && after[id].kind == kind
      && Diff.IsChange(DataIn(before, id), DataIn(after, id), change)
    case EdgeAdded(edge) => edge in edges
    case FillCompleted(_, _) => true
  }

  predicate Unharmed(faults: Faults, f: Fetch) {
    && !faults.readFails && !faults.writeFails && !faults.upsertFails && !faults.provenanceFails && !faults.aliasesFails
    && !(faults.notationsFails && f.notations != [])
  }

  ghost predicate AllTruthful(events: seq<Event>, before: map<string, Row>, after: map<string, Row>, edges: set<Edge>) {
    forall e :: e in events ==> Truthful(e, before, after, edges)
  }

  type Counters = map<(string, string), nat>

  /** The plugin's counters grew by the distinct targets of each disabled kind and by the candidates of
      each disabled type. */
  ghost predicate DropsCounted(kinds0: Counters, kinds: Counters, types0: Counters, types: Counters,
                               plugin: string, edges: Candidates, guard: Guard)
  {
    && (forall kind ::
          Count(kinds, (plugin, kind)) == Count(kinds0, (plugin, kind)) + DroppedOfKind(edges, guard, kind))
    && (forall typ :: Count(types, (plugin, typ)) == Count(types0, (plugin, typ)) + DroppedOfType(edges, guard, typ))
  }

  /** A call that fails counts nothing. */
  ghost predicate CallCounted(kinds0: Counters, kinds: Counters, types0: Counters, types: Counters,
                              plugin: string, in_: Input, guard: Guard, error: Option<Error>)
  {
    if error.Some? then kinds == kinds0 && types == types0
    else DropsCounted(kinds0, kinds, types0, types, plugin, CandidatesOf(in_.fetch), guard)
  }

  // ---------------------------------------------------------------- the call in plain terms

  /** The body the file gets: a silent plugin leaves the old one, any other has its content spliced in. */
  predicate BodyAfter(was: Option<Entity>, in_: Input, body: string) {
    if in_.content == "" then body == if was.Some? then was.value.cleanContent else ""
    else in_.spliced == Some(body)
  }

  /** How far a call got. */
  datatype Reached = Nowhere | File_ | OwnRow_ | Everything

  function ReachedBy(error: Option<Error>): Reached {
    match error
    case None => Everything
    case Some(e) =>
      match e
      case Conflict(_) => Nowhere
      case VaultRead => Nowhere
      case BodyMerge => Nowhere
      case VaultWrite => Nowhere
      case EntityWrite => File_
      case ProvenanceWrite => OwnRow_
      case NotationsWrite => OwnRow_
      case AliasesWrite => OwnRow_
  }

  /** Files: the entity's own, once the vault write went through, and no other. */
  ghost predicate FilesIngested(files0: map<string, Entity>, files: map<string, Entity>, in_: Input, reached: Reached) {
    var id := in_.fetch.id;
    && (reached.Nowhere? ==> files == files0)
    && (!reached.Nowhere? ==>
          && id in files && files == files0[id := files[id]]
          && BodyAfter(Lookup(files0, id), in_, files[id].cleanContent)
          && FileAfterIngest(Lookup(files0, id), in_.fetch, files[id].cleanContent, files[id]))
  }

  /** The entity's row as the fetch has it; archived stays what it was, and no data at all is null. */
  predicate IsOwnRow(row: Row, rows0: map<string, Row>, f: Fetch) {
    && row.kind == f.kind && row.gapState == map[]
    && row.data == (if f.data == map[] && !f.sent then None else Some(f.data))
    && row.archived == (f.id in rows0 && rows0[f.id].archived)
  }

  /** Rows: the entity's own, and on success a thin one for each id that has none, is pointed at and
      names an allowed kind; no other changes. */
  ghost predicate RowsIngested(rows0: map<string, Row>, rows: map<string, Row>, f: Fetch, guard: Guard,
                               reached: Reached)
  {
    && (reached.Nowhere? || reached.File_? ==> rows == rows0)
    && (reached.OwnRow_? || reached.Everything? ==> f.id in rows && IsOwnRow(rows[f.id], rows0, f))
    && (forall id :: id in rows0 && id != f.id ==> id in rows && rows[id] == rows0[id])
    && (forall id :: id !in rows0 && id != f.id ==>
          (id in rows <==> reached.Everything? && PointedAt(CandidatesOf(f), id) && NamesAllowedKind(id, guard))
          && (id in rows ==> rows[id] == Row(LabelKind(id).value, None, map[], false)))
  }

  /** Edges: on success the complete candidates of enabled types whose ends both have rows by then. */
  ghost predicate EdgesIngested(edges0: set<Edge>, edges: set<Edge>, rows: map<string, Row>, f: Fetch, guard: Guard,
                                reached: Reached)
  {
    forall e: Edge :: e in edges <==>
      e in edges0 || (reached.Everything? && Some(e) in CandidatesOf(f) && e.typ != "" && e.from != "" && e.to != ""
                      && e.typ in guard.types && e.from in rows && e.to in rows)
  }

  lemma FilesAre(files0: map<string, Entity>, in_: Input, error: Option<Error>)
    requires ReachedBy(error) != Nowhere ==> MergedBody(Lookup(files0, in_.fetch.id), in_).Some?
    ensures FilesIngested(files0, FilesAfter(files0, in_, error), in_, ReachedBy(error))
  {
    var was := Lookup(files0, in_.fetch.id);
    if ReachedBy(error) != Nowhere {
      MergedFile(was, in_.fetch.(body := MergedBody(was, in_).value));
    }
  }

  lemma RowsAre(rows0: map<string, Row>, in_: Input, guard: Guard, error: Option<Error>)
    ensures RowsIngested(rows0, RowsAfter(rows0, in_, guard, error), in_.fetch, guard, ReachedBy(error))
  {
    var f := in_.fetch;
    var rows := RowsAfter(rows0, in_, guard, error);
    if error.None? {
      var own := OwnRow(rows0, f);
      ThinRowsAre(own, CandidatesOf(f), guard, f.id);
      forall id
        ensures id in rows0 && id != f.id ==> id in rows && rows[id] == rows0[id]
        ensures id !in rows0 && id != f.id ==>
                  (id in rows <==> PointedAt(CandidatesOf(f), id) && NamesAllowedKind(id, guard))
                  && (id in rows ==> rows[id] == Row(LabelKind(id).value, None, map[], false))
      {
        ThinRowsAre(own, CandidatesOf(f), guard, id);
      }
    }
  }

  lemma EdgesAre(rows0: map<string, Row>, edges0: set<Edge>, in_: Input, guard: Guard, error: Option<Error>)
    ensures EdgesIngested(edges0, edges0 + NewEdges(rows0, in_, guard, error), RowsAfter(rows0, in_, guard, error),
                          in_.fetch, guard, ReachedBy(error))
  {
    var edges := edges0 + NewEdges(rows0, in_, guard, error);
    if error.None? {
      var rows := RowsAfter(rows0, in_, guard, error);
      forall e: Edge ensures e in NewEdges(rows0, in_, guard, error) <==>
        Some(e) in CandidatesOf(in_.fetch) && e.typ != "" && e.from != "" && e.to != "" && e.typ in guard.types
        && e.from in rows && e.to in rows
      {
        LandedMembers(CandidatesOf(in_.fetch), rows, guard, e);
      }
    }
  }

  /** The range order of a Go map: any order. */
  method MapWalk(d: map<string, Value>) returns (keys: seq<string>)
    ensures forall k :: k in keys <==> k in d
  {
    keys := [];
    var rest := d.Keys;
    while rest != {}
      invariant rest <= d.Keys && forall k :: k in keys <==> k in d && k !in rest
      decreases |rest|
    {
      var k :| k in rest;
      rest, keys := rest - {k}, keys + [k];
    }
  }

  /** The part under the lock; returns what to publish once the lock is released. */
  method PersistLocked(c: Catalog, in_: Input, guard: Guard, plugin: string, faults: Faults)
      returns (error: Option<Error>, own: seq<Event>, derived: seq<Event>)
    modifies c`files, c`rows, c`edges, c`droppedKinds, c`droppedTypes
    ensures error.Some? ==> !error.value.Conflict?
    ensures error.Some? && error.value.BodyMerge? <==>
              !faults.readFails && MergedBody(Lookup(old(c.files), in_.fetch.id), in_).None?
    ensures error.None? <==> Unharmed(faults, in_.fetch) && MergedBody(Lookup(old(c.files), in_.fetch.id), in_).Some?
    ensures ReachedBy(error) != Nowhere ==> MergedBody(Lookup(old(c.files), in_.fetch.id), in_).Some?
    ensures c.files == FilesAfter(old(c.files), in_, error)
    ensures c.rows == RowsAfter(old(c.rows), in_, guard, error)
    ensures c.edges == old(c.edges) + NewEdges(old(c.rows), in_, guard, error)
    ensures OwnEvents(own, old(c.rows), in_.fetch, faults, error)
    ensures derived == if error.None? then EdgeStageEvents(old(c.rows), in_, guard) else []
    ensures CallCounted(old(c.droppedKinds), c.droppedKinds, old(c.droppedTypes), c.droppedTypes, plugin, in_, guard,
                        error)
  {
    own, derived := [], [];
    error := WriteIngestVaultFile(c, in_, faults);
    if error.Some? {
      return;
    }
    error, own := PersistRow(c, in_.fetch, faults);
    if error.Some? {
      return;
    }
    derived := LandCanonicalEdges(c, CandidatesOf(in_.fetch), guard, plugin);
    error := None;
  }

  /** The probe, the entity row, and what hangs off it. */
  method PersistRow(c: Catalog, f: Fetch, faults: Faults) returns (error: Option<Error>, own: seq<Event>)
    modifies c`rows
    ensures error == if faults.upsertFails then Some(EntityWrite)
                     else if faults.provenanceFails then Some(ProvenanceWrite)
                     else if f.notations != [] && faults.notationsFails then Some(NotationsWrite)
                     else if faults.aliasesFails then Some(AliasesWrite) else None
    ensures c.rows == if faults.upsertFails then old(c.rows) else OwnRow(old(c.rows), f)
    ensures OwnEvents(own, old(c.rows), f, faults, error)
  {
    own := [];
    var prior := Lookup(c.rows, f.id);
    if faults.upsertFails {
      return Some(EntityWrite), [];
    }
    c.UpsertEntity(f.id, f.kind, StoredData(f), map[]);
    if !faults.probeFails {
      own := QueueOwnEvents(f, prior);
    }
    if faults.provenanceFails {
      return Some(ProvenanceWrite), own;
    }
    if f.notations != [] && faults.notationsFails {
      return Some(NotationsWrite), own;
    }
    if faults.aliasesFails {
      return Some(AliasesWrite), own;
    }
    error := None;
  }

  /** Read, merge, write; a failure leaves the file as it was. */
  method WriteIngestVaultFile(c: Catalog, in_: Input, faults: Faults) returns (error: Option<Error>)
    modifies c`files
    ensures error == if faults.readFails then Some(VaultRead)
                     else if MergedBody(Lookup(old(c.files), in_.fetch.id), in_).None? then Some(BodyMerge)
                     else if faults.writeFails then Some(VaultWrite) else None
    ensures c.files == FilesAfter(old(c.files), in_, error)
  {
    if faults.readFails {
      return Some(VaultRead);
    }
    var existing := Lookup(c.files, in_.fetch.id);
    var body := MergedBody(existing, in_);
    if body.None? {
      return Some(BodyMerge);
    }
    var merged := BuildVaultEntity(in_.fetch.(body := body.value), existing);
    if faults.writeFails {
      return Some(VaultWrite);
    }
    c.files := c.files[in_.fetch.id := merged];
    return None;
  }

  method QueueOwnEvents(f: Fetch, prior: Option<Row>) returns (own: seq<Event>)
    ensures prior.None? ==> own == [EntityCreated(f.id, f.kind, f.id)]
    ensures prior.Some? ==>
              var before := if prior.value.data.Some? then prior.value.data.value else map[];
              exists delta: seq<Diff.Change> :: Diff.IsDelta(before, f.data, delta) && Announced(own, f, delta)
  {
    if prior.None? {
      return [EntityCreated(f.id, f.kind, f.id)];
    }
    var before: map<string, Value> := if prior.value.data.Some? then prior.value.data.value else map[];
    var oldOrder := MapWalk(before);
    var newOrder := MapWalk(f.data);
    var delta := Diff.QueueEntityUpdated(before, f.data, oldOrder, newOrder);
    own := seq(|delta|, i requires 0 <= i < |delta| => EntityUpdated(f.id, f.kind, delta[i]));
    assert Announced(own, f, delta);
  }

  method LandCanonicalEdges(c: Catalog, edges: Candidates, guard: Guard, plugin: string) returns (events: seq<Event>)
    modifies c`rows, c`edges, c`droppedKinds, c`droppedTypes
    ensures c.rows == WithThinRows(old(c.rows), edges, guard)
    ensures c.edges == old(c.edges) + set e | e in Landed(edges, c.rows, guard)
    ensures events == CreatedEvents(edges, old(c.rows), guard) + EdgeEvents(Landed(edges, c.rows, guard))
    ensures DropsCounted(old(c.droppedKinds), c.droppedKinds, old(c.droppedTypes), c.droppedTypes, plugin, edges, guard)
  {
    events := [];
    if |edges| > 0 {
      events := MaterializeThinLabelRows(c, edges, guard, plugin);
    } else {
      assert WithThinRows(c.rows, edges, guard) == c.rows;
    }
    var added := PersistCanonicalEdges(c, edges, guard, plugin);
    events := events + added;
  }

  /** The whole call. On every exit path the lock table ends as it began, events reach the bus in
      queue order and only after this call's lock is gone, and a conflict changes nothing. */
  method PersistEnvelope(c: Catalog, in_: Input, guard: Guard, plugin: string, holder: string, faults: Faults)
      returns (error: Option<Error>, own: seq<Event>, derived: seq<Event>)
    modifies c
    ensures c.locks == old(c.locks)
    ensures (error.Some? && error.value.Conflict?) <==> in_.fetch.id in old(c.locks)
    ensures in_.fetch.id in old(c.locks) ==> error.value.holder == old(c.locks)[in_.fetch.id]
    ensures c.files == FilesAfter(old(c.files), in_, error)
    ensures c.rows == RowsAfter(old(c.rows), in_, guard, error)
    ensures c.edges == old(c.edges) + NewEdges(old(c.rows), in_, guard, error)
    ensures c.bus == old(c.bus) + own + derived
    ensures OwnEvents(own, old(c.rows), in_.fetch, faults, error)
    ensures derived == if error.None? then EdgeStageEvents(old(c.rows), in_, guard) else []
    ensures CallCounted(old(c.droppedKinds), c.droppedKinds, old(c.droppedTypes), c.droppedTypes, plugin, in_, guard,
                        error)
    ensures AllTruthful(own + derived, old(c.rows), c.rows, c.edges)
    ensures FilesIngested(old(c.files), c.files, in_, ReachedBy(error))
    ensures RowsIngested(old(c.rows), c.rows, in_.fetch, guard, ReachedBy(error))
    ensures EdgesIngested(old(c.edges), c.edges, c.rows, in_.fetch, guard, ReachedBy(error))
    ensures error.None? <==>
              in_.fetch.id !in old(c.locks) && Unharmed(faults, in_.fetch) && (in_.content == "" || in_.spliced.Some?)
  {
    var acquired := c.Acquire(in_.fetch.id, holder);
    if !acquired {
      error, own, derived := Some(Conflict(c.locks[in_.fetch.id])), [], [];
      RefusedKeeps(c.files, c.rows, in_, guard, faults, error.value);
      InPlainTerms(c.files, c.rows, c.edges, in_, guard, error);
      return;
    }
    error, own, derived := PersistAndPublish(c, in_, guard, plugin, faults);
    EventsTrue(old(c.rows), in_, guard, faults, error, own, derived, c.edges);
    InPlainTerms(old(c.files), old(c.rows), old(c.edges), in_, guard, error);
  }

  lemma InPlainTerms(files0: map<string, Entity>, rows0: map<string, Row>, edges0: set<Edge>, in_: Input, guard: Guard,
                     error: Option<Error>)
    requires ReachedBy(error) != Nowhere ==> MergedBody(Lookup(files0, in_.fetch.id), in_).Some?
    ensures FilesIngested(files0, FilesAfter(files0, in_, error), in_, ReachedBy(error))
    ensures RowsIngested(rows0, RowsAfter(rows0, in_, guard, error), in_.fetch, guard, ReachedBy(error))
    ensures EdgesIngested(edges0, edges0 + NewEdges(rows0, in_, guard, error), RowsAfter(rows0, in_, guard, error),
                          in_.fetch, guard, ReachedBy(error))
  {
    FilesAre(files0, in_, error);
    RowsAre(rows0, in_, guard, error);
    EdgesAre(rows0, edges0, in_, guard, error);
  }

  lemma RefusedKeeps(files: map<string, Entity>, rows: map<string, Row>, in_: Input, guard: Guard, faults: Faults,
                     e: Error)
    requires e.Conflict?
    ensures FilesAfter(files, in_, Some(e)) == files && RowsAfter(rows, in_, guard, Some(e)) == rows
    ensures NewEdges(rows, in_, guard, Some(e)) == {} && OwnEvents([], rows, in_.fetch, faults, Some(e))
  {
  }

  /** The holder's part: persist, release, publish. */
  method PersistAndPublish(c: Catalog, in_: Input, guard: Guard, plugin: string, faults: Faults)
      returns (error: Option<Error>, own: seq<Event>, derived: seq<Event>)
    modifies c
    ensures c.locks == old(c.locks) - {in_.fetch.id}
    ensures error.Some? ==> !error.value.Conflict?
    ensures ReachedBy(error) != Nowhere ==> MergedBody(Lookup(old(c.files), in_.fetch.id), in_).Some?
    ensures error.None? <==> Unharmed(faults, in_.fetch) && MergedBody(Lookup(old(c.files), in_.fetch.id), in_).Some?
    ensures c.files == FilesAfter(old(c.files), in_, error)
    ensures c.rows == RowsAfter(old(c.rows), in_, guard, error)
    ensures c.edges == old(c.edges) + NewEdges(old(c.rows), in_, guard, error)
    ensures c.bus == old(c.bus) + own + derived
    ensures OwnEvents(own, old(c.rows), in_.fetch, faults, error)
    ensures derived == if error.None? then EdgeStageEvents(old(c.rows), in_, guard) else []
    ensures CallCounted(old(c.droppedKinds), c.droppedKinds, old(c.droppedTypes), c.droppedTypes, plugin, in_, guard,
                        error)
  {
    error, own, derived := PersistLocked(c, in_, guard, plugin, faults);
    c.ReleaseAndDrain(in_.fetch.id, own, derived);
  }

  lemma EventsTrue(before: map<string, Row>, in_: Input, guard: Guard, faults: Faults, error: Option<Error>,
                   own: seq<Event>, derived: seq<Event>, edges: set<Edge>)
    requires OwnEvents(own, before, in_.fetch, faults, error)
    requires derived == if error.None? then EdgeStageEvents(before, in_, guard) else []
    requires NewEdges(before, in_, guard, error) <= edges
    ensures AllTruthful(own + derived, before, RowsAfter(before, in_, guard, error), edges)
  {
    var after, f := RowsAfter(before, in_, guard, error), in_.fetch;
    forall e | e in own ensures Truthful(e, before, after, edges) {
      if f.id in before {
        var delta: seq<Diff.Change> :| Diff.IsDelta(DataIn(before, f.id), f.data, delta) && Announced(own, f, delta);
        var i :| 0 <= i < |own| && own[i] == e;
        assert delta[i] in delta;
      }
    }
    forall e | e in derived ensures Truthful(e, before, after, edges) {
      var rows, cands := OwnRow(before, f), CandidatesOf(in_.fetch);
      if e in CreatedEvents(cands, rows, guard) {
        CreatedEventsAreTrue(cands, rows, guard, e);
      } else {
        var landed := Landed(cands, WithThinRows(rows, cands, guard), guard);
        var i :| 0 <= i < |landed| && EdgeEvents(landed)[i] == e;
        assert landed[i] in landed;
      }
    }
  }
}
