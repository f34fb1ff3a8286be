/** handleEntityOperatorFill: lock, load, parse, check, apply, write, mirror, derive edges,
    release, publish. Everything that can refuse a call comes before the first write. */
module FillHandler {
  import opened Base
  import opened Vault
  import opened Store
  import opened GapSpecs
  import opened Fill
  import opened GapLifecycle
  import opened FillEdges

  /** canonical_kinds: the gaps of a kind, their names in sorted order, and whether a resolver
      plugin owns the kind's ids. */
  datatype KindConfig = KindConfig(gaps: Specs, names: seq<string>, resolver: bool)

  type Registry = map<string, KindConfig>

  datatype Faults = Faults(readFails: bool, writeFails: bool, upsertFails: bool, provenanceFails: bool,
                           paragraphFails: bool)

  datatype Outcome =
    | Conflict                   // another writer holds the entity's lock
    | Rejected(code: Code)       // nothing was written
    | Unreadable                 // the vault file could not be read; nothing was written
    | WriteFailed                // the vault write failed; nothing was written
    | MirrorFailed               // the file is written, the row is not
    | ProvenanceFailed           // file and row are written, the provenance row and the edges are not
    | EdgesFailed                // file and row are written, the edge stage stopped half-way
    | ParagraphFailed            // everything but a target's dataview paragraph is written, nothing announced
    | Done(remaining: seq<string>)

  function KindGaps(reg: Registry, kind: string): Specs {
    if kind in reg then reg[kind].gaps else map[]
  }

  /** The kind a call on `id` works with: the row's, or that of a registered canonical label. */
  function KindOf(rows: map<string, Row>, reg: Registry, id: string): Option<string> {
    if id in rows then Some(rows[id].kind)
    else if LabelKind(id).Some? && LabelKind(id).value in reg then LabelKind(id)
    else None
  }

  /** NewCanonicalLabelEntity. */
  function NewLabelFile(id: string, kind: string, names: seq<string>): Entity {
    Entity(id, kind, ["operator-fill/default"], [], Fillable(map[], "", [], names, map[]),
           [], [], "", [], [], None, [], [], true)
  }

  /** The file a call edits, with the kind whose config applies to it. */
  datatype Target = Target(kind: string, e: Entity)

  /** The file the call edits: what is on disk, or a fresh label file when row or file is missing
      and the kind is registered. */
  function Loaded(files: map<string, Entity>, rows: map<string, Row>, reg: Registry, id: string): Option<Target> {
    match KindOf(rows, reg, id)
    case None => None
    case Some(kind) =>
      if id in rows && id in files then Some(Target(kind, files[id]))
      else if kind in reg then Some(Target(kind, NewLabelFile(id, kind, reg[kind].names)))
      else None
  }

  predicate HasSet(ops: seq<Op>) {
    exists i :: 0 <= i < |ops| && ops[i].OpSet?
  }

  /** Some label comes with data for a paragraph on its target. */
  predicate HasParagraph(ops: seq<Op>) {
    exists i, j {:trigger Entries(ops[i])[j]} :: 0 <= i < |ops| && 0 <= j < |Entries(ops[i])| &&
        Entries(ops[i])[j].data != map[]
  }

  /** The file after an accepted call: one fill entry per call that sets anything. */
  function Filled(e: Entity, fill: Fillable, ops: seq<Op>, source: string, now: int): Entity {
    e.(fill := fill,
       provenance := e.provenance + if HasSet(ops) then [Provenance(source, None, Some(now), true)] else [])
  }

  /** checkCanonicalTypeResolverPlugins without auto-fetch: some label of a resolver-owned kind
      has no row yet. */
  predicate Unresolved(rows: map<string, Row>, reg: Registry, ops: seq<Op>) {
    exists i, j {:trigger Entries(ops[i])[j]} :: 0 <= i < |ops| && 0 <= j < |Entries(ops[i])| &&
      var id := Entries(ops[i])[j].id;
      LabelKind(id).Some? && LabelKind(id).value in reg && reg[LabelKind(id).value].resolver && id !in rows
  }

  /** vaultEntityDataForDB: the row's data, with the note texts folded in for search. */
  function DataForDB(e: Entity): map<string, Value> {
    var text := JoinLines(e.notes);
    if text == "" then OverwriteData(e.fill) else OverwriteData(e.fill)["notes_text" := VStr(text)]
  }

  /** The non-empty notes joined by newlines. */
  function JoinLines(notes: seq<string>): string {
    if notes == [] then ""
    else
      var init, last := JoinLines(notes[..|notes| - 1]), notes[|notes| - 1];
      if last == "" then init else if init == "" then last else init + "\n" + last
  }

  function RowsAfterFill(rows: map<string, Row>, e: Entity): map<string, Row> {
    rows[e.id := Row(e.kind, Some(DataForDB(e)), e.fill.gapState, e.id in rows && rows[e.id].archived)]
  }

  /** One fill.completed per set op, in field order. */
  function Completions(id: string, ops: seq<Op>): seq<Event> {
    if ops == [] then []
    else
      var last := ops[|ops| - 1];
      Completions(id, ops[..|ops| - 1]) + if last.OpSet? then [FillCompleted(id, last.field)] else []
  }

  method QueueCompletions(id: string, ops: seq<Op>) returns (events: seq<Event>)
    ensures events == Completions(id, ops)
  {
    events := [];
    for i := 0 to |ops|
      invariant events == Completions(id, ops[..i])
    {
      assert ops[..i + 1][..i] == ops[..i];
      if ops[i].OpSet? {
        events := events + [FillCompleted(id, ops[i].field)];
      }
    }
    assert ops[..|ops|] == ops;
  }

  /** Why a call is refused: a field does not parse, else a label is unresolved, else a deferred
      field has data. */
  ghost predicate IsRefusal(rows: map<string, Row>, reg: Registry, v: Fillable, ctx: Context, req: map<string, Raw>,
                            allowUnresolved: bool, code: Code)
  {
    || IsParse(ctx, req, Err(code))
    || exists ops :: IsParse(ctx, req, Ok(ops)) &&
         if !allowUnresolved && Unresolved(rows, reg, ops) then code == UnresolvedTarget
         else PreDeferCheck(v, ops) == Some(code)
  }

  /** Parse and check; nothing here writes. */
  method Admit(rows: map<string, Row>, reg: Registry, v: Fillable, kindGaps: Specs, call: Call, order: seq<string>,
               allowUnresolved: bool)
      returns (r: Result<seq<Op>, Code>)
    requires Distinct(order) && forall f :: f in order <==> f in call.req
    ensures r.Ok? ==> Accepted(kindGaps, v, call, r.value) && (allowUnresolved || !Unresolved(rows, reg, r.value))
    ensures r.Err? ==> forall ops :: Accepted(kindGaps, v, call, ops) ==> !allowUnresolved && Unresolved(rows, reg, ops)
    ensures r.Err? ==> IsRefusal(rows, reg, v, ContextOf(kindGaps, v, call), call.req, allowUnresolved, r.error)
  {
    var ctx := ContextOf(kindGaps, v, call);
    r := ParseOperatorFillOps(ctx, call.req, order);
    forall ops | Accepted(kindGaps, v, call, ops) ensures r == Ok(ops) {
      ParseOrderIrrelevant(ctx, call.req, r, Ok(ops));
    }
    if r.Err? {
      return;
    }
    if !allowUnresolved && Unresolved(rows, reg, r.value) {
      return Err(UnresolvedTarget);
    }
    if PreDeferCheck(v, r.value).Some? {
      return Err(PreDeferCheck(v, r.value).value);
    }
  }

  predicate NothingWritten(outcome: Outcome) {
    outcome.Conflict? || outcome.Rejected? || outcome.Unreadable? || outcome.WriteFailed?
  }

  function AfterFill(reg: Registry, t: Target, call: Call, ops: seq<Op>, source: string): Entity {
    Filled(t.e, After(KindGaps(reg, t.kind), t.e.fill, call, ops), ops, source, call.now)
  }

  function GapsOf(reg: Registry, t: Target): Specs {
    Effective(KindGaps(reg, t.kind), t.e.fill.gapState)
  }

  /** `t` admits `ops` as the parse of the call. */
  ghost predicate Admits(reg: Registry, t: Target, call: Call, ops: seq<Op>) {
    Accepted(KindGaps(reg, t.kind), t.e.fill, call, ops)
  }

  /** Whatever the call parses to here, the resolver gate refuses it. */
  ghost predicate Hopeless(rows: map<string, Row>, reg: Registry, t: Target, call: Call, allowUnresolved: bool) {
    forall ops :: Admits(reg, t, call, ops) ==> !allowUnresolved && Unresolved(rows, reg, ops)
  }

  /** A refusal with its code, and nothing that could have been accepted instead. */
  ghost predicate Refused(rows: map<string, Row>, reg: Registry, before: Option<Target>, call: Call,
                          allowUnresolved: bool, code: Code)
  {
    if call.req == map[] then code == EmptyBody
    else match before
      case None => code == NotFound
      case Some(t) =>
        && IsRefusal(rows, reg, t.e.fill, ContextOf(KindGaps(reg, t.kind), t.e.fill, call), call.req, allowUnresolved,
                     code)
        && Hopeless(rows, reg, t, call, allowUnresolved)
  }

  /** The call's ops were accepted; this is the file to write and the specs it goes by. */
  ghost predicate Prepared(was: Tables, reg: Registry, req: Request, ops: seq<Op>, written: Entity, gaps: Specs) {
    var before := Loaded(was.files, was.rows, reg, req.id);
    && before.Some? && Admits(reg, before.value, req.call, ops)
    && written == AfterFill(reg, before.value, req.call, ops, req.source)
    && gaps == GapsOf(reg, before.value)
  }

  /** Everything up to the first write: load, parse, check, and apply in memory. */
  method Prepare(c: Catalog, req: Request, order: seq<string>, reg: Registry, faults: Faults)
      returns (r: Result<Entity, Outcome>, ops: seq<Op>, gaps: Specs)
    requires Distinct(order) && (forall f :: f in order <==> f in req.call.req)
    ensures r.Err? ==>
              (r.error.Rejected? || r.error.Unreadable?) && Stopped(r.error, TablesOf(c), TablesOf(c), reg, req, faults)
    ensures r.Ok? ==> Prepared(TablesOf(c), reg, req, ops, r.value, gaps) && DistinctBy(ops, OpField)
  {
    if req.call.req == map[] {
      return Err(Rejected(EmptyBody)), [], map[];
    }
    var loaded := Loaded(c.files, c.rows, reg, req.id);
    if loaded.None? {
      return Err(Rejected(NotFound)), [], map[];
    }
    if faults.readFails && req.id in c.rows && req.id in c.files {
      return Err(Unreadable), [], map[];
    }
    var kind, e := loaded.value.kind, loaded.value.e;
    var admitted := Admit(c.rows, reg, e.fill, KindGaps(reg, kind), req.call, order, req.allowUnresolved);
    if admitted.Err? {
      return Err(Rejected(admitted.error)), [], map[];
    }
    ops, gaps := admitted.value, GapsOf(reg, loaded.value);
    ParsedFieldsDiffer(ContextOf(KindGaps(reg, kind), e.fill, req.call), req.call.req, ops);
    var doc := new VaultDoc(e.fill);
    var touched := doc.ApplyOperatorFillOps(ops, req.call.now, gaps);
    r := Ok(Filled(e, doc.Fields(), ops, req.source, req.call.now));
  }

  /** The writes, in order: vault file, row, provenance row, edges, paragraphs. */
  method Commit(c: Catalog, written: Entity, ops: seq<Op>, gaps: Specs, faults: Faults)
      returns (outcome: Outcome, derived: seq<Event>, completed: seq<Event>)
    requires DistinctBy(ops, OpField)
    modifies c`files, c`rows, c`edges
    ensures Accepting(outcome)
    ensures LeftBy(outcome, old(TablesOf(c)), TablesOf(c), faults, ops, derived, completed, written, gaps)
  {
    derived, completed := [], [];
    if faults.writeFails {
      return WriteFailed, [], [];
    }
    c.files := c.files[written.id := written];
    if faults.upsertFails {
      return MirrorFailed, [], [];
    }
    c.UpsertEntity(written.id, written.kind, Some(DataForDB(written)), written.fill.gapState);
    if HasSet(ops) && faults.provenanceFails {
      return ProvenanceFailed, [], [];
    }
    outcome, derived, completed := CommitEdges(c, written, ops, gaps, faults);
  }

  /** Edges, paragraphs, announcement. */
  method CommitEdges(c: Catalog, written: Entity, ops: seq<Op>, gaps: Specs, faults: Faults)
      returns (outcome: Outcome, derived: seq<Event>, completed: seq<Event>)
    requires DistinctBy(ops, OpField) && written.id in c.rows
    modifies c`rows, c`edges
    ensures if exists i :: 0 <= i < |ops| && !Sound(ops[i], gaps) then outcome.EdgesFailed?
            else if HasParagraph(ops) && faults.paragraphFails then outcome.ParagraphFailed?
            else outcome == Done(written.fill.gaps)
    ensures completed == if outcome.Done? then Completions(written.id, ops) else []
    ensures StageDone(old(c.rows), c.rows, old(c.edges), c.edges, derived, written.id, ops, gaps)
    ensures !outcome.EdgesFailed? ==>
              && GrewBy(old(c.rows), c.rows, TargetsTo(ops, gaps, |ops|))
              && c.edges == EdgesAfter(old(c.edges), written.id, ops, gaps, |ops|)
  {
    completed := [];
    var ok;
    ok, derived := ApplyCanonicalTypeEdges(c, written.id, ops, gaps);
    if !ok {
      return EdgesFailed, derived, [];
    }
    if HasParagraph(ops) && faults.paragraphFails {
      return ParagraphFailed, derived, [];
    }
    completed := QueueCompletions(written.id, ops);
    outcome := Done(written.fill.gaps);
  }

  /** Which step ends an accepted call: the first that fails. */
  predicate Ended(outcome: Outcome, faults: Faults, ops: seq<Op>, gaps: Specs) {
    if faults.writeFails then outcome.WriteFailed?
    else if faults.upsertFails then outcome.MirrorFailed?
    else if HasSet(ops) && faults.provenanceFails then outcome.ProvenanceFailed?
    else if exists i :: 0 <= i < |ops| && !Sound(ops[i], gaps) then outcome.EdgesFailed?
    else if HasParagraph(ops) && faults.paragraphFails then outcome.ParagraphFailed?
    else outcome.Done?
  }

  /** Rows, edges and derived events of an accepted call, by how far it got. Where the edge stage
      ran, also half-way, they are exactly what it leaves, and the events are true of it. */
  ghost predicate Mirrored(outcome: Outcome, rows0: map<string, Row>, rows: map<string, Row>, edges0: set<Edge>,
                           edges: set<Edge>, written: Entity, ops: seq<Op>, gaps: Specs, derived: seq<Event>)
  {
    if outcome.WriteFailed? || outcome.MirrorFailed? then rows == rows0 && edges == edges0 && derived == []
    else if outcome.ProvenanceFailed? then rows == RowsAfterFill(rows0, written) && edges == edges0 && derived == []
    else
      && StageDone(RowsAfterFill(rows0, written), rows, edges0, edges, derived, written.id, ops, gaps)
      && (outcome.Done? || outcome.ParagraphFailed? ==> EdgesDone(rows0, rows, edges0, edges, written, ops, gaps))
  }

  /** Row and edges after a call whose every stage ran. */
  ghost predicate EdgesDone(rows0: map<string, Row>, rows: map<string, Row>, edges0: set<Edge>, edges: set<Edge>,
                            written: Entity, ops: seq<Op>, gaps: Specs)
  {
    && GrewBy(RowsAfterFill(rows0, written), rows, TargetsTo(ops, gaps, |ops|))
    && edges == EdgesAfter(edges0, written.id, ops, gaps, |ops|)
  }

  /** Files, rows and edges as a call found them. */
  datatype Tables = Tables(files: map<string, Entity>, rows: map<string, Row>, edges: set<Edge>)

  function TablesOf(c: Catalog): Tables
    reads c
  {
    Tables(c.files, c.rows, c.edges)
  }

  /** The call that was made. */
  datatype Request = Request(id: string, call: Call, allowUnresolved: bool, source: string)

  /** A call that wrote nothing, and why. */
  ghost predicate Stopped(outcome: Outcome, was: Tables, now: Tables, reg: Registry, req: Request, faults: Faults) {
    && now == was
    && (outcome.Unreadable? ==> faults.readFails)
    && (outcome.Rejected? ==>
          Refused(was.rows, reg, Loaded(was.files, was.rows, reg, req.id), req.call, req.allowUnresolved, outcome.code))
  }

  /** A call whose ops were accepted: it left what writing the file it prepared leaves. */
  ghost predicate WentAhead(outcome: Outcome, was: Tables, now: Tables, reg: Registry, req: Request, faults: Faults,
                            ops: seq<Op>, derived: seq<Event>, completed: seq<Event>)
  {
    exists written, gaps :: Prepared(was, reg, req, ops, written, gaps)
                            && LeftBy(outcome, was, now, faults, ops, derived, completed, written, gaps)
  }

  /** What a call that writes this file, by these specs, leaves. */
  ghost predicate LeftBy(outcome: Outcome, was: Tables, now: Tables, faults: Faults, ops: seq<Op>, derived: seq<Event>,
                         completed: seq<Event>, written: Entity, gaps: Specs)
  {
    && Ended(outcome, faults, ops, gaps) && (outcome.Done? ==> outcome.remaining == written.fill.gaps)
    && now.files == (if outcome.WriteFailed? then was.files else was.files[written.id := written])
    && completed == (if outcome.Done? then Completions(written.id, ops) else [])
    && Mirrored(outcome, was.rows, now.rows, was.edges, now.edges, written, ops, gaps, derived)
  }

  predicate Accepting(outcome: Outcome) {
    !outcome.Conflict? && !outcome.Rejected? && !outcome.Unreadable?
  }

  ghost predicate Kept(outcome: Outcome, was: Tables, now: Tables, reg: Registry, req: Request, faults: Faults,
                       ops: seq<Op>, derived: seq<Event>, completed: seq<Event>)
  {
    if Accepting(outcome) then WentAhead(outcome, was, now, reg, req, faults, ops, derived, completed)
    else Stopped(outcome, was, now, reg, req, faults) && derived == completed == []
  }

  method FillLocked(c: Catalog, req: Request, order: seq<string>, reg: Registry, faults: Faults)
      returns (outcome: Outcome, derived: seq<Event>, completed: seq<Event>, ops: seq<Op>)
    requires Distinct(order) && (forall f :: f in order <==> f in req.call.req)
    modifies c`files, c`rows, c`edges
    ensures !outcome.Conflict?
    ensures Kept(outcome, old(TablesOf(c)), TablesOf(c), reg, req, faults, ops, derived, completed)
  {
    ghost var was := TablesOf(c);
    var prepared, parsed, gaps := Prepare(c, req, order, reg, faults);
    ops := parsed;
    if prepared.Err? {
      return prepared.error, [], [], ops;
    }
    outcome, derived, completed := Commit(c, prepared.value, ops, gaps, faults);
    Committed(outcome, was, TablesOf(c), reg, req, faults, ops, derived, completed, prepared.value, gaps);
  }

  /** An accepted call that went through Commit went ahead. */
  lemma Committed(outcome: Outcome, was: Tables, now: Tables, reg: Registry, req: Request, faults: Faults, ops: seq<Op>,
                  derived: seq<Event>, completed: seq<Event>, written: Entity, gaps: Specs)
    requires Prepared(was, reg, req, ops, written, gaps) && Accepting(outcome)
    requires LeftBy(outcome, was, now, faults, ops, derived, completed, written, gaps)
    ensures Kept(outcome, was, now, reg, req, faults, ops, derived, completed)
  {
    assert WentAhead(outcome, was, now, reg, req, faults, ops, derived, completed);
  }

  /** The whole call on one entity; `ops` says what was accepted. A refused call writes and
      publishes nothing, and there was nothing to accept; an accepted call ends at its first failing
      step and leaves exactly the file, rows and edges its ops describe up to there; its events are
      true and reach the bus after the lock is gone. */
  method FillEntity(c: Catalog, req: Request, order: seq<string>, reg: Registry, holder: string, faults: Faults)
      returns (outcome: Outcome, derived: seq<Event>, completed: seq<Event>, ops: seq<Op>)
    requires Distinct(order) && (forall f :: f in order <==> f in req.call.req)
    modifies c
    ensures c.locks == old(c.locks) && (outcome.Conflict? <==> req.id in old(c.locks))
    ensures Kept(outcome, old(TablesOf(c)), TablesOf(c), reg, req, faults, ops, derived, completed)
    ensures c.bus == old(c.bus) + derived + completed
    ensures NothingWritten(outcome) ==> c.bus == old(c.bus)
  {
    derived, completed, ops := [], [], [];
    var acquired := c.Acquire(req.id, holder);
    if !acquired {
      return Conflict, [], [], [];
    }
    outcome, derived, completed, ops := FillLocked(c, req, order, reg, faults);
    c.ReleaseAndDrain(req.id, derived, completed);
  }
}
