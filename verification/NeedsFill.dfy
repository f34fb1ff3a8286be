/** GET /v1/needs-fill: which gaps surface to which audience, the bounded cursor scan over the
    store, the source-filtered count, and the diagnostics that explain an empty queue. */
module NeedsFill {
  import opened Base
  import opened Vault
  import opened Store
  import opened GapSpecs
  import opened Pagination
  import Fill
  import GapLifecycle

  // ---------------------------------------------------------------- one entity

  /** One gap as a view shows it. */
  datatype Meta = Meta(spec: GapSpec, dataSchema: map<string, string>)

  datatype Entry = Entry(id: string, kind: string, prompts: map<string, string>, meta: map<string, Meta>,
                         cleanContent: string)

  predicate Deferred(v: Fillable, g: string) {
    g in v.gapState && v.gapState[g].deferred
  }

  predicate Shaped(kindGaps: Specs, v: Fillable, g: string) {
    g in kindGaps || HasShape(EntryOf(v.gapState, g))
  }

  function LayeredSpec(kindGaps: Specs, v: Fillable, g: string): GapSpec {
    Merge(SpecOf(kindGaps, g), EntryOf(v.gapState, g))
  }

  /** The audience filter of one gap. */
  predicate Surfaces(kindGaps: Specs, v: Fillable, asOperator: bool, g: string) {
    && !Deferred(v, g)
    && Shaped(kindGaps, v, g)
    && LayeredSpec(kindGaps, v, g).fillStrategy != (if asOperator then "agent" else "operator")
  }

  /** Everything the view shows of one entity. */
  function Shown(kindGaps: Specs, v: Fillable, asOperator: bool): map<string, Meta> {
    map g | g in v.gaps && Surfaces(kindGaps, v, asOperator, g) ::
      MetaOf(kindGaps, v, g)
  }

  function Prompts(shown: map<string, Meta>): map<string, string> {
    map g | g in shown :: shown[g].spec.description
  }

  /** None when nothing survives the filter. */
  function EntryOfFile(id: string, kind: string, kindGaps: Specs, e: Entity, asOperator: bool): Option<Entry> {
    var shown := Shown(kindGaps, e.fill, asOperator);
    if shown == map[] then None else Some(Entry(id, kind, Prompts(shown), shown, e.cleanContent))
  }

  function MetaOf(kindGaps: Specs, v: Fillable, g: string): Meta {
    Meta(LayeredSpec(kindGaps, v, g), EntryOf(v.gapState, g).dataSchema)
  }

  /** What the loop has collected after the first `n` gaps. */
  function ShownOf(kindGaps: Specs, v: Fillable, asOperator: bool, n: nat): map<string, Meta>
    requires n <= |v.gaps|
  {
    if n == 0 then map[]
    else
      var init, g := ShownOf(kindGaps, v, asOperator, n - 1), v.gaps[n - 1];
      if Surfaces(kindGaps, v, asOperator, g) then init[g := MetaOf(kindGaps, v, g)] else init
  }

  lemma {:induction false} ShownOfIs(kindGaps: Specs, v: Fillable, asOperator: bool, n: nat)
    requires n <= |v.gaps|
    ensures forall g :: g in ShownOf(kindGaps, v, asOperator, n) <==>
              g in v.gaps[..n] && Surfaces(kindGaps, v, asOperator, g)
    ensures forall g :: g in ShownOf(kindGaps, v, asOperator, n) ==>
              ShownOf(kindGaps, v, asOperator, n)[g] == MetaOf(kindGaps, v, g)
  {
    if n == 0 {
    } else {
      ShownOfIs(kindGaps, v, asOperator, n - 1);
      assert v.gaps[..n] == v.gaps[..n - 1] + [v.gaps[n - 1]];
    }
  }

  lemma ShownOfAll(kindGaps: Specs, v: Fillable, asOperator: bool)
    ensures ShownOf(kindGaps, v, asOperator, |v.gaps|) == Shown(kindGaps, v, asOperator)
  {
    ShownOfIs(kindGaps, v, asOperator, |v.gaps|);
    assert v.gaps[..|v.gaps|] == v.gaps;
  }

  lemma PromptsWith(m: map<string, Meta>, g: string, x: Meta)
    ensures Prompts(m[g := x]) == Prompts(m)[g := x.spec.description]
  {
  }

  lemma PromptsEmpty(m: map<string, Meta>)
    ensures Prompts(m) == map[] <==> m == map[]
  {
    assert Prompts(m).Keys == m.Keys;
  }

  method BuildNeedsFillEntry(id: string, kind: string, e: Entity, kindGaps: Specs, asOperator: bool)
      returns (r: Option<Entry>)
    ensures r == EntryOfFile(id, kind, kindGaps, e, asOperator)
  {
    var v := e.fill;
    var prompts: map<string, string>, meta: map<string, Meta> := map[], map[];
    for i := 0 to |v.gaps|
      invariant meta == ShownOf(kindGaps, v, asOperator, i) && prompts == Prompts(meta)
    {
      var g := v.gaps[i];
      if g in v.gapState && v.gapState[g].deferred {
        continue;
      }
      var entry := EntryOf(v.gapState, g);
      var spec := Merge(SpecOf(kindGaps, g), entry);
      if g !in kindGaps && !HasShape(entry) {
        continue;
      }
      if asOperator && spec.fillStrategy == "agent" {
        continue;
      }
      if !asOperator && spec.fillStrategy == "operator" {
        continue;
      }
      PromptsWith(meta, g, Meta(spec, entry.dataSchema));
      prompts := prompts[g := spec.description];
      meta := meta[g := Meta(spec, entry.dataSchema)];
    }
    ShownOfAll(kindGaps, v, asOperator);
    PromptsEmpty(meta);
    if prompts == map[] {
      return None;
    }
    r := Some(Entry(id, kind, prompts, meta, e.cleanContent));
  }

  // ---------------------------------------------------------------- the queue and the writer

  /** A surfaced gap has the same effective spec on the write side, and its gate lets the matching
      trigger through whatever the value and the force flag. */
  lemma QueueAndWriterAgree(kindGaps: Specs, v: Fillable, call: GapLifecycle.Call, g: string, raw: Fill.Raw)
    requires g in v.gaps && Surfaces(kindGaps, v, call.operatorTrigger, g)
    ensures g in Effective(kindGaps, v.gapState)
    ensures Shown(kindGaps, v, call.operatorTrigger)[g].spec == Effective(kindGaps, v.gapState)[g]
    ensures Fill.Gate(GapLifecycle.ContextOf(kindGaps, v, call), g, raw) == None
  {
  }

  /** For an open, shaped gap that is not deferred: the operator view shows it exactly when the
      writer's gate passes an operator trigger; the agent gate always passes, so the agent view
      shows less than agents may write. */
  lemma GateAndViewExactly(kindGaps: Specs, v: Fillable, call: GapLifecycle.Call, g: string, raw: Fill.Raw)
    requires g in v.gaps && Shaped(kindGaps, v, g) && !Deferred(v, g)
    ensures call.operatorTrigger ==>
              (Surfaces(kindGaps, v, true, g) <==> Fill.Gate(GapLifecycle.ContextOf(kindGaps, v, call), g, raw) == None)
    ensures !call.operatorTrigger ==> Fill.Gate(GapLifecycle.ContextOf(kindGaps, v, call), g, raw) == None
    ensures Surfaces(kindGaps, v, false, g) <==> Effective(kindGaps, v.gapState)[g].fillStrategy != "operator"
  {
    assert g in Effective(kindGaps, v.gapState);
  }

  /** No gap falls between the two audiences. */
  lemma SomeAudienceIff(kindGaps: Specs, v: Fillable, g: string)
    ensures Surfaces(kindGaps, v, true, g) || Surfaces(kindGaps, v, false, g) <==>
              Shaped(kindGaps, v, g) && !Deferred(v, g)
  {
  }

  /** The identity a request carries. */
  datatype Claim = Claim(subject: string, operator: string, delegated: bool)

  predicate Anonymous(c: Claim) {
    c.subject == "anonymous" && c.operator == "none"
  }

  /** The queue's default view for a request, before a fill_strategy parameter overrides it. */
  predicate ViewsAsOperator(claim: Option<Claim>) {
    claim.Some? && !Anonymous(claim.value) && claim.value.subject != "" && claim.value.subject == claim.value.operator
  }

  /** The fill handler's trigger mode for the same request; no claim counts as the empty one. */
  predicate FillsAsOperator(claim: Option<Claim>) {
    claim.Some? && claim.value.subject != "" && (claim.value.subject == claim.value.operator || claim.value.delegated)
  }

  /** An agent's token the operator delegated: operator to the fill handler, agent to the queue. */
  predicate DelegatedPair(claim: Option<Claim>) {
    claim.Some? && claim.value.subject != "" && claim.value.subject != claim.value.operator && claim.value.delegated
  }

  lemma TriggersDifferIff(claim: Option<Claim>)
    ensures ViewsAsOperator(claim) != FillsAsOperator(claim) <==> DelegatedPair(claim)
  {
    assert "anonymous"[0] != "none"[0];
  }

  /** Per claim, exactly: a gap the caller's own view shows is refused by the caller's own fill if and
      only if the claim is a delegated pair and the gap is agent-strategy. */
  lemma ShownGapRefusedIff(kindGaps: Specs, v: Fillable, claim: Option<Claim>, call: GapLifecycle.Call, g: string,
                           raw: Fill.Raw)
    requires call.operatorTrigger == FillsAsOperator(claim)
    requires g in v.gaps && Surfaces(kindGaps, v, ViewsAsOperator(claim), g)
    ensures Fill.Gate(GapLifecycle.ContextOf(kindGaps, v, call), g, raw) != None <==>
            DelegatedPair(claim) && LayeredSpec(kindGaps, v, g).fillStrategy == "agent"
  {
    TriggersDifferIff(claim);
    assert g in Effective(kindGaps, v.gapState);
  }

  /** Such a caller: the queue shows the gap, the fill answers agent_only_field. */
  lemma DelegatedPairWitness()
    ensures var kindGaps: Specs := map["g" := NO_SPEC.(fillStrategy := "agent")];
            var v := Fillable(map[], "", [], ["g"], map[]);
            var claim := Some(Claim("bot", "ana", true));
            var call := GapLifecycle.Call(map["g" := Fill.RStr("x")], {}, FillsAsOperator(claim), false, 0);
            && Surfaces(kindGaps, v, ViewsAsOperator(claim), "g")
            && Fill.Gate(GapLifecycle.ContextOf(kindGaps, v, call), "g", Fill.RStr("x")) == Some(Fill.AgentOnlyField)
  {
    var kindGaps: Specs := map["g" := NO_SPEC.(fillStrategy := "agent")];
    var v := Fillable(map[], "", [], ["g"], map[]);
    var claim := Some(Claim("bot", "ana", true));
    var call := GapLifecycle.Call(map["g" := Fill.RStr("x")], {}, FillsAsOperator(claim), false, 0);
    assert "bot"[0] != "ana"[0] && v.gaps[0] == "g";
    ShownGapRefusedIff(kindGaps, v, claim, call, "g", Fill.RStr("x"));
  }

  // ---------------------------------------------------------------- the store's candidate stream

  datatype Mode = All | Unfilled | Surfaceable

  /** An entry of gap_state that is neither filled nor deferred. */
  predicate Pending(entry: GapEntry) {
    entry.filledAt.None? && !entry.deferred
  }

  predicate HasPending(state: map<string, GapEntry>) {
    exists f :: f in state && Pending(state[f])
  }

  /** The WHERE clause; an empty gap_state is stored as NULL, a thin row's data as the literal null. */
  predicate Selected(row: Row, mode: Mode, kind: string) {
    && (kind == "" || row.kind == kind)
    && match mode
       case All => true
       case Unfilled => HasPending(row.gapState)
       case Surfaceable => row.data.Some? && (row.gapState == map[] || HasPending(row.gapState))
  }

  /** `stream` is what the query returns from the start with no limit. */
  ghost predicate IsStream(rows: map<string, Row>, mode: Mode, kind: string, stream: seq<string>) {
    && Increasing(stream)
    && (forall id :: id in stream <==> id in rows && Selected(rows[id], mode, kind))
    && (forall i :: 0 <= i < |stream| ==> stream[i] != "")
  }

  // ---------------------------------------------------------------- the page

  datatype ReadResult = Read(e: Entity) | NotExist | Unreadable

  /** What the scan reads: rows, files by kind and id, files that fail to parse, gap specs by kind. */
  datatype World = World(
    rows: map<string, Row>,
    files: map<(string, string), Entity>,
    broken: set<(string, string)>,
    kindGaps: map<string, Specs>)

  datatype Query = Query(source: string, asOperator: bool)

  function ReadByID(w: World, kind: string, id: string): ReadResult {
    if (kind, id) in w.broken then Unreadable
    else if (kind, id) in w.files then Read(w.files[(kind, id)])
    else NotExist
  }

  function GapsOfKind(w: World, kind: string): Specs {
    if kind in w.kindGaps then w.kindGaps[kind] else map[]
  }

  /** What one candidate contributes to the listing. */
  function EntryFor(w: World, q: Query, id: string): Option<Entry> {
    if id !in w.rows then None
    else match ReadByID(w, w.rows[id].kind, id)
      case Read(e) =>
        if q.source != "" && PluginName(e) != q.source then None
        else EntryOfFile(id, w.rows[id].kind, GapsOfKind(w, w.rows[id].kind), e, q.asOperator)
      case _ => None
  }

  method ReadCandidate(w: World, q: Query, id: string) returns (r: Option<Entry>)
    requires id in w.rows
    ensures r == EntryFor(w, q, id)
  {
    var kind := w.rows[id].kind;
    var read := ReadByID(w, kind, id);
    if !read.Read? {
      return None;
    }
    if |read.e.fill.gaps| == 0 {
      assert Shown(GapsOfKind(w, kind), read.e.fill, q.asOperator) == map[];
      return None;
    }
    if q.source != "" && PluginName(read.e) != q.source {
      return None;
    }
    r := BuildNeedsFillEntry(id, kind, read.e, GapsOfKind(w, kind), q.asOperator);
  }

  function Lister(w: World, q: Query): string -> Option<Entry> {
    (id: string) => EntryFor(w, q, id)
  }

  /** The inner loop over one batch, up to the entry that fills the page. */
  method ScanBatch(w: World, q: Query, candidates: seq<string>, limit: nat, entries0: seq<Entry>, last0: string,
                   scanned0: nat, ghost f: string -> Option<Entry>, ghost stream: seq<string>, ghost after: string,
                   ghost batch: nat, ghost cap: nat)
      returns (entries: seq<Entry>, last: string, scanned: nat, earlyBreak: bool)
    requires |entries0| < limit && scanned0 + batch <= cap
    requires forall id :: id in stream ==> id in w.rows && f(id) == EntryFor(w, q, id)
    requires ScanningAt(f, stream, after, scanned0, limit, cap, entries0, last0)
    requires IsBatch(stream, Seek(stream, after) + scanned0, batch, candidates)
    ensures ScanningAt(f, stream, after, scanned, limit, cap, entries, last)
    ensures scanned0 <= scanned <= scanned0 + |candidates| && (candidates != [] ==> scanned0 < scanned)
    ensures earlyBreak <==> |entries| == limit
    ensures |entries| <= limit && (!earlyBreak ==> scanned == scanned0 + |candidates|)
  {
    entries, last, scanned, earlyBreak := entries0, last0, scanned0, false;
    for i := 0 to |candidates|
      invariant scanned == scanned0 + i && |entries| < limit && !earlyBreak
      invariant ScanningAt(f, stream, after, scanned, limit, cap, entries, last)
    {
      var cand := candidates[i];
      ScanAdvances(f, stream, after, candidates, batch, scanned0, i, limit, cap, entries, last);
      last, scanned := cand, scanned + 1;
      var entry := ReadCandidate(w, q, cand);
      if entry.None? {
        assert entries + [] == entries;
        continue;
      }
      entries := entries + [entry.value];
      if |entries| >= limit {
        earlyBreak := true;
        break;
      }
    }
  }

  /** The handler's scan-until-found-or-exhausted loop. */
  method NeedsFillPage(w: World, q: Query, stream: seq<string>, after: string, limit: nat, batchSize: nat, cap: nat)
      returns (entries: seq<Entry>, next: Option<string>)
    requires Increasing(stream) && (forall id :: id in stream ==> id in w.rows)
    requires limit >= 1 && batchSize >= 1 && cap >= 1
    ensures IsPage(Lister(w, q), stream, after, limit, cap, entries, next)
  {
    ghost var f := Lister(w, q);
    entries := [];
    var lastConsidered, scanned, exhausted := after, 0, false;
    ScanStarts(f, stream, after, limit, cap);
    while |entries| < limit && scanned < cap
      invariant scanned <= cap && |entries| <= limit && (|entries| == limit ==> scanned > 0)
      invariant ScanningAt(f, stream, after, scanned, limit, cap, entries, lastConsidered)
      invariant exhausted ==> |entries| < limit && scanned < cap && Seek(stream, after) + scanned == |stream|
      decreases cap - scanned
    {
      var batch := if cap - scanned < batchSize then cap - scanned else batchSize;
      var candidates := ListCandidates(stream, lastConsidered, batch, after, Seek(stream, after) + scanned);
      if |candidates| == 0 {
        exhausted := true;
        break;
      }
      var earlyBreak;
      entries, lastConsidered, scanned, earlyBreak :=
        ScanBatch(w, q, candidates, limit, entries, lastConsidered, scanned, f, stream, after, batch, cap);
      if !earlyBreak && |candidates| < batch {
        exhausted := true;
        break;
      }
    }
    ScanEnds(f, stream, after, scanned, limit, cap, entries, lastConsidered, exhausted);
    next := if exhausted then None else Some(lastConsidered);
  }

  function EntryId(entry: Entry): string { entry.id }

  /** The entries of a stretch: ids increase, and they are exactly the candidates that surface. */
  lemma EntriesAre(w: World, q: Query, stream: seq<string>, n: nat)
    requires Increasing(stream) && n <= |stream|
    ensures SortedBy(Entries(Lister(w, q), stream, 0, n), EntryId)
    ensures forall entry :: entry in Entries(Lister(w, q), stream, 0, n) <==>
              entry.id in stream[..n] && EntryFor(w, q, entry.id) == Some(entry)
  {
    forall id ensures Lister(w, q)(id).Some? ==> EntryId(Lister(w, q)(id).value) == id { EntryForId(w, q, id); }
    EntriesSorted(Lister(w, q), stream, n, EntryId);
    forall entry
      ensures entry in Entries(Lister(w, q), stream, 0, n) <==>
                entry.id in stream[..n] && EntryFor(w, q, entry.id) == Some(entry)
    {
      EntriesMembers(Lister(w, q), stream, n, entry);
      if i :| 0 <= i < n && Lister(w, q)(stream[i]) == Some(entry) {
        EntryForId(w, q, stream[i]);
        assert stream[..n][i] == stream[i];
      }
      if entry.id in stream[..n] && EntryFor(w, q, entry.id) == Some(entry) {
        var i :| 0 <= i < n && stream[..n][i] == entry.id;
        assert Lister(w, q)(stream[i]) == Some(entry);
      }
    }
  }

  lemma EntryForId(w: World, q: Query, id: string)
    ensures EntryFor(w, q, id).Some? ==> EntryFor(w, q, id).value.id == id
  {
  }

  /** Pagination exactness: from the first page until the cursor is omitted, on a fixed store, the
      client sees exactly the rows the page query selects whose file surfaces, each once, by id. */
  lemma PaginationIsExact(w: World, q: Query, kind: string, stream: seq<string>, pages: seq<Page<Entry>>)
    requires IsStream(w.rows, Surfaceable, kind, stream) && Walk(Lister(w, q), stream, "", pages)
    requires pages != [] && pages[|pages| - 1].next.None?
    ensures SortedBy(Collected(pages), EntryId)
    ensures forall entry :: entry in Collected(pages) <==>
              entry.id in w.rows && Selected(w.rows[entry.id], Surfaceable, kind) &&
                  EntryFor(w, q, entry.id) == Some(entry)
  {
    SeekStart(stream);
    WalkIsExact(Lister(w, q), stream, "", pages);
    EntriesAre(w, q, stream, |stream|);
    assert stream[..|stream|] == stream;
  }

  /** The entity has something to show to this query. */
  predicate HasWork(w: World, q: Query, kind: string, id: string) {
    id in w.rows && (kind == "" || w.rows[id].kind == kind) && EntryFor(w, q, id).Some?
  }

  predicate Listed(entries: seq<Entry>, id: string) {
    exists i :: 0 <= i < |entries| && entries[i].id == id
  }

  /** A complete walk lists every entity with work if and only if each one's row has data and a
      gap_state that is absent or still has a pending entry. */
  lemma AllWorkListedIff(w: World, q: Query, kind: string, stream: seq<string>, pages: seq<Page<Entry>>)
    requires IsStream(w.rows, Surfaceable, kind, stream) && Walk(Lister(w, q), stream, "", pages)
    requires pages != [] && pages[|pages| - 1].next.None?
    ensures (forall id :: HasWork(w, q, kind, id) ==> Listed(Collected(pages), id)) <==>
            (forall id :: HasWork(w, q, kind, id) ==>
               w.rows[id].data.Some? && (w.rows[id].gapState == map[] || HasPending(w.rows[id].gapState)))
  {
    PaginationIsExact(w, q, kind, stream, pages);
    forall id | HasWork(w, q, kind, id)
      ensures Listed(Collected(pages), id) <==> Selected(w.rows[id], Surfaceable, kind)
    {
      ListedIff(w, q, kind, Collected(pages), id);
    }
  }

  lemma ListedIff(w: World, q: Query, kind: string, entries: seq<Entry>, id: string)
    requires HasWork(w, q, kind, id)
    requires forall entry :: entry in entries <==>
               entry.id in w.rows && Selected(w.rows[entry.id], Surfaceable, kind) &&
                   EntryFor(w, q, entry.id) == Some(entry)
    ensures Listed(entries, id) <==> Selected(w.rows[id], Surfaceable, kind)
  {
    EntryForId(w, q, id);
    var entry := EntryFor(w, q, id).value;
    if Selected(w.rows[id], Surfaceable, kind) {
      assert entry in entries;
    }
    if i :| 0 <= i < |entries| && entries[i].id == id {
      assert entries[i] in entries;
    }
  }
}
