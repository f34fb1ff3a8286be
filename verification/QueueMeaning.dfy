/** What the queue lists, in terms of rows, files and specs: nothing here mentions how an entry is built
    or a page scanned. */
module QueueMeaning {
  import opened Base
  import opened Vault
  import opened Store
  import opened GapSpecs
  import opened Pagination
  import opened NeedsFill
  import FillMeaning

  /** The view shows the gap: it is open, not deferred, has a spec, and is not the other audience's. */
  predicate ShowsGap(kindGaps: Specs, v: Fillable, asOperator: bool, g: string) {
    && g in v.gaps
    && (g in v.gapState ==> !v.gapState[g].deferred)
    && (g in kindGaps || (g in v.gapState && v.gapState[g].shape.typ != ""))
    && g in Effective(kindGaps, v.gapState)
    && (asOperator ==> Effective(kindGaps, v.gapState)[g].fillStrategy != "agent")
    && (!asOperator ==> Effective(kindGaps, v.gapState)[g].fillStrategy != "operator")
  }

  lemma ShownIff(kindGaps: Specs, v: Fillable, asOperator: bool, g: string)
    ensures g in Shown(kindGaps, v, asOperator) <==> ShowsGap(kindGaps, v, asOperator, g)
    ensures g in Shown(kindGaps, v, asOperator) ==>
              && Shown(kindGaps, v, asOperator)[g].spec == Effective(kindGaps, v.gapState)[g]
              && Shown(kindGaps, v, asOperator)[g].dataSchema ==
                   if g in v.gapState then v.gapState[g].dataSchema else map[]
  {
    FillMeaning.EffectiveMeans(kindGaps, v.gapState, g);
  }

  /** An entry names its entity and carries its content, and for each gap shown its effective spec, its
      description as the prompt, and the workflow's data schema. */
  ghost predicate IsEntry(entry: Entry, id: string, kind: string, kindGaps: Specs, e: Entity, asOperator: bool) {
    && entry.id == id && entry.kind == kind && entry.cleanContent == e.cleanContent
    && (forall g :: g in entry.prompts <==> ShowsGap(kindGaps, e.fill, asOperator, g))
    && (forall g :: g in entry.meta <==> ShowsGap(kindGaps, e.fill, asOperator, g))
    && (forall g :: g in entry.meta && g in Effective(kindGaps, e.fill.gapState) ==>
          && entry.meta[g].spec == Effective(kindGaps, e.fill.gapState)[g]
          && entry.meta[g].dataSchema == if g in e.fill.gapState then e.fill.gapState[g].dataSchema else map[])
    && (forall g :: g in entry.prompts && g in Effective(kindGaps, e.fill.gapState) ==>
          entry.prompts[g] == Effective(kindGaps, e.fill.gapState)[g].description)
  }

  lemma EntryMeans(id: string, kind: string, kindGaps: Specs, e: Entity, asOperator: bool)
    ensures var r := EntryOfFile(id, kind, kindGaps, e, asOperator);
            && (r.Some? <==> exists g :: ShowsGap(kindGaps, e.fill, asOperator, g))
            && (r.Some? ==> IsEntry(r.value, id, kind, kindGaps, e, asOperator))
  {
    var shown := Shown(kindGaps, e.fill, asOperator);
    forall g
      ensures g in shown <==> ShowsGap(kindGaps, e.fill, asOperator, g)
      ensures g in shown ==>
                && shown[g].spec == Effective(kindGaps, e.fill.gapState)[g]
                && shown[g].dataSchema == if g in e.fill.gapState then e.fill.gapState[g].dataSchema else map[]
    {
      ShownIff(kindGaps, e.fill, asOperator, g);
    }
    assert Prompts(shown).Keys == shown.Keys;
    if shown != map[] {
      var g :| g in shown;
      assert ShowsGap(kindGaps, e.fill, asOperator, g);
    } else {
      forall g ensures !ShowsGap(kindGaps, e.fill, asOperator, g) { assert g !in shown; }
    }
  }

  /** The entity's plugin is the one asked for, if any is. */
  predicate FromSource(e: Entity, source: string) {
    source == "" || (if e.source == [] then "" else BeforeSlash(e.source[0])) == source
  }

  /** The row's file can be read, comes from the plugin asked for, and has a gap to show. */
  ghost predicate HasEntry(w: World, q: Query, id: string) {
    id in w.rows &&
    var kind := w.rows[id].kind;
    (kind, id) in w.files && (kind, id) !in w.broken &&
    var e, kindGaps := w.files[(kind, id)], if kind in w.kindGaps then w.kindGaps[kind] else map[];
    FromSource(e, q.source) && exists g :: ShowsGap(kindGaps, e.fill, q.asOperator, g)
  }

  lemma EntryForMeans(w: World, q: Query, id: string)
    ensures EntryFor(w, q, id).Some? <==> HasEntry(w, q, id)
  {
    if id in w.rows && (w.rows[id].kind, id) in w.files {
      var kind := w.rows[id].kind;
      EntryMeans(id, kind, GapsOfKind(w, kind), w.files[(kind, id)], q.asOperator);
    }
  }

  lemma EntryForIs(w: World, q: Query, id: string)
    requires EntryFor(w, q, id).Some?
    ensures var kind := w.rows[id].kind;
            IsEntry(EntryFor(w, q, id).value, id, kind, if kind in w.kindGaps then w.kindGaps[kind] else map[],
                    w.files[(kind, id)], q.asOperator)
  {
    var kind := w.rows[id].kind;
    EntryMeans(id, kind, GapsOfKind(w, kind), w.files[(kind, id)], q.asOperator);
  }

  /** What the page query lets through: rows of the kind asked for that have data, and no gap state or
      an entry in it that is neither filled nor deferred. */
  predicate PassesPageQuery(row: Row, kind: string) {
    && (kind == "" || row.kind == kind) && row.data.Some?
    && (row.gapState == map[] ||
        exists f :: f in row.gapState && row.gapState[f].filledAt == None && !row.gapState[f].deferred)
  }

  /** The whole queue: a client that follows the cursor to its end gets, in id order and each once, the
      entries of exactly the rows that pass the page query and have one. */
  lemma QueueIs(w: World, q: Query, kind: string, stream: seq<string>, pages: seq<Page<Entry>>, id: string)
    requires IsStream(w.rows, Surfaceable, kind, stream) && Walk(Lister(w, q), stream, "", pages)
    requires pages != [] && pages[|pages| - 1].next.None?
    ensures SortedBy(Collected(pages), EntryId)
    ensures (exists entry :: entry in Collected(pages) && entry.id == id) <==>
            id in w.rows && PassesPageQuery(w.rows[id], kind) && HasEntry(w, q, id)
    ensures forall entry :: entry in Collected(pages) && entry.id == id ==>
              id in w.rows && (w.rows[id].kind, id) in w.files
              && IsEntry(entry, id, w.rows[id].kind,
                         if w.rows[id].kind in w.kindGaps then w.kindGaps[w.rows[id].kind] else map[],
                         w.files[(w.rows[id].kind, id)], q.asOperator)
  {
    if EntryFor(w, q, id).Some? { EntryForIs(w, q, id); }
    PaginationIsExact(w, q, kind, stream, pages);
    EntryForMeans(w, q, id);
    EntryForId(w, q, id);
    if id in w.rows && PassesPageQuery(w.rows[id], kind) && HasEntry(w, q, id) {
      assert EntryFor(w, q, id).value in Collected(pages);
    }
  }
}
