/** buildVaultEntity: what a re-ingest keeps of the file it finds and what it replaces. */
module Reingest {
  import opened Base
  import opened Vault
  import opened Fill

  /** One ingest attempt's contribution. `sent` says whether the plugin sent a data object at all (an
      absent one reads as empty). `edges` is None when the plugin passed no edge list;
      nil entries of the list are None. */
  datatype Fetch = Fetch(
    id: string,
    kind: string,
    data: map<string, Value>,
    sent: bool,
    source: string,
    gaps: seq<string>,
    body: string,
    notations: seq<string>,
    aliases: seq<string>,
    provenance: Provenance,
    cacheExpires: Option<int>,
    attachments: seq<string>,
    edges: Option<seq<Option<Edge>>>)

  /** First occurrences only, in order. */
  function Dedup(s: seq<string>): seq<string> {
    if s == [] then []
    else
      var init, last := Dedup(s[..|s| - 1]), s[|s| - 1];
      if last in init then init else init + [last]
  }

  function LabelEdges(edges: seq<Option<Edge>>): seq<LabelEdge> {
    if edges == [] then []
    else
      var last := edges[|edges| - 1];
      LabelEdges(edges[..|edges| - 1]) +
      if last.None? || last.value.typ == "" || last.value.to == "" then []
      else [LabelEdge(last.value.typ, last.value.to)]
  }

  /** The file written for `f` on top of `existing`. Gap state, dataview paragraphs and the ugc
      flag are not carried over, and Data is the plugin's, whatever it holds. */
  function Merged(existing: Option<Entity>, f: Fetch): Entity {
    var base := Entity(
      f.id, f.kind,
      if existing.Some? && existing.value.source != [] then Dedup(existing.value.source + [f.source]) else [f.source],
      (if existing.Some? then existing.value.provenance else []) + [f.provenance],
      Fillable(f.data, "", [], f.gaps, map[]),
      [], [], f.body, f.notations, f.aliases, f.cacheExpires, f.attachments, [], false);
    var kept := match existing
      case None => base
      case Some(e) =>
        base.(fill := base.fill.(summary := e.fill.summary, tags := e.fill.tags),
              notes := e.notes, edges := e.edges,
              attachments := if f.attachments == [] then e.attachments else f.attachments);
    if f.edges.Some? then kept.(edges := LabelEdges(f.edges.value)) else kept
  }

  method MergeSources(existing: seq<string>, source: seq<string>) returns (merged: seq<string>)
    ensures merged == Dedup(existing + source)
  {
    merged := [];
    var seen: set<string> := {};
    for i := 0 to |existing|
      invariant merged == Dedup(existing[..i])
      invariant seen == set s | s in merged
    {
      assert existing[..i + 1][..i] == existing[..i];
      if existing[i] !in seen {
        seen := seen + {existing[i]};
        merged := merged + [existing[i]];
      }
    }
    assert existing[..|existing|] == existing && existing + source[..0] == existing;
    for i := 0 to |source|
      invariant merged == Dedup(existing + source[..i])
      invariant seen == set s | s in merged
    {
      var whole := existing + source[..i + 1];
      assert whole[..|whole| - 1] == existing + source[..i];
      if source[i] !in seen {
        seen := seen + {source[i]};
        merged := merged + [source[i]];
      }
    }
    assert source[..|source|] == source;
  }

  method BuildVaultEntity(f: Fetch, existing: Option<Entity>) returns (merged: Entity)
    ensures merged == Merged(existing, f)
  {
    var provenance := [f.provenance];
    if existing.Some? {
      provenance := existing.value.provenance + [f.provenance];
    }
    var source := [f.source];
    if existing.Some? && existing.value.source != [] {
      source := MergeSources(existing.value.source, source);
    }
    merged := Entity(f.id, f.kind, source, provenance, Fillable(f.data, "", [], f.gaps, map[]),
                     [], [], f.body, f.notations, f.aliases, None, [], [], false);
    if existing.Some? {
      var e := existing.value;
      merged := merged.(fill := merged.fill.(summary := e.fill.summary, tags := e.fill.tags),
                        notes := e.notes, edges := e.edges);
    }
    if f.edges.Some? {
      var candidates, out := f.edges.value, [];
      for i := 0 to |candidates|
        invariant out == LabelEdges(candidates[..i])
      {
        assert candidates[..i + 1][..i] == candidates[..i];
        var ce := candidates[i];
        if ce.Some? && ce.value.typ != "" && ce.value.to != "" {
          out := out + [LabelEdge(ce.value.typ, ce.value.to)];
        }
      }
      assert candidates[..|candidates|] == candidates;
      merged := merged.(edges := out);
    }
    merged := merged.(cacheExpires := f.cacheExpires);
    if f.attachments != [] {
      merged := merged.(attachments := f.attachments);
    } else if existing.Some? && existing.value.attachments != [] {
      merged := merged.(attachments := existing.value.attachments);
    }
  }

  // ---------------------------------------------------------------- the file, field by field

  /** What an ingest leaves of a file: the plugin's half is new, the reader's half is as it was. */
  ghost predicate FileAfterIngest(was: Option<Entity>, f: Fetch, body: string, file: Entity) {
    && file.id == f.id && file.kind == f.kind && file.cleanContent == body
    && file.fill.data == f.data && file.fill.gaps == f.gaps && file.fill.gapState == map[]
    && file.notations == f.notations && file.aliases == f.aliases && file.cacheExpires == f.cacheExpires
    && file.dataview == [] && !file.ugc
    && (was.None? ==>
          && file.fill.summary == "" && file.fill.tags == [] && file.notes == []
          && file.provenance == [f.provenance] && file.source == [f.source] && file.attachments == f.attachments)
    && (was.Some? ==>
          && file.fill.summary == was.value.fill.summary && file.fill.tags == was.value.fill.tags
          && file.notes == was.value.notes && file.provenance == was.value.provenance + [f.provenance]
          && SourceAdded(was.value.source, f.source, file.source)
          && file.attachments == if f.attachments == [] then was.value.attachments else f.attachments)
    && (f.edges.None? ==> file.edges == if was.Some? then was.value.edges else [])
    && (f.edges.Some? ==> Picks(f.edges.value, file.edges, AsLabelEdge()))
  }

  /** The source joins the list once, at the end; an orderly list is otherwise as it was. */
  ghost predicate SourceAdded(was: seq<string>, source: string, now: seq<string>) {
    && Distinct(now) && (forall s :: s in now <==> s in was || s == source)
    && (was != [] ==> now != [] && now[0] == was[0])
    && (Distinct(was) ==> now == if source in was then was else was + [source])
  }

  /** The frontmatter form of a candidate with a type and a target. */
  function AsLabelEdge(): Option<Edge> -> Option<LabelEdge> {
    (c: Option<Edge>) =>
      if c.Some? && c.value.typ != "" && c.value.to != "" then Some(LabelEdge(c.value.typ, c.value.to)) else None
  }

  lemma {:induction false} LabelEdgesInOrder(edges: seq<Option<Edge>>)
    ensures Picks(edges, LabelEdges(edges), AsLabelEdge())
  {
    if edges == [] {
      PicksNothing(AsLabelEdge());
    } else {
      var init, last := edges[..|edges| - 1], edges[|edges| - 1];
      LabelEdgesInOrder(init);
      PicksOneMore(init, LabelEdges(init), AsLabelEdge(), last);
      assert edges == init + [last];
    }
  }

  lemma MergedSource(was: seq<string>, source: string)
    requires was != []
    ensures SourceAdded(was, source, Dedup(was + [source]))
  {
    DedupFacts(was + [source]);
    if Distinct(was) {
      DedupDistinct(was);
      assert (was + [source])[..|was|] == was;
    }
  }

  lemma MergedFile(was: Option<Entity>, f: Fetch)
    ensures FileAfterIngest(was, f, f.body, Merged(was, f))
  {
    if was.Some? && was.value.source != [] {
      MergedSource(was.value.source, f.source);
    }
    if f.edges.Some? {
      LabelEdgesInOrder(f.edges.value);
    }
  }

  // ---------------------------------------------------------------- runs of ingests

  function Reingested(existing: Option<Entity>, fetches: seq<Fetch>): Option<Entity> {
    if fetches == [] then existing
    else Some(Merged(Reingested(existing, fetches[..|fetches| - 1]), fetches[|fetches| - 1]))
  }

  function Sources(fetches: seq<Fetch>): seq<string> {
    seq(|fetches|, i requires 0 <= i < |fetches| => fetches[i].source)
  }

  function Provenances(fetches: seq<Fetch>): seq<Provenance> {
    seq(|fetches|, i requires 0 <= i < |fetches| => fetches[i].provenance)
  }

  /** The last edge list any of the fetches carried. */
  function LastEdges(fetches: seq<Fetch>): Option<seq<Option<Edge>>> {
    if fetches == [] then None
    else
      var last := fetches[|fetches| - 1];
      if last.edges.Some? then last.edges else LastEdges(fetches[..|fetches| - 1])
  }

  lemma {:induction false} DedupFacts(s: seq<string>)
    ensures Distinct(Dedup(s))
    ensures forall x :: x in Dedup(s) <==> x in s
    ensures s != [] ==> Dedup(s) != [] && Dedup(s)[0] == s[0]
  {
    if s == [] {
    } else {
      DedupFacts(s[..|s| - 1]);
      assert s == s[..|s| - 1] + [s[|s| - 1]];
    }
  }

  lemma {:induction false} DedupTwice(a: seq<string>, b: seq<string>)
    ensures Dedup(Dedup(a) + b) == Dedup(a + b)
  {
    if b == [] {
      DedupFacts(a);
      DedupDistinct(Dedup(a));
      assert a + b == a && Dedup(a) + b == Dedup(a);
    } else {
      var init := b[..|b| - 1];
      DedupTwice(a, init);
      assert (a + b)[..|a + b| - 1] == a + init;
      assert (Dedup(a) + b)[..|Dedup(a) + b| - 1] == Dedup(a) + init;
    }
  }

  lemma {:induction false} DedupDistinct(s: seq<string>)
    requires Distinct(s)
    ensures Dedup(s) == s
  {
    if s == [] {
    } else {
      DedupDistinct(s[..|s| - 1]);
      assert s == s[..|s| - 1] + [s[|s| - 1]];
    }
  }

  function SourceOf(existing: Option<Entity>): seq<string> {
    if existing.Some? then existing.value.source else []
  }

  lemma SourcesGrow(before: seq<string>, fetches: seq<Fetch>)
    requires fetches != []
    ensures before + Sources(fetches) == (before + Sources(fetches[..|fetches| - 1])) + [fetches[|fetches| - 1].source]
  {
  }

  lemma {:induction false} DedupNonEmpty(s: seq<string>)
    requires s != []
    ensures Dedup(s) != []
  {
    DedupFacts(s);
  }

  /** Over any run of re-ingests the source list is the union in first-encounter order. */
  lemma {:induction false} SourcesOverRun(existing: Option<Entity>, fetches: seq<Fetch>)
    requires fetches != [] && (existing.Some? ==> existing.value.source != [])
    ensures Reingested(existing, fetches).value.source == Dedup(SourceOf(existing) + Sources(fetches))
    ensures Reingested(existing, fetches).value.source != []
  {
    var init := fetches[..|fetches| - 1];
    var earlier, last := SourceOf(existing) + Sources(init), fetches[|fetches| - 1].source;
    SourcesGrow(SourceOf(existing), fetches);
    DedupNonEmpty(earlier + [last]);
    if init == [] {
      assert earlier == SourceOf(existing);
    } else {
      SourcesOverRun(existing, init);
      DedupTwice(earlier, [last]);
    }
  }

  /** No duplicates, nothing lost, and the refresh owner (the first source) never changes. */
  lemma SourceListOverRun(existing: Entity, fetches: seq<Fetch>)
    requires existing.source != [] && fetches != []
    ensures var after := Reingested(Some(existing), fetches).value;
            && Distinct(after.source)
            && (forall s :: s in after.source <==> s in existing.source || s in Sources(fetches))
            && after.source[0] == existing.source[0]
  {
    SourcesOverRun(Some(existing), fetches);
    DedupFacts(existing.source + Sources(fetches));
  }

  lemma ProvenancesGrow(before: seq<Provenance>, fetches: seq<Fetch>)
    requires fetches != []
    ensures before + Provenances(fetches) ==
            (before + Provenances(fetches[..|fetches| - 1])) + [fetches[|fetches| - 1].provenance]
  {
  }

  /** The earlier provenance stays a prefix and grows by exactly one entry per fetch. */
  lemma {:induction false} ProvenanceOverRun(existing: Entity, fetches: seq<Fetch>)
    ensures Reingested(Some(existing), fetches).value.provenance == existing.provenance + Provenances(fetches)
  {
    if fetches == [] {
      assert Provenances(fetches) == [];
    } else {
      ProvenanceOverRun(existing, fetches[..|fetches| - 1]);
      ProvenancesGrow(existing.provenance, fetches);
    }
  }

  /** What the agent or operator wrote outside Data survives; edges change only when a plugin
      passes an edge list, and a non-empty attachment manifest never becomes empty. */
  lemma {:induction false} KeptOverRun(existing: Entity, fetches: seq<Fetch>)
    ensures var after := Reingested(Some(existing), fetches).value;
            && after.fill.summary == existing.fill.summary
            && after.fill.tags == existing.fill.tags
            && after.notes == existing.notes
            && after.edges ==
                (if LastEdges(fetches).Some? then LabelEdges(LastEdges(fetches).value) else existing.edges)
            && (existing.attachments != [] ==> after.attachments != [])
  {
    if fetches == [] {
    } else {
      KeptOverRun(existing, fetches[..|fetches| - 1]);
    }
  }

  // ---------------------------------------------------------------- what becomes of fills

  /** A reserved field whose value lives outside `data:`, which a re-ingest carries over. */
  predicate CarriedOver(existing: Option<Entity>, g: string) {
    existing.Some? &&
    ((g == "summary" && existing.value.fill.summary != "") || (g == "tags" && existing.value.fill.tags != []))
  }

  /** A field that has a value still has that value after the re-ingest if and only if it is a
      carried-over summary or tags, or the plugin happens to send the very same value. */
  lemma FillsSurviveReingestIff(existing: Entity, f: Fetch, g: string)
    requires HasValue(existing.fill, g)
    ensures var after := Merged(Some(existing), f).fill;
            HasValue(after, g) && OverwriteData(after)[g] == OverwriteData(existing.fill)[g] <==>
            CarriedOver(Some(existing), g) || (g in f.data && f.data[g] == existing.fill.data[g])
  {
  }

  /** Two files that differ only in what fills wrote under `data:`, the open list and the gap state. */
  predicate SameButFills(a: Entity, b: Entity) {
    a == b.(fill := b.fill.(data := a.fill.data, gaps := a.fill.gaps, gapState := a.fill.gapState))
  }

  /** After one or more re-ingests they are the same file: nothing of those fills is left. */
  lemma {:induction false} FillsAreForgotten(a: Entity, b: Entity, fetches: seq<Fetch>)
    requires SameButFills(a, b) && fetches != []
    ensures Reingested(Some(a), fetches) == Reingested(Some(b), fetches)
  {
    var init := fetches[..|fetches| - 1];
    if init != [] {
      FillsAreForgotten(a, b, init);
    } else {
      assert Reingested(Some(a), init) == Some(a) && Reingested(Some(b), init) == Some(b);
    }
  }

  /** The case the comment on buildVaultEntity promises otherwise: the plugin sends no data, and the
      filled value is gone. */
  lemma EmptyDataWipesWitness(existing: Entity, f: Fetch)
    requires existing.fill.data == map["a" := VStr("x")] && f.data == map[]
    ensures HasValue(existing.fill, "a") && !HasValue(Merged(Some(existing), f).fill, "a")
  {
  }
}
