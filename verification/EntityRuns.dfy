/** The life of one file under fills and re-ingests, in any order. */
module EntityRuns {
  import opened Base
  import opened Vault
  import opened GapSpecs
  import opened Fill
  import opened GapLifecycle
  import opened Reingest
  import opened Store
  import opened CanonicalEdges
  import opened FillEdges
  import Persist
  import FillHandler

  // ---------------------------------------------------------------- one re-ingest

  /** The plugin names as open exactly the registered gaps it sends no value for and that have no
      carried-over value. */
  ghost predicate CleanFetch(kindGaps: Specs, existing: Option<Entity>, f: Fetch) {
    Distinct(f.gaps) && forall g :: g in kindGaps ==> (g in f.gaps <==> g !in f.data && !CarriedOver(existing, g))
  }

  /** Whatever state the file was in, a re-ingest leaves it in order if and only if the fetch is
      clean. */
  lemma ReingestInOrderIff(kindGaps: Specs, existing: Option<Entity>, f: Fetch)
    ensures InOrder(kindGaps, Merged(existing, f).fill) <==> CleanFetch(kindGaps, existing, f)
  {
    var v := Merged(existing, f).fill;
    forall g | g in kindGaps
      ensures GapInOrder(At(v, g)) <==> (g in f.gaps <==> g !in f.data && !CarriedOver(existing, g))
    {
      HasValueIsLocal(v, g);
    }
  }

  /** A plugin that lists summary among its gaps, over a file whose summary is filled: the gap is
      open again and the value still there. */
  lemma RelistedSummaryWitness(existing: Entity, f: Fetch)
    requires existing.fill == Fillable(map[], "s", [], [], map[])
    requires f.gaps == ["summary"] && f.data == map[]
    ensures InOrder(map["summary" := NO_SPEC], existing.fill)
    ensures var v := Merged(Some(existing), f).fill; "summary" in v.gaps && HasValue(v, "summary")
  {
    assert f.gaps[0] == "summary";
  }

  /** A plugin that sends no data and no gaps, over a file with a filled value: the field is neither
      open nor filled. */
  lemma OrphanedGapWitness(existing: Entity, f: Fetch)
    requires existing.fill == Fillable(map["a" := VStr("x")], "", [], [], map[])
    requires f.gaps == [] && f.data == map[]
    ensures InOrder(map["a" := NO_SPEC], existing.fill)
    ensures var v := Merged(Some(existing), f).fill; "a" !in v.gaps && !HasValue(v, "a")
  {
  }

  // ---------------------------------------------------------------- runs

  /** One entity's file, with the edge and entity tables beside it. */
  datatype State = State(e: Entity, edges: set<Edge>, rows: map<string, Row>)

  datatype Step = DoFill(call: Call, ops: seq<Op>, source: string) | DoIngest(f: Fetch, guard: Guard)

  /** A fill reached its edge stage, which may have stopped half-way; an ingest went through. */
  ghost predicate Follows(kindGaps: Specs, s: State, step: Step, s': State) {
    match step
    case DoFill(call, ops, source) =>
      && Accepted(kindGaps, s.e.fill, call, ops)
      && s'.e == FillHandler.Filled(s.e, After(kindGaps, s.e.fill, call, ops), ops, source, call.now)
      && s'.edges == StageEdges(s.edges, s.e.id, ops, Effective(kindGaps, s.e.fill.gapState))
      && GrewBy(FillHandler.RowsAfterFill(s.rows, s'.e), s'.rows,
                StageTargets(ops, Effective(kindGaps, s.e.fill.gapState)))
    case DoIngest(f, guard) =>
      && f.id == s.e.id
      && s'.e == Merged(Some(s.e), f)
      && s'.rows == Persist.IngestedRows(s.rows, f, guard)
      && s'.edges == s.edges + Persist.IngestedEdges(s.rows, f, guard)
  }

  ghost predicate Run(kindGaps: Specs, states: seq<State>, steps: seq<Step>) {
    && |states| == |steps| + 1
    && forall i :: 0 <= i < |steps| ==> Follows(kindGaps, states[i], steps[i], states[i + 1])
  }

  /** The fill call is such a step whenever it got as far as the edge stage. */
  lemma FilledIsStep(reg: FillHandler.Registry, t: FillHandler.Target, call: Call, ops: seq<Op>, source: string,
                     outcome: FillHandler.Outcome, s: State, s': State, derived: seq<Event>)
    requires outcome.Done? || outcome.ParagraphFailed? || outcome.EdgesFailed?
    requires s.e == t.e && FillHandler.Admits(reg, t, call, ops) &&
               s'.e == FillHandler.AfterFill(reg, t, call, ops, source)
    requires FillHandler.Mirrored(outcome, s.rows, s'.rows, s.edges, s'.edges, s'.e, ops, FillHandler.GapsOf(reg, t),
                                  derived)
    ensures Follows(FillHandler.KindGaps(reg, t.kind), s, DoFill(call, ops, source), s')
  {
  }

  /** So is a persisted envelope; its fetch carries the merged body. */
  lemma PersistedIsStep(kindGaps: Specs, in_: Persist.Input, guard: Guard, s: State, s': State,
                        files: map<string, Entity>)
    requires in_.fetch.id == s.e.id && Lookup(files, s.e.id) == Some(s.e)
    requires Persist.MergedBody(Some(s.e), in_).Some?
    requires Lookup(Persist.FilesAfter(files, in_, None), s.e.id) == Some(s'.e)
    requires s'.rows == Persist.RowsAfter(s.rows, in_, guard, None)
    requires s'.edges == s.edges + Persist.NewEdges(s.rows, in_, guard, None)
    ensures var f := in_.fetch.(body := Persist.MergedBody(Some(s.e), in_).value);
            Follows(kindGaps, s, DoIngest(f, guard), s')
  {
  }

  ghost predicate CleanStep(kindGaps: Specs, s: State, step: Step) {
    match step
    case DoFill(call, _, _) => CleanCall(kindGaps, s.e.fill, call)
    case DoIngest(f, _) => CleanFetch(kindGaps, Some(s.e), f)
  }

  lemma StepKeepsOrderIff(kindGaps: Specs, s: State, step: Step, s': State)
    requires InOrder(kindGaps, s.e.fill) && Follows(kindGaps, s, step, s')
    ensures InOrder(kindGaps, s'.e.fill) <==> CleanStep(kindGaps, s, step)
  {
    match step
    case DoFill(call, ops, _) => FillKeepsOrderIff(kindGaps, s.e.fill, call, ops);
    case DoIngest(f, _) => ReingestInOrderIff(kindGaps, Some(s.e), f);
  }

  ghost predicate InOrderAllAlong(kindGaps: Specs, states: seq<State>, n: nat)
    requires n < |states|
  {
    InOrder(kindGaps, states[n].e.fill) && (n > 0 ==> InOrderAllAlong(kindGaps, states, n - 1))
  }

  ghost predicate CleanAllAlong(kindGaps: Specs, states: seq<State>, steps: seq<Step>, n: nat)
    requires n <= |steps| && n <= |states|
  {
    n > 0 ==> CleanStep(kindGaps, states[n - 1], steps[n - 1]) && CleanAllAlong(kindGaps, states, steps, n - 1)
  }

  lemma RunFollows(kindGaps: Specs, states: seq<State>, steps: seq<Step>, i: nat)
    requires Run(kindGaps, states, steps) && i < |steps|
    ensures Follows(kindGaps, states[i], steps[i], states[i + 1])
  {
  }

  /** Over any mix of accepted fills and re-ingests, exactly: every registered gap is all along open
      or filled but not both, and deferred only while open, if and only if every step is clean. */
  lemma {:induction false} LifecycleOverMixedRun(kindGaps: Specs, states: seq<State>, steps: seq<Step>, n: nat)
    requires Run(kindGaps, states, steps) && n < |states| && InOrder(kindGaps, states[0].e.fill)
    ensures InOrderAllAlong(kindGaps, states, n) <==> CleanAllAlong(kindGaps, states, steps, n)
  {
    if n == 0 {
    } else {
      LifecycleOverMixedRun(kindGaps, states, steps, n - 1);
      RunFollows(kindGaps, states, steps, n - 1);
      if InOrder(kindGaps, states[n - 1].e.fill) {
        StepKeepsOrderIff(kindGaps, states[n - 1], steps[n - 1], states[n]);
      }
    }
  }

  /** And a re-ingest puts a file that fell out of order back, if its fetch is clean. */
  lemma IngestRestoresOrder(kindGaps: Specs, states: seq<State>, steps: seq<Step>, n: nat)
    requires Run(kindGaps, states, steps) && n < |steps| && steps[n].DoIngest?
    ensures InOrder(kindGaps, states[n + 1].e.fill) <==> CleanFetch(kindGaps, Some(states[n].e), steps[n].f)
  {
    RunFollows(kindGaps, states, steps, n);
    ReingestInOrderIff(kindGaps, Some(states[n].e), steps[n].f);
  }

  /** What a step adds to the provenance list. */
  function EntryOfStep(step: Step): seq<Provenance> {
    match step
    case DoFill(call, ops, source) =>
      if FillHandler.HasSet(ops) then [Provenance(source, None, Some(call.now), true)] else []
    case DoIngest(f, _) => [f.provenance]
  }

  function EntriesOfSteps(steps: seq<Step>, n: nat): seq<Provenance>
    requires n <= |steps|
  {
    if n == 0 then [] else EntriesOfSteps(steps, n - 1) + EntryOfStep(steps[n - 1])
  }

  lemma StepAppends(kindGaps: Specs, s: State, step: Step, s': State)
    requires Follows(kindGaps, s, step, s')
    ensures s'.e.provenance == s.e.provenance + EntryOfStep(step)
  {
  }

  lemma {:induction false} EntriesAddUp(states: seq<State>, steps: seq<Step>, n: nat)
    requires n < |states| && n <= |steps|
    requires forall i :: 0 <= i < n ==> states[i + 1].e.provenance == states[i].e.provenance + EntryOfStep(steps[i])
    ensures states[n].e.provenance == states[0].e.provenance + EntriesOfSteps(steps, n)
  {
    if n == 0 {
    } else {
      EntriesAddUp(states, steps, n - 1);
      assert states[n - 1 + 1].e.provenance == states[n - 1].e.provenance + EntryOfStep(steps[n - 1]);
    }
  }

  /** Over the same runs the provenance grows by one entry per ingest and per fill that sets
      something, in order, and by nothing else. */
  lemma ProvenanceOverMixedRun(kindGaps: Specs, states: seq<State>, steps: seq<Step>, n: nat)
    requires Run(kindGaps, states, steps) && n < |states|
    ensures states[n].e.provenance == states[0].e.provenance + EntriesOfSteps(steps, n)
  {
    forall i | 0 <= i < n ensures states[i + 1].e.provenance == states[i].e.provenance + EntryOfStep(steps[i]) {
      StepAppends(kindGaps, states[i], steps[i], states[i + 1]);
    }
    EntriesAddUp(states, steps, n);
  }

  /** A file materialized for a canonical label starts such a run in order: its open list is the
      registered gaps. */
  lemma FreshLabelRun(reg: FillHandler.Registry, id: string, kind: string, states: seq<State>, steps: seq<Step>, n: nat)
    requires kind in reg && Distinct(reg[kind].names) && forall g :: g in reg[kind].names <==> g in reg[kind].gaps
    requires Run(reg[kind].gaps, states, steps) && n < |states|
    requires states[0].e == FillHandler.NewLabelFile(id, kind, reg[kind].names)
    ensures InOrderAllAlong(reg[kind].gaps, states, n) <==> CleanAllAlong(reg[kind].gaps, states, steps, n)
  {
    NewLabelFileInOrder(reg[kind].gaps, reg[kind].names);
    LifecycleOverMixedRun(reg[kind].gaps, states, steps, n);
  }

  // ---------------------------------------------------------------- the row beside the file

  /** The entity's row is the projection of its file. */
  predicate RowMirrorsFile(s: State) {
    && s.e.id in s.rows
    && var row := s.rows[s.e.id];
    row.kind == s.e.kind && row.data == Some(FillHandler.DataForDB(s.e)) && row.gapState == s.e.fill.gapState
  }

  /** The fetch sends data, and in it, just as the file has them, whatever summary, tags and note text
      the file carries over. */
  predicate SendsWhatIsCarried(e: Entity, f: Fetch) {
    && Persist.StoredData(f).Some?
    && (e.fill.summary != "" ==> Lookup(f.data, "summary") == Some(VStr(e.fill.summary)))
    && (e.fill.tags != [] ==> Lookup(f.data, "tags") == Some(VStrs(e.fill.tags)))
    && (FillHandler.JoinLines(e.notes) != "" ==>
        Lookup(f.data, "notes_text") == Some(VStr(FillHandler.JoinLines(e.notes))))
  }

  lemma ProjectionIsDataIff(e: Entity, f: Fetch)
    ensures FillHandler.DataForDB(Merged(Some(e), f)) == f.data <==>
            && (e.fill.summary != "" ==> Lookup(f.data, "summary") == Some(VStr(e.fill.summary)))
            && (e.fill.tags != [] ==> Lookup(f.data, "tags") == Some(VStrs(e.fill.tags)))
            && (FillHandler.JoinLines(e.notes) != "" ==>
                  Lookup(f.data, "notes_text") == Some(VStr(FillHandler.JoinLines(e.notes))))
  {
    var d := FillHandler.DataForDB(Merged(Some(e), f));
    assert forall k :: k != "summary" && k != "tags" && k != "notes_text" ==> Lookup(d, k) == Lookup(f.data, k);
    assert e.fill.summary != "" ==> Lookup(d, "summary") == Some(VStr(e.fill.summary));
    assert e.fill.summary == "" ==> Lookup(d, "summary") == Lookup(f.data, "summary");
    assert e.fill.tags != [] ==> Lookup(d, "tags") == Some(VStrs(e.fill.tags));
    assert e.fill.tags == [] ==> Lookup(d, "tags") == Lookup(f.data, "tags");
    assert FillHandler.JoinLines(e.notes) == "" ==> Lookup(d, "notes_text") == Lookup(f.data, "notes_text");
    if forall k :: Lookup(d, k) == Lookup(f.data, k) {
      SameLookups(d, f.data);
    }
  }

  lemma SameLookups<K, V>(a: map<K, V>, b: map<K, V>)
    requires forall k :: Lookup(a, k) == Lookup(b, k)
    ensures a == b
  {
    forall k ensures k in a <==> k in b {
      assert Lookup(a, k) == Lookup(b, k);
    }
    forall k | k in a ensures a[k] == b[k] {
      assert Lookup(a, k) == Lookup(b, k);
    }
  }

  /** At any point of any run the row mirrors the file if the last step was a fill, and after an ingest
      if and only if the fetch sent what the file carries over. */
  lemma RowMirrorsFileIff(kindGaps: Specs, states: seq<State>, steps: seq<Step>, n: nat)
    requires Run(kindGaps, states, steps) && n < |steps|
    ensures RowMirrorsFile(states[n + 1]) <==>
            (steps[n].DoIngest? ==> SendsWhatIsCarried(states[n].e, steps[n].f))
  {
    RunFollows(kindGaps, states, steps, n);
    if steps[n].DoIngest? {
      ProjectionIsDataIff(states[n].e, steps[n].f);
    }
  }

  /** A summary an agent wrote, and a fetch that does not send it: the file keeps it, the row loses
      it. */
  lemma StaleRowWitness(kindGaps: Specs, states: seq<State>, steps: seq<Step>)
    requires Run(kindGaps, states, steps) && |steps| == 1 && steps[0].DoIngest? && steps[0].f.data == map[]
    requires states[0].e.fill.summary == "s"
    ensures states[1].e.fill.summary == "s" && !RowMirrorsFile(states[1])
  {
    RowMirrorsFileIff(kindGaps, states, steps, 0);
    RunFollows(kindGaps, states, steps, 0);
  }
}
