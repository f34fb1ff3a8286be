/** Labels and edges of an entity over runs that mix fills and re-ingests. A fill replaces a gap's
    edges; an ingest replaces the list under `data:` and only ever adds edges. */
module IndexRuns {
  import opened Base
  import opened Vault
  import opened Store
  import opened GapSpecs
  import opened Fill
  import opened GapLifecycle
  import opened CanonicalEdges
  import opened Reingest
  import opened FillEdges
  import opened IndexAgreement
  import opened EntityRuns
  import FillHandler
  import Persist

  // ---------------------------------------------------------------- one re-ingest

  /** The plugin sends an edge of type g to this target, the operator enabled the type, and the target
      has or may get a row. */
  predicate PluginLinks(s: State, f: Fetch, guard: Guard, g: string, to: string) {
    && Some(Edge(g, s.e.id, to)) in Persist.CandidatesOf(f) && g != "" && s.e.id != "" && to != ""
    && g in guard.types && (to in s.rows || to == s.e.id || MayMaterialize(to, guard))
  }

  lemma IngestedEdgeIff(s: State, f: Fetch, guard: Guard, g: string, to: string)
    requires f.id == s.e.id
    ensures Edge(g, s.e.id, to) in Persist.IngestedEdges(s.rows, f, guard) <==> PluginLinks(s, f, guard, g, to)
  {
    TwoPassEdges(Persist.OwnRow(s.rows, f), Persist.CandidatesOf(f), guard, Edge(g, s.e.id, to));
  }

  /** The fetch's list for g names exactly the edges of type g that are there and the ones its own
      edges add. */
  ghost predicate ListsAllEdges(s: State, f: Fetch, guard: Guard, g: string) {
    forall to :: to in LabelsUnder(f.data, g) <==> Edge(g, s.e.id, to) in s.edges || PluginLinks(s, f, guard, g, to)
  }

  /** One re-ingest, exactly, for any field and whatever was there before. */
  lemma ReingestAgreesIff(kindGaps: Specs, s: State, f: Fetch, guard: Guard, s': State, g: string)
    requires Follows(kindGaps, s, DoIngest(f, guard), s')
    ensures Agrees(s'.e.fill, s'.edges, s.e.id, g) <==> ListsAllEdges(s, f, guard, g)
  {
    assert StoredLabels(s'.e.fill, g) == LabelsUnder(f.data, g);
    forall to
      ensures Edge(g, s.e.id, to) in s'.edges <==> Edge(g, s.e.id, to) in s.edges || PluginLinks(s, f, guard, g, to)
    {
      IngestedEdgeIff(s, f, guard, g, to);
    }
  }

  /** From agreement: the new list must be the old one and whatever the plugin's edges add. */
  lemma ReingestKeepsAgreementIff(kindGaps: Specs, s: State, f: Fetch, guard: Guard, s': State, g: string)
    requires Follows(kindGaps, s, DoIngest(f, guard), s') && Agrees(s.e.fill, s.edges, s.e.id, g)
    ensures Agrees(s'.e.fill, s'.edges, s.e.id, g) <==>
            forall to :: to in LabelsUnder(f.data, g) <==>
              to in LabelsUnder(s.e.fill.data, g) || PluginLinks(s, f, guard, g, to)
  {
    ReingestAgreesIff(kindGaps, s, f, guard, s', g);
    assert forall to :: Edge(g, s.e.id, to) in s.edges <==> to in StoredLabels(s.e.fill, g);
    assert StoredLabels(s.e.fill, g) == LabelsUnder(s.e.fill.data, g);
  }

  /** A plugin that sends neither data nor edges: the gap is open again, as it should be, and its edge
      is still there. */
  lemma StaleEdgeWitness(s: State, f: Fetch, guard: Guard, s': State)
    requires s.e.fill == Fillable(map["l" := VStrs(["k:x"])], "", [], [], map[]) &&
               s.edges == {Edge("l", s.e.id, "k:x")}
    requires f.data == map[] && f.gaps == ["l"] && f.edges == None
    requires Follows(map["l" := LINK_SPEC], s, DoIngest(f, guard), s')
    ensures CleanFetch(map["l" := LINK_SPEC], Some(s.e), f)
    ensures Agrees(s.e.fill, s.edges, s.e.id, "l") && !Agrees(s'.e.fill, s'.edges, s.e.id, "l")
  {
    assert f.gaps[0] == "l";
    assert StoredLabels(s.e.fill, "l")[0] == "k:x";
    ReingestAgreesIff(map["l" := LINK_SPEC], s, f, guard, s', "l");
    assert Edge("l", s.e.id, "k:x") in s.edges;
  }

  /** A plugin edge of the gap's name, to a label the file does not list. */
  lemma PluginEdgeWitness(s: State, f: Fetch, guard: Guard, s': State)
    requires s.e.id != "" && s.e.fill == Fillable(map[], "", [], ["l"], map[]) && s.edges == {} && "k:x" in s.rows
    requires f.data == map[] && f.gaps == ["l"] && f.edges == Some([Some(Edge("l", s.e.id, "k:x"))]) &&
               "l" in guard.types
    requires Follows(map["l" := LINK_SPEC], s, DoIngest(f, guard), s')
    ensures Agrees(s.e.fill, s.edges, s.e.id, "l") && !Agrees(s'.e.fill, s'.edges, s.e.id, "l")
  {
    assert Persist.CandidatesOf(f)[0] == Some(Edge("l", s.e.id, "k:x"));
    ReingestAgreesIff(map["l" := LINK_SPEC], s, f, guard, s', "l");
    assert PluginLinks(s, f, guard, "l", "k:x");
  }

  // ---------------------------------------------------------------- one fill, any gap

  /** The op stores or removes the field's value. */
  predicate Stores(op: Op, g: string) {
    op.field == g && (op.OpSet? || op.OpClear?)
  }

  /** The call leaves list and edges of g together: it does not store the field, or it stores it as
      canonical_type and its stage got past the op, or stopped before it with the new labels already
      linked, or it stores it as anything else and there are no edges to go stale. */
  ghost predicate CallKeeps(edges: set<Edge>, id: string, ops: seq<Op>, gaps: Specs, g: string) {
    forall i: nat :: i < |ops| && Stores(ops[i], g) ==>
      if IsCanonical(gaps, g) then
        i < StopFrom(ops, gaps, 0) || (i > StopFrom(ops, gaps, 0) && Labelled(edges, id, g, Entries(ops[i])))
      else NoEdges(edges, id, g)
  }

  ghost predicate NoEdges(edges: set<Edge>, id: string, g: string) {
    forall to :: Edge(g, id, to) !in edges
  }

  /** An accepted value of a field that is not canonical_type is no list of labels. */
  lemma UntypedStoresNoLabels(kindGaps: Specs, v: Fillable, call: Call, ops: seq<Op>, i: nat, gaps: Specs)
    requires gaps == Effective(kindGaps, v.gapState) && Accepted(kindGaps, v, call, ops)
    requires i < |ops| && Stores(ops[i], ops[i].field) && !IsCanonical(gaps, ops[i].field) && !Reserved(ops[i].field)
    ensures StoredLabels(After(kindGaps, v, call, ops), ops[i].field) == []
  {
    var ctx, g := ContextOf(kindGaps, v, call), ops[i].field;
    ParsedFieldsDiffer(ctx, call.req, ops);
    assert ops[i] in ops;
    assert ParseField(ctx, g, call.req[g]) == Ok(ops[i]);
    ApplyOpsHere(v, ops, call.now, gaps, i);
    assert At(After(kindGaps, v, call, ops), g).value == At(ApplyOp(v, ops[i], call.now, gaps), g).value;
    if ops[i].OpSet? {
      UntypedValue(ctx, g, call.req[g]);
    }
  }

  lemma UntypedValue(ctx: Context, g: string, raw: Raw)
    requires ParseField(ctx, g, raw).Ok? && ParseField(ctx, g, raw).value.OpSet?
    requires SpecOf(ctx.gaps, g).typ != CANONICAL_TYPE && !Reserved(g)
    ensures var value := ParseField(ctx, g, raw).value.value; value.Scalar? && !value.v.VStrs?
  {
  }

  /** A call that does not touch the edges of g leaves them as they are. */
  lemma UntypedKeepsEdges(edges: set<Edge>, id: string, ops: seq<Op>, gaps: Specs, g: string)
    requires !IsCanonical(gaps, g)
    ensures forall to :: Edge(g, id, to) in StageEdges(edges, id, ops, gaps) <==> Edge(g, id, to) in edges
  {
    forall to ensures Edge(g, id, to) in StageEdges(edges, id, ops, gaps) <==> Edge(g, id, to) in edges {
      StageEdgesElsewhere(edges, id, ops, gaps, Edge(g, id, to));
    }
  }

  lemma UntypedAgreesIff(kindGaps: Specs, v: Fillable, call: Call, ops: seq<Op>, edges: set<Edge>, id: string,
                         g: string, gaps: Specs, i: nat)
    requires gaps == Effective(kindGaps, v.gapState) && Accepted(kindGaps, v, call, ops)
    requires i < |ops| && Stores(ops[i], g) && !IsCanonical(gaps, g) && !Reserved(g)
    ensures Agrees(After(kindGaps, v, call, ops), StageEdges(edges, id, ops, gaps), id, g) <==> NoEdges(edges, id, g)
  {
    UntypedStoresNoLabels(kindGaps, v, call, ops, i, gaps);
    UntypedKeepsEdges(edges, id, ops, gaps, g);
  }

  lemma UnstoredAgreesIff(kindGaps: Specs, v: Fillable, call: Call, ops: seq<Op>, edges: set<Edge>, id: string,
                          g: string, gaps: Specs)
    requires gaps == Effective(kindGaps, v.gapState) && Accepted(kindGaps, v, call, ops)
    requires forall i: nat :: i < |ops| ==> !Stores(ops[i], g)
    ensures Agrees(After(kindGaps, v, call, ops), StageEdges(edges, id, ops, gaps), id, g) <==> Agrees(v, edges, id, g)
  {
    UnstoredKeepsLabels(kindGaps, v, call, ops, g, gaps);
    forall to ensures Edge(g, id, to) in StageEdges(edges, id, ops, gaps) <==> Edge(g, id, to) in edges {
      StageEdgesElsewhere(edges, id, ops, gaps, Edge(g, id, to));
    }
    AgreesLocal(v, After(kindGaps, v, call, ops), edges, StageEdges(edges, id, ops, gaps), id, g);
  }

  lemma UnstoredKeepsLabels(kindGaps: Specs, v: Fillable, call: Call, ops: seq<Op>, g: string, gaps: Specs)
    requires gaps == Effective(kindGaps, v.gapState) && Accepted(kindGaps, v, call, ops)
    requires forall i: nat :: i < |ops| ==> !Stores(ops[i], g)
    ensures StoredLabels(After(kindGaps, v, call, ops), g) == StoredLabels(v, g)
  {
    ParsedFieldsDiffer(ContextOf(kindGaps, v, call), call.req, ops);
    OpsKeepLabels(v, ops, call.now, gaps, g);
  }

  lemma OpsKeepLabels(v: Fillable, ops: seq<Op>, now: int, gaps: Specs, g: string)
    requires DistinctBy(ops, OpField) && forall i: nat :: i < |ops| ==> !Stores(ops[i], g)
    ensures StoredLabels(ApplyOps(v, ops, now, gaps), g) == StoredLabels(v, g)
  {
    var w := ApplyOps(v, ops, now, gaps);
    if i: nat :| i < |ops| && ops[i].field == g {
      ApplyOpsHere(v, ops, now, gaps, i);
      assert At(w, g).value == At(ApplyOp(v, ops[i], now, gaps), g).value;
    } else {
      ApplyOpsElsewhere(v, ops, now, gaps, g);
      assert At(w, g).value == At(v, g).value;
    }
    SameValueSameLabels(v, w, g);
  }

  lemma SameValueSameLabels(v: Fillable, w: Fillable, g: string)
    requires At(w, g).value == At(v, g).value
    ensures StoredLabels(w, g) == StoredLabels(v, g)
  {
  }

  /** One accepted call and any field under an ordinary name, whatever it is typed as and whatever the
      stage did. */
  lemma CallKeepsIff(kindGaps: Specs, v: Fillable, call: Call, ops: seq<Op>, edges: set<Edge>, id: string, g: string,
                     gaps: Specs)
    requires gaps == Effective(kindGaps, v.gapState) && Accepted(kindGaps, v, call, ops)
    requires !Reserved(g) && Agrees(v, edges, id, g)
    ensures Agrees(After(kindGaps, v, call, ops), StageEdges(edges, id, ops, gaps), id, g) <==>
            CallKeeps(edges, id, ops, gaps, g)
  {
    if i: nat :| i < |ops| && Stores(ops[i], g) {
      ParsedFieldsDiffer(ContextOf(kindGaps, v, call), call.req, ops);
      forall j: nat | j < |ops| && Stores(ops[j], g) ensures j == i {
        if j != i { OpsDiffer(ops, i, j); }
      }
      if IsCanonical(gaps, g) {
        ReplacedGapAgreesIff(kindGaps, v, call, ops, edges, id, g, gaps, i);
      } else {
        UntypedAgreesIff(kindGaps, v, call, ops, edges, id, g, gaps, i);
      }
    } else {
      UnstoredAgreesIff(kindGaps, v, call, ops, edges, id, g, gaps);
    }
  }

  // ---------------------------------------------------------------- runs

  ghost predicate StepKeeps(kindGaps: Specs, s: State, step: Step, g: string) {
    match step
    case DoFill(_, ops, _) => CallKeeps(s.edges, s.e.id, ops, Effective(kindGaps, s.e.fill.gapState), g)
    case DoIngest(f, guard) => ListsAllEdges(s, f, guard, g)
  }

  ghost predicate AgreesOn(fields: set<string>, s: State) {
    forall g :: g in fields ==> Agrees(s.e.fill, s.edges, s.e.id, g)
  }

  lemma StepKeepsIff(kindGaps: Specs, s: State, step: Step, s': State, g: string)
    requires Follows(kindGaps, s, step, s') && !Reserved(g) && Agrees(s.e.fill, s.edges, s.e.id, g)
    ensures s'.e.id == s.e.id
    ensures Agrees(s'.e.fill, s'.edges, s'.e.id, g) <==> StepKeeps(kindGaps, s, step, g)
  {
    match step
    case DoFill(call, ops, _) =>
      CallKeepsIff(kindGaps, s.e.fill, call, ops, s.edges, s.e.id, g, Effective(kindGaps, s.e.fill.gapState));
    case DoIngest(f, guard) => ReingestAgreesIff(kindGaps, s, f, guard, s', g);
  }

  ghost predicate AgreesAllAlong(fields: set<string>, states: seq<State>, n: nat)
    requires n < |states|
  {
    AgreesOn(fields, states[n]) && (n > 0 ==> AgreesAllAlong(fields, states, n - 1))
  }

  ghost predicate KeepsAllAlong(kindGaps: Specs, fields: set<string>, states: seq<State>, steps: seq<Step>, n: nat)
    requires n <= |steps| && n <= |states|
  {
    n > 0 ==>
      && (forall g :: g in fields ==> StepKeeps(kindGaps, states[n - 1], steps[n - 1], g))
      && KeepsAllAlong(kindGaps, fields, states, steps, n - 1)
  }

  lemma StepKeepsFieldsIff(kindGaps: Specs, fields: set<string>, s: State, step: Step, s': State)
    requires Follows(kindGaps, s, step, s') && (forall g :: g in fields ==> !Reserved(g)) && AgreesOn(fields, s)
    ensures AgreesOn(fields, s') <==> forall g :: g in fields ==> StepKeeps(kindGaps, s, step, g)
  {
    forall g | g in fields ensures Agrees(s'.e.fill, s'.edges, s'.e.id, g) <==> StepKeeps(kindGaps, s, step, g) {
      StepKeepsIff(kindGaps, s, step, s', g);
    }
  }

  /** Over any mix of accepted fills and re-ingests, with any stage stopping and any workflow retyping,
      for any set of ordinary fields, exactly: edges and stored labels agree all along if and only if
      every step keeps them together. */
  lemma {:induction false} AgreementOverMixedRunIff(kindGaps: Specs, fields: set<string>, states: seq<State>,
                                                    steps: seq<Step>, n: nat)
    requires Run(kindGaps, states, steps) && n < |states|
    requires (forall g :: g in fields ==> !Reserved(g)) && AgreesOn(fields, states[0])
    ensures AgreesAllAlong(fields, states, n) <==> KeepsAllAlong(kindGaps, fields, states, steps, n)
  {
    if n == 0 {
    } else {
      AgreementOverMixedRunIff(kindGaps, fields, states, steps, n - 1);
      RunFollows(kindGaps, states, steps, n - 1);
      if AgreesOn(fields, states[n - 1]) {
        StepKeepsFieldsIff(kindGaps, fields, states[n - 1], steps[n - 1], states[n]);
      }
    }
  }

  // ---------------------------------------------------------------- the registered gaps, by request

  function Registered(kindGaps: Specs): set<string> {
    set g | g in kindGaps && kindGaps[g].typ == CANONICAL_TYPE
  }

  /** A condition on what is sent: no fill names a label that slugs to nothing, and every fetch lists
      the edges there are and the ones it adds. */
  ghost predicate SoundStep(kindGaps: Specs, s: State, step: Step) {
    match step
    case DoFill(call, _, _) => Sluggable(kindGaps, call)
    case DoIngest(f, guard) => forall g :: g in Registered(kindGaps) ==> ListsAllEdges(s, f, guard, g)
  }

  ghost predicate SoundAllAlong(kindGaps: Specs, states: seq<State>, steps: seq<Step>, n: nat)
    requires n <= |steps| && n <= |states|
  {
    n > 0 ==> SoundStep(kindGaps, states[n - 1], steps[n - 1]) && SoundAllAlong(kindGaps, states, steps, n - 1)
  }

  /** Kind names hold no colon, at any fill of the run. */
  ghost predicate PlainRun(kindGaps: Specs, states: seq<State>, steps: seq<Step>, n: nat)
    requires n <= |steps| && n <= |states|
  {
    n > 0 ==>
      && (steps[n - 1].DoFill? ==>
            PlainKinds(Effective(kindGaps, states[n - 1].e.fill.gapState), steps[n - 1].call.allKinds))
      && PlainRun(kindGaps, states, steps, n - 1)
  }

  lemma AllAgreeIsAgreesOn(kindGaps: Specs, s: State)
    ensures AllAgree(kindGaps, s.e.fill, s.edges, s.e.id) <==> AgreesOn(Registered(kindGaps), s)
  {
  }

  /** A re-ingest drops every workflow shape. */
  lemma StepKeepsOnlyRegistered(kindGaps: Specs, s: State, step: Step, s': State)
    requires Follows(kindGaps, s, step, s') && OnlyRegistered(kindGaps, s.e.fill)
    ensures OnlyRegistered(kindGaps, s'.e.fill)
  {
    match step
    case DoFill(call, ops, _) => CallKeepsOnlyRegistered(kindGaps, s.e.fill, call, ops);
    case DoIngest(_, _) =>
      forall g ensures IsCanonical(Effective(kindGaps, s'.e.fill.gapState), g) <==> IsCanonical(kindGaps, g) {
        NoShapeConfigType(kindGaps, s'.e.fill, g);
      }
  }

  lemma SoundStepIff(kindGaps: Specs, s: State, step: Step, s': State)
    requires Follows(kindGaps, s, step, s') && OnlyRegistered(kindGaps, s.e.fill)
    requires AgreesOn(Registered(kindGaps), s)
    requires step.DoFill? ==> PlainKinds(Effective(kindGaps, s.e.fill.gapState), step.call.allKinds)
    ensures AgreesOn(Registered(kindGaps), s') <==> SoundStep(kindGaps, s, step)
  {
    match step
    case DoFill(call, ops, _) =>
      AllAgreeIsAgreesOn(kindGaps, s);
      AllAgreeIsAgreesOn(kindGaps, s');
      AgreementStepIff(kindGaps, s.e.fill, call, ops, s.edges, s.e.id);
    case DoIngest(f, guard) =>
      assert forall g :: g in Registered(kindGaps) ==> IsCanonical(kindGaps, g) && !Reserved(g);
      StepKeepsFieldsIff(kindGaps, Registered(kindGaps), s, step, s');
  }

  /** The same for the registered canonical gaps in terms of what callers and plugins send. */
  lemma {:induction false} RegisteredOverMixedRunIff(kindGaps: Specs, states: seq<State>, steps: seq<Step>, n: nat)
    requires Run(kindGaps, states, steps) && n < |states| && PlainRun(kindGaps, states, steps, n)
    requires OnlyRegistered(kindGaps, states[0].e.fill) && AgreesOn(Registered(kindGaps), states[0])
    ensures OnlyRegistered(kindGaps, states[n].e.fill)
    ensures AgreesAllAlong(Registered(kindGaps), states, n) <==> SoundAllAlong(kindGaps, states, steps, n)
  {
    if n == 0 {
    } else {
      RegisteredOverMixedRunIff(kindGaps, states, steps, n - 1);
      RunFollows(kindGaps, states, steps, n - 1);
      StepKeepsOnlyRegistered(kindGaps, states[n - 1], steps[n - 1], states[n]);
      if AgreesOn(Registered(kindGaps), states[n - 1]) {
        SoundStepIff(kindGaps, states[n - 1], steps[n - 1], states[n]);
      }
    }
  }

  // ---------------------------------------------------------------- rows and other edges

  lemma StepKeepsTables(kindGaps: Specs, s: State, step: Step, s': State)
    requires Follows(kindGaps, s, step, s') && Grounded(s.edges, s.rows)
    ensures Grounded(s'.edges, s'.rows) && s'.e.id == s.e.id
    ensures forall x :: x in s.rows ==> x in s'.rows && (x != s.e.id ==> s'.rows[x] == s.rows[x])
    ensures forall e: Edge :: e.from != s.e.id && e in s.edges ==> e in s'.edges
  {
    match step
    case DoFill(call, ops, _) =>
      var gaps := Effective(kindGaps, s.e.fill.gapState);
      forall e | e in s'.edges ensures e.to in s'.rows {
        StageEdgesTargets(s.edges, s.e.id, ops, gaps, e);
      }
      forall e: Edge | e.from != s.e.id && e in s.edges ensures e in s'.edges {
        OtherEdgesUntouched(s.edges, s.e.id, ops, gaps, e);
      }
    case DoIngest(f, guard) =>
      forall e | e in Persist.IngestedEdges(s.rows, f, guard) ensures e.to in s'.rows {
        LandedMembers(Persist.CandidatesOf(f), s'.rows, guard, e);
      }
  }

  /** Over any such run every edge keeps a row to point at, the rows of other entities stay as they
      were, and no edge of another entity is lost. */
  lemma {:induction false} TablesOverMixedRun(kindGaps: Specs, states: seq<State>, steps: seq<Step>, n: nat)
    requires Run(kindGaps, states, steps) && n < |states| && Grounded(states[0].edges, states[0].rows)
    ensures Grounded(states[n].edges, states[n].rows) && states[n].e.id == states[0].e.id
    ensures forall x :: x in states[0].rows ==>
              x in states[n].rows && (x != states[0].e.id ==> states[n].rows[x] == states[0].rows[x])
    ensures forall e: Edge :: e.from != states[0].e.id && e in states[0].edges ==> e in states[n].edges
  {
    if n == 0 {
    } else {
      TablesOverMixedRun(kindGaps, states, steps, n - 1);
      RunFollows(kindGaps, states, steps, n - 1);
      StepKeepsTables(kindGaps, states[n - 1], steps[n - 1], states[n]);
    }
  }
}
