/** The derived edge set of a canonical_type gap agrees with the label list stored in the file. */
module IndexAgreement {
  import opened Base
  import opened Vault
  import opened Store
  import opened GapSpecs
  import opened Fill
  import opened GapLifecycle
  import opened FillEdges
  import FillHandler

  function LabelsUnder(data: map<string, Value>, g: string): seq<string> {
    if g in data && data[g].VStrs? then data[g].items else []
  }

  function StoredLabels(v: Fillable, g: string): seq<string> {
    LabelsUnder(v.data, g)
  }

  /** The edges (entity, g, *) are exactly the stored labels. */
  ghost predicate Agrees(v: Fillable, edges: set<Edge>, id: string, g: string) {
    forall to :: Edge(g, id, to) in edges <==> to in StoredLabels(v, g)
  }

  /** A gap the operator registered as canonical_type, under an ordinary data key. */
  predicate CanonicalGap(kindGaps: Specs, g: string) {
    IsCanonical(kindGaps, g) && !Reserved(g)
  }

  /** No workflow retypes the gap. */
  predicate NotRetyped(v: Fillable, g: string) {
    g in v.gapState ==> v.gapState[g].shape.typ == "" || v.gapState[g].shape.typ == CANONICAL_TYPE
  }

  lemma {:induction false} EdgesElsewhere(edges: set<Edge>, id: string, ops: seq<Op>, gaps: Specs, n: nat, e: Edge)
    requires n <= |ops| && forall i :: 0 <= i < n && TouchesEdges(ops[i], gaps) ==>
               e.from != id || e.typ != ops[i].field
    ensures e in EdgesAfter(edges, id, ops, gaps, n) <==> e in edges
  {
    if n == 0 {
    } else {
      EdgesElsewhere(edges, id, ops, gaps, n - 1, e);
      EdgesToAbout(id, ops[n - 1].field, Entries(ops[n - 1]), |Entries(ops[n - 1])|, e);
    }
  }

  lemma {:induction false} EdgesHere(edges: set<Edge>, id: string, ops: seq<Op>, gaps: Specs, n: nat, i: nat,
                                     to: string)
    requires i < n <= |ops| && DistinctBy(ops, OpField) && TouchesEdges(ops[i], gaps)
    ensures Edge(ops[i].field, id, to) in EdgesAfter(edges, id, ops, gaps, n) <==>
            exists k :: 0 <= k < |Entries(ops[i])| && Entries(ops[i])[k].id == to
  {
    var e, last := Edge(ops[i].field, id, to), ops[n - 1];
    EdgesToAbout(id, last.field, Entries(last), |Entries(last)|, e);
    if i < n - 1 {
      assert OpField(ops[i]) != OpField(last);
      EdgesHere(edges, id, ops, gaps, n - 1, i, to);
    }
  }

  lemma StoredAfter(v: Fillable, op: Op, now: int, gaps: Specs, w: Fillable, to: string)
    requires TouchesEdges(op, gaps) && op.field != "summary" && op.field != "tags"
    requires op.OpSet? ==> op.value.Labels?
    requires At(w, op.field) == At(ApplyOp(v, op, now, gaps), op.field)
    ensures to in StoredLabels(w, op.field) <==> exists k :: 0 <= k < |Entries(op)| && Entries(op)[k].id == to
  {
    if op.OpSet? {
      var ids := Ids(op.value.entries);
      assert At(w, op.field).value == Some(VStrs(ids));
      assert forall k :: 0 <= k < |ids| ==> ids[k] == Entries(op)[k].id;
      if to in ids {
        var k :| 0 <= k < |ids| && ids[k] == to;
      }
    } else {
      assert At(w, op.field).value == None;
    }
  }

  // ---------------------------------------------------------------- one call

  /** The stage's own table, edge by edge: the op it stops at has its labels up to the first
      malformed one, everything else is as the ops before left it. */
  lemma StageEdgesAt(edges: set<Edge>, id: string, ops: seq<Op>, gaps: Specs, e: Edge)
    ensures var k := StopFrom(ops, gaps, 0);
            if k < |ops| && e.from == id && e.typ == ops[k].field then
              e in StageEdges(edges, id, ops, gaps) <==>
                exists j :: 0 <= j < GoodFrom(Entries(ops[k]), 0) && Entries(ops[k])[j].id == e.to
            else
              e in StageEdges(edges, id, ops, gaps) <==> e in EdgesAfter(edges, id, ops, gaps, k)
  {
    var k := StopFrom(ops, gaps, 0);
    if k < |ops| {
      EdgesToAbout(id, ops[k].field, Entries(ops[k]), GoodFrom(Entries(ops[k]), 0), e);
    }
  }

  /** The edges (entity, g, *) in the table are those to these labels. */
  ghost predicate Labelled(edges: set<Edge>, id: string, g: string, entries: seq<LabelEntry>) {
    forall to :: Edge(g, id, to) in edges <==> exists j :: 0 <= j < |entries| && entries[j].id == to
  }

  /** Where the op that replaces g's edges stands, if there is one. */
  ghost predicate ReplacedAt(ops: seq<Op>, gaps: Specs, g: string, i: nat) {
    i < |ops| && ops[i].field == g && TouchesEdges(ops[i], gaps)
  }

  lemma StageEdgesHere(edges: set<Edge>, id: string, ops: seq<Op>, gaps: Specs, g: string, i: nat)
    requires DistinctBy(ops, OpField) && ReplacedAt(ops, gaps, g, i)
    ensures i < StopFrom(ops, gaps, 0) ==> Labelled(StageEdges(edges, id, ops, gaps), id, g, Entries(ops[i]))
    ensures i > StopFrom(ops, gaps, 0) ==>
              forall to :: Edge(g, id, to) in StageEdges(edges, id, ops, gaps) <==> Edge(g, id, to) in edges
  {
    var k := StopFrom(ops, gaps, 0);
    if k < |ops| && k != i { OpsDiffer(ops, k, i); }
    forall to
      ensures i < k ==> (Edge(g, id, to) in StageEdges(edges, id, ops, gaps) <==>
                         exists j :: 0 <= j < |Entries(ops[i])| && Entries(ops[i])[j].id == to)
      ensures i > k ==> (Edge(g, id, to) in StageEdges(edges, id, ops, gaps) <==> Edge(g, id, to) in edges)
    {
      StageEdgesAt(edges, id, ops, gaps, Edge(g, id, to));
      if i < k {
        EdgesHere(edges, id, ops, gaps, k, i, to);
      } else if i > k {
        forall m | 0 <= m < k ensures ops[m].field != g { OpsDiffer(ops, m, i); }
        EdgesElsewhere(edges, id, ops, gaps, k, Edge(g, id, to));
      }
    }
  }

  lemma OpsDiffer(ops: seq<Op>, i: nat, j: nat)
    requires DistinctBy(ops, OpField) && i < |ops| && j < |ops| && i != j
    ensures ops[i].field != ops[j].field
  {
    assert OpField(ops[i]) != OpField(ops[j]);
  }

  lemma StageEdgesElsewhere(edges: set<Edge>, id: string, ops: seq<Op>, gaps: Specs, e: Edge)
    requires e.from == id ==> forall i: nat :: !ReplacedAt(ops, gaps, e.typ, i)
    ensures e in StageEdges(edges, id, ops, gaps) <==> e in edges
  {
    var k := StopFrom(ops, gaps, 0);
    StageEdgesAt(edges, id, ops, gaps, e);
    assert k < |ops| && e.from == id ==> !ReplacedAt(ops, gaps, e.typ, k);
    forall i | 0 <= i < k && TouchesEdges(ops[i], gaps) ensures e.from != id || e.typ != ops[i].field {
      assert e.from == id ==> !ReplacedAt(ops, gaps, e.typ, i);
    }
    EdgesElsewhere(edges, id, ops, gaps, k, e);
  }

  /** What the file stores for g after its op, and that no workflow shape is left on it. */
  lemma StoredHere(v: Fillable, ops: seq<Op>, now: int, gaps: Specs, g: string, i: nat)
    requires DistinctBy(ops, OpField) && ReplacedAt(ops, gaps, g, i) && !Reserved(g)
    requires ops[i].OpSet? ==> ops[i].value.Labels?
    ensures var w := ApplyOps(v, ops, now, gaps);
            NotRetyped(w, g)
            && forall to :: to in StoredLabels(w, g) <==>
                exists j :: 0 <= j < |Entries(ops[i])| && Entries(ops[i])[j].id == to
  {
    var w := ApplyOps(v, ops, now, gaps);
    ApplyOpsHere(v, ops, now, gaps, i);
    assert At(w, g).state == At(ApplyOp(v, ops[i], now, gaps), g).state;
    forall to
      ensures to in StoredLabels(w, g) <==> exists j :: 0 <= j < |Entries(ops[i])| && Entries(ops[i])[j].id == to
    {
      StoredAfter(v, ops[i], now, gaps, w, to);
    }
  }

  /** At the stop the list holds a label the table cannot. */
  lemma StopDisagrees(edges: set<Edge>, id: string, ops: seq<Op>, gaps: Specs, w: Fillable)
    requires var k := StopFrom(ops, gaps, 0);
             k < |ops| && ops[k].value.Labels?
             && forall to :: to in StoredLabels(w, ops[k].field) <==>
                             exists j :: 0 <= j < |Entries(ops[k])| && Entries(ops[k])[j].id == to
    ensures !Agrees(w, StageEdges(edges, id, ops, gaps), id, ops[StopFrom(ops, gaps, 0)].field)
  {
    var k := StopFrom(ops, gaps, 0);
    var entries := Entries(ops[k]);
    var n := GoodFrom(entries, 0);
    assert n < |entries|;
    var to := entries[n].id;
    assert to in StoredLabels(w, ops[k].field);
    StageEdgesAt(edges, id, ops, gaps, Edge(ops[k].field, id, to));
    assert forall j :: 0 <= j < n ==> LabelKind(entries[j].id).Some?;
    assert Edge(ops[k].field, id, to) !in StageEdges(edges, id, ops, gaps);
  }

  /** One accepted call and a gap, canonical under the call's specs, whose edges it replaces. If the
      op came before the stage's stop, list and edges agree, whatever was there before; if the
      stage stopped at it, they do not; if it came after, they agree only when the new labels
      happen to be the edges that were there. */
  lemma ReplacedGapAgreesIff(kindGaps: Specs, v: Fillable, call: Call, ops: seq<Op>, edges: set<Edge>, id: string,
                             g: string, gaps: Specs, i: nat)
    requires gaps == Effective(kindGaps, v.gapState) && Accepted(kindGaps, v, call, ops)
    requires ReplacedAt(ops, gaps, g, i) && !Reserved(g)
    ensures NotRetyped(After(kindGaps, v, call, ops), g)
    ensures Agrees(After(kindGaps, v, call, ops), StageEdges(edges, id, ops, gaps), id, g) <==>
            i < StopFrom(ops, gaps, 0) || (i > StopFrom(ops, gaps, 0) && Labelled(edges, id, g, Entries(ops[i])))
  {
    var w := After(kindGaps, v, call, ops);
    ParsedFieldsDiffer(ContextOf(kindGaps, v, call), call.req, ops);
    AcceptedLabels(kindGaps, v, call, ops, i);
    StoredHere(v, ops, call.now, gaps, g, i);
    StageEdgesHere(edges, id, ops, gaps, g, i);
    if i == StopFrom(ops, gaps, 0) {
      StopDisagrees(edges, id, ops, gaps, w);
    } else if i > StopFrom(ops, gaps, 0) {
      SameLabelsIff(w, StageEdges(edges, id, ops, gaps), edges, id, g, Entries(ops[i]));
    }
  }

  lemma SameLabelsIff(w: Fillable, after: set<Edge>, before: set<Edge>, id: string, g: string, entries: seq<LabelEntry>)
    requires forall to :: Edge(g, id, to) in after <==> Edge(g, id, to) in before
    requires forall to :: to in StoredLabels(w, g) <==> exists j :: 0 <= j < |entries| && entries[j].id == to
    ensures Agrees(w, after, id, g) <==> Labelled(before, id, g, entries)
  {
  }

  /** An accepted set op of a canonical field carries labels. */
  lemma AcceptedLabels(kindGaps: Specs, v: Fillable, call: Call, ops: seq<Op>, i: nat)
    requires Accepted(kindGaps, v, call, ops) && i < |ops| && IsCanonical(Effective(kindGaps, v.gapState), ops[i].field)
    ensures ops[i].field in call.req &&
              ParseField(ContextOf(kindGaps, v, call), ops[i].field, call.req[ops[i].field]) == Ok(ops[i])
    ensures ops[i].OpSet? ==> ops[i].value.Labels?
  {
    assert ops[i] in ops;
  }

  /** A call that does not replace g's edges does not change its value either. */
  lemma ValueUntouched(kindGaps: Specs, v: Fillable, call: Call, ops: seq<Op>, g: string)
    requires IsCanonical(Effective(kindGaps, v.gapState), g) && Accepted(kindGaps, v, call, ops)
    requires forall i: nat :: !ReplacedAt(ops, Effective(kindGaps, v.gapState), g, i)
    ensures At(After(kindGaps, v, call, ops), g).value == At(v, g).value
    ensures NotRetyped(v, g) ==> NotRetyped(After(kindGaps, v, call, ops), g)
  {
    var gaps := Effective(kindGaps, v.gapState);
    ParsedFieldsDiffer(ContextOf(kindGaps, v, call), call.req, ops);
    if i :| 0 <= i < |ops| && ops[i].field == g {
      assert !ReplacedAt(ops, gaps, g, i);
      ApplyOpsHere(v, ops, call.now, gaps, i);
      assert At(After(kindGaps, v, call, ops), g).state == At(ApplyOp(v, ops[i], call.now, gaps), g).state;
    } else {
      ApplyOpsElsewhere(v, ops, call.now, gaps, g);
      assert At(After(kindGaps, v, call, ops), g).state == At(v, g).state;
    }
  }

  /** And one it leaves alone: it agrees if and only if it did. */
  lemma UntouchedGapAgreesIff(kindGaps: Specs, v: Fillable, call: Call, ops: seq<Op>, edges: set<Edge>, id: string,
                              g: string, gaps: Specs)
    requires gaps == Effective(kindGaps, v.gapState) && Accepted(kindGaps, v, call, ops)
    requires IsCanonical(gaps, g) && forall i: nat :: !ReplacedAt(ops, gaps, g, i)
    ensures NotRetyped(v, g) ==> NotRetyped(After(kindGaps, v, call, ops), g)
    ensures Agrees(After(kindGaps, v, call, ops), StageEdges(edges, id, ops, gaps), id, g) <==> Agrees(v, edges, id, g)
  {
    var w := After(kindGaps, v, call, ops);
    ValueUntouched(kindGaps, v, call, ops, g);
    assert StoredLabels(w, g) == StoredLabels(v, g);
    forall to ensures Edge(g, id, to) in StageEdges(edges, id, ops, gaps) <==> Edge(g, id, to) in edges {
      StageEdgesElsewhere(edges, id, ops, gaps, Edge(g, id, to));
    }
  }

  /** Edges of other entities, and edges of types that are no canonical gap of this one, never
      change, whether the stage runs through or stops. */
  lemma OtherEdgesUntouched(edges: set<Edge>, id: string, ops: seq<Op>, gaps: Specs, e: Edge)
    requires e.from != id || !IsCanonical(gaps, e.typ)
    ensures e in StageEdges(edges, id, ops, gaps) <==> e in edges
  {
    StageEdgesElsewhere(edges, id, ops, gaps, e);
  }

  /** One accepted call on a registered canonical_type gap no workflow retyped, in agreement before. */
  lemma FillKeepsAgreementIff(kindGaps: Specs, v: Fillable, call: Call, ops: seq<Op>, edges: set<Edge>, id: string,
                              g: string, gaps: Specs)
    requires gaps == Effective(kindGaps, v.gapState) && Accepted(kindGaps, v, call, ops)
    requires CanonicalGap(kindGaps, g) && NotRetyped(v, g) && Agrees(v, edges, id, g)
    ensures NotRetyped(After(kindGaps, v, call, ops), g)
    ensures Agrees(After(kindGaps, v, call, ops), StageEdges(edges, id, ops, gaps), id, g) <==>
            forall i: nat :: ReplacedAt(ops, gaps, g, i) ==>
              i < StopFrom(ops, gaps, 0) || (i > StopFrom(ops, gaps, 0) && Labelled(edges, id, g, Entries(ops[i])))
  {
    assert IsCanonical(gaps, g);
    if i :| ReplacedAt(ops, gaps, g, i) {
      ReplacedGapAgreesIff(kindGaps, v, call, ops, edges, id, g, gaps, i);
      ParsedFieldsDiffer(ContextOf(kindGaps, v, call), call.req, ops);
      forall j | ReplacedAt(ops, gaps, g, j) ensures j == i {
        if j != i { OpsDiffer(ops, i, j); }
      }
    } else {
      UntouchedGapAgreesIff(kindGaps, v, call, ops, edges, id, g, gaps);
    }
  }

  // ---------------------------------------------------------------- when the edge stage runs

  predicate ColonFree(k: string) {
    forall i :: 0 <= i < |k| ==> k[i] != ':'
  }

  lemma {:induction false} ParsedLabels(items: seq<Item>, kinds: set<string>)
    requires ParseLabels(items, kinds).Ok?
    ensures |ParseLabels(items, kinds).value| == |items|
    ensures forall i :: 0 <= i < |items| ==> ParseLabel(items[i], kinds) == Ok(ParseLabels(items, kinds).value[i])
  {
    if items == [] {
    } else {
      ParsedLabels(items[1..], kinds);
    }
  }

  /** The parser accepts a name whose slug is empty; the edge stage, which runs after the file
      is written, then fails. It runs through exactly when no accepted name slugs to nothing. */
  lemma {:induction false} AcceptedLabelsSoundIff(items: seq<Item>, kinds: set<string>)
    requires ParseLabels(items, kinds).Ok? && forall k :: k in kinds ==> ColonFree(k)
    ensures WellFormed(ParseLabels(items, kinds).value) <==>
            forall i :: 0 <= i < |items| && items[i].IRef? ==> items[i].slug != ""
  {
    var entries := ParseLabels(items, kinds).value;
    ParsedLabels(items, kinds);
    forall i | 0 <= i < |items| ensures LabelKind(entries[i].id).Some? <==> (items[i].IRef? ==> items[i].slug != "") {
      assert ParseLabel(items[i], kinds) == Ok(entries[i]);
      if items[i].IRef? {
        LabelKindOfPair(items[i].kind, items[i].slug);
      }
    }
  }

  /** The request names a label whose name slugs to nothing. */
  predicate EmptySlug(raw: Raw) {
    raw.RList? && exists i :: 0 <= i < |raw.items| && raw.items[i].IRef? && raw.items[i].slug == ""
  }

  /** Kind names hold no colon, as the config demands. */
  ghost predicate PlainKinds(gaps: Specs, allKinds: set<string>) {
    && (forall k :: k in allKinds ==> ColonFree(k))
    && (forall f, k :: f in gaps && k in gaps[f].kinds ==> ColonFree(k))
  }

  /** The stage can carry out an accepted op of a canonical field exactly if no name in the request
      slugs to nothing. */
  lemma SoundRequestIff(kindGaps: Specs, v: Fillable, call: Call, ops: seq<Op>, i: nat)
    requires Accepted(kindGaps, v, call, ops) && i < |ops|
    requires IsCanonical(Effective(kindGaps, v.gapState), ops[i].field)
    requires PlainKinds(Effective(kindGaps, v.gapState), call.allKinds)
    ensures ops[i].field in call.req
    ensures Sound(ops[i], Effective(kindGaps, v.gapState)) <==> !EmptySlug(call.req[ops[i].field])
  {
    var gaps := Effective(kindGaps, v.gapState);
    AcceptedLabels(kindGaps, v, call, ops, i);
    var raw := call.req[ops[i].field];
    if raw.RList? {
      AcceptedLabelsSoundIff(raw.items, KindResolution(gaps[ops[i].field], call.allKinds));
    }
  }

  lemma StopIffEmptySlug(kindGaps: Specs, v: Fillable, call: Call, ops: seq<Op>)
    requires Accepted(kindGaps, v, call, ops) && PlainKinds(Effective(kindGaps, v.gapState), call.allKinds)
    ensures StopFrom(ops, Effective(kindGaps, v.gapState), 0) < |ops| <==>
            exists f :: f in call.req && IsCanonical(Effective(kindGaps, v.gapState), f) && EmptySlug(call.req[f])
  {
    var gaps := Effective(kindGaps, v.gapState);
    var k := StopFrom(ops, gaps, 0);
    if k < |ops| {
      SoundRequestIff(kindGaps, v, call, ops, k);
    } else if f :| f in call.req && IsCanonical(gaps, f) && EmptySlug(call.req[f]) {
      var op := ParseField(ContextOf(kindGaps, v, call), f, call.req[f]).value;
      ParsedFieldName(ContextOf(kindGaps, v, call), f, call.req[f]);
      assert op in ops;
      var i :| 0 <= i < |ops| && ops[i] == op;
      SoundRequestIff(kindGaps, v, call, ops, i);
    }
  }

  /** Every canonical gap of the file agrees with the table. */
  ghost predicate AllAgree(gaps: Specs, v: Fillable, edges: set<Edge>, id: string) {
    forall g :: IsCanonical(gaps, g) ==> Agrees(v, edges, id, g)
  }

  /** One accepted call, in terms of the request: every canonical gap still agrees if and only if no
      canonical field's list holds a name that slugs to nothing. */
  lemma AllStillAgreeIff(kindGaps: Specs, v: Fillable, call: Call, ops: seq<Op>, edges: set<Edge>, id: string,
                         gaps: Specs)
    requires gaps == Effective(kindGaps, v.gapState) && Accepted(kindGaps, v, call, ops) &&
               PlainKinds(gaps, call.allKinds)
    requires forall g :: IsCanonical(gaps, g) ==> !Reserved(g)
    requires AllAgree(gaps, v, edges, id)
    ensures AllAgree(gaps, After(kindGaps, v, call, ops), StageEdges(edges, id, ops, gaps), id) <==>
            forall f :: f in call.req && IsCanonical(gaps, f) ==> !EmptySlug(call.req[f])
  {
    var k, w := StopFrom(ops, gaps, 0), After(kindGaps, v, call, ops);
    StopIffEmptySlug(kindGaps, v, call, ops);
    if k < |ops| {
      assert ReplacedAt(ops, gaps, ops[k].field, k);
      ReplacedGapAgreesIff(kindGaps, v, call, ops, edges, id, ops[k].field, gaps, k);
    } else {
      forall g | IsCanonical(gaps, g) ensures Agrees(w, StageEdges(edges, id, ops, gaps), id, g) {
        if i :| ReplacedAt(ops, gaps, g, i) {
          ReplacedGapAgreesIff(kindGaps, v, call, ops, edges, id, g, gaps, i);
        } else {
          UntouchedGapAgreesIff(kindGaps, v, call, ops, edges, id, g, gaps);
        }
      }
    }
  }

  /** A label name without a single slug character: the call is accepted, the file stores "k:", and
      no edge points there. */
  lemma EmptySlugWitness()
    ensures var kindGaps: Specs := map["l" := LINK_SPEC];
            var v := Fillable(map[], "", [], ["l"], map[]);
            var call := Call(map["l" := RList([IRef("!!!", "k", "", map[])], 0)], {"k"}, false, false, 0);
            var ops := [OpSet("l", Labels([LabelEntry("k:", "!!!", map[])]))];
            && Accepted(kindGaps, v, call, ops) && !Sound(ops[0], Effective(kindGaps, v.gapState))
            && Agrees(v, {}, "e:x", "l")
            && !Agrees(After(kindGaps, v, call, ops), StageEdges({}, "e:x", ops, Effective(kindGaps, v.gapState)),
                       "e:x", "l")
  {
    var kindGaps: Specs := map["l" := LINK_SPEC];
    var v := Fillable(map[], "", [], ["l"], map[]);
    var call := Call(map["l" := RList([IRef("!!!", "k", "", map[])], 0)], {"k"}, false, false, 0);
    var entry, op := LabelEntry("k:", "!!!", map[]), OpSet("l", Labels([LabelEntry("k:", "!!!", map[])]));
    LabelKindOfPair("k", "");
    assert "k" + ":" + "" == "k:";
    OneLabelAccepted(kindGaps, v, call, "l", IRef("!!!", "k", "", map[]), entry);
    UnsoundLabel(op, kindGaps);
    assert ReplacedAt([op], kindGaps, "l", 0);
    ReplacedGapAgreesIff(kindGaps, v, call, [op], {}, "e:x", "l", kindGaps, 0);
  }

  const LINK_SPEC := GapSpec(CANONICAL_TYPE, "", "", [], 0, [], ["k"])

  /** An agent fills the one open gap of a file, a canonical_type one, with a list of one label. */
  lemma OneLabelAccepted(kindGaps: Specs, v: Fillable, call: Call, field: string, item: Item, entry: LabelEntry)
    requires kindGaps == map[field := LINK_SPEC] && v == Fillable(map[], "", [], [field], map[])
    requires call == Call(map[field := RList([item], 0)], {"k"}, false, false, 0)
    requires ParseLabel(item, {"k"}) == Ok(entry)
    ensures Effective(kindGaps, v.gapState) == kindGaps
    ensures Accepted(kindGaps, v, call, [OpSet(field, Labels([entry]))])
    ensures After(kindGaps, v, call, [OpSet(field, Labels([entry]))]) ==
              ApplyOp(v, OpSet(field, Labels([entry])), 0, kindGaps)
  {
    var gaps := Effective(kindGaps, v.gapState);
    assert gaps[field] == LINK_SPEC;
    assert gaps == kindGaps;
    assert KindResolution(LINK_SPEC, {"k"}) == {"k"} by { assert LINK_SPEC.kinds[0] == "k"; }
    assert [item][1..] == [] && ParseLabels([item], {"k"}) == Ok([entry] + []);
    assert [entry] + [] == [entry];
    assert v.gaps[0] == field;
    OneFieldAccepted(kindGaps, v, field, RList([item], 0), call, OpSet(field, Labels([entry])));
  }

  lemma UnsoundLabel(op: Op, gaps: Specs)
    requires TouchesEdges(op, gaps) && op.OpSet? && op.value.Labels?
    requires |op.value.entries| == 1 && LabelKind(op.value.entries[0].id).None?
    ensures !Sound(op, gaps) && StopFrom([op], gaps, 0) == 0
  {
  }

  // ---------------------------------------------------------------- a gap under a reserved name

  /** A canonical_type gap called summary or tags gets its edges, but its labels are not stored under
      `data:`; so the two agree only if whatever is stored there names the same labels. */
  lemma ReservedGapAgreesIff(v: Fillable, op: Op, now: int, gaps: Specs, edges: set<Edge>, id: string)
    requires Reserved(op.field) && TouchesEdges(op, gaps) && (op.OpSet? ==> op.value.Labels?)
    ensures Agrees(ApplyOp(v, op, now, gaps), EdgesAfterOp(edges, id, op, gaps), id, op.field) <==>
            forall to :: to in StoredLabels(v, op.field) <==>
                exists j :: 0 <= j < |Entries(op)| && Entries(op)[j].id == to
  {
    var w, after := ApplyOp(v, op, now, gaps), EdgesAfterOp(edges, id, op, gaps);
    assert StoredLabels(w, op.field) == StoredLabels(v, op.field);
    forall to
      ensures Edge(op.field, id, to) in after <==> exists j :: 0 <= j < |Entries(op)| && Entries(op)[j].id == to
    {
      EdgesToAbout(id, op.field, Entries(op), |Entries(op)|, Edge(op.field, id, to));
    }
  }

  /** One accepted call and a canonical_type gap under a reserved name: what is stored under `data:` does
      not move, and the edges are those the stage left. */
  lemma ReservedGapAfterCallIff(kindGaps: Specs, v: Fillable, call: Call, ops: seq<Op>, edges: set<Edge>, id: string,
                                g: string, gaps: Specs, i: nat, w: Fillable, after: set<Edge>)
    requires gaps == Effective(kindGaps, v.gapState) && Accepted(kindGaps, v, call, ops)
    requires w == After(kindGaps, v, call, ops) && after == StageEdges(edges, id, ops, gaps)
    requires ReplacedAt(ops, gaps, g, i) && Reserved(g)
    ensures i < StopFrom(ops, gaps, 0) ==>
              (Agrees(w, after, id, g) <==> SameLabels(StoredLabels(v, g), Entries(ops[i]), |Entries(ops[i])|))
    ensures i == StopFrom(ops, gaps, 0) ==>
              (Agrees(w, after, id, g) <==>
                  SameLabels(StoredLabels(v, g), Entries(ops[i]), GoodFrom(Entries(ops[i]), 0)))
    ensures i > StopFrom(ops, gaps, 0) ==> (Agrees(w, after, id, g) <==> Agrees(v, edges, id, g))
  {
    ParsedFieldsDiffer(ContextOf(kindGaps, v, call), call.req, ops);
    ReservedStored(v, ops, call.now, gaps, g, i);
    StageEdgesHere(edges, id, ops, gaps, g, i);
    if i < StopFrom(ops, gaps, 0) {
      LinkedIff(w, after, id, g, Entries(ops[i]), |Entries(ops[i])|);
    } else if i == StopFrom(ops, gaps, 0) {
      StopLinks(edges, id, ops, gaps);
      LinkedIff(w, after, id, g, Entries(ops[i]), GoodFrom(Entries(ops[i]), 0));
    } else {
      AgreesLocal(v, w, edges, after, id, g);
    }
  }

  lemma LinkedIff(w: Fillable, after: set<Edge>, id: string, g: string, entries: seq<LabelEntry>, n: nat)
    requires n <= |entries|
    requires forall to :: Edge(g, id, to) in after <==> exists j :: 0 <= j < n && entries[j].id == to
    ensures Agrees(w, after, id, g) <==> SameLabels(StoredLabels(w, g), entries, n)
  {
  }

  lemma ReservedStored(v: Fillable, ops: seq<Op>, now: int, gaps: Specs, g: string, i: nat)
    requires DistinctBy(ops, OpField) && ReplacedAt(ops, gaps, g, i) && Reserved(g)
    ensures StoredLabels(ApplyOps(v, ops, now, gaps), g) == StoredLabels(v, g)
  {
    ApplyOpsHere(v, ops, now, gaps, i);
    assert At(ApplyOps(v, ops, now, gaps), g).value == At(ApplyOp(v, ops[i], now, gaps), g).value == At(v, g).value;
  }

  /** The edges of the field the stage stopped at. */
  lemma StopLinks(edges: set<Edge>, id: string, ops: seq<Op>, gaps: Specs)
    requires StopFrom(ops, gaps, 0) < |ops|
    ensures var op := ops[StopFrom(ops, gaps, 0)];
            forall to :: Edge(op.field, id, to) in StageEdges(edges, id, ops, gaps) <==>
              exists j :: 0 <= j < GoodFrom(Entries(op), 0) && Entries(op)[j].id == to
  {
    var op := ops[StopFrom(ops, gaps, 0)];
    forall to
      ensures Edge(op.field, id, to) in StageEdges(edges, id, ops, gaps) <==>
                exists j :: 0 <= j < GoodFrom(Entries(op), 0) && Entries(op)[j].id == to
    {
      StageEdgesAt(edges, id, ops, gaps, Edge(op.field, id, to));
    }
  }

  /** Agreement looks at nothing but the stored labels and the edges of the field. */
  lemma AgreesLocal(v: Fillable, w: Fillable, edges: set<Edge>, after: set<Edge>, id: string, g: string)
    requires StoredLabels(w, g) == StoredLabels(v, g)
    ensures Agrees(w, after, id, g) <==> forall to :: to in StoredLabels(v, g) <==> Edge(g, id, to) in after
    ensures (forall to :: Edge(g, id, to) in after <==> Edge(g, id, to) in edges) ==>
              (Agrees(w, after, id, g) <==> Agrees(v, edges, id, g))
  {
  }

  /** The stored labels are the first `n` of these. */
  ghost predicate SameLabels(stored: seq<string>, entries: seq<LabelEntry>, n: nat)
    requires n <= |entries|
  {
    forall to :: to in stored <==> exists j :: 0 <= j < n && entries[j].id == to
  }

  /** Through the parser: summary configured as canonical_type, one label, and the edge has nothing
      in the file to back it. */
  lemma ReservedGapWitness()
    ensures var kindGaps: Specs := map["summary" := LINK_SPEC];
            var v := Fillable(map[], "", [], ["summary"], map[]);
            var call := Call(map["summary" := RList([IStr("k:x")], 0)], {"k"}, false, false, 0);
            var ops := [OpSet("summary", Labels([LabelEntry("k:x", "", map[])]))];
            && Accepted(kindGaps, v, call, ops) && Agrees(v, {}, "e:x", "summary")
            && !Agrees(After(kindGaps, v, call, ops), StageEdges({}, "e:x", ops, Effective(kindGaps, v.gapState)),
                       "e:x", "summary")
  {
    var kindGaps: Specs := map["summary" := LINK_SPEC];
    var v := Fillable(map[], "", [], ["summary"], map[]);
    var call := Call(map["summary" := RList([IStr("k:x")], 0)], {"k"}, false, false, 0);
    var entry, op := LabelEntry("k:x", "", map[]), OpSet("summary", Labels([LabelEntry("k:x", "", map[])]));
    LabelKindOfPair("k", "x");
    assert "k" + ":" + "x" == "k:x";
    OneLabelAccepted(kindGaps, v, call, "summary", IStr("k:x"), entry);
    StageOfOne({}, "e:x", op, kindGaps);
    ReservedGapAgreesIff(v, op, 0, kindGaps, {}, "e:x");
    assert Entries(op)[0].id == "k:x";
  }

  lemma StageOfOne(edges: set<Edge>, id: string, op: Op, gaps: Specs)
    requires Sound(op, gaps)
    ensures StageEdges(edges, id, [op], gaps) == EdgesAfterOp(edges, id, op, gaps)
  {
    StopIs([op], gaps, 1);
    assert EdgesAfter(edges, id, [op], gaps, 0) == edges;
  }

  // ---------------------------------------------------------------- runs

  /** The entity's row was upserted and a thin row added for each target; nothing else moved. */
  ghost predicate RowsStep(before: map<string, Row>, after: map<string, Row>, id: string, targets: set<string>) {
    exists row: Row {:trigger before[id := row]} :: GrewBy(before[id := row], after, targets)
  }

  /** The fill call is such a step whenever it got as far as the edge stage. */
  lemma HandledIsStep(outcome: FillHandler.Outcome, rows0: map<string, Row>, rows: map<string, Row>, edges0: set<Edge>,
                      edges: set<Edge>, written: Entity, ops: seq<Op>, gaps: Specs, derived: seq<Event>)
    requires outcome.Done? || outcome.ParagraphFailed? || outcome.EdgesFailed?
    requires FillHandler.Mirrored(outcome, rows0, rows, edges0, edges, written, ops, gaps, derived)
    ensures edges == StageEdges(edges0, written.id, ops, gaps)
    ensures RowsStep(rows0, rows, written.id, StageTargets(ops, gaps))
  {
    var row := FillHandler.RowsAfterFill(rows0, written)[written.id];
    assert GrewBy(rows0[written.id := row], rows, StageTargets(ops, gaps));
  }

  /** A run of accepted calls, with the edge table and the rows beside the file. The stage of a call
      may stop half-way. */
  ghost predicate IndexedRun(kindGaps: Specs, id: string, files: seq<Fillable>, tables: seq<set<Edge>>,
                             rows: seq<map<string, Row>>, calls: seq<Call>, ops: seq<seq<Op>>)
  {
    && FillRun(kindGaps, files, calls, ops) && |tables| == |files| && |rows| == |files|
    && (forall i :: 0 <= i < |calls| ==>
          tables[i + 1] == StageEdges(tables[i], id, ops[i], Effective(kindGaps, files[i].gapState)))
    && (forall i :: 0 <= i < |calls| ==>
          RowsStep(rows[i], rows[i + 1], id, StageTargets(ops[i], Effective(kindGaps, files[i].gapState))))
  }

  /** The call replaces g's edges, and the stage got to it. */
  ghost predicate GotThrough(ops: seq<Op>, gaps: Specs, g: string) {
    forall i: nat :: ReplacedAt(ops, gaps, g, i) ==> i < StopFrom(ops, gaps, 0)
  }

  /** Over any run the edges of a gap stay exactly its stored labels as long as no stage stops at or
      before the gap's own op; stops elsewhere do no harm. */
  lemma {:induction false} AgreementOverRun(kindGaps: Specs, id: string, files: seq<Fillable>, tables: seq<set<Edge>>,
                                            rows: seq<map<string, Row>>, calls: seq<Call>, ops: seq<seq<Op>>, n: nat,
                                            g: string)
    requires IndexedRun(kindGaps, id, files, tables, rows, calls, ops) && n < |files|
    requires CanonicalGap(kindGaps, g) && NotRetyped(files[0], g) && Agrees(files[0], tables[0], id, g)
    requires forall i :: 0 <= i < n ==> GotThrough(ops[i], Effective(kindGaps, files[i].gapState), g)
    ensures NotRetyped(files[n], g) && Agrees(files[n], tables[n], id, g)
  {
    if n == 0 {
    } else {
      AgreementOverRun(kindGaps, id, files, tables, rows, calls, ops, n - 1, g);
      var gaps := Effective(kindGaps, files[n - 1].gapState);
      assert GotThrough(ops[n - 1], gaps, g);
      FillKeepsAgreementIff(kindGaps, files[n - 1], calls[n - 1], ops[n - 1], tables[n - 1], id, g, gaps);
      assert files[n - 1 + 1] == After(kindGaps, files[n - 1], calls[n - 1], ops[n - 1]);
      assert tables[n - 1 + 1] == StageEdges(tables[n - 1], id, ops[n - 1], gaps);
    }
  }

  /** The canonical gaps of the file are the registered ones, none under a reserved name. */
  ghost predicate OnlyRegistered(kindGaps: Specs, v: Fillable) {
    forall g :: (IsCanonical(Effective(kindGaps, v.gapState), g) <==> IsCanonical(kindGaps, g))
                && (IsCanonical(kindGaps, g) ==> !Reserved(g))
  }

  lemma SameStateSameType(kindGaps: Specs, v: Fillable, w: Fillable, g: string)
    requires At(v, g).state == At(w, g).state
    ensures IsCanonical(Effective(kindGaps, v.gapState), g) <==> IsCanonical(Effective(kindGaps, w.gapState), g)
  {
    assert g in v.gapState <==> g in w.gapState;
  }

  lemma NoShapeConfigType(kindGaps: Specs, w: Fillable, g: string)
    requires At(w, g).state.Some? ==> At(w, g).state.value.shape == NO_SPEC
    ensures IsCanonical(Effective(kindGaps, w.gapState), g) <==> IsCanonical(kindGaps, g)
  {
  }

  /** No op leaves a shape behind. */
  lemma OpLeavesNoShape(v: Fillable, op: Op, now: int, gaps: Specs)
    ensures var state := At(ApplyOp(v, op, now, gaps), op.field).state; state.Some? ==> state.value.shape == NO_SPEC
  {
  }

  lemma CallKeepsOnlyRegistered(kindGaps: Specs, v: Fillable, call: Call, ops: seq<Op>)
    requires OnlyRegistered(kindGaps, v) && Accepted(kindGaps, v, call, ops)
    ensures OnlyRegistered(kindGaps, After(kindGaps, v, call, ops))
  {
    var gaps, w := Effective(kindGaps, v.gapState), After(kindGaps, v, call, ops);
    ParsedFieldsDiffer(ContextOf(kindGaps, v, call), call.req, ops);
    forall g ensures IsCanonical(Effective(kindGaps, w.gapState), g) <==> IsCanonical(kindGaps, g) {
      if i :| 0 <= i < |ops| && ops[i].field == g {
        ApplyOpsHere(v, ops, call.now, gaps, i);
        OpLeavesNoShape(v, ops[i], call.now, gaps);
        NoShapeConfigType(kindGaps, w, g);
      } else {
        ApplyOpsElsewhere(v, ops, call.now, gaps, g);
        SameStateSameType(kindGaps, v, w, g);
      }
    }
  }

  /** The canonical fields of the call name only things that slug to something. */
  ghost predicate Sluggable(kindGaps: Specs, call: Call) {
    forall f :: f in call.req && IsCanonical(kindGaps, f) ==> !EmptySlug(call.req[f])
  }

  lemma AgreementStepIff(kindGaps: Specs, v: Fillable, call: Call, ops: seq<Op>, edges: set<Edge>, id: string)
    requires OnlyRegistered(kindGaps, v) && AllAgree(kindGaps, v, edges, id) && Accepted(kindGaps, v, call, ops)
    requires PlainKinds(Effective(kindGaps, v.gapState), call.allKinds)
    ensures var after := StageEdges(edges, id, ops, Effective(kindGaps, v.gapState));
            AllAgree(kindGaps, After(kindGaps, v, call, ops), after, id) <==> Sluggable(kindGaps, call)
  {
    var gaps := Effective(kindGaps, v.gapState);
    assert forall g :: IsCanonical(gaps, g) <==> IsCanonical(kindGaps, g);
    AllStillAgreeIff(kindGaps, v, call, ops, edges, id, gaps);
  }

  lemma AgreementRunStep(kindGaps: Specs, id: string, files: seq<Fillable>, tables: seq<set<Edge>>,
                         rows: seq<map<string, Row>>, calls: seq<Call>, ops: seq<seq<Op>>, m: nat)
    requires IndexedRun(kindGaps, id, files, tables, rows, calls, ops) && m < |calls|
    requires OnlyRegistered(kindGaps, files[m]) && PlainKinds(Effective(kindGaps, files[m].gapState), calls[m].allKinds)
    ensures OnlyRegistered(kindGaps, files[m + 1])
    ensures AllAgree(kindGaps, files[m], tables[m], id) ==>
              (AllAgree(kindGaps, files[m + 1], tables[m + 1], id) <==> Sluggable(kindGaps, calls[m]))
  {
    assert files[m + 1] == After(kindGaps, files[m], calls[m], ops[m]);
    assert tables[m + 1] == StageEdges(tables[m], id, ops[m], Effective(kindGaps, files[m].gapState));
    CallKeepsOnlyRegistered(kindGaps, files[m], calls[m], ops[m]);
    if AllAgree(kindGaps, files[m], tables[m], id) {
      AgreementStepIff(kindGaps, files[m], calls[m], ops[m], tables[m], id);
    }
  }

  /** In agreement at every point up to the n-th. */
  ghost predicate AgreeAllAlong(kindGaps: Specs, id: string, files: seq<Fillable>, tables: seq<set<Edge>>, n: nat)
    requires n < |files| == |tables|
  {
    AllAgree(kindGaps, files[n], tables[n], id) && (n > 0 ==> AgreeAllAlong(kindGaps, id, files, tables, n - 1))
  }

  ghost predicate SluggableAllAlong(kindGaps: Specs, calls: seq<Call>, n: nat)
    requires n <= |calls|
  {
    n > 0 ==> Sluggable(kindGaps, calls[n - 1]) && SluggableAllAlong(kindGaps, calls, n - 1)
  }

  ghost predicate PlainAllAlong(kindGaps: Specs, files: seq<Fillable>, calls: seq<Call>, n: nat)
    requires n <= |calls| && n <= |files|
  {
    n > 0 ==> && PlainKinds(Effective(kindGaps, files[n - 1].gapState), calls[n - 1].allKinds)
              && PlainAllAlong(kindGaps, files, calls, n - 1)
  }

  /** Over any run of accepted calls, exactly: edges and labels agree all along if and only if no
      call names a label that slugs to nothing. */
  lemma {:induction false} AgreementOverRunIff(kindGaps: Specs, id: string, files: seq<Fillable>,
                                               tables: seq<set<Edge>>, rows: seq<map<string, Row>>, calls: seq<Call>,
                                               ops: seq<seq<Op>>, n: nat)
    requires IndexedRun(kindGaps, id, files, tables, rows, calls, ops) && n < |files|
    requires OnlyRegistered(kindGaps, files[0]) && AllAgree(kindGaps, files[0], tables[0], id)
    requires PlainAllAlong(kindGaps, files, calls, n)
    ensures OnlyRegistered(kindGaps, files[n])
    ensures AgreeAllAlong(kindGaps, id, files, tables, n) <==> SluggableAllAlong(kindGaps, calls, n)
  {
    if n == 0 {
    } else {
      AgreementOverRunIff(kindGaps, id, files, tables, rows, calls, ops, n - 1);
      AgreementRunStep(kindGaps, id, files, tables, rows, calls, ops, n - 1);
    }
  }

  lemma RunTable(kindGaps: Specs, id: string, files: seq<Fillable>, tables: seq<set<Edge>>,
                 rows: seq<map<string, Row>>, calls: seq<Call>, ops: seq<seq<Op>>, m: nat)
    requires IndexedRun(kindGaps, id, files, tables, rows, calls, ops) && m < |calls|
    ensures |tables| == |files| == |calls| + 1 && |ops| == |calls|
    ensures tables[m + 1] == StageEdges(tables[m], id, ops[m], Effective(kindGaps, files[m].gapState))
  {
  }

  lemma {:induction false} NeverMoves(tables: seq<set<Edge>>, n: nat, e: Edge)
    requires n < |tables| && forall i :: 0 <= i < n ==> (e in tables[i + 1] <==> e in tables[i])
    ensures e in tables[n] <==> e in tables[0]
  {
    if n == 0 {
    } else {
      NeverMoves(tables, n - 1, e);
      assert e in tables[n - 1 + 1] <==> e in tables[n - 1];
    }
  }

  /** Edges of other entities never change over a run, stops included, nor do those of a type that is
      at no point a canonical gap of this one. */
  lemma OtherEdgesOverRun(kindGaps: Specs, id: string, files: seq<Fillable>, tables: seq<set<Edge>>,
                          rows: seq<map<string, Row>>, calls: seq<Call>, ops: seq<seq<Op>>, n: nat, e: Edge)
    requires IndexedRun(kindGaps, id, files, tables, rows, calls, ops) && n < |files|
    requires e.from != id || forall i :: 0 <= i < n ==> !IsCanonical(Effective(kindGaps, files[i].gapState), e.typ)
    ensures e in tables[n] <==> e in tables[0]
  {
    forall i | 0 <= i < n ensures e in tables[i + 1] <==> e in tables[i] {
      RunTable(kindGaps, id, files, tables, rows, calls, ops, i);
      OtherEdgesUntouched(tables[i], id, ops[i], Effective(kindGaps, files[i].gapState), e);
    }
    NeverMoves(tables, n, e);
  }

  /** Every edge of the table points at a row. */
  ghost predicate Grounded(edges: set<Edge>, rows: map<string, Row>) {
    forall e :: e in edges ==> e.to in rows
  }

  lemma {:induction false} EdgesAfterTargets(edges: set<Edge>, id: string, ops: seq<Op>, gaps: Specs, n: nat, e: Edge)
    requires n <= |ops| && e in EdgesAfter(edges, id, ops, gaps, n)
    ensures e in edges || e.to in TargetsTo(ops, gaps, n)
  {
    if n == 0 {
    } else {
      var op := ops[n - 1];
      if e in EdgesAfter(edges, id, ops, gaps, n - 1) {
        EdgesAfterTargets(edges, id, ops, gaps, n - 1, e);
      } else {
        EdgesToTargets(id, op.field, Entries(op), |Entries(op)|, e);
      }
    }
  }

  lemma {:induction false} EdgesToTargets(id: string, field: string, entries: seq<LabelEntry>, n: nat, e: Edge)
    requires n <= |entries| && e in EdgesTo(id, field, entries, n)
    ensures e.to in IdsTo(entries, n)
  {
    if n > 0 && e.to != entries[n - 1].id { EdgesToTargets(id, field, entries, n - 1, e); }
  }

  lemma StageEdgesTargets(edges: set<Edge>, id: string, ops: seq<Op>, gaps: Specs, e: Edge)
    requires e in StageEdges(edges, id, ops, gaps)
    ensures e in edges || e.to in StageTargets(ops, gaps)
  {
    var k := StopFrom(ops, gaps, 0);
    if e in EdgesAfter(edges, id, ops, gaps, k) {
      EdgesAfterTargets(edges, id, ops, gaps, k, e);
    } else {
      EdgesToTargets(id, ops[k].field, Entries(ops[k]), GoodFrom(Entries(ops[k]), 0), e);
    }
  }

  lemma RowsRunStep(kindGaps: Specs, id: string, files: seq<Fillable>, tables: seq<set<Edge>>,
                    rows: seq<map<string, Row>>, calls: seq<Call>, ops: seq<seq<Op>>, m: nat)
    requires IndexedRun(kindGaps, id, files, tables, rows, calls, ops) && m < |calls|
    ensures |tables| == |rows| == |files| == |calls| + 1
    ensures Grounded(tables[m], rows[m]) ==> Grounded(tables[m + 1], rows[m + 1])
    ensures forall x :: x in rows[m] ==> x in rows[m + 1] && (x != id ==> rows[m + 1][x] == rows[m][x])
  {
    var gaps := Effective(kindGaps, files[m].gapState);
    RunTable(kindGaps, id, files, tables, rows, calls, ops, m);
    assert RowsStep(rows[m], rows[m + 1], id, StageTargets(ops[m], gaps));
    if Grounded(tables[m], rows[m]) {
      forall e | e in tables[m + 1] ensures e.to in rows[m + 1] {
        StageEdgesTargets(tables[m], id, ops[m], gaps, e);
      }
    }
  }

  /** What one step keeps of the tables. */
  ghost predicate TablesKept(edges: set<Edge>, rows: map<string, Row>, edges': set<Edge>, rows': map<string, Row>,
                             id: string)
  {
    && (Grounded(edges, rows) ==> Grounded(edges', rows'))
    && (forall x :: x in rows ==> x in rows' && (x != id ==> rows'[x] == rows[x]))
  }

  lemma {:induction false} TablesKeptThroughout(tables: seq<set<Edge>>, rows: seq<map<string, Row>>, id: string, n: nat)
    requires n < |tables| == |rows|
    requires forall i :: 0 <= i < n ==> TablesKept(tables[i], rows[i], tables[i + 1], rows[i + 1], id)
    ensures TablesKept(tables[0], rows[0], tables[n], rows[n], id)
  {
    if n == 0 {
    } else {
      TablesKeptThroughout(tables, rows, id, n - 1);
      assert TablesKept(tables[n - 1], rows[n - 1], tables[n - 1 + 1], rows[n - 1 + 1], id);
    }
  }

  /** Over any run, stops included: every edge keeps a row to point at, and the rows that were there,
      the entity's own apart, are as they were. */
  lemma RowsOverRun(kindGaps: Specs, id: string, files: seq<Fillable>, tables: seq<set<Edge>>,
                    rows: seq<map<string, Row>>, calls: seq<Call>, ops: seq<seq<Op>>, n: nat)
    requires IndexedRun(kindGaps, id, files, tables, rows, calls, ops) && n < |files|
    requires Grounded(tables[0], rows[0])
    ensures Grounded(tables[n], rows[n])
    ensures forall x :: x in rows[0] ==> x in rows[n] && (x != id ==> rows[n][x] == rows[0][x])
  {
    forall i | 0 <= i < n ensures TablesKept(tables[i], rows[i], tables[i + 1], rows[i + 1], id) {
      RowsRunStep(kindGaps, id, files, tables, rows, calls, ops, i);
    }
    TablesKeptThroughout(tables, rows, id, n);
  }
}
