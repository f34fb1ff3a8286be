/** canonical_type gaps: the edge set a fill derives from the stored label list, and the whole
    fill call over the shared catalog. */
module FillEdges {
  import opened Base
  import opened Vault
  import opened Store
  import opened GapSpecs
  import opened Fill

  predicate IsCanonical(gaps: Specs, field: string) {
    field in gaps && gaps[field].typ == CANONICAL_TYPE
  }

  /** The ids of the first `n` labels. */
  function IdsTo(entries: seq<LabelEntry>, n: nat): set<string>
    requires n <= |entries|
  {
    if n == 0 then {} else IdsTo(entries, n - 1) + {entries[n - 1].id}
  }

  /** The edges to the first `n` labels. */
  function EdgesTo(source: string, field: string, entries: seq<LabelEntry>, n: nat): set<Edge>
    requires n <= |entries|
  {
    if n == 0 then {} else EdgesTo(source, field, entries, n - 1) + {Edge(field, source, entries[n - 1].id)}
  }

  predicate TouchesEdges(op: Op, gaps: Specs) {
    IsCanonical(gaps, op.field) && (op.OpSet? || op.OpClear?)
  }

  function Entries(op: Op): seq<LabelEntry> {
    if op.OpSet? && op.value.Labels? then op.value.entries else []
  }

  /** What one op leaves of the edge table: the field's old edges go, the new labels' come. */
  function EdgesAfterOp(edges: set<Edge>, source: string, op: Op, gaps: Specs): set<Edge> {
    if !TouchesEdges(op, gaps) then edges
    else Wiped(edges, source, op.field) + EdgesTo(source, op.field, Entries(op), |Entries(op)|)
  }

  /** The edge table after the first `n` ops. */
  function EdgesAfter(edges: set<Edge>, source: string, ops: seq<Op>, gaps: Specs, n: nat): set<Edge>
    requires n <= |ops|
  {
    if n == 0 then edges else EdgesAfterOp(EdgesAfter(edges, source, ops, gaps, n - 1), source, ops[n - 1], gaps)
  }

  function TargetsOfOp(op: Op, gaps: Specs): set<string> {
    if TouchesEdges(op, gaps) then IdsTo(Entries(op), |Entries(op)|) else {}
  }

  /** The labels the first `n` ops point at. */
  function TargetsTo(ops: seq<Op>, gaps: Specs, n: nat): set<string>
    requires n <= |ops|
  {
    if n == 0 then {} else TargetsTo(ops, gaps, n - 1) + TargetsOfOp(ops[n - 1], gaps)
  }

  predicate WellFormedTo(entries: seq<LabelEntry>, n: nat)
    requires n <= |entries|
  {
    forall i :: 0 <= i < n ==> LabelKind(entries[i].id).Some?
  }

  predicate WellFormed(entries: seq<LabelEntry>) {
    WellFormedTo(entries, |entries|)
  }

  /** The ops the edge stage can carry out. */
  predicate Sound(op: Op, gaps: Specs) {
    TouchesEdges(op, gaps) && op.OpSet? ==> op.value.Labels? && WellFormed(op.value.entries)
  }

  /** The first malformed label from `i` on, or the end. */
  function GoodFrom(entries: seq<LabelEntry>, i: nat): (n: nat)
    requires i <= |entries|
    ensures i <= n <= |entries|
    ensures forall j :: i <= j < n ==> LabelKind(entries[j].id).Some?
    ensures n < |entries| ==> LabelKind(entries[n].id).None?
    decreases |entries| - i
  {
    if i == |entries| || LabelKind(entries[i].id).None? then i else GoodFrom(entries, i + 1)
  }

  /** The op the stage stops at: the first from `i` on it cannot carry out, or the end. */
  function StopFrom(ops: seq<Op>, gaps: Specs, i: nat): (k: nat)
    requires i <= |ops|
    ensures i <= k <= |ops|
    ensures forall j :: i <= j < k ==> Sound(ops[j], gaps)
    ensures k < |ops| ==> !Sound(ops[k], gaps)
    decreases |ops| - i
  {
    if i == |ops| || !Sound(ops[i], gaps) then i else StopFrom(ops, gaps, i + 1)
  }

  /** What the stage leaves of the edge table, whether or not it runs through: the ops before the
      stop are carried out, and the one it stops at up to its first malformed label. */
  function StageEdges(edges: set<Edge>, source: string, ops: seq<Op>, gaps: Specs): set<Edge> {
    var k := StopFrom(ops, gaps, 0);
    var done := EdgesAfter(edges, source, ops, gaps, k);
    if k == |ops| then done
    else
      var op := ops[k];
      Wiped(done, source, op.field) + EdgesTo(source, op.field, Entries(op), GoodFrom(Entries(op), 0))
  }

  /** The labels the stage made rows for. */
  function StageTargets(ops: seq<Op>, gaps: Specs): set<string> {
    var k := StopFrom(ops, gaps, 0);
    TargetsTo(ops, gaps, k) + if k == |ops| then {} else IdsTo(Entries(ops[k]), GoodFrom(Entries(ops[k]), 0))
  }

  lemma {:induction false} GoodIs(entries: seq<LabelEntry>, n: nat)
    requires n <= |entries| && WellFormedTo(entries, n) && (n < |entries| ==> LabelKind(entries[n].id).None?)
    ensures GoodFrom(entries, 0) == n
  {
  }

  lemma {:induction false} StopIs(ops: seq<Op>, gaps: Specs, k: nat)
    requires k <= |ops| && (forall i :: 0 <= i < k ==> Sound(ops[i], gaps)) && (k < |ops| ==> !Sound(ops[k], gaps))
    ensures StopFrom(ops, gaps, 0) == k
  {
  }

  /** `after` is `before` with a thin row for each missing label of `ids`, and nothing else. */
  ghost predicate GrewBy(before: map<string, Row>, after: map<string, Row>, ids: set<string>) {
    && after.Keys == before.Keys + ids
    && (forall id :: id in before ==> after[id] == before[id])
    && (forall id :: id in ids && id !in before ==> LabelKind(id).Some? && after[id] == ThinRow(LabelKind(id).value))
  }

  /** Created events name rows new since `before`; edge events name edges in the table. */
  ghost predicate Honest(events: seq<Event>, before: map<string, Row>, after: map<string, Row>, edges: set<Edge>) {
    forall e :: e in events ==>
      (e.EntityCreated? && e.id !in before && e.id in after && after[e.id] == ThinRow(e.kind)) ||
          (e.EdgeAdded? && e.edge in edges)
  }

  /** ensureCanonicalLabelRow, then CreateEdge. */
  method AddLabel(c: Catalog, e: Edge) returns (ok: bool, events: seq<Event>)
    requires e.from in c.rows
    modifies c`rows, c`edges
    ensures ok <==> LabelKind(e.to).Some?
    ensures c.rows == WithRow(old(c.rows), e.to)
    ensures c.edges == if ok then old(c.edges) + {e} else old(c.edges)
    ensures events == if ok then LabelEvents(old(c.rows), e) else []
  {
    var created := c.EnsureLabelRow(e.to);
    if created.None? {
      return false, [];
    }
    events := if created.value then [EntityCreated(e.to, LabelKind(e.to).value, e.from)] else [];
    var landed := c.CreateEdge(e);
    return true, events + [EdgeAdded(e)];
  }

  lemma GrewByOneMore(before: map<string, Row>, mid: map<string, Row>, ids: set<string>, id: string)
    requires GrewBy(before, mid, ids) && LabelKind(id).Some?
    ensures GrewBy(before, if id in mid then mid else mid[id := ThinRow(LabelKind(id).value)], ids + {id})
  {
  }

  lemma HonestSum(events: seq<Event>, added: seq<Event>, before: map<string, Row>, mid: map<string, Row>,
                  after: map<string, Row>, edges: set<Edge>, more: set<Edge>)
    requires Honest(events, before, mid, edges) && Honest(added, before, after, more)
    requires edges <= more && forall id :: id in mid ==> id in after && after[id] == mid[id]
    ensures Honest(events + added, before, after, more)
  {
    forall e | e in events + added
      ensures (e.EntityCreated? && e.id !in before && e.id in after && after[e.id] == ThinRow(e.kind)) ||
                (e.EdgeAdded? && e.edge in more)
    {
      assert e in events || e in added;
    }
  }

  /** The edges the events announce, and the rows they say are new, as queued. */
  function Added(events: seq<Event>): seq<Edge> {
    if events == [] then []
    else
      var last := events[|events| - 1];
      Added(events[..|events| - 1]) + if last.EdgeAdded? then [last.edge] else []
  }

  function CreatedIds(events: seq<Event>): seq<string> {
    if events == [] then []
    else
      var last := events[|events| - 1];
      CreatedIds(events[..|events| - 1]) + if last.EntityCreated? then [last.id] else []
  }

  lemma {:induction false} AddedSum(a: seq<Event>, b: seq<Event>)
    ensures Added(a + b) == Added(a) + Added(b) && CreatedIds(a + b) == CreatedIds(a) + CreatedIds(b)
  {
    if b == [] {
      assert a + b == a;
    } else {
      AddedSum(a, b[..|b| - 1]);
      assert (a + b)[..|a + b| - 1] == a + b[..|b| - 1];
    }
  }

  lemma {:induction false} CreatedMembers(events: seq<Event>, id: string)
    ensures id in CreatedIds(events) <==>
              exists i :: 0 <= i < |events| && events[i].EntityCreated? && events[i].id == id
  {
    if events == [] {
    } else {
      var init := events[..|events| - 1];
      CreatedMembers(init, id);
      assert forall i :: 0 <= i < |init| ==> init[i] == events[i];
    }
  }

  /** The events announce these edges in this order, and every row that is new, once; the filled entity
      is what caused it. */
  ghost predicate Told(before: map<string, Row>, after: map<string, Row>, events: seq<Event>, source: string,
                       added: seq<Edge>)
  {
    && Added(events) == added && Distinct(CreatedIds(events))
    && (forall id :: id in after && id !in before ==> id in CreatedIds(events))
    && (forall e :: e in events && e.EntityCreated? ==> e.causedBy == source)
  }

  lemma ToldSum(rows0: map<string, Row>, mid: map<string, Row>, rows: map<string, Row>, events: seq<Event>,
                more: seq<Event>, source: string, a: seq<Edge>, b: seq<Edge>, edges: set<Edge>, edges': set<Edge>)
    requires Told(rows0, mid, events, source, a) && Told(mid, rows, more, source, b)
    requires Honest(events, rows0, mid, edges) && Honest(more, mid, rows, edges')
    ensures Told(rows0, rows, events + more, source, a + b)
  {
    AddedSum(events, more);
    var ids, ids' := CreatedIds(events), CreatedIds(more);
    forall k | 0 <= k < |ids| ensures ids[k] in mid { CreatedMembers(events, ids[k]); }
    forall k | 0 <= k < |ids'| ensures ids'[k] !in mid { CreatedMembers(more, ids'[k]); }
  }

  /** The edges to the first `n` labels, in their order. */
  function LabelSeq(source: string, field: string, entries: seq<LabelEntry>, n: nat): seq<Edge>
    requires n <= |entries|
  {
    seq(n, i requires 0 <= i < n => Edge(field, source, entries[i].id))
  }

  /** The edges the first `n` ops make, in order. */
  function OpsSeq(source: string, ops: seq<Op>, gaps: Specs, n: nat): seq<Edge>
    requires n <= |ops|
  {
    if n == 0 then []
    else
      var op := ops[n - 1];
      OpsSeq(source, ops, gaps, n - 1) +
        if TouchesEdges(op, gaps) then LabelSeq(source, op.field, Entries(op), |Entries(op)|) else []
  }

  /** The edges the stage makes, up to where it stops. */
  function StageSeq(source: string, ops: seq<Op>, gaps: Specs): seq<Edge> {
    var k := StopFrom(ops, gaps, 0);
    OpsSeq(source, ops, gaps, k) +
      if k == |ops| then [] else LabelSeq(source, ops[k].field, Entries(ops[k]), GoodFrom(Entries(ops[k]), 0))
  }

  /** The tables and the queue after the first `n` labels, all of them well-formed. */
  ghost predicate LabelsDone(rows0: map<string, Row>, rows: map<string, Row>, edges0: set<Edge>, edges: set<Edge>,
                             events: seq<Event>, source: string, field: string, entries: seq<LabelEntry>, n: nat)
  {
    && LabelsLanded(rows0, rows, edges0, edges, events, source, field, entries, n)
    && Told(rows0, rows, events, source, LabelSeq(source, field, entries, n))
  }

  ghost predicate LabelsLanded(rows0: map<string, Row>, rows: map<string, Row>, edges0: set<Edge>, edges: set<Edge>,
                               events: seq<Event>, source: string, field: string, entries: seq<LabelEntry>, n: nat)
  {
    && n <= |entries| && WellFormedTo(entries, n)
    && GrewBy(rows0, rows, IdsTo(entries, n))
    && edges == edges0 + EdgesTo(source, field, entries, n)
    && Honest(events, rows0, rows, EdgesTo(source, field, entries, n))
  }

  /** What AddLabel queues for the edge `e`. */
  function LabelEvents(rows: map<string, Row>, e: Edge): seq<Event> {
    (if e.to !in rows && LabelKind(e.to).Some? then [EntityCreated(e.to, LabelKind(e.to).value, e.from)] else []) +
        [EdgeAdded(e)]
  }

  lemma OneMoreLanded(rows0: map<string, Row>, rows: map<string, Row>, edges0: set<Edge>, edges: set<Edge>,
                      events: seq<Event>, source: string, field: string, entries: seq<LabelEntry>, n: nat)
    requires n < |entries| && LabelKind(entries[n].id).Some?
    requires LabelsLanded(rows0, rows, edges0, edges, events, source, field, entries, n)
    ensures var e := Edge(field, source, entries[n].id);
            LabelsLanded(rows0, WithRow(rows, e.to), edges0, edges + {e}, events + LabelEvents(rows, e),
                         source, field, entries, n + 1)
  {
    var e := Edge(field, source, entries[n].id);
    GrewByOneMore(rows0, rows, IdsTo(entries, n), e.to);
    HonestSum(events, LabelEvents(rows, e), rows0, rows, WithRow(rows, e.to),
              EdgesTo(source, field, entries, n), EdgesTo(source, field, entries, n + 1));
  }

  /** The rows with one for this label. */
  function WithRow(rows: map<string, Row>, id: string): map<string, Row> {
    if id in rows || LabelKind(id).None? then rows else rows[id := ThinRow(LabelKind(id).value)]
  }

  lemma OneMoreTold(rows0: map<string, Row>, rows: map<string, Row>, events: seq<Event>, source: string, field: string,
                    entries: seq<LabelEntry>, n: nat, edges: set<Edge>)
    requires n < |entries| && LabelKind(entries[n].id).Some?
    requires Told(rows0, rows, events, source, LabelSeq(source, field, entries, n)) &&
               Honest(events, rows0, rows, edges)
    ensures var e := Edge(field, source, entries[n].id);
            Told(rows0, WithRow(rows, e.to), events + LabelEvents(rows, e), source,
                 LabelSeq(source, field, entries, n + 1))
  {
    var e := Edge(field, source, entries[n].id);
    LabelTold(rows, WithRow(rows, e.to), e);
    ToldSum(rows0, rows, WithRow(rows, e.to), events, LabelEvents(rows, e), source,
            LabelSeq(source, field, entries, n), [e], edges, {e});
    assert LabelSeq(source, field, entries, n + 1) == LabelSeq(source, field, entries, n) + [e];
  }

  lemma OneMoreLabel(rows0: map<string, Row>, rows: map<string, Row>, edges0: set<Edge>, edges: set<Edge>,
                     events: seq<Event>, source: string, field: string, entries: seq<LabelEntry>, n: nat)
    requires n < |entries| && LabelKind(entries[n].id).Some?
    requires LabelsDone(rows0, rows, edges0, edges, events, source, field, entries, n)
    ensures var e := Edge(field, source, entries[n].id);
            LabelsDone(rows0, WithRow(rows, e.to), edges0, edges + {e}, events + LabelEvents(rows, e),
                       source, field, entries, n + 1)
  {
    OneMoreLanded(rows0, rows, edges0, edges, events, source, field, entries, n);
    OneMoreTold(rows0, rows, events, source, field, entries, n, EdgesTo(source, field, entries, n));
  }

  lemma LabelTold(rows: map<string, Row>, after: map<string, Row>, e: Edge)
    requires LabelKind(e.to).Some?
    requires after == if e.to in rows then rows else rows[e.to := ThinRow(LabelKind(e.to).value)]
    ensures Told(rows, after, LabelEvents(rows, e), e.from, [e])
  {
    var events := LabelEvents(rows, e);
    if e.to in rows {
      assert events == [] + [EdgeAdded(e)];
      assert events[..0] == [] && Added([]) == [] && CreatedIds([]) == [];
    } else {
      var created := [EntityCreated(e.to, LabelKind(e.to).value, e.from)];
      assert events == created + [EdgeAdded(e)] && events[..1] == created && created[..0] == [];
      assert Added([]) == [] && CreatedIds([]) == [];
      assert Added(created) == [] && CreatedIds(created) == [e.to];
    }
  }

  /** The labels of one set op, up to the first malformed one; `done` of them were added. */
  method ApplyLabels(c: Catalog, source: string, field: string, entries: seq<LabelEntry>)
      returns (done: nat, events: seq<Event>)
    requires source in c.rows
    modifies c`rows, c`edges
    ensures LabelsDone(old(c.rows), c.rows, old(c.edges), c.edges, events, source, field, entries, done)
    ensures done == |entries| <==> WellFormed(entries)
    ensures done == GoodFrom(entries, 0)
    ensures source in c.rows
  {
    events, done := [], 0;
    while done < |entries|
      invariant source in c.rows
      invariant LabelsDone(old(c.rows), c.rows, old(c.edges), c.edges, events, source, field, entries, done)
    {
      if LabelKind(entries[done].id).Some? {
        OneMoreLabel(old(c.rows), c.rows, old(c.edges), c.edges, events, source, field, entries, done);
      }
      var ok, added := AddLabel(c, Edge(field, source, entries[done].id));
      if !ok {
        GoodIs(entries, done);
        return;
      }
      events := events + added;
      done := done + 1;
    }
    GoodIs(entries, done);
  }

  // ---------------------------------------------------------------- the stage over all ops

  /** The fields whose edges the first `n` ops replaced. */
  function FieldsTo(ops: seq<Op>, n: nat): set<string>
    requires n <= |ops|
  {
    if n == 0 then {} else FieldsTo(ops, n - 1) + {ops[n - 1].field}
  }

  lemma {:induction false} LaterFieldIsNew(ops: seq<Op>, n: nat, i: nat)
    requires n <= i < |ops| && DistinctBy(ops, OpField)
    ensures ops[i].field !in FieldsTo(ops, n)
  {
    if n == 0 {
    } else {
      LaterFieldIsNew(ops, n - 1, i);
      assert OpField(ops[n - 1]) != OpField(ops[i]);
    }
  }

  /** The edge events so far are about fields already dealt with. */
  ghost predicate About(events: seq<Event>, source: string, fields: set<string>) {
    forall e :: e in events && e.EdgeAdded? ==> e.edge.from == source && e.edge.typ in fields
  }

  ghost predicate OpsDone(rows0: map<string, Row>, rows: map<string, Row>, edges0: set<Edge>, edges: set<Edge>,
                          events: seq<Event>, source: string, ops: seq<Op>, gaps: Specs, n: nat)
  {
    && n <= |ops| && (forall i :: 0 <= i < n ==> Sound(ops[i], gaps))
    && GrewBy(rows0, rows, TargetsTo(ops, gaps, n))
    && edges == EdgesAfter(edges0, source, ops, gaps, n)
    && Honest(events, rows0, rows, edges)
    && About(events, source, FieldsTo(ops, n))
    && Told(rows0, rows, events, source, OpsSeq(source, ops, gaps, n))
  }

  lemma GrewByTwice(a: map<string, Row>, b: map<string, Row>, c: map<string, Row>, ids: set<string>, more: set<string>)
    requires GrewBy(a, b, ids) && GrewBy(b, c, more)
    ensures GrewBy(a, c, ids + more)
  {
  }

  lemma {:induction false} EdgesToAbout(source: string, field: string, entries: seq<LabelEntry>, n: nat, e: Edge)
    requires n <= |entries|
    ensures e in EdgesTo(source, field, entries, n) <==>
            e.from == source && e.typ == field && exists i :: 0 <= i < n && entries[i].id == e.to
  {
    if n == 0 {
    } else {
      EdgesToAbout(source, field, entries, n - 1, e);
    }
  }

  /** Honest events stay honest through the next op's wipe and additions. */
  lemma HonestAcrossOp(events: seq<Event>, added: seq<Event>, rows0: map<string, Row>, mid: map<string, Row>,
                       rows: map<string, Row>, edges: set<Edge>, source: string, op: Op, fields: set<string>, n: nat)
    requires Honest(events, rows0, mid, edges) && About(events, source, fields) && op.field !in fields
    requires n <= |Entries(op)| && Honest(added, mid, rows, EdgesTo(source, op.field, Entries(op), n))
    requires rows0.Keys <= mid.Keys && forall id :: id in mid ==> id in rows && rows[id] == mid[id]
    ensures Honest(events + added, rows0, rows,
                   Wiped(edges, source, op.field) + EdgesTo(source, op.field, Entries(op), n))
    ensures About(events + added, source, fields + {op.field})
  {
    forall e | e in added && e.EdgeAdded? ensures e.edge.from == source && e.edge.typ == op.field {
      EdgesToAbout(source, op.field, Entries(op), n, e.edge);
    }
  }

  /** One op of applyCanonicalTypeEdges; `done` labels of it were added. */
  method ApplyEdgeOp(c: Catalog, source: string, op: Op, gaps: Specs) returns (done: nat, events: seq<Event>)
    requires source in c.rows && TouchesEdges(op, gaps) && (op.OpSet? ==> op.value.Labels?)
    modifies c`rows, c`edges
    ensures source in c.rows
    ensures LabelsDone(old(c.rows), c.rows, Wiped(old(c.edges), source, op.field), c.edges, events,
                       source, op.field, Entries(op), done)
    ensures done == |Entries(op)| <==> Sound(op, gaps)
    ensures done == GoodFrom(Entries(op), 0)
  {
    c.DeleteEdgesByTypeFrom(source, op.field);
    if op.OpClear? {
      return 0, [];
    }
    done, events := ApplyLabels(c, source, op.field, op.value.entries);
  }

  lemma OneMoreOp(rows0: map<string, Row>, mid: map<string, Row>, rows: map<string, Row>, edges0: set<Edge>,
                  edges: set<Edge>, after: set<Edge>, events: seq<Event>, added: seq<Event>, source: string,
                  ops: seq<Op>, gaps: Specs, n: nat)
    requires n < |ops| && DistinctBy(ops, OpField) && TouchesEdges(ops[n], gaps) && Sound(ops[n], gaps)
    requires OpsDone(rows0, mid, edges0, edges, events, source, ops, gaps, n)
    requires LabelsDone(mid, rows, Wiped(edges, source, ops[n].field), after, added,
                        source, ops[n].field, Entries(ops[n]), |Entries(ops[n])|)
    ensures OpsDone(rows0, rows, edges0, after, events + added, source, ops, gaps, n + 1)
  {
    LaterFieldIsNew(ops, n, n);
    GrewByTwice(rows0, mid, rows, TargetsTo(ops, gaps, n), TargetsOfOp(ops[n], gaps));
    HonestAcrossOp(events, added, rows0, mid, rows, edges, source, ops[n], FieldsTo(ops, n), |Entries(ops[n])|);
    ToldSum(rows0, mid, rows, events, added, source, OpsSeq(source, ops, gaps, n),
            LabelSeq(source, ops[n].field, Entries(ops[n]), |Entries(ops[n])|), edges,
            EdgesTo(source, ops[n].field, Entries(ops[n]), |Entries(ops[n])|));
  }

  lemma SkippedOp(rows0: map<string, Row>, rows: map<string, Row>, edges0: set<Edge>, edges: set<Edge>,
                  events: seq<Event>, source: string, ops: seq<Op>, gaps: Specs, n: nat)
    requires n < |ops| && !TouchesEdges(ops[n], gaps)
    requires OpsDone(rows0, rows, edges0, edges, events, source, ops, gaps, n)
    ensures OpsDone(rows0, rows, edges0, edges, events, source, ops, gaps, n + 1)
  {
    assert TargetsTo(ops, gaps, n + 1) == TargetsTo(ops, gaps, n);
    assert EdgesAfter(edges0, source, ops, gaps, n + 1) == EdgesAfter(edges0, source, ops, gaps, n);
    assert FieldsTo(ops, n) <= FieldsTo(ops, n + 1);
    assert OpsSeq(source, ops, gaps, n + 1) == OpsSeq(source, ops, gaps, n);
  }

  /** Tables and queue after the stage: what StageEdges says, rows for its targets and nothing else,
      events that are true, complete and in order, and no other entity's edge touched. */
  ghost predicate StageDone(rows0: map<string, Row>, rows: map<string, Row>, edges0: set<Edge>, edges: set<Edge>,
                            events: seq<Event>, source: string, ops: seq<Op>, gaps: Specs)
  {
    && edges == StageEdges(edges0, source, ops, gaps)
    && GrewBy(rows0, rows, StageTargets(ops, gaps))
    && Honest(events, rows0, rows, edges)
    && (forall e: Edge :: e.from != source ==> (e in edges <==> e in edges0))
    && Told(rows0, rows, events, source, StageSeq(source, ops, gaps))
  }

  lemma StageRanThrough(rows0: map<string, Row>, rows: map<string, Row>, edges0: set<Edge>, edges: set<Edge>,
                        events: seq<Event>, source: string, ops: seq<Op>, gaps: Specs)
    requires OpsDone(rows0, rows, edges0, edges, events, source, ops, gaps, |ops|)
    ensures StageDone(rows0, rows, edges0, edges, events, source, ops, gaps)
  {
    OthersUntouched(edges0, source, ops, gaps, |ops|);
    StopIs(ops, gaps, |ops|);
    assert StageSeq(source, ops, gaps) == OpsSeq(source, ops, gaps, |ops|);
  }

  lemma StageStopped(rows0: map<string, Row>, mid: map<string, Row>, rows: map<string, Row>, edges0: set<Edge>,
                     edges: set<Edge>, after: set<Edge>, events: seq<Event>, added: seq<Event>,
                     source: string, ops: seq<Op>, gaps: Specs, n: nat)
    requires n < |ops| && DistinctBy(ops, OpField) && !Sound(ops[n], gaps)
    requires OpsDone(rows0, mid, edges0, edges, events, source, ops, gaps, n)
    requires LabelsDone(mid, rows, Wiped(edges, source, ops[n].field), after, added,
                        source, ops[n].field, Entries(ops[n]), GoodFrom(Entries(ops[n]), 0))
    ensures StageDone(rows0, rows, edges0, after, events + added, source, ops, gaps)
  {
    var op, done := ops[n], GoodFrom(Entries(ops[n]), 0);
    StopIs(ops, gaps, n);
    LaterFieldIsNew(ops, n, n);
    HonestAcrossOp(events, added, rows0, mid, rows, edges, source, op, FieldsTo(ops, n), done);
    GrewByTwice(rows0, mid, rows, TargetsTo(ops, gaps, n), IdsTo(Entries(op), done));
    ToldSum(rows0, mid, rows, events, added, source, OpsSeq(source, ops, gaps, n),
            LabelSeq(source, op.field, Entries(op), done), edges, EdgesTo(source, op.field, Entries(op), done));
    OthersUntouched(edges0, source, ops, gaps, n);
    forall e: Edge | e.from != source ensures e in after <==> e in edges0 {
      EdgesToAbout(source, op.field, Entries(op), done, e);
    }
  }

  /** One round of the loop. */
  method ApplyNextOp(c: Catalog, source: string, ops: seq<Op>, gaps: Specs, n: nat, queue: seq<Event>,
                     ghost rows0: map<string, Row>, ghost edges0: set<Edge>) returns (ok: bool, events: seq<Event>)
    requires source in c.rows && DistinctBy(ops, OpField) && n < |ops|
    requires OpsDone(rows0, c.rows, edges0, c.edges, queue, source, ops, gaps, n)
    modifies c`rows, c`edges
    ensures source in c.rows && (ok <==> Sound(ops[n], gaps))
    ensures ok ==> OpsDone(rows0, c.rows, edges0, c.edges, events, source, ops, gaps, n + 1)
    ensures !ok ==> StageDone(rows0, c.rows, edges0, c.edges, events, source, ops, gaps)
  {
    var op := ops[n];
    if !TouchesEdges(op, gaps) {
      SkippedOp(rows0, c.rows, edges0, c.edges, queue, source, ops, gaps, n);
      return true, queue;
    }
    ghost var mid, edges := c.rows, c.edges;
    if op.OpSet? && !op.value.Labels? {
      c.DeleteEdgesByTypeFrom(source, op.field);
      StageStopped(rows0, mid, c.rows, edges0, edges, c.edges, queue, [], source, ops, gaps, n);
      assert queue + [] == queue;
      return false, queue;
    }
    var done, added := ApplyEdgeOp(c, source, op, gaps);
    events, ok := queue + added, done == |Entries(op)|;
    if ok {
      OneMoreOp(rows0, mid, c.rows, edges0, edges, c.edges, queue, added, source, ops, gaps, n);
    } else {
      StageStopped(rows0, mid, c.rows, edges0, edges, c.edges, queue, added, source, ops, gaps, n);
    }
  }

  /** applyCanonicalTypeEdges. It succeeds exactly when every label is well-formed; then the edge
      table is what the ops say and each target has a row. A failure stops at the first malformed
      label and leaves exactly what came before it. Either way no existing row and no other
      entity's edge is touched, and the events are true, complete and in order. */
  method ApplyCanonicalTypeEdges(c: Catalog, source: string, ops: seq<Op>, gaps: Specs)
      returns (ok: bool, events: seq<Event>)
    requires source in c.rows && DistinctBy(ops, OpField)
    modifies c`rows, c`edges
    ensures ok <==> forall i :: 0 <= i < |ops| ==> Sound(ops[i], gaps)
    ensures ok ==> GrewBy(old(c.rows), c.rows, TargetsTo(ops, gaps, |ops|))
    ensures ok ==> c.edges == EdgesAfter(old(c.edges), source, ops, gaps, |ops|)
    ensures StageDone(old(c.rows), c.rows, old(c.edges), c.edges, events, source, ops, gaps)
  {
    events, ok := [], true;
    for n := 0 to |ops|
      invariant ok && source in c.rows
      invariant OpsDone(old(c.rows), c.rows, old(c.edges), c.edges, events, source, ops, gaps, n)
    {
      ok, events := ApplyNextOp(c, source, ops, gaps, n, events, old(c.rows), old(c.edges));
      if !ok {
        return;
      }
    }
    StageRanThrough(old(c.rows), c.rows, old(c.edges), c.edges, events, source, ops, gaps);
  }

  lemma {:induction false} OthersUntouched(edges: set<Edge>, source: string, ops: seq<Op>, gaps: Specs, n: nat)
    requires n <= |ops|
    ensures forall e: Edge :: e.from != source ==> (e in EdgesAfter(edges, source, ops, gaps, n) <==> e in edges)
  {
    if n == 0 {
    } else {
      OthersUntouched(edges, source, ops, gaps, n - 1);
      forall e: Edge | e.from != source ensures e in EdgesAfter(edges, source, ops, gaps, n) <==> e in edges {
        EdgesToAbout(source, ops[n - 1].field, Entries(ops[n - 1]), |Entries(ops[n - 1])|, e);
      }
    }
  }
}
