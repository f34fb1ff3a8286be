/** The two passes over a plugin's canonical edges: thin rows for the targets, then the edges. */
module CanonicalEdges {
  import opened Base
  import opened Vault
  import opened Store

  /** The operator's enabled canonical kinds and edge types. */
  datatype Guard = Guard(kinds: set<string>, types: set<string>)

  type Candidates = seq<Option<Edge>>

  /** The distinct non-empty edge targets. */
  function Targets(edges: Candidates): set<string> {
    if edges == [] then {}
    else
      var last := edges[|edges| - 1];
      Targets(edges[..|edges| - 1]) + if last.Some? && last.value.to != "" then {last.value.to} else {}
  }

  predicate KindAllowed(kind: string, guard: Guard) {
    kind == SOURCE_TYPE_KIND || kind in guard.kinds
  }

  /** A well-formed label of a source-type or enabled kind. */
  predicate MayMaterialize(id: string, guard: Guard) {
    LabelKind(id).Some? && KindAllowed(LabelKind(id).value, guard)
  }

  /** Targets whose kind the operator did not enable. */
  function DroppedTargets(edges: Candidates, guard: Guard, kind: string): set<string> {
    set t | t in Targets(edges) && LabelKind(t) == Some(kind) && !KindAllowed(kind, guard)
  }

  function WithThinRows(rows: map<string, Row>, edges: Candidates, guard: Guard): map<string, Row> {
    map t | t in rows.Keys + Targets(edges) && (t in rows || MayMaterialize(t, guard)) ::
      if t in rows then rows[t] else ThinRow(LabelKind(t).value)
  }

  predicate Complete(c: Option<Edge>) {
    c.Some? && c.value.typ != "" && c.value.from != "" && c.value.to != ""
  }

  predicate Lands(c: Option<Edge>, rows: map<string, Row>, guard: Guard) {
    Complete(c) && c.value.typ in guard.types && c.value.from in rows && c.value.to in rows
  }

  function Landed(edges: Candidates, rows: map<string, Row>, guard: Guard): seq<Edge> {
    if edges == [] then []
    else
      var last := edges[|edges| - 1];
      Landed(edges[..|edges| - 1], rows, guard) + if Lands(last, rows, guard) then [last.value] else []
  }

  /** How many candidates carry the disabled type `typ`. */
  function DroppedOfType(edges: Candidates, guard: Guard, typ: string): nat {
    if edges == [] then 0
    else
      var last := edges[|edges| - 1];
      DroppedOfType(edges[..|edges| - 1], guard, typ) +
      if Complete(last) && last.value.typ == typ && typ !in guard.types then 1 else 0
  }

  /** The last candidate is the first to name its target. */
  predicate NewTarget(edges: Candidates)
    requires edges != []
  {
    var last := edges[|edges| - 1];
    last.Some? && last.value.to != "" && last.value.to !in Targets(edges[..|edges| - 1])
  }

  /** How many distinct targets of the disabled kind `kind` there are. */
  function DroppedOfKind(edges: Candidates, guard: Guard, kind: string): nat {
    if edges == [] then 0
    else
      DroppedOfKind(edges[..|edges| - 1], guard, kind) +
      if NewTarget(edges) && LabelKind(edges[|edges| - 1].value.to) == Some(kind) && !KindAllowed(kind, guard)
      then 1 else 0
  }

  function CreatedEvents(edges: Candidates, before: map<string, Row>, guard: Guard): seq<Event> {
    if edges == [] then []
    else
      CreatedEvents(edges[..|edges| - 1], before, guard) +
      var last := edges[|edges| - 1];
      if NewTarget(edges) && last.value.to !in before && MayMaterialize(last.value.to, guard)
      then [EntityCreated(last.value.to, LabelKind(last.value.to).value, last.value.from)] else []
  }

  lemma OneMoreCandidate(before: map<string, Row>, edges: Candidates, guard: Guard)
    requires edges != []
    ensures var init, last := edges[..|edges| - 1], edges[|edges| - 1];
            var rows := WithThinRows(before, init, guard);
            if NewTarget(edges) then
              && (last.value.to in rows <==> last.value.to in before)
              && WithThinRows(before, edges, guard) ==
                 (if last.value.to !in before && MayMaterialize(last.value.to, guard)
                  then rows[last.value.to := ThinRow(LabelKind(last.value.to).value)] else rows)
            else
              WithThinRows(before, edges, guard) == rows
  {
  }

  /** What one more candidate adds to the counters and to the queue. */
  lemma OneMoreCounted(before: map<string, Row>, edges: Candidates, guard: Guard)
    requires edges != []
    ensures var init, last := edges[..|edges| - 1], edges[|edges| - 1];
            && (forall kind :: DroppedOfKind(edges, guard, kind) == DroppedOfKind(init, guard, kind) +
                  if NewTarget(edges) && LabelKind(last.value.to) == Some(kind) && !KindAllowed(kind, guard)
                  then 1 else 0)
            && CreatedEvents(edges, before, guard) == CreatedEvents(init, before, guard) +
                 if NewTarget(edges) && last.value.to !in before && MayMaterialize(last.value.to, guard)
                 then [EntityCreated(last.value.to, LabelKind(last.value.to).value, last.value.from)] else []
  {
  }

  /** Pass one. No existing row is touched; every well-formed target of an enabled kind has a row
      afterwards; every other well-formed target is counted once under its kind. */
  method MaterializeThinLabelRows(c: Catalog, edges: Candidates, guard: Guard, plugin: string)
      returns (events: seq<Event>)
    modifies c`rows, c`droppedKinds
    ensures c.rows == WithThinRows(old(c.rows), edges, guard)
    ensures forall kind :: Count(c.droppedKinds, (plugin, kind)) ==
                           Count(old(c.droppedKinds), (plugin, kind)) + DroppedOfKind(edges, guard, kind)
    ensures events == CreatedEvents(edges, old(c.rows), guard)
  {
    var seen: set<string> := {};
    events := [];
    for i := 0 to |edges|
      invariant seen == Targets(edges[..i])
      invariant c.rows == WithThinRows(old(c.rows), edges[..i], guard)
      invariant forall kind :: Count(c.droppedKinds, (plugin, kind)) ==
                               Count(old(c.droppedKinds), (plugin, kind)) + DroppedOfKind(edges[..i], guard, kind)
      invariant events == CreatedEvents(edges[..i], old(c.rows), guard)
    {
      assert edges[..i + 1][..i] == edges[..i];
      OneMoreCandidate(old(c.rows), edges[..i + 1], guard);
      OneMoreCounted(old(c.rows), edges[..i + 1], guard);
      var e := edges[i];
      if e.None? || e.value.to == "" || e.value.to in seen {
        continue;
      }
      seen := seen + {e.value.to};
      var created := MaterializeTarget(c, e.value.to, guard, plugin);
      if created.Some? {
        events := events + [EntityCreated(e.value.to, created.value, e.value.from)];
      }
    }
    assert edges[..|edges|] == edges;
  }

  /** The loop body for a target seen for the first time; Some(kind) if it got a thin row. */
  method MaterializeTarget(c: Catalog, to: string, guard: Guard, plugin: string) returns (created: Option<string>)
    modifies c`rows, c`droppedKinds
    ensures created == if to !in old(c.rows) && MayMaterialize(to, guard) then LabelKind(to) else None
    ensures c.rows == if created.Some? then old(c.rows)[to := ThinRow(created.value)] else old(c.rows)
    ensures forall kind :: Count(c.droppedKinds, (plugin, kind)) ==
                           Count(old(c.droppedKinds), (plugin, kind)) +
                           if LabelKind(to) == Some(kind) && !KindAllowed(kind, guard) then 1 else 0
  {
    var kind := LabelKind(to);
    if kind.None? {
      return None;
    }
    if kind.value != SOURCE_TYPE_KIND && kind.value !in guard.kinds {
      c.IncDroppedKind(plugin, kind.value);
      return None;
    }
    if to in c.rows {
      return None;
    }
    c.UpsertEntity(to, kind.value, None, map[]);
    return kind;
  }

  lemma {:induction false} DroppedOfKindIsSize(edges: Candidates, guard: Guard, kind: string)
    ensures DroppedOfKind(edges, guard, kind) == |DroppedTargets(edges, guard, kind)|
  {
    if edges == [] {
    } else {
      var init, last := edges[..|edges| - 1], edges[|edges| - 1];
      DroppedOfKindIsSize(init, guard, kind);
      assert Targets(edges) == Targets(init) + if last.Some? && last.value.to != "" then {last.value.to} else {};
      if NewTarget(edges) && LabelKind(last.value.to) == Some(kind) && !KindAllowed(kind, guard) {
        assert DroppedTargets(edges, guard, kind) == DroppedTargets(init, guard, kind) + {last.value.to};
      } else {
        assert DroppedTargets(edges, guard, kind) == DroppedTargets(init, guard, kind);
      }
    }
  }

  /** A created event names a row that was absent and is now there, as a thin row of that kind,
      and blames a candidate that points at it. */
  lemma {:induction false} CreatedEventsAreTrue(edges: Candidates, before: map<string, Row>, guard: Guard, e: Event)
    requires e in CreatedEvents(edges, before, guard)
    ensures e.EntityCreated? && e.id !in before && e.id in Targets(edges) && MayMaterialize(e.id, guard)
    ensures e.id in WithThinRows(before, edges, guard) && WithThinRows(before, edges, guard)[e.id] == ThinRow(e.kind)
    ensures exists i :: 0 <= i < |edges| && edges[i].Some? && edges[i].value.from == e.causedBy &&
              edges[i].value.to == e.id
  {
    var init, last := edges[..|edges| - 1], edges[|edges| - 1];
    if e in CreatedEvents(init, before, guard) {
      CreatedEventsAreTrue(init, before, guard, e);
      var i :| 0 <= i < |init| && init[i].Some? && init[i].value.from == e.causedBy && init[i].value.to == e.id;
      assert edges[i] == init[i];
    } else {
      assert edges[|edges| - 1] == last && last.value.from == e.causedBy;
    }
  }

  /** Candidate `i` is the first to point at the id. */
  ghost predicate FirstPointer(edges: Candidates, i: nat, id: string) {
    && i < |edges| && edges[i].Some? && edges[i].value.to == id
    && forall j :: 0 <= j < i && edges[j].Some? ==> edges[j].value.to != id
  }

  /** And the one it blames is the first that does. */
  lemma {:induction false} CreatedByFirst(edges: Candidates, before: map<string, Row>, guard: Guard, e: Event)
      returns (i: nat)
    requires e in CreatedEvents(edges, before, guard)
    ensures e.EntityCreated? && FirstPointer(edges, i, e.id) && edges[i].value.from == e.causedBy
  {
    var init, last := edges[..|edges| - 1], edges[|edges| - 1];
    assert forall j :: 0 <= j < |init| ==> init[j] == edges[j];
    if e in CreatedEvents(init, before, guard) {
      i := CreatedByFirst(init, before, guard, e);
    } else {
      i := |edges| - 1;
      TargetsMembers(init, last.value.to);
    }
  }

  /** Every new row is announced, and announced once. */
  lemma {:induction false} NewRowsAnnouncedOnce(edges: Candidates, before: map<string, Row>, guard: Guard)
    ensures forall id :: id in WithThinRows(before, edges, guard) && id !in before ==>
              exists e :: e in CreatedEvents(edges, before, guard) && e.EntityCreated? && e.id == id
    ensures var es := CreatedEvents(edges, before, guard);
            forall i, j :: 0 <= i < j < |es| ==> es[i].EntityCreated? && es[j].EntityCreated? && es[i].id != es[j].id
  {
    if edges == [] {
    } else {
      var init, last := edges[..|edges| - 1], edges[|edges| - 1];
      NewRowsAnnouncedOnce(init, before, guard);
      var earlier, es := CreatedEvents(init, before, guard), CreatedEvents(edges, before, guard);
      forall i | 0 <= i < |earlier| ensures earlier[i].EntityCreated? && earlier[i].id in Targets(init) {
        CreatedEventsAreTrue(init, before, guard, earlier[i]);
      }
      forall id | id in WithThinRows(before, edges, guard) && id !in before
        ensures exists e :: e in es && e.EntityCreated? && e.id == id
      {
        if id in Targets(init) {
          assert id in WithThinRows(before, init, guard);
          var e :| e in earlier && e.EntityCreated? && e.id == id;
          assert e in es;
        } else {
          assert es[|es| - 1].id == id;
        }
      }
    }
  }

  function EdgeEvents(landed: seq<Edge>): seq<Event> {
    seq(|landed|, i requires 0 <= i < |landed| => EdgeAdded(landed[i]))
  }

  /** Pass two. One event per landed candidate, in order; a candidate of a disabled type is
      counted under its type and nothing else about it happens. */
  method PersistCanonicalEdges(c: Catalog, edges: Candidates, guard: Guard, plugin: string) returns (events: seq<Event>)
    modifies c`edges, c`droppedTypes
    ensures c.edges == old(c.edges) + set e | e in Landed(edges, c.rows, guard)
    ensures events == EdgeEvents(Landed(edges, c.rows, guard))
    ensures forall typ :: Count(c.droppedTypes, (plugin, typ)) ==
                          Count(old(c.droppedTypes), (plugin, typ)) + DroppedOfType(edges, guard, typ)
  {
    events := [];
    for i := 0 to |edges|
      invariant c.edges == old(c.edges) + set e | e in Landed(edges[..i], c.rows, guard)
      invariant events == EdgeEvents(Landed(edges[..i], c.rows, guard))
      invariant forall typ :: Count(c.droppedTypes, (plugin, typ)) ==
                              Count(old(c.droppedTypes), (plugin, typ)) + DroppedOfType(edges[..i], guard, typ)
    {
      assert edges[..i + 1][..i] == edges[..i];
      var e := edges[i];
      if e.None? || e.value.typ == "" || e.value.from == "" || e.value.to == "" {
        continue;
      }
      if e.value.typ !in guard.types {
        c.IncDroppedType(plugin, e.value.typ);
        continue;
      }
      var landed := c.CreateEdge(e.value);
      if !landed {
        continue;
      }
      events := events + [EdgeAdded(e.value)];
    }
    assert edges[..|edges|] == edges;
  }

  lemma {:induction false} LandedMembers(edges: Candidates, rows: map<string, Row>, guard: Guard, e: Edge)
    ensures e in Landed(edges, rows, guard) <==> Some(e) in edges && Lands(Some(e), rows, guard)
  {
    if edges == [] {
    } else {
      LandedMembers(edges[..|edges| - 1], rows, guard, e);
      assert edges == edges[..|edges| - 1] + [edges[|edges| - 1]];
    }
  }

  lemma {:induction false} TargetsMembers(edges: Candidates, t: string)
    ensures t in Targets(edges) <==> t != "" && exists i :: 0 <= i < |edges| && edges[i].Some? && edges[i].value.to == t
  {
    if edges == [] {
    } else {
      var init := edges[..|edges| - 1];
      TargetsMembers(init, t);
      assert forall i :: 0 <= i < |init| ==> init[i] == edges[i];
    }
  }

  /** The id is a label whose kind is source-type or one the operator enabled. */
  predicate NamesAllowedKind(id: string, guard: Guard) {
    match LabelKind(id)
    case None => false
    case Some(kind) => kind == "source-type" || kind in guard.kinds
  }

  /** Some candidate points at the id. */
  ghost predicate PointedAt(edges: Candidates, id: string) {
    id != "" && exists i :: 0 <= i < |edges| && edges[i].Some? && edges[i].value.to == id
  }

  /** Both passes over the rows as they stood before: an edge is in the table afterwards exactly
      if it was there already, or it is a complete candidate of an enabled type whose head is an
      old row or a label of an allowed kind, and whose tail is an old row or itself such a target. */
  lemma {:induction false} TwoPassEdges(before: map<string, Row>, edges: Candidates, guard: Guard, e: Edge)
    ensures e in Landed(edges, WithThinRows(before, edges, guard), guard) <==>
            && Some(e) in edges && e.typ != "" && e.from != "" && e.to != "" && e.typ in guard.types
            && (e.to in before || NamesAllowedKind(e.to, guard))
            && (e.from in before || (PointedAt(edges, e.from) && NamesAllowedKind(e.from, guard)))
  {
    TargetsMembers(edges, e.from);
    LandedMembers(edges, WithThinRows(before, edges, guard), guard, e);
    if Some(e) in edges && Complete(Some(e)) {
      TargetsMembers(edges, e.to);
      var i :| 0 <= i < |edges| && edges[i] == Some(e);
      assert e.to in Targets(edges);
    }
  }

  /** The rows after pass one: the old ones as they were, and a thin row for every id some candidate
      points at that names an allowed kind. */
  lemma ThinRowsAre(before: map<string, Row>, edges: Candidates, guard: Guard, id: string)
    ensures id in before ==>
              id in WithThinRows(before, edges, guard) && WithThinRows(before, edges, guard)[id] == before[id]
    ensures id !in before ==>
              (id in WithThinRows(before, edges, guard) <==> PointedAt(edges, id) && NamesAllowedKind(id, guard))
    ensures id !in before && id in WithThinRows(before, edges, guard) ==>
              WithThinRows(before, edges, guard)[id] == Row(LabelKind(id).value, None, map[], false)
  {
    TargetsMembers(edges, id);
  }

  /** The candidate that lands, given the rows. */
  function LandsOn(rows: map<string, Row>, guard: Guard): Option<Edge> -> Option<Edge> {
    (c: Option<Edge>) =>
      if c.Some? && c.value.typ != "" && c.value.from != "" && c.value.to != "" && c.value.typ in guard.types
         && c.value.from in rows && c.value.to in rows
      then c else None
  }

  /** Edges are added, and announced, in the order of the candidates. */
  lemma {:induction false} LandedInOrder(edges: Candidates, rows: map<string, Row>, guard: Guard)
    ensures var landed := Landed(edges, rows, guard);
            && Picks(edges, landed, LandsOn(rows, guard)) && |EdgeEvents(landed)| == |landed|
            && forall i :: 0 <= i < |landed| ==> EdgeEvents(landed)[i] == EdgeAdded(landed[i])
  {
    if edges == [] {
      PicksNothing(LandsOn(rows, guard));
    } else {
      var init, last := edges[..|edges| - 1], edges[|edges| - 1];
      LandedInOrder(init, rows, guard);
      PicksOneMore(init, Landed(init, rows, guard), LandsOn(rows, guard), last);
      assert edges == init + [last];
    }
  }

  /** The candidate is complete and carries the type, and the operator did not enable it. */
  predicate OfDisabledType(c: Option<Edge>, guard: Guard, typ: string) {
    c.Some? && c.value.typ == typ && typ != "" && typ !in guard.types && c.value.from != "" && c.value.to != ""
  }

  /** Where such candidates stand among the first `n`. */
  function DisabledAt(edges: Candidates, guard: Guard, typ: string, n: nat): set<nat>
    requires n <= |edges|
  {
    set i: nat | i < n && OfDisabledType(edges[i], guard, typ)
  }

  lemma DisabledStep(edges: Candidates, guard: Guard, typ: string, n: nat)
    requires n < |edges|
    ensures |DisabledAt(edges, guard, typ, n + 1)| ==
            |DisabledAt(edges, guard, typ, n)| + if OfDisabledType(edges[n], guard, typ) then 1 else 0
  {
    assert DisabledAt(edges, guard, typ, n + 1) ==
           DisabledAt(edges, guard, typ, n) + if OfDisabledType(edges[n], guard, typ) then {n} else {};
  }

  lemma {:induction false} DroppedOfTypeIsSize(edges: Candidates, guard: Guard, typ: string)
    ensures DroppedOfType(edges, guard, typ) == |DisabledAt(edges, guard, typ, |edges|)|
  {
    if edges == [] {
    } else {
      var init := edges[..|edges| - 1];
      DroppedOfTypeIsSize(init, guard, typ);
      assert DisabledAt(init, guard, typ, |init|) == DisabledAt(edges, guard, typ, |init|);
      DisabledStep(edges, guard, typ, |init|);
    }
  }

  /** Every complete candidate of an enabled type that did not land for want of its head was
      accounted for: its head is not a label at all, or is counted under its kind. */
  lemma DroppedHeadsAreCounted(before: map<string, Row>, edges: Candidates, guard: Guard, e: Edge)
    requires Some(e) in edges && Complete(Some(e)) && e.to !in WithThinRows(before, edges, guard)
    ensures LabelKind(e.to).None? || e.to in DroppedTargets(edges, guard, LabelKind(e.to).value)
  {
    TargetsMembers(edges, e.to);
    var i :| 0 <= i < |edges| && edges[i] == Some(e);
    assert e.to in Targets(edges);
  }
}
