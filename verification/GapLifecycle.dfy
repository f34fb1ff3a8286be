/** The life of a gap over any sequence of fill calls: open, deferred, filled. */
module GapLifecycle {
  import opened Base
  import opened Vault
  import opened GapSpecs
  import opened Fill

  datatype Call = Call(req: map<string, Raw>, allKinds: set<string>, operatorTrigger: bool, force: bool, now: int)

  function ContextOf(kindGaps: Specs, v: Fillable, call: Call): Context {
    Context(Effective(kindGaps, v.gapState), call.allKinds, OverwriteData(v), v.gaps, call.operatorTrigger, call.force)
  }

  /** The call passes the parser and the defer check, with these ops. */
  ghost predicate Accepted(kindGaps: Specs, v: Fillable, call: Call, ops: seq<Op>) {
    IsParse(ContextOf(kindGaps, v, call), call.req, Ok(ops)) && PreDeferCheck(v, ops) == None
  }

  function After(kindGaps: Specs, v: Fillable, call: Call, ops: seq<Op>): Fillable {
    ApplyOps(v, ops, call.now, Effective(kindGaps, v.gapState))
  }

  // ---------------------------------------------------------------- one field at a time

  /** Everything a file says about one field. */
  datatype Local = Local(open: bool, value: Option<Value>, summary: string, tags: seq<string>, state: Option<GapEntry>)

  function At(v: Fillable, g: string): Local {
    Local(g in v.gaps,
          Lookup(v.data, g),
          if g == "summary" then v.summary else "",
          if g == "tags" then v.tags else [],
          Lookup(v.gapState, g))
  }

  lemma ApplyOpElsewhere(v: Fillable, op: Op, now: int, known: Specs, g: string)
    requires op.field != g
    ensures At(ApplyOp(v, op, now, known), g) == At(v, g)
  {
    WithoutMembers(v.gaps, op.field);
  }

  lemma ApplyOpLocal(v: Fillable, w: Fillable, op: Op, now: int, known: Specs)
    requires At(v, op.field) == At(w, op.field)
    ensures At(ApplyOp(v, op, now, known), op.field) == At(ApplyOp(w, op, now, known), op.field)
  {
    WithoutMembers(v.gaps, op.field);
    WithoutMembers(w.gaps, op.field);
  }

  lemma {:induction false} ApplyOpsElsewhere(v: Fillable, ops: seq<Op>, now: int, known: Specs, g: string)
    requires forall i :: 0 <= i < |ops| ==> ops[i].field != g
    ensures At(ApplyOps(v, ops, now, known), g) == At(v, g)
  {
    if ops == [] {
    } else {
      ApplyOpsElsewhere(v, ops[..|ops| - 1], now, known, g);
      ApplyOpElsewhere(ApplyOps(v, ops[..|ops| - 1], now, known), ops[|ops| - 1], now, known, g);
    }
  }

  /** Ops on different fields do not meet: a field ends as its own op alone would leave it. */
  lemma {:induction false} ApplyOpsHere(v: Fillable, ops: seq<Op>, now: int, known: Specs, i: nat)
    requires i < |ops| && DistinctBy(ops, OpField)
    ensures At(ApplyOps(v, ops, now, known), ops[i].field) == At(ApplyOp(v, ops[i], now, known), ops[i].field)
  {
    var init, last, f := ops[..|ops| - 1], ops[|ops| - 1], ops[i].field;
    assert forall a, b :: 0 <= a < b < |ops| ==> OpField(ops[a]) != OpField(ops[b]);
    if i == |ops| - 1 {
      ApplyOpsElsewhere(v, init, now, known, f);
      ApplyOpLocal(ApplyOps(v, init, now, known), v, last, now, known);
    } else {
      assert OpField(ops[i]) != OpField(last);
      ApplyOpsHere(v, init, now, known, i);
      ApplyOpElsewhere(ApplyOps(v, init, now, known), last, now, known, f);
    }
  }

  lemma {:induction false} ApplyOpsDistinct(v: Fillable, ops: seq<Op>, now: int, known: Specs)
    requires Distinct(v.gaps)
    ensures Distinct(ApplyOps(v, ops, now, known).gaps)
  {
    if ops == [] {
    } else {
      ApplyOpsDistinct(v, ops[..|ops| - 1], now, known);
      WithoutDistinct(ApplyOps(v, ops[..|ops| - 1], now, known).gaps, ops[|ops| - 1].field);
    }
  }

  // ---------------------------------------------------------------- the invariant

  predicate LocalHasValue(l: Local) {
    l.value.Some? || l.summary != "" || l.tags != []
  }

  lemma HasValueIsLocal(v: Fillable, g: string)
    ensures HasValue(v, g) <==> LocalHasValue(At(v, g))
  {
  }

  /** Open or filled, never both; deferred only while open. */
  predicate GapInOrder(l: Local) {
    && (l.open <==> !LocalHasValue(l))
    && (l.state.Some? && l.state.value.deferred ==> l.open)
  }

  /** The lifecycle invariant for the gaps the operator registered for the kind. */
  ghost predicate InOrder(kindGaps: Specs, v: Fillable) {
    Distinct(v.gaps) && forall g :: g in kindGaps ==> GapInOrder(At(v, g))
  }

  /** What InOrder says in the file's own terms. */
  lemma InOrderMeans(kindGaps: Specs, v: Fillable)
    ensures InOrder(kindGaps, v) <==>
              Distinct(v.gaps) && forall g :: g in kindGaps ==>
                && (g in v.gaps <==> !HasValue(v, g))
                && (g in v.gapState && v.gapState[g].deferred ==> g in v.gaps && !HasValue(v, g))
  {
    forall g | g in kindGaps
      ensures GapInOrder(At(v, g)) <==>
                && (g in v.gaps <==> !HasValue(v, g))
                && (g in v.gapState && v.gapState[g].deferred ==> g in v.gaps && !HasValue(v, g))
    {
      HasValueIsLocal(v, g);
    }
  }

  /** A set op that leaves the reserved field it closes without a value. */
  predicate Blank(op: Op) {
    op.OpSet? &&
    if op.field == "summary" then !(op.value.Scalar? && op.value.v.VStr? && op.value.v.s != "")
    else if op.field == "tags" then !(op.value.Scalar? && op.value.v.VStrs? && op.value.v.items != [])
    else false
  }

  /** The request values that parse to such an op. */
  predicate BlankRequest(field: string, raw: Raw, spec: GapSpec) {
    if field == "summary" then raw == RStr("") || (spec.typ == CANONICAL_TYPE && raw.RList?)
    else if field == "tags" then raw.RList? && (raw.items == [] || spec.typ == CANONICAL_TYPE)
    else false
  }

  lemma BlankOpsComeFromBlankRequests(ctx: Context, field: string, raw: Raw)
    requires ParseField(ctx, field, raw).Ok?
    ensures Blank(ParseField(ctx, field, raw).value) <==> BlankRequest(field, raw, SpecOf(ctx.gaps, field))
  {
    ParsedFieldName(ctx, field, raw);
  }

  /** A set op breaks the order exactly if it closes a reserved field and leaves it no value. */
  lemma SetKeepsOrderIff(v: Fillable, op: Op, now: int, known: Specs)
    requires op.OpSet? && GapInOrder(At(v, op.field))
    ensures GapInOrder(At(ApplyOp(v, op, now, known), op.field)) <==> !(Blank(op) && op.field !in v.data)
  {
    WithoutMembers(v.gaps, op.field);
  }

  predicate Reserved(field: string) {
    field == "summary" || field == "tags"
  }

  /** A clear op breaks it exactly if the field is reserved and has a key under `data:`, which the
      clear does not remove while it re-opens the gap. */
  lemma ClearKeepsOrderIff(v: Fillable, op: Op, now: int, known: Specs)
    requires op.OpClear? && op.field in known && GapInOrder(At(v, op.field))
    ensures GapInOrder(At(ApplyOp(v, op, now, known), op.field)) <==> !(Reserved(op.field) && op.field in v.data)
  {
  }

  lemma DeferKeepsOrder(v: Fillable, op: Op, now: int, known: Specs)
    requires (op.OpDefer? || op.OpUndefer?) && op.field in v.gaps && GapInOrder(At(v, op.field))
    ensures GapInOrder(At(ApplyOp(v, op, now, known), op.field))
  {
  }

  /** The op leaves its field both open and valued, or neither. */
  predicate BreakingOp(v: Fillable, op: Op) {
    || (Blank(op) && op.field !in v.data)
    || (op.OpClear? && Reserved(op.field) && op.field in v.data)
  }

  lemma OpKeepsOrderIff(kindGaps: Specs, v: Fillable, call: Call, ops: seq<Op>, op: Op)
    requires InOrder(kindGaps, v) && Accepted(kindGaps, v, call, ops) && op in ops && op.field in kindGaps
    ensures GapInOrder(At(ApplyOp(v, op, call.now, Effective(kindGaps, v.gapState)), op.field)) <==> !BreakingOp(v, op)
  {
    var known := Effective(kindGaps, v.gapState);
    match op
    case OpSet(_, _) => SetKeepsOrderIff(v, op, call.now, known);
    case OpClear(_) => ClearKeepsOrderIff(v, op, call.now, known);
    case _ =>
      DeferOnlyOnOpenGap(ContextOf(kindGaps, v, call), op.field, call.req[op.field]);
      DeferKeepsOrder(v, op, call.now, known);
  }

  /** The request values that break a field: a blank one for a reserved name that has nothing under
      `data:`, and a null for a reserved name that has. */
  predicate BreakingRequest(v: Fillable, field: string, raw: Raw, spec: GapSpec) {
    || (BlankRequest(field, raw, spec) && field !in v.data)
    || (raw.RNull? && Reserved(field) && field in v.data)
  }

  /** No registered field of the call is broken by its value. */
  predicate CleanCall(kindGaps: Specs, v: Fillable, call: Call) {
    forall f :: f in call.req && f in kindGaps ==>
      !BreakingRequest(v, f, call.req[f], SpecOf(Effective(kindGaps, v.gapState), f))
  }

  lemma BreakingOpsComeFromBreakingRequests(v: Fillable, ctx: Context, field: string, raw: Raw)
    requires ParseField(ctx, field, raw).Ok?
    ensures BreakingOp(v, ParseField(ctx, field, raw).value) <==>
              BreakingRequest(v, field, raw, SpecOf(ctx.gaps, field))
  {
    ParsedFieldName(ctx, field, raw);
    BlankOpsComeFromBlankRequests(ctx, field, raw);
  }

  /** One field of an accepted call. */
  lemma {:induction false} FieldKeepsOrderIff(kindGaps: Specs, v: Fillable, call: Call, ops: seq<Op>, g: string)
    requires InOrder(kindGaps, v) && Accepted(kindGaps, v, call, ops) && g in kindGaps
    ensures GapInOrder(At(After(kindGaps, v, call, ops), g)) <==>
            (g in call.req ==> !BreakingRequest(v, g, call.req[g], SpecOf(Effective(kindGaps, v.gapState), g)))
  {
    var known, ctx := Effective(kindGaps, v.gapState), ContextOf(kindGaps, v, call);
    ParsedFieldsDiffer(ctx, call.req, ops);
    if g in call.req {
      var op := ParseField(ctx, g, call.req[g]).value;
      ParsedFieldName(ctx, g, call.req[g]);
      assert op in ops;
      var i :| 0 <= i < |ops| && ops[i] == op;
      ApplyOpsHere(v, ops, call.now, known, i);
      OpKeepsOrderIff(kindGaps, v, call, ops, op);
      BreakingOpsComeFromBreakingRequests(v, ctx, g, call.req[g]);
    } else {
      forall i | 0 <= i < |ops| ensures ops[i].field != g { assert ops[i] in ops; }
      ApplyOpsElsewhere(v, ops, call.now, known, g);
    }
  }

  /** One accepted call, exactly: the invariant survives if and only if no registered reserved field
      was set to a blank value with nothing under `data:`, or cleared with something there. */
  lemma {:induction false} FillKeepsOrderIff(kindGaps: Specs, v: Fillable, call: Call, ops: seq<Op>)
    requires InOrder(kindGaps, v) && Accepted(kindGaps, v, call, ops)
    ensures InOrder(kindGaps, After(kindGaps, v, call, ops)) <==> CleanCall(kindGaps, v, call)
  {
    ApplyOpsDistinct(v, ops, call.now, Effective(kindGaps, v.gapState));
    forall g | g in kindGaps
      ensures GapInOrder(At(After(kindGaps, v, call, ops), g)) <==>
              (g in call.req ==> !BreakingRequest(v, g, call.req[g], SpecOf(Effective(kindGaps, v.gapState), g)))
    {
      FieldKeepsOrderIff(kindGaps, v, call, ops, g);
    }
  }

  /** A run of accepted calls on one file. */
  ghost predicate FillRun(kindGaps: Specs, files: seq<Fillable>, calls: seq<Call>, ops: seq<seq<Op>>) {
    && |files| == |calls| + 1 && |ops| == |calls|
    && forall i :: 0 <= i < |calls| ==>
         Accepted(kindGaps, files[i], calls[i], ops[i]) && files[i + 1] == After(kindGaps, files[i], calls[i], ops[i])
  }

  /** Over any sequence of accepted calls, whatever their triggers, force flags and timestamps: a
      file that starts in order is in order all along if and only if every call is clean. */
  lemma {:induction false} LifecycleOverRun(kindGaps: Specs, files: seq<Fillable>, calls: seq<Call>,
                                            ops: seq<seq<Op>>, n: nat)
    requires FillRun(kindGaps, files, calls, ops) && n < |files| && InOrder(kindGaps, files[0])
    ensures (forall i :: 0 <= i <= n ==> InOrder(kindGaps, files[i])) <==>
            (forall i :: 0 <= i < n ==> CleanCall(kindGaps, files[i], calls[i]))
  {
    if n == 0 {
    } else {
      LifecycleOverRun(kindGaps, files, calls, ops, n - 1);
      assert files[n - 1 + 1] == After(kindGaps, files[n - 1], calls[n - 1], ops[n - 1]);
      if InOrder(kindGaps, files[n - 1]) {
        FillKeepsOrderIff(kindGaps, files[n - 1], calls[n - 1], ops[n - 1]);
      }
    }
  }

  /** A file materialized for a canonical label starts in order. */
  lemma NewLabelFileInOrder(kindGaps: Specs, gaps: seq<string>)
    requires Distinct(gaps) && forall g :: g in gaps <==> g in kindGaps
    ensures InOrder(kindGaps, Fillable(map[], "", [], gaps, map[]))
  {
  }

  // ---------------------------------------------------------------- where the code falls short

  /** A blank summary closes its gap and leaves nothing: the field is then neither open nor filled. */
  lemma BlankSummaryWitness()
    ensures var kindGaps: Specs := map["summary" := NO_SPEC];
            var v := Fillable(map[], "", [], ["summary"], map[]);
            var call := Call(map["summary" := RStr("")], {}, false, false, 0);
            var ops := [OpSet("summary", Scalar(VStr("")))];
            && InOrder(kindGaps, v) && Accepted(kindGaps, v, call, ops)
            && "summary" !in After(kindGaps, v, call, ops).gaps
            && !HasValue(After(kindGaps, v, call, ops), "summary")
  {
    var kindGaps: Specs := map["summary" := NO_SPEC];
    var v := Fillable(map[], "", [], ["summary"], map[]);
    var call := Call(map["summary" := RStr("")], {}, false, false, 0);
    OneFieldAccepted(kindGaps, v, "summary", RStr(""), call, OpSet("summary", Scalar(VStr(""))));
    WithoutMembers(v.gaps, "summary");
  }

  /** A one-field request parses to the one op of that field. */
  lemma OneFieldAccepted(kindGaps: Specs, v: Fillable, field: string, raw: Raw, call: Call, op: Op)
    requires call.req == map[field := raw] && ParseField(ContextOf(kindGaps, v, call), field, raw) == Ok(op) &&
               !op.OpDefer?
    ensures Accepted(kindGaps, v, call, [op])
    ensures After(kindGaps, v, call, [op]) == ApplyOp(v, op, call.now, Effective(kindGaps, v.gapState))
  {
    var ctx := ContextOf(kindGaps, v, call);
    ParsedFieldName(ctx, field, raw);
    forall o ensures o in [op] <==> o.field in call.req && ParseField(ctx, o.field, call.req[o.field]) == Ok(o) {
      if o.field in call.req { ParsedFieldName(ctx, o.field, call.req[o.field]); }
    }
    assert [op][..|[op]| - 1] == [];
    assert ApplyOps(v, [], call.now, Effective(kindGaps, v.gapState)) == v;
  }

  /** A forced null for a summary that is stored under `data:` re-opens the gap and leaves the
      value: the field is then both open and filled. */
  lemma ClearedSummaryWitness()
    ensures var kindGaps: Specs := map["summary" := NO_SPEC];
            var v := Fillable(map["summary" := VStr("x")], "", [], [], map[]);
            var call := Call(map["summary" := RNull], {}, false, true, 0);
            var ops := [OpClear("summary")];
            && InOrder(kindGaps, v) && Accepted(kindGaps, v, call, ops)
            && "summary" in After(kindGaps, v, call, ops).gaps
            && HasValue(After(kindGaps, v, call, ops), "summary")
  {
    var kindGaps: Specs := map["summary" := NO_SPEC];
    var v := Fillable(map["summary" := VStr("x")], "", [], [], map[]);
    var call := Call(map["summary" := RNull], {}, false, true, 0);
    OneFieldAccepted(kindGaps, v, "summary", RNull, call, OpClear("summary"));
    assert "summary" in [] + ["summary"];
  }

  /** Clearing a field re-opens it only if the operator registered it: a gap a workflow injected
      loses its shape when it is set, so a later clear no longer knows it. */
  lemma SetThenClearReopensIff(kindGaps: Specs, v: Fillable, f: string, value: OpValue, t1: int, t2: int)
    ensures var set_ := ApplyOp(v, OpSet(f, value), t1, Effective(kindGaps, v.gapState));
            var cleared := ApplyOp(set_, OpClear(f), t2, Effective(kindGaps, set_.gapState));
            f in cleared.gaps <==> f in kindGaps
  {
    WithoutMembers(v.gaps, f);
  }

  /** A file whose one gap only a workflow declared, and the same file with that gap filled. */
  const INJECTED :=
      Fillable(map[], "", [], ["g"], map["g" := GapEntry("", None, false, None, map[], NO_SPEC.(typ := "string"))])
  const INJECTED_FILLED :=
    Fillable(map["g" := VStr("x")], "", [], [], map["g" := GapEntry("operator", Some(1), false, None, map[], NO_SPEC)])

  lemma InjectedGapSet(call: Call)
    requires call == Call(map["g" := RStr("x")], {}, false, false, 1)
    ensures Accepted(map[], INJECTED, call, [OpSet("g", Scalar(VStr("x")))])
    ensures After(map[], INJECTED, call, [OpSet("g", Scalar(VStr("x")))]) == INJECTED_FILLED
  {
    OneFieldAccepted(map[], INJECTED, "g", RStr("x"), call, OpSet("g", Scalar(VStr("x"))));
    WithoutMembers(INJECTED.gaps, "g");
    assert Without(INJECTED.gaps, "g") == [];
  }

  /** The same through the parser: an agent sets the injected gap and then clears it with force.
      Both calls are accepted, and the gap is gone for good: not open, no value, no spec. */
  lemma WorkflowGapLostWitness()
    ensures var set_ := Call(map["g" := RStr("x")], {}, false, false, 1);
            var clear := Call(map["g" := RNull], {}, false, true, 2);
            var lost := After(map[], INJECTED_FILLED, clear, [OpClear("g")]);
            && Accepted(map[], INJECTED, set_, [OpSet("g", Scalar(VStr("x")))])
            && After(map[], INJECTED, set_, [OpSet("g", Scalar(VStr("x")))]) == INJECTED_FILLED
            && Accepted(map[], INJECTED_FILLED, clear, [OpClear("g")])
            && "g" !in lost.gaps && !HasValue(lost, "g") && "g" !in Effective(map[], lost.gapState)
  {
    var clear := Call(map["g" := RNull], {}, false, true, 2);
    InjectedGapSet(Call(map["g" := RStr("x")], {}, false, false, 1));
    OneFieldAccepted(map[], INJECTED_FILLED, "g", RNull, clear, OpClear("g"));
  }
}
