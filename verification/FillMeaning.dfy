/** What an accepted fill call does and why a call is refused, in terms of the request, the file and the
    specs: nothing here mentions how requests are parsed or ops applied. */
module FillMeaning {
  import opened Base
  import opened Vault
  import opened Store
  import opened GapSpecs
  import opened Fill
  import opened GapLifecycle
  import opened FillEdges
  import opened FillHandler

  // ---------------------------------------------------------------- the file and the specs

  /** The field has a value, under `data:` or in its own frontmatter field. */
  predicate Valued(v: Fillable, f: string) {
    f in v.data || (f == "summary" && v.summary != "") || (f == "tags" && v.tags != [])
  }

  lemma OverwriteDataMeans(v: Fillable, f: string)
    ensures Lookup(OverwriteData(v), f) ==
            if f == "summary" && v.summary != "" then Some(VStr(v.summary))
            else if f == "tags" && v.tags != [] then Some(VStrs(v.tags))
            else Lookup(v.data, f)
    ensures f in OverwriteData(v) <==> Valued(v, f)
  {
  }

  /** The workflow's non-empty fields over the config's. */
  ghost predicate Overlays(spec: GapSpec, cfg: GapSpec, w: GapSpec) {
    && (w.typ != "" ==> spec.typ == w.typ) && (w.typ == "" ==> spec.typ == cfg.typ)
    && (w.description != "" ==> spec.description == w.description)
    && (w.description == "" ==> spec.description == cfg.description)
    && (w.fillStrategy != "" ==> spec.fillStrategy == w.fillStrategy)
    && (w.fillStrategy == "" ==> spec.fillStrategy == cfg.fillStrategy)
    && (w.range != [] ==> spec.range == w.range) && (w.range == [] ==> spec.range == cfg.range)
    && (w.maxLength != 0 ==> spec.maxLength == w.maxLength) && (w.maxLength == 0 ==> spec.maxLength == cfg.maxLength)
    && (w.values != [] ==> spec.values == w.values) && (w.values == [] ==> spec.values == cfg.values)
    && (w.kinds != [] ==> spec.kinds == w.kinds) && (w.kinds == [] ==> spec.kinds == cfg.kinds)
  }

  /** A gap has a spec if the config has one or a workflow gave it a type, and then it is the workflow's
      shape over the config's. */
  lemma EffectiveMeans(kindGaps: Specs, state: map<string, GapEntry>, f: string)
    ensures f in Effective(kindGaps, state) <==> f in kindGaps || (f in state && state[f].shape.typ != "")
    ensures f in Effective(kindGaps, state) ==>
              Overlays(Effective(kindGaps, state)[f], if f in kindGaps then kindGaps[f] else NO_SPEC,
                       if f in state then state[f].shape else NO_SPEC)
  {
  }

  /** The spec a call goes by; a field without one has none of its parts. */
  function SpecFor(kindGaps: Specs, v: Fillable, f: string): GapSpec {
    if f in Effective(kindGaps, v.gapState) then Effective(kindGaps, v.gapState)[f] else NO_SPEC
  }

  // ---------------------------------------------------------------- what is accepted

  /** Who may touch the field: an open gap that is not the agents' alone, a value with force, and
      otherwise the operator; a defer only an open gap. */
  predicate MayTouch(kindGaps: Specs, v: Fillable, call: Call, f: string)
    requires f in call.req
  {
    if f in v.gaps then call.operatorTrigger ==> SpecFor(kindGaps, v, f).fillStrategy != "agent"
    else
      && !call.req[f].RDefer?
      && if Valued(v, f) then call.force else call.operatorTrigger
  }

  predicate KindAllowed(spec: GapSpec, allKinds: set<string>, kind: string) {
    if spec.kinds == ["*"] then kind in allKinds else kind in spec.kinds
  }

  predicate LabelFits(spec: GapSpec, allKinds: set<string>, item: Item) {
    match item
    case IStr(s) => LabelKind(s).Some? && KindAllowed(spec, allKinds, LabelKind(s).value)
    case IRef(name, kind, _, _) => name != "" && kind != "" && KindAllowed(spec, allKinds, kind)
    case _ => false
  }

  predicate TextFits(spec: GapSpec, raw: Raw) {
    raw.RStr? && (spec.maxLength > 0 ==> |raw.s| <= spec.maxLength)
  }

  /** The value fits the field: its reserved name's own type, or the spec's. */
  predicate Fits(spec: GapSpec, allKinds: set<string>, f: string, raw: Raw) {
    if raw.RNull? || raw.RDefer? then true
    else if spec.typ == "canonical_type" then
      raw.RList? && forall i :: 0 <= i < |raw.items| ==> LabelFits(spec, allKinds, raw.items[i])
    else if f == "summary" then TextFits(spec, raw)
    else if f == "tags" then
      raw.RList? && forall i :: 0 <= i < |raw.items| ==> raw.items[i].IStr? || raw.items[i].INull?
    else if spec.typ == "int" then
      raw.RInt? && -0x8000_0000_0000_0000 <= raw.i < 0x8000_0000_0000_0000
      && (|spec.range| == 2 ==> spec.range[0] <= raw.i <= spec.range[1])
    else if spec.typ == "bool" then raw.RBool?
    else if spec.typ == "string" || spec.typ == "text" then TextFits(spec, raw)
    else if spec.typ == "enum" then raw.RStr? && raw.s in spec.values
    else !raw.RObject?
  }

  lemma {:induction false} LabelsParseIff(spec: GapSpec, allKinds: set<string>, items: seq<Item>)
    ensures ParseLabels(items, KindResolution(spec, allKinds)).Ok? <==>
            forall i :: 0 <= i < |items| ==> LabelFits(spec, allKinds, items[i])
  {
    if items == [] {
    } else {
      LabelsParseIff(spec, allKinds, items[1..]);
      assert forall i :: 0 < i < |items| ==> items[i] == items[1..][i - 1];
      assert forall i :: 0 <= i < |items| - 1 ==> items[1..][i] == items[i + 1];
      assert ParseLabel(items[0], KindResolution(spec, allKinds)).Ok? <==> LabelFits(spec, allKinds, items[0]);
    }
  }

  lemma ValueParsesIff(spec: GapSpec, allKinds: set<string>, f: string, raw: Raw)
    ensures ParseSingleOp(f, raw, spec, allKinds).Ok? <==> Fits(spec, allKinds, f, raw)
  {
    if raw.RList? { LabelsParseIff(spec, allKinds, raw.items); }
  }

  lemma GateOpensIff(kindGaps: Specs, v: Fillable, call: Call, f: string)
    requires f in call.req
    ensures Gate(ContextOf(kindGaps, v, call), f, call.req[f]).None? <==> MayTouch(kindGaps, v, call, f)
  {
    OverwriteDataMeans(v, f);
  }

  lemma FieldParsesIff(kindGaps: Specs, v: Fillable, call: Call, f: string)
    requires f in call.req
    ensures ParseField(ContextOf(kindGaps, v, call), f, call.req[f]).Ok? <==>
            MayTouch(kindGaps, v, call, f) && Fits(SpecFor(kindGaps, v, f), call.allKinds, f, call.req[f])
  {
    GateOpensIff(kindGaps, v, call, f);
    ValueParsesIff(SpecFor(kindGaps, v, f), call.allKinds, f, call.req[f]);
  }

  /** No deferred field has a key under `data:`. */
  ghost predicate DefersUnfilled(v: Fillable, req: map<string, Raw>) {
    forall f :: f in req && req[f] == RDefer(true) ==> f !in v.data
  }

  /** A call is accepted, exactly: every field may be touched and its value fits, and no deferred one
      has data. */
  lemma AcceptedIff(kindGaps: Specs, v: Fillable, call: Call, r: Result<seq<Op>, Code>)
    requires IsParse(ContextOf(kindGaps, v, call), call.req, r)
    ensures (exists ops :: Accepted(kindGaps, v, call, ops)) <==>
            && (forall f :: f in call.req ==>
                  MayTouch(kindGaps, v, call, f) && Fits(SpecFor(kindGaps, v, f), call.allKinds, f, call.req[f]))
            && DefersUnfilled(v, call.req)
  {
    var ctx := ContextOf(kindGaps, v, call);
    forall f | f in call.req
      ensures ParseField(ctx, f, call.req[f]).Ok? <==>
                MayTouch(kindGaps, v, call, f) && Fits(SpecFor(kindGaps, v, f), call.allKinds, f, call.req[f])
    {
      FieldParsesIff(kindGaps, v, call, f);
    }
    if r.Ok? {
      DeferCheckIff(kindGaps, v, call, r.value);
      assert PreDeferCheck(v, r.value).None? ==> Accepted(kindGaps, v, call, r.value);
      forall ops | Accepted(kindGaps, v, call, ops) ensures ops == r.value {
        ParseOrderIrrelevant(ctx, call.req, Ok(ops), r);
      }
    } else {
      forall ops ensures !Accepted(kindGaps, v, call, ops) {
        if IsParse(ctx, call.req, Ok(ops)) { ParseOrderIrrelevant(ctx, call.req, Ok(ops), r); }
      }
    }
  }

  lemma DeferCheckIff(kindGaps: Specs, v: Fillable, call: Call, ops: seq<Op>)
    requires IsParse(ContextOf(kindGaps, v, call), call.req, Ok(ops))
    ensures PreDeferCheck(v, ops).None? <==> DefersUnfilled(v, call.req)
  {
    var ctx := ContextOf(kindGaps, v, call);
    if i :| 0 <= i < |ops| && ops[i].OpDefer? && ops[i].field in v.data {
      assert ops[i] in ops;
      OpMeaning(ctx, ops[i].field, call.req[ops[i].field]);
    }
    if f :| f in call.req && call.req[f] == RDefer(true) && f in v.data {
      assert ParseField(ctx, f, call.req[f]) == Ok(OpDefer(f));
      assert OpDefer(f) in ops;
      var i :| 0 <= i < |ops| && ops[i] == OpDefer(f);
    }
  }

  /** The gate, over accepted calls: every requested field is open, or has a value and the call forces,
      or has none and the operator asks. */
  lemma AcceptedTouches(kindGaps: Specs, v: Fillable, call: Call, ops: seq<Op>, f: string)
    requires Accepted(kindGaps, v, call, ops) && f in call.req
    ensures f in v.gaps || (Valued(v, f) && call.force) || (!Valued(v, f) && call.operatorTrigger)
    ensures f in v.gaps && call.operatorTrigger ==> SpecFor(kindGaps, v, f).fillStrategy != "agent"
    ensures call.req[f].RDefer? ==> f in v.gaps
    ensures Fits(SpecFor(kindGaps, v, f), call.allKinds, f, call.req[f])
  {
    FieldParsesIff(kindGaps, v, call, f);
  }

  // ---------------------------------------------------------------- why a field is refused

  /** Refusals at the gate. */
  lemma GateCodes(kindGaps: Specs, v: Fillable, call: Call, f: string)
    requires f in call.req
    ensures var r := ParseField(ContextOf(kindGaps, v, call), f, call.req[f]);
            && (r == Err(AgentOnlyField) <==>
                  f in v.gaps && call.operatorTrigger && SpecFor(kindGaps, v, f).fillStrategy == "agent")
            && (r == Err(AlreadyFilled) <==> f !in v.gaps && Valued(v, f) && !call.force)
            && (r == Err(UnknownField) <==> f !in v.gaps && !Valued(v, f) && !call.operatorTrigger)
            && (r == Err(DeferRequiresOpenGap) <==>
                  f !in v.gaps && call.req[f].RDefer? && if Valued(v, f) then call.force else call.operatorTrigger)
  {
    OverwriteDataMeans(v, f);
    ValueCodes(SpecFor(kindGaps, v, f), call.allKinds, f, call.req[f]);
  }

  /** The code of the first label that does not fit. */
  predicate LabelCode(spec: GapSpec, allKinds: set<string>, item: Item, code: Code) {
    match item
    case IStr(s) => if LabelKind(s).None? then code == InvalidCanonicalLabel else code == KindNotAllowed
    case IRef(name, kind, _, _) => if name == "" || kind == "" then code == TypeMismatch else code == KindNotAllowed
    case _ => code == TypeMismatch
  }

  lemma {:induction false} LabelsCode(spec: GapSpec, allKinds: set<string>, items: seq<Item>) returns (i: nat)
    requires ParseLabels(items, KindResolution(spec, allKinds)).Err?
    ensures i < |items| && !LabelFits(spec, allKinds, items[i])
    ensures forall j :: 0 <= j < i ==> LabelFits(spec, allKinds, items[j])
    ensures LabelCode(spec, allKinds, items[i], ParseLabels(items, KindResolution(spec, allKinds)).error)
  {
    if ParseLabel(items[0], KindResolution(spec, allKinds)).Err? {
      i := 0;
    } else {
      var k := LabelsCode(spec, allKinds, items[1..]);
      i := k + 1;
      assert forall j :: 0 < j < i ==> items[j] == items[1..][j - 1];
    }
  }

  /** Refusals of the value. */
  lemma ValueCodes(spec: GapSpec, allKinds: set<string>, f: string, raw: Raw)
    ensures var r := ParseSingleOp(f, raw, spec, allKinds);
            r.Err? ==>
              if spec.typ == "canonical_type" then
                if !raw.RList? then r.error == TypeMismatch
                else exists i :: 0 <= i < |raw.items| && LabelCode(spec, allKinds, raw.items[i], r.error)
                                 && !LabelFits(spec, allKinds, raw.items[i])
                                 && forall j :: 0 <= j < i ==> LabelFits(spec, allKinds, raw.items[j])
              else if raw.RObject? then r.error == InvalidFieldOp
              else if f == "tags" then r.error == TypeMismatch
              else if raw.RStr? && (f == "summary" || spec.typ == "string" || spec.typ == "text") then
                r.error == MaxLengthExceeded
              else if f != "summary" && spec.typ == "int" && raw.RInt? &&
                  -0x8000_0000_0000_0000 <= raw.i < 0x8000_0000_0000_0000
              then r.error == OutOfRange
              else if f != "summary" && spec.typ == "enum" && raw.RStr? then r.error == EnumValueInvalid
              else r.error == TypeMismatch
  {
    if raw.RList? && spec.typ == "canonical_type" && ParseSingleOp(f, raw, spec, allKinds).Err? {
      var i := LabelsCode(spec, allKinds, raw.items);
    }
  }

  // ---------------------------------------------------------------- what an accepted call does

  predicate LabelOf(item: Item, entry: LabelEntry) {
    match item
    case IStr(s) => entry.id == s && entry.name == "" && entry.data == map[]
    case IRef(name, kind, slug, data) => entry.id == kind + ":" + slug && entry.name == name && entry.data == data
    case _ => false
  }

  /** The op of a field says what its request value says. */
  predicate OpSays(op: Op, canonical: bool, f: string, raw: Raw) {
    && op.field == f
    && match raw
       case RNull => op.OpClear?
       case RDefer(on) => if on then op.OpDefer? else op.OpUndefer?
       case RList(items, repr) =>
         op.OpSet? &&
         if canonical then
           && op.value.Labels? && |op.value.entries| == |items|
           && forall i :: 0 <= i < |items| ==> LabelOf(items[i], op.value.entries[i])
         else if f == "tags" then
           && op.value.Scalar? && op.value.v.VStrs? && |op.value.v.items| == |items|
           && forall i :: 0 <= i < |items| ==> op.value.v.items[i] == if items[i].IStr? then items[i].s else ""
         else op.value == Scalar(VOther(repr))
       case RStr(s) => op.OpSet? && op.value == Scalar(VStr(s))
       case RInt(i) => op.OpSet? && op.value == Scalar(VInt(i))
       case RBool(b) => op.OpSet? && op.value == Scalar(VBool(b))
       case RNumber(repr) => op.OpSet? && op.value == Scalar(VOther(repr))
       case RObject => false
  }

  lemma {:induction false} LabelsSay(items: seq<Item>, kinds: set<string>)
    requires ParseLabels(items, kinds).Ok?
    ensures |ParseLabels(items, kinds).value| == |items|
    ensures forall i :: 0 <= i < |items| ==> LabelOf(items[i], ParseLabels(items, kinds).value[i])
  {
    if items == [] {
    } else {
      LabelsSay(items[1..], kinds);
      assert forall i :: 0 < i < |items| ==> items[i] == items[1..][i - 1];
    }
  }

  lemma OpMeaning(ctx: Context, f: string, raw: Raw)
    requires ParseField(ctx, f, raw).Ok?
    ensures OpSays(ParseField(ctx, f, raw).value, SpecOf(ctx.gaps, f).typ == "canonical_type", f, raw)
  {
    if raw.RList? && SpecOf(ctx.gaps, f).typ == CANONICAL_TYPE {
      LabelsSay(raw.items, KindResolution(SpecOf(ctx.gaps, f), ctx.allKinds));
    }
  }

  /** The value a field has in the file, wherever it is kept. */
  function ValueAt(v: Fillable, f: string): Option<Value> {
    if f == "summary" then (if v.summary != "" then Some(VStr(v.summary)) else None)
    else if f == "tags" then (if v.tags != [] then Some(VStrs(v.tags)) else None)
    else Lookup(v.data, f)
  }

  /** A value stored for a request value. */
  predicate Keeps(stored: Value, canonical: bool, raw: Raw) {
    match raw
    case RStr(s) => stored == VStr(s)
    case RInt(i) => stored == VInt(i)
    case RBool(b) => stored == VBool(b)
    case RNumber(repr) => stored == VOther(repr)
    case RList(items, repr) =>
      if canonical then
        && stored.VStrs? && |stored.items| == |items|
        && forall i :: 0 <= i < |items| ==>
             match items[i]
             case IStr(s) => stored.items[i] == s
             case IRef(_, kind, slug, _) => stored.items[i] == kind + ":" + slug
             case _ => false
      else stored == VOther(repr)
    case _ => false
  }

  /** Everything the file says about one field, before and after. */
  ghost predicate SameField(v: Fillable, w: Fillable, f: string) {
    && Lookup(w.data, f) == Lookup(v.data, f) && (f in w.gaps <==> f in v.gaps)
    && Lookup(w.gapState, f) == Lookup(v.gapState, f)
    && (f == "summary" ==> w.summary == v.summary) && (f == "tags" ==> w.tags == v.tags)
  }

  /** A null empties the field, forgets its gap state, and re-opens it if it has a spec. */
  ghost predicate Cleared(v: Fillable, w: Fillable, f: string, known: bool) {
    && ValueAt(w, f) == None && f !in w.gapState && (f in w.gaps <==> f in v.gaps || known)
  }

  ghost predicate Deferred(v: Fillable, w: Fillable, f: string, on: bool, now: int) {
    && Lookup(w.data, f) == Lookup(v.data, f) && (f in w.gaps <==> f in v.gaps)
    && Lookup(w.gapState, f) == if on then Some(GapEntry("", None, true, Some(now), map[], NO_SPEC)) else None
  }

  /** Anything else is stored as it was sent, stamped, and no longer open. An ordinary field keeps its
      value under `data:`; summary takes a text, tags the texts of a list. */
  ghost predicate Stored(w: Fillable, f: string, canonical: bool, raw: Raw, now: int) {
    && f !in w.gaps && Lookup(w.gapState, f) == Some(GapEntry("operator", Some(now), false, None, map[], NO_SPEC))
    && (f != "summary" && f != "tags" ==> f in w.data && Keeps(w.data[f], canonical, raw))
    && (f == "summary" && !canonical ==> raw.RStr? && w.summary == raw.s)
    && (f == "tags" && !canonical ==>
          && raw.RList? && |w.tags| == |raw.items|
          && forall i :: 0 <= i < |raw.items| ==> w.tags[i] == if raw.items[i].IStr? then raw.items[i].s else "")
  }

  ghost predicate FieldDone(v: Fillable, w: Fillable, f: string, canonical: bool, known: bool, raw: Raw, now: int) {
    match raw
    case RNull => Cleared(v, w, f, known)
    case RDefer(on) => Deferred(v, w, f, on, now)
    case _ => Stored(w, f, canonical, raw, now)
  }

  lemma OpDoes(v: Fillable, op: Op, now: int, known: Specs, canonical: bool, raw: Raw)
    requires OpSays(op, canonical, op.field, raw) && (!canonical && op.OpSet? ==> ReservedFits(op.field, raw))
    ensures FieldDone(v, ApplyOp(v, op, now, known), op.field, canonical, op.field in known, raw, now)
  {
    WithoutMembers(v.gaps, op.field);
    if op.OpSet? && op.value.Labels? {
      assert forall i :: 0 <= i < |op.value.entries| ==> Ids(op.value.entries)[i] == op.value.entries[i].id;
    }
  }

  /** A reserved field that is not canonical takes its own type only. */
  predicate ReservedFits(f: string, raw: Raw) {
    (f == "summary" ==> raw.RStr?) && (f == "tags" ==> raw.RList?)
  }

  lemma SameAtSameDone(v: Fillable, w: Fillable, x: Fillable, f: string, canonical: bool, known: bool, raw: Raw,
                       now: int)
    requires At(w, f) == At(x, f) && FieldDone(v, x, f, canonical, known, raw, now)
    ensures FieldDone(v, w, f, canonical, known, raw, now)
  {
    assert Lookup(w.data, f) == At(w, f).value == At(x, f).value == Lookup(x.data, f);
    assert Lookup(w.gapState, f) == At(w, f).state == At(x, f).state == Lookup(x.gapState, f);
    assert (f in w.gaps) == At(w, f).open == At(x, f).open == (f in x.gaps);
    assert f == "summary" ==> w.summary == At(w, f).summary == At(x, f).summary == x.summary;
    assert f == "tags" ==> w.tags == At(w, f).tags == At(x, f).tags == x.tags;
  }

  /** An accepted call, field by field: a requested field ends as its request value says, and nothing
      about any other field changes. */
  lemma {:induction false} AcceptedMeans(kindGaps: Specs, v: Fillable, call: Call, ops: seq<Op>, f: string)
    requires Accepted(kindGaps, v, call, ops)
    ensures var w := After(kindGaps, v, call, ops);
            if f in call.req then
              FieldDone(v, w, f, SpecFor(kindGaps, v, f).typ == "canonical_type", f in Effective(kindGaps, v.gapState),
                        call.req[f], call.now)
            else SameField(v, w, f)
  {
    var ctx, known, w := ContextOf(kindGaps, v, call), Effective(kindGaps, v.gapState), After(kindGaps, v, call, ops);
    if f in call.req {
      RequestedField(kindGaps, v, call, ops, f);
    } else {
      forall i | 0 <= i < |ops| ensures ops[i].field != f { assert ops[i] in ops; }
      ApplyOpsElsewhere(v, ops, call.now, known, f);
      assert At(w, f).value == At(v, f).value && At(w, f).state == At(v, f).state && At(w, f).open == At(v, f).open;
      assert At(w, f).summary == At(v, f).summary && At(w, f).tags == At(v, f).tags;
    }
  }

  lemma RequestedField(kindGaps: Specs, v: Fillable, call: Call, ops: seq<Op>, f: string)
    requires Accepted(kindGaps, v, call, ops) && f in call.req
    ensures FieldDone(v, After(kindGaps, v, call, ops), f, SpecFor(kindGaps, v, f).typ == "canonical_type",
                      f in Effective(kindGaps, v.gapState), call.req[f], call.now)
  {
    var ctx, known := ContextOf(kindGaps, v, call), Effective(kindGaps, v.gapState);
    var canonical, op := SpecFor(kindGaps, v, f).typ == "canonical_type", ParseField(ctx, f, call.req[f]).value;
    ParsedFieldsDiffer(ctx, call.req, ops);
    OpMeaning(ctx, f, call.req[f]);
    FieldParsesIff(kindGaps, v, call, f);
    assert op in ops;
    var i :| 0 <= i < |ops| && ops[i] == op;
    ApplyOpsHere(v, ops, call.now, known, i);
    OpDoes(v, op, call.now, known, canonical, call.req[f]);
    SameAtSameDone(v, After(kindGaps, v, call, ops), ApplyOp(v, op, call.now, known), f, canonical, f in known,
                   call.req[f], call.now);
  }

  /** Without force no accepted call changes the value of a field that is not open. */
  lemma UnforcedKeepsValues(kindGaps: Specs, v: Fillable, call: Call, ops: seq<Op>, f: string)
    requires Accepted(kindGaps, v, call, ops) && !call.force && f !in v.gaps && Valued(v, f)
    ensures SameField(v, After(kindGaps, v, call, ops), f)
  {
    if f in call.req { AcceptedTouches(kindGaps, v, call, ops, f); }
    AcceptedMeans(kindGaps, v, call, ops, f);
  }

  /** The open list keeps the order of what stays on it. */
  lemma {:induction false} WithoutInOrder(s: seq<string>, x: string)
    ensures Picks(s, Without(s, x), (y: string) => if y == x then None else Some(y))
  {
    var pick := (y: string) => if y == x then None else Some(y);
    if s == [] {
      PicksNothing(pick);
    } else {
      WithoutInOrder(s[..|s| - 1], x);
      PicksOneMore(s[..|s| - 1], Without(s[..|s| - 1], x), pick, s[|s| - 1]);
      assert s == s[..|s| - 1] + [s[|s| - 1]];
    }
  }

  // ---------------------------------------------------------------- around the file

  /** The request sets something: it has a value that is neither null nor a defer. */
  ghost predicate Sets(req: map<string, Raw>) {
    exists f :: f in req && !req[f].RNull? && !req[f].RDefer?
  }

  lemma SetsIff(kindGaps: Specs, v: Fillable, call: Call, ops: seq<Op>)
    requires Accepted(kindGaps, v, call, ops)
    ensures HasSet(ops) <==> Sets(call.req)
  {
    var ctx := ContextOf(kindGaps, v, call);
    if i :| 0 <= i < |ops| && ops[i].OpSet? {
      assert ops[i] in ops;
      OpMeaning(ctx, ops[i].field, call.req[ops[i].field]);
    }
    if f :| f in call.req && !call.req[f].RNull? && !call.req[f].RDefer? {
      OpMeaning(ctx, f, call.req[f]);
      var op := ParseField(ctx, f, call.req[f]).value;
      assert op in ops;
      var i :| 0 <= i < |ops| && ops[i] == op;
    }
  }

  /** The file an accepted call writes: the one it read, with the fields done as requested, and one more
      provenance entry if the request sets anything. */
  lemma WrittenFile(kindGaps: Specs, e: Entity, call: Call, ops: seq<Op>, source: string)
    requires Accepted(kindGaps, e.fill, call, ops)
    ensures var written := Filled(e, After(kindGaps, e.fill, call, ops), ops, source, call.now);
            && written == e.(fill := written.fill, provenance := written.provenance)
            && written.fill == After(kindGaps, e.fill, call, ops)
            && written.provenance ==
               e.provenance + if Sets(call.req) then [Provenance(source, None, Some(call.now), true)] else []
  {
    SetsIff(kindGaps, e.fill, call, ops);
  }

  /** The file a call works on: the one on disk if row and file are there; a fresh one with the kind's
      gaps open if either is missing and the kind is registered; otherwise none. */
  lemma LoadedMeans(files: map<string, Entity>, rows: map<string, Row>, reg: Registry, id: string)
    ensures id in rows && id in files ==> Loaded(files, rows, reg, id) == Some(Target(rows[id].kind, files[id]))
    ensures id in rows && id !in files ==>
              if rows[id].kind in reg then IsFresh(Loaded(files, rows, reg, id), id, rows[id].kind, reg)
              else Loaded(files, rows, reg, id) == None
    ensures id !in rows ==>
              if LabelKind(id).Some? && LabelKind(id).value in reg
              then IsFresh(Loaded(files, rows, reg, id), id, LabelKind(id).value, reg)
              else Loaded(files, rows, reg, id) == None
  {
  }

  ghost predicate IsFresh(t: Option<Target>, id: string, kind: string, reg: Registry)
    requires kind in reg
  {
    && t.Some? && t.value.kind == kind
    && var e := t.value.e;
    e.id == id && e.kind == kind && e.fill == Fillable(map[], "", [], reg[kind].names, map[]) && e.provenance == []
    && e.notes == [] && e.edges == [] && e.source == ["operator-fill/default"] && e.cleanContent == "" && e.ugc
  }

  /** A label of the request whose kind a resolver plugin owns and that has no row. */
  predicate UnresolvedLabel(rows: map<string, Row>, reg: Registry, id: string) {
    LabelKind(id).Some? && LabelKind(id).value in reg && reg[LabelKind(id).value].resolver && id !in rows
  }

  /** The id a list item names. */
  function ItemId(item: Item): string {
    match item
    case IStr(s) => s
    case IRef(_, kind, slug, _) => kind + ":" + slug
    case _ => ""
  }

  /** Some canonical list of the request names such a label. */
  ghost predicate AsksUnresolved(rows: map<string, Row>, reg: Registry, kindGaps: Specs, v: Fillable,
                                 req: map<string, Raw>)
  {
    exists f :: f in req && req[f].RList? && SpecFor(kindGaps, v, f).typ == "canonical_type"
                && ListsUnresolved(rows, reg, req[f].items)
  }

  ghost predicate ListsUnresolved(rows: map<string, Row>, reg: Registry, items: seq<Item>) {
    exists i :: 0 <= i < |items| && UnresolvedLabel(rows, reg, ItemId(items[i]))
  }

  lemma OpUnresolvedIff(rows: map<string, Row>, reg: Registry, op: Op, canonical: bool, f: string, raw: Raw)
    requires OpSays(op, canonical, f, raw)
    ensures (exists j :: 0 <= j < |Entries(op)| && UnresolvedLabel(rows, reg, Entries(op)[j].id)) <==>
            raw.RList? && canonical && ListsUnresolved(rows, reg, raw.items)
  {
    if raw.RList? && canonical {
      assert forall i :: 0 <= i < |raw.items| ==>
          LabelOf(raw.items[i], Entries(op)[i]) && Entries(op)[i].id == ItemId(raw.items[i]);
    }
  }

  lemma OpFrom(kindGaps: Specs, v: Fillable, call: Call, ops: seq<Op>, k: nat)
    requires IsParse(ContextOf(kindGaps, v, call), call.req, Ok(ops)) && k < |ops|
    ensures var f := ops[k].field;
            f in call.req && OpSays(ops[k], SpecFor(kindGaps, v, f).typ == "canonical_type", f, call.req[f])
  {
    assert ops[k] in ops;
    OpMeaning(ContextOf(kindGaps, v, call), ops[k].field, call.req[ops[k].field]);
  }

  lemma OpFor(kindGaps: Specs, v: Fillable, call: Call, ops: seq<Op>, f: string) returns (k: nat)
    requires IsParse(ContextOf(kindGaps, v, call), call.req, Ok(ops)) && f in call.req
    ensures k < |ops| && ops[k].field == f
  {
    var op := ParseField(ContextOf(kindGaps, v, call), f, call.req[f]).value;
    ParsedFieldName(ContextOf(kindGaps, v, call), f, call.req[f]);
    assert op in ops;
    k :| 0 <= k < |ops| && ops[k] == op;
  }

  /** The resolver gate, in terms of the request. */
  lemma UnresolvedIff(rows: map<string, Row>, reg: Registry, kindGaps: Specs, v: Fillable, call: Call, ops: seq<Op>)
    requires IsParse(ContextOf(kindGaps, v, call), call.req, Ok(ops))
    ensures Unresolved(rows, reg, ops) <==> AsksUnresolved(rows, reg, kindGaps, v, call.req)
  {
    if Unresolved(rows, reg, ops) {
      var k :| 0 <= k < |ops| &&
               exists j :: 0 <= j < |Entries(ops[k])| && UnresolvedLabel(rows, reg, Entries(ops[k])[j].id);
      OpFrom(kindGaps, v, call, ops, k);
      var f := ops[k].field;
      OpUnresolvedIff(rows, reg, ops[k], SpecFor(kindGaps, v, f).typ == "canonical_type", f, call.req[f]);
    }
    if AsksUnresolved(rows, reg, kindGaps, v, call.req) {
      var f :| f in call.req && call.req[f].RList? && SpecFor(kindGaps, v, f).typ == "canonical_type"
               && ListsUnresolved(rows, reg, call.req[f].items);
      var k := OpFor(kindGaps, v, call, ops, f);
      OpFrom(kindGaps, v, call, ops, k);
      OpUnresolvedIff(rows, reg, ops[k], true, f, call.req[f]);
    }
  }

  ghost predicate ByGap(events: seq<Event>) {
    && (forall i :: 0 <= i < |events| ==> events[i].FillCompleted?)
    && (forall i, j :: 0 <= i < j < |events| ==> Less(events[i].gap, events[j].gap))
  }

  /** fill.completed: one for each field the request sets, in the order of the field names. */
  lemma CompletionsMeans(kindGaps: Specs, v: Fillable, call: Call, ops: seq<Op>, id: string)
    requires Accepted(kindGaps, v, call, ops)
    ensures forall e :: e in Completions(id, ops) <==>
              e.FillCompleted? && e.id == id && e.gap in call.req && !call.req[e.gap].RNull? && !call.req[e.gap].RDefer?
    ensures ByGap(Completions(id, ops))
  {
    var ctx := ContextOf(kindGaps, v, call);
    assert forall i, j :: 0 <= i < j < |ops| ==> Less(OpField(ops[i]), OpField(ops[j]));
    CompletionsByGap(id, ops);
    forall e
      ensures e in Completions(id, ops) <==>
                e.FillCompleted? && e.id == id && exists i :: 0 <= i < |ops| && ops[i].OpSet? && ops[i].field == e.gap
    {
      CompletionMembers(id, ops, e);
    }
    forall f | f in call.req
      ensures (exists i :: 0 <= i < |ops| && ops[i].OpSet? && ops[i].field == f) <==>
                !call.req[f].RNull? && !call.req[f].RDefer?
    {
      OpMeaning(ctx, f, call.req[f]);
      var op := ParseField(ctx, f, call.req[f]).value;
      assert op in ops;
      forall i | 0 <= i < |ops| && ops[i].field == f ensures ops[i] == op { assert ops[i] in ops; }
    }
    forall i | 0 <= i < |ops| ensures ops[i].field in call.req { assert ops[i] in ops; }
  }

  lemma {:induction false} CompletionMembers(id: string, ops: seq<Op>, e: Event)
    ensures e in Completions(id, ops) <==>
              e.FillCompleted? && e.id == id && exists i :: 0 <= i < |ops| && ops[i].OpSet? && ops[i].field == e.gap
  {
    if ops == [] {
    } else {
      var init := ops[..|ops| - 1];
      CompletionMembers(id, init, e);
      assert forall i :: 0 <= i < |init| ==> init[i] == ops[i];
    }
  }

  lemma {:induction false} CompletionsByGap(id: string, ops: seq<Op>)
    requires forall i, j :: 0 <= i < j < |ops| ==> Less(ops[i].field, ops[j].field)
    ensures ByGap(Completions(id, ops))
  {
    if ops == [] {
    } else {
      var init, last := ops[..|ops| - 1], ops[|ops| - 1];
      assert forall i :: 0 <= i < |init| ==> init[i] == ops[i];
      CompletionsByGap(id, init);
      var earlier := Completions(id, init);
      forall k | 0 <= k < |earlier| ensures Less(earlier[k].gap, last.field) {
        assert earlier[k] in earlier;
        CompletionMembers(id, init, earlier[k]);
      }
    }
  }

  // ---------------------------------------------------------------- the row

  /** The row's data: the file's own, with summary and tags where they are set, and the note texts under
      notes_text if there are any. */
  lemma RowDataMeans(e: Entity, k: string)
    ensures Lookup(DataForDB(e), k) ==
            if k == "notes_text" && JoinLines(e.notes) != "" then Some(VStr(JoinLines(e.notes)))
            else if k == "summary" && e.fill.summary != "" then Some(VStr(e.fill.summary))
            else if k == "tags" && e.fill.tags != [] then Some(VStrs(e.fill.tags))
            else Lookup(e.fill.data, k)
  {
  }

  /** The note texts are joined in order, a newline between any two that are not empty. */
  lemma {:induction false} JoinLinesAppends(a: seq<string>, b: seq<string>)
    ensures JoinLines(a + b) ==
            if JoinLines(a) == "" then JoinLines(b)
            else if JoinLines(b) == "" then JoinLines(a) else JoinLines(a) + "\n" + JoinLines(b)
    ensures forall s :: JoinLines([s]) == s
  {
    forall s ensures JoinLines([s]) == s {
      assert [s][..0] == [];
    }
    if b == [] {
      assert a + b == a;
    } else {
      var init, last := b[..|b| - 1], b[|b| - 1];
      JoinLinesAppends(a, init);
      assert (a + b)[..|a + b| - 1] == a + init && (a + b)[|a + b| - 1] == last;
    }
  }
}
