/** The unified fill call: parsing a request into ops and applying the ops to a vault file. */
module Fill {
  import opened Base
  import opened Vault
  import opened GapSpecs

  /** fillOverwriteData: what counts as "has a value" is what has a key here. */
  function OverwriteData(v: Fillable): map<string, Value> {
    v.data + (if v.summary != "" then map["summary" := VStr(v.summary)] else map[])
           + (if v.tags != [] then map["tags" := VStrs(v.tags)] else map[])
  }

  predicate HasValue(v: Fillable, field: string) {
    field in OverwriteData(v)
  }

  /** The copy loop both projections start with; the map walk may take any order. */
  method CopyData(d: map<string, Value>) returns (out: map<string, Value>)
    ensures out == d
  {
    out := map[];
    var rest := d.Keys;
    while rest != {}
      invariant rest <= d.Keys && out.Keys == d.Keys - rest
      invariant forall k :: k in out ==> out[k] == d[k]
      decreases |rest|
    {
      var k :| k in rest;
      rest, out := rest - {k}, out[k := d[k]];
    }
  }

  method FillOverwriteData(v: Fillable) returns (out: map<string, Value>)
    ensures out == OverwriteData(v)
  {
    out := CopyData(v.data);
    if v.summary != "" {
      out := out["summary" := VStr(v.summary)];
    }
    if |v.tags| > 0 {
      out := out["tags" := VStrs(v.tags)];
    }
  }

  // ---------------------------------------------------------------- requests

  /** One element of a JSON list; IRef carries what slug.Slug makes of its name. */
  datatype Item =
    | IStr(s: string)
    | IRef(name: string, kind: string, slug: string, data: map<string, string>)
    | INull
    | IOther

  /** The raw value of one request field. RObject is any object but a defer envelope. */
  datatype Raw =
    | RNull
    | RDefer(on: bool)
    | RObject
    | RList(items: seq<Item>, repr: nat)
    | RStr(s: string)
    | RInt(i: int)
    | RNumber(repr: nat)
    | RBool(b: bool)

  datatype LabelEntry = LabelEntry(id: string, name: string, data: map<string, string>)

  datatype OpValue = Scalar(v: Value) | Labels(entries: seq<LabelEntry>)

  datatype Op =
    | OpSet(field: string, value: OpValue)
    | OpClear(field: string)
    | OpDefer(field: string)
    | OpUndefer(field: string)

  datatype Code =
    | AgentOnlyField | AlreadyFilled | DeferRequiresOpenGap | UnknownField
    | InvalidFieldOp | TypeMismatch | OutOfRange | MaxLengthExceeded | EnumValueInvalid
    | InvalidCanonicalLabel | KindNotAllowed | DeferredRequiresUnfilled | UnresolvedTarget
    | EmptyBody | NotFound

  /** What parseOperatorFillOps is given besides the request. */
  datatype Context = Context(
    gaps: Specs,
    allKinds: set<string>,
    data: map<string, Value>,
    open: seq<string>,
    operatorTrigger: bool,
    force: bool)

  // ---------------------------------------------------------------- parsing one field

  function KindResolution(spec: GapSpec, allKinds: set<string>): set<string> {
    if spec.kinds == ["*"] then allKinds else set k | k in spec.kinds
  }

  function ParseLabel(item: Item, kinds: set<string>): Result<LabelEntry, Code> {
    match item
    case IStr(s) =>
      if LabelKind(s).None? then Err(InvalidCanonicalLabel)
      else if LabelKind(s).value !in kinds then Err(KindNotAllowed)
      else Ok(LabelEntry(s, "", map[]))
    case IRef(name, kind, slug, data) =>
      if name == "" || kind == "" then Err(TypeMismatch)
      else if kind !in kinds then Err(KindNotAllowed)
      else Ok(LabelEntry(kind + ":" + slug, name, data))
    case _ => Err(TypeMismatch)
  }

  function ParseLabels(items: seq<Item>, kinds: set<string>): Result<seq<LabelEntry>, Code> {
    if items == [] then Ok([])
    else match ParseLabel(items[0], kinds)
      case Err(code) => Err(code)
      case Ok(entry) =>
        match ParseLabels(items[1..], kinds)
        case Err(code) => Err(code)
        case Ok(rest) => Ok([entry] + rest)
  }

  const MAX_INT64 := 0x7FFF_FFFF_FFFF_FFFF

  function ParseText(s: string, spec: GapSpec): Result<Value, Code> {
    if spec.maxLength > 0 && |s| > spec.maxLength then Err(MaxLengthExceeded) else Ok(VStr(s))
  }

  function ItemText(item: Item): string {
    if item.IStr? then item.s else ""
  }

  /** parseAndValidateScalar; the reserved names have their own types whatever the spec says. */
  function ParseScalar(field: string, raw: Raw, spec: GapSpec): Result<Value, Code> {
    if field == "summary" then
      if raw.RStr? then ParseText(raw.s, spec) else Err(TypeMismatch)
    else if field == "tags" then
      if raw.RList? && forall i :: 0 <= i < |raw.items| ==> raw.items[i].IStr? || raw.items[i].INull?
      then Ok(VStrs(seq(|raw.items|, i requires 0 <= i < |raw.items| => ItemText(raw.items[i]))))
      else Err(TypeMismatch)
    else if spec.typ == "int" then
      if raw.RInt? && -MAX_INT64 - 1 <= raw.i <= MAX_INT64 then
        if |spec.range| == 2 && (raw.i < spec.range[0] || raw.i > spec.range[1]) then Err(OutOfRange)
        else Ok(VInt(raw.i))
      else Err(TypeMismatch)
    else if spec.typ == "bool" then
      if raw.RBool? then Ok(VBool(raw.b)) else Err(TypeMismatch)
    else if spec.typ == "string" || spec.typ == "text" then
      if raw.RStr? then ParseText(raw.s, spec) else Err(TypeMismatch)
    else if spec.typ == "enum" then
      if raw.RStr? then (if raw.s in spec.values then Ok(VStr(raw.s)) else Err(EnumValueInvalid)) else Err(TypeMismatch)
    else match raw
      case RStr(s) => Ok(VStr(s))
      case RInt(i) => Ok(VInt(i))
      case RBool(b) => Ok(VBool(b))
      case RNumber(repr) => Ok(VOther(repr))
      case RList(_, repr) => Ok(VOther(repr))
      case _ => Err(InvalidFieldOp)
  }

  function ParseSingleOp(field: string, raw: Raw, spec: GapSpec, allKinds: set<string>): Result<Op, Code> {
    if raw.RNull? then Ok(OpClear(field))
    else if raw.RDefer? then Ok(if raw.on then OpDefer(field) else OpUndefer(field))
    else if raw.RObject? && spec.typ != CANONICAL_TYPE then Err(InvalidFieldOp)
    else if spec.typ == CANONICAL_TYPE then
      if !raw.RList? then Err(TypeMismatch)
      else match ParseLabels(raw.items, KindResolution(spec, allKinds))
        case Err(code) => Err(code)
        case Ok(entries) => Ok(OpSet(field, Labels(entries)))
    else match ParseScalar(field, raw, spec)
      case Err(code) => Err(code)
      case Ok(v) => Ok(OpSet(field, Scalar(v)))
  }

  /** The branch of parseOperatorFillOps a field takes: open gap, overwrite, or ad hoc. */
  function Gate(ctx: Context, field: string, raw: Raw): Option<Code> {
    if field in ctx.open then
      if SpecOf(ctx.gaps, field).fillStrategy == "agent" && ctx.operatorTrigger then Some(AgentOnlyField) else None
    else if field in ctx.data then
      if !ctx.force then Some(AlreadyFilled) else if raw.RDefer? then Some(DeferRequiresOpenGap) else None
    else
      if !ctx.operatorTrigger then Some(UnknownField) else if raw.RDefer? then Some(DeferRequiresOpenGap) else None
  }

  function ParseField(ctx: Context, field: string, raw: Raw): Result<Op, Code> {
    match Gate(ctx, field, raw)
    case Some(code) => Err(code)
    case None => ParseSingleOp(field, raw, SpecOf(ctx.gaps, field), ctx.allKinds)
  }

  lemma ParsedFieldName(ctx: Context, field: string, raw: Raw)
    ensures ParseField(ctx, field, raw).Ok? ==> ParseField(ctx, field, raw).value.field == field
  {
  }

  /** A defer op survives parsing only for an open gap. */
  lemma DeferOnlyOnOpenGap(ctx: Context, field: string, raw: Raw)
    requires ParseField(ctx, field, raw).Ok?
    requires ParseField(ctx, field, raw).value.OpDefer? || ParseField(ctx, field, raw).value.OpUndefer?
    ensures field in ctx.open
  {
  }

  // ---------------------------------------------------------------- parsing a request

  /** What a parse result must be, with no mention of the order the fields were visited in. */
  ghost predicate IsParse(ctx: Context, req: map<string, Raw>, r: Result<seq<Op>, Code>) {
    match r
    case Ok(ops) =>
      && SortedBy(ops, OpField)
      && (forall f :: f in req ==> ParseField(ctx, f, req[f]).Ok?)
      && (forall op :: op in ops <==> op.field in req && ParseField(ctx, op.field, req[op.field]) == Ok(op))
    case Err(code) => exists f :: f in req && ParseField(ctx, f, req[f]) == Err(code)
  }

  function OpField(op: Op): string { op.field }

  method ParseOperatorFillOps(ctx: Context, req: map<string, Raw>, order: seq<string>)
      returns (r: Result<seq<Op>, Code>)
    requires Distinct(order) && forall f :: f in order <==> f in req
    ensures IsParse(ctx, req, r)
  {
    var out: seq<Op> := [];
    for i := 0 to |order|
      invariant Parses(ctx, req, order[..i], out)
    {
      ParsedFieldName(ctx, order[i], req[order[i]]);
      match ParseField(ctx, order[i], req[order[i]]) {
        case Err(code) =>
          return Err(code);
        case Ok(op) =>
          out := out + [op];
      }
    }
    assert order[..|order|] == order;
    SortedParse(ctx, req, order, out);
    r := Ok(Sort(out, OpField));
  }

  /** `out` holds the parse of every field of `order`, in that order. */
  ghost predicate Parses(ctx: Context, req: map<string, Raw>, order: seq<string>, out: seq<Op>) {
    && |out| == |order|
    && forall j :: 0 <= j < |out| ==>
         order[j] in req && ParseField(ctx, order[j], req[order[j]]) == Ok(out[j]) && out[j].field == order[j]
  }

  lemma ParsesMember(ctx: Context, req: map<string, Raw>, order: seq<string>, out: seq<Op>, op: Op)
    requires (forall f :: f in order <==> f in req) && Parses(ctx, req, order, out)
    ensures op in out <==> op.field in req && ParseField(ctx, op.field, req[op.field]) == Ok(op)
  {
    if op.field in req && ParseField(ctx, op.field, req[op.field]) == Ok(op) {
      var j :| 0 <= j < |order| && order[j] == op.field;
      assert out[j] == op;
    }
  }

  lemma SortedParse(ctx: Context, req: map<string, Raw>, order: seq<string>, out: seq<Op>)
    requires Distinct(order) && (forall f :: f in order <==> f in req) && Parses(ctx, req, order, out)
    ensures IsParse(ctx, req, Ok(Sort(out, OpField)))
  {
    assert DistinctBy(out, OpField);
    SortCorrect(out, OpField);
    forall op
      ensures op in Sort(out, OpField) <==> op.field in req && ParseField(ctx, op.field, req[op.field]) == Ok(op)
    {
      ParsesMember(ctx, req, order, out, op);
    }
    forall f | f in req ensures ParseField(ctx, f, req[f]).Ok? {
      var j :| 0 <= j < |order| && order[j] == f;
    }
  }

  /** Map iteration order cannot show: all orders accept the same requests, and an accepted one
      yields the same list of ops. */
  lemma ParseOrderIrrelevant(ctx: Context, req: map<string, Raw>, r1: Result<seq<Op>, Code>, r2: Result<seq<Op>, Code>)
    requires IsParse(ctx, req, r1) && IsParse(ctx, req, r2)
    ensures r1.Ok? <==> forall f :: f in req ==> ParseField(ctx, f, req[f]).Ok?
    ensures r1.Ok? <==> r2.Ok?
    ensures r1.Ok? ==> r1 == r2
  {
    if r1.Ok? && r2.Ok? {
      SortedUnique(r1.value, r2.value, OpField);
    }
  }

  lemma ParsedFieldsDiffer(ctx: Context, req: map<string, Raw>, ops: seq<Op>)
    requires IsParse(ctx, req, Ok(ops))
    ensures DistinctBy(ops, OpField)
  {
    forall i, j | 0 <= i < j < |ops| ensures ops[i].field != ops[j].field {
      assert Less(OpField(ops[i]), OpField(ops[j]));
      LessIrreflexive(ops[i].field);
    }
  }

  // ---------------------------------------------------------------- applying ops

  function Without(s: seq<string>, x: string): seq<string> {
    if s == [] then []
    else Without(s[..|s| - 1], x) + if s[|s| - 1] == x then [] else [s[|s| - 1]]
  }

  function Ids(entries: seq<LabelEntry>): seq<string> {
    seq(|entries|, i requires 0 <= i < |entries| => entries[i].id)
  }

  function SetField(v: Fillable, field: string, value: OpValue): Fillable {
    if field == "summary" then v.(summary := if value.Scalar? && value.v.VStr? then value.v.s else "")
    else if field == "tags" then v.(tags := if value.Scalar? && value.v.VStrs? then value.v.items else [])
    else v.(data := v.data[field := if value.Labels? then VStrs(Ids(value.entries)) else value.v])
  }

  function ClearField(v: Fillable, field: string): Fillable {
    if field == "summary" then v.(summary := "")
    else if field == "tags" then v.(tags := [])
    else v.(data := v.data - {field})
  }

  function ApplyOp(v: Fillable, op: Op, now: int, known: Specs): Fillable {
    match op
    case OpSet(f, value) =>
      var w := SetField(v, f, value);
      w.(gapState := v.gapState[f := GapEntry("operator", Some(now), false, None, map[], NO_SPEC)],
         gaps := Without(v.gaps, f))
    case OpClear(f) =>
      var w := ClearField(v, f);
      w.(gapState := v.gapState - {f}, gaps := if f in known && f !in v.gaps then v.gaps + [f] else v.gaps)
    case OpDefer(f) => v.(gapState := v.gapState[f := GapEntry("", None, true, Some(now), map[], NO_SPEC)])
    case OpUndefer(f) => v.(gapState := v.gapState - {f})
  }

  function ApplyOps(v: Fillable, ops: seq<Op>, now: int, known: Specs): Fillable {
    if ops == [] then v
    else ApplyOp(ApplyOps(v, ops[..|ops| - 1], now, known), ops[|ops| - 1], now, known)
  }

  lemma ApplyOpsStep(v: Fillable, ops: seq<Op>, i: nat, now: int, known: Specs)
    requires i < |ops|
    ensures ApplyOps(v, ops[..i + 1], now, known) == ApplyOp(ApplyOps(v, ops[..i], now, known), ops[i], now, known)
  {
    assert ops[..i + 1][..i] == ops[..i];
  }

  /** The fields of the first `n` ops, in order. */
  predicate Names(fields: seq<string>, ops: seq<Op>, n: nat) {
    |fields| == n <= |ops| && forall i :: 0 <= i < n ==> fields[i] == ops[i].field
  }

  lemma {:induction false} WithoutAbsent(s: seq<string>, x: string)
    requires x !in s
    ensures Without(s, x) == s
  {
    if s == [] {
    } else {
      WithoutAbsent(s[..|s| - 1], x);
      assert s == s[..|s| - 1] + [s[|s| - 1]];
    }
  }

  lemma {:induction false} WithoutMembers(s: seq<string>, x: string)
    ensures forall y :: y in Without(s, x) <==> y in s && y != x
  {
    if s == [] {
    } else {
      WithoutMembers(s[..|s| - 1], x);
      assert s == s[..|s| - 1] + [s[|s| - 1]];
    }
  }

  lemma {:induction false} WithoutDistinct(s: seq<string>, x: string)
    requires Distinct(s)
    ensures Distinct(Without(s, x))
  {
    if s == [] {
    } else {
      var init, last := s[..|s| - 1], s[|s| - 1];
      WithoutDistinct(init, x);
      WithoutMembers(init, x);
      assert last !in init;
    }
  }

  /** preDeferCheck: a field with a data value cannot be deferred. */
  function PreDeferCheck(v: Fillable, ops: seq<Op>): Option<Code> {
    if exists i :: 0 <= i < |ops| && ops[i].OpDefer? && ops[i].field in v.data
    then Some(DeferredRequiresUnfilled) else None
  }

  /** A vault file open for writing: the fields a fill call mutates. */
  class VaultDoc {
    var data: map<string, Value>
    var summary: string
    var tags: seq<string>
    var gaps: seq<string>
    var gapState: map<string, GapEntry>

    constructor (v: Fillable)
      ensures Fields() == v
    {
      data, summary, tags, gaps, gapState := v.data, v.summary, v.tags, v.gaps, v.gapState;
    }

    function Fields(): Fillable
      reads this
    {
      Fillable(data, summary, tags, gaps, gapState)
    }

    method RemoveGap(field: string)
      modifies this`gaps
      ensures gaps == Without(old(gaps), field)
    {
      var out: seq<string> := [];
      for i := 0 to |gaps|
        invariant gaps == old(gaps) && out == Without(gaps[..i], field)
      {
        assert gaps[..i + 1][..i] == gaps[..i];
        if gaps[i] == field { continue; }
        out := out + [gaps[i]];
      }
      assert gaps[..|gaps|] == gaps;
      gaps := out;
    }

    method SetValue(field: string, value: OpValue)
      modifies this`data, this`summary, this`tags
      ensures Fields() == SetField(old(Fields()), field, value)
    {
      if field == "summary" {
        summary := if value.Scalar? && value.v.VStr? then value.v.s else "";
      } else if field == "tags" {
        tags := if value.Scalar? && value.v.VStrs? then value.v.items else [];
      } else if value.Labels? {
        data := data[field := VStrs(Ids(value.entries))];
      } else {
        data := data[field := value.v];
      }
    }

    method ClearValue(field: string)
      modifies this`data, this`summary, this`tags
      ensures Fields() == ClearField(old(Fields()), field)
    {
      if field == "summary" {
        summary := "";
      } else if field == "tags" {
        tags := [];
      } else {
        data := data - {field};
      }
    }

    /** Applies the ops in order; `gapPresent` mirrors the open list so that a clear re-opens a
        known gap once. Returns the touched fields. */
    method ApplyOperatorFillOps(ops: seq<Op>, now: int, known: Specs) returns (touched: seq<string>)
      modifies this
      ensures Fields() == ApplyOps(old(Fields()), ops, now, known)
      ensures Names(touched, ops, |ops|)
    {
      var gapPresent := set g | g in gaps;
      touched := [];
      for i := 0 to |ops|
        invariant Fields() == ApplyOps(old(Fields()), ops[..i], now, known)
        invariant forall g :: g in gapPresent <==> g in gaps
        invariant Names(touched, ops, i)
      {
        ApplyOpsStep(old(Fields()), ops, i, now, known);
        gapPresent := ApplyOne(ops[i], now, known, gapPresent);
        touched := touched + [ops[i].field];
      }
      assert ops[..|ops|] == ops;
    }

    method ApplyOne(op: Op, now: int, known: Specs, present: set<string>) returns (gapPresent: set<string>)
      requires forall g :: g in present <==> g in gaps
      modifies this
      ensures Fields() == ApplyOp(old(Fields()), op, now, known)
      ensures forall g :: g in gapPresent <==> g in gaps
    {
      gapPresent := present;
      match op
      case OpSet(f, value) =>
        SetValue(f, value);
        gapState := gapState[f := GapEntry("operator", Some(now), false, None, map[], NO_SPEC)];
        WithoutMembers(gaps, f);
        if f in gapPresent {
          RemoveGap(f);
          gapPresent := gapPresent - {f};
        } else {
          WithoutAbsent(gaps, f);
        }
      case OpClear(f) =>
        ClearValue(f);
        gapState := gapState - {f};
        if f in known && f !in gapPresent {
          gaps := gaps + [f];
          gapPresent := gapPresent + {f};
        }
      case OpDefer(f) =>
        gapState := gapState[f := GapEntry("", None, true, Some(now), map[], NO_SPEC)];
      case OpUndefer(f) =>
        gapState := gapState - {f};
    }
  }
}
