/** What is said about the needs-fill queue as a whole: the source-filtered total, the diagnostics
    that classify every row, and the rows the page query passes over. */
module QueueReports {
  import opened Base
  import opened Vault
  import opened Store
  import opened GapSpecs
  import opened Pagination
  import opened NeedsFill
  import Fill
  import GapLifecycle
  import FillHandler

  // ---------------------------------------------------------------- the source-filtered total

  predicate OwnedBy(w: World, source: string, id: string) {
    id in w.rows && var read := ReadByID(w, w.rows[id].kind, id); read.Read? && PluginName(read.e) == source
  }

  function OwnedCount(w: World, source: string, stream: seq<string>, n: nat): nat
    requires n <= |stream|
  {
    if n == 0 then 0 else OwnedCount(w, source, stream, n - 1) + if OwnedBy(w, source, stream[n - 1]) then 1 else 0
  }

  function Owned(w: World, source: string, ids: seq<string>): set<string> {
    set id | id in ids && OwnedBy(w, source, id)
  }

  lemma OwnedStep(w: World, source: string, ids: seq<string>, last: string)
    requires last !in ids
    ensures |Owned(w, source, ids + [last])| == |Owned(w, source, ids)| + if OwnedBy(w, source, last) then 1 else 0
  {
    assert Owned(w, source, ids + [last]) == Owned(w, source, ids) + if OwnedBy(w, source, last) then {last} else {};
  }

  /** The walk counts each owned row once. */
  lemma {:induction false} OwnedCountIsSize(w: World, source: string, stream: seq<string>, n: nat)
    requires Increasing(stream) && n <= |stream|
    ensures OwnedCount(w, source, stream, n) == |Owned(w, source, stream[..n])|
  {
    if n == 0 {
    } else {
      var last := stream[n - 1];
      OwnedCountIsSize(w, source, stream, n - 1);
      assert stream[..n] == stream[..n - 1] + [last];
      forall j | 0 <= j < n - 1 ensures stream[j] != last {
        assert Less(stream[j], last);
        LessIrreflexive(last);
      }
      OwnedStep(w, source, stream[..n - 1], last);
    }
  }

  /** countNeedsFillCandidatesBySource: the same fetch loop, counting owners. `capped` also says so
      when the cap falls exactly on the last row. */
  method CountBySource(w: World, source: string, stream: seq<string>, batchSize: nat, cap: nat)
      returns (count: nat, capped: bool)
    requires Increasing(stream) && (forall i :: 0 <= i < |stream| ==> stream[i] != "") && batchSize >= 1
    ensures count == |Owned(w, source, stream[..if cap <= |stream| then cap else |stream|])|
    ensures capped <==> cap <= |stream|
  {
    count := 0;
    var scanned, after := 0, "";
    SeekStart(stream);
    while scanned < cap
      invariant scanned <= cap && scanned <= |stream| && count == OwnedCount(w, source, stream, scanned)
      invariant At(stream, "", 0, scanned, after)
      decreases cap - scanned
    {
      var batch := if cap - scanned < batchSize then cap - scanned else batchSize;
      FetchAt(stream, "", scanned, after, batch);
      var candidates := Fetch(stream, after, batch);
      OwnedCountIsSize(w, source, stream, scanned);
      if |candidates| == 0 {
        return count, false;
      }
      ghost var base := scanned;
      for i := 0 to |candidates|
        invariant scanned == base + i && count == OwnedCount(w, source, stream, scanned) &&
                    At(stream, "", 0, scanned, after)
      {
        assert candidates[i] == stream[base + i];
        after, scanned := candidates[i], scanned + 1;
        if OwnedBy(w, source, candidates[i]) {
          count := count + 1;
        }
      }
      OwnedCountIsSize(w, source, stream, scanned);
      if |candidates| < batch {
        return count, false;
      }
    }
    OwnedCountIsSize(w, source, stream, scanned);
    capped := true;
  }

  // ---------------------------------------------------------------- diagnostics

  datatype Class = Missing | ReadError | NoOpenGaps | AgentCallable | OperatorOnly | HiddenFromBoth

  /** The branch DiagnoseNeedsFill takes for one row. */
  function ClassOf(w: World, id: string): Class {
    if id !in w.rows then Missing
    else match ReadByID(w, w.rows[id].kind, id)
      case NotExist => Missing
      case Unreadable => ReadError
      case Read(e) =>
        var gaps := GapsOfKind(w, w.rows[id].kind);
        if e.fill.gaps == [] then NoOpenGaps
        else if EntryOfFile(id, w.rows[id].kind, gaps, e, false).Some? then AgentCallable
        else if EntryOfFile(id, w.rows[id].kind, gaps, e, true).Some? then OperatorOnly
        else HiddenFromBoth
  }

  datatype Diagnosis = Diagnosis(
    total: nat, vaultMissing: nat, noOpenGaps: nat, agentCallable: nat, operatorOnly: nat, hiddenFromBoth: nat,
    operatorOnlySample: seq<string>, hiddenFromBothSample: seq<string>)

  const SAMPLE_CAP := 25

  function OfClass(w: World, ids: seq<string>, c: Class): seq<string> {
    if ids == [] then []
    else OfClass(w, ids[..|ids| - 1], c) + if ClassOf(w, ids[|ids| - 1]) == c then [ids[|ids| - 1]] else []
  }

  function Sample(ids: seq<string>): seq<string> {
    if |ids| <= SAMPLE_CAP then ids else ids[..SAMPLE_CAP]
  }

  /** The report for `ids`, each figure by what it counts. */
  function Report(w: World, ids: seq<string>, total: nat): Diagnosis {
    Diagnosis(total,
              |OfClass(w, ids, Missing)|, |OfClass(w, ids, NoOpenGaps)|, |OfClass(w, ids, AgentCallable)|,
              |OfClass(w, ids, OperatorOnly)|, |OfClass(w, ids, HiddenFromBoth)|,
              Sample(OfClass(w, ids, OperatorOnly)), Sample(OfClass(w, ids, HiddenFromBoth)))
  }

  function Sampled(sample: seq<string>, id: string): seq<string> {
    if |sample| < SAMPLE_CAP then sample + [id] else sample
  }

  function Counted(d: Diagnosis, id: string, c: Class): Diagnosis {
    match c
    case Missing => d.(vaultMissing := d.vaultMissing + 1)
    case ReadError => d
    case NoOpenGaps => d.(noOpenGaps := d.noOpenGaps + 1)
    case AgentCallable => d.(agentCallable := d.agentCallable + 1)
    case OperatorOnly =>
      d.(operatorOnly := d.operatorOnly + 1, operatorOnlySample := Sampled(d.operatorOnlySample, id))
    case HiddenFromBoth =>
      d.(hiddenFromBoth := d.hiddenFromBoth + 1, hiddenFromBothSample := Sampled(d.hiddenFromBothSample, id))
  }

  lemma SampleStep(ids: seq<string>, id: string)
    ensures Sample(ids + [id]) == Sampled(Sample(ids), id)
  {
    if |ids| >= SAMPLE_CAP {
      assert (ids + [id])[..SAMPLE_CAP] == ids[..SAMPLE_CAP];
    }
  }

  lemma OfClassStep(w: World, ids: seq<string>, id: string, c: Class)
    ensures OfClass(w, ids + [id], c) == OfClass(w, ids, c) + if ClassOf(w, id) == c then [id] else []
  {
    assert (ids + [id])[..|ids|] == ids;
  }

  lemma ReportStep(w: World, ids: seq<string>, id: string, total: nat)
    ensures Report(w, ids + [id], total) == Counted(Report(w, ids, total), id, ClassOf(w, id))
  {
    OfClassStep(w, ids, id, Missing);
    OfClassStep(w, ids, id, NoOpenGaps);
    OfClassStep(w, ids, id, AgentCallable);
    OfClassStep(w, ids, id, OperatorOnly);
    OfClassStep(w, ids, id, HiddenFromBoth);
    SampleStep(OfClass(w, ids, OperatorOnly), id);
    SampleStep(OfClass(w, ids, HiddenFromBoth), id);
  }

  method DiagnoseNeedsFill(w: World, entities: seq<string>) returns (d: Diagnosis)
    requires forall id :: id in entities ==> id in w.rows
    ensures d == Report(w, entities, |entities|)
    ensures d.total == |entities| && d.vaultMissing == |OfClass(w, entities, Missing)|
    ensures d.noOpenGaps == |OfClass(w, entities, NoOpenGaps)| &&
              d.agentCallable == |OfClass(w, entities, AgentCallable)|
    ensures d.operatorOnly == |OfClass(w, entities, OperatorOnly)|
    ensures d.hiddenFromBoth == |OfClass(w, entities, HiddenFromBoth)|
  {
    d := Diagnosis(|entities|, 0, 0, 0, 0, 0, [], []);
    for i := 0 to |entities|
      invariant d == Report(w, entities[..i], |entities|)
    {
      var id := entities[i];
      assert entities[..i + 1] == entities[..i] + [id];
      ReportStep(w, entities[..i], id, |entities|);
      var kind := w.rows[id].kind;
      match ReadByID(w, kind, id) {
        case NotExist =>
          d := d.(vaultMissing := d.vaultMissing + 1);
        case Unreadable =>
        case Read(e) =>
          if e.fill.gaps == [] {
            d := d.(noOpenGaps := d.noOpenGaps + 1);
            continue;
          }
          var agent := BuildNeedsFillEntry(id, kind, e, GapsOfKind(w, kind), false);
          var operator := BuildNeedsFillEntry(id, kind, e, GapsOfKind(w, kind), true);
          if agent.Some? {
            d := d.(agentCallable := d.agentCallable + 1);
          } else if operator.Some? {
            d := d.(operatorOnly := d.operatorOnly + 1);
            if |d.operatorOnlySample| < SAMPLE_CAP {
              d := d.(operatorOnlySample := d.operatorOnlySample + [id]);
            }
          } else {
            d := d.(hiddenFromBoth := d.hiddenFromBoth + 1);
            if |d.hiddenFromBothSample| < SAMPLE_CAP {
              d := d.(hiddenFromBothSample := d.hiddenFromBothSample + [id]);
            }
          }
      }
    }
    assert entities[..|entities|] == entities;
  }

  /** Every row lands in one class, so the figures add up to the total short of unreadable files. */
  lemma {:induction false} ClassesPartition(w: World, ids: seq<string>)
    ensures var d := Report(w, ids, |ids|);
            d.total == d.vaultMissing + d.noOpenGaps + d.agentCallable + d.operatorOnly + d.hiddenFromBoth
                       + |OfClass(w, ids, ReadError)|
  {
    if ids == [] {
    } else {
      ClassesPartition(w, ids[..|ids| - 1]);
    }
  }

  lemma {:induction false} OfClassMembers(w: World, ids: seq<string>, c: Class)
    ensures forall id :: id in OfClass(w, ids, c) <==> id in ids && ClassOf(w, id) == c
  {
    if ids == [] {
    } else {
      OfClassMembers(w, ids[..|ids| - 1], c);
      assert ids == ids[..|ids| - 1] + [ids[|ids| - 1]];
    }
  }

  /** How many of the first `n` rows are of the class. */
  function Before(w: World, ids: seq<string>, c: Class, n: nat): nat
    requires n <= |ids|
  {
    if n == 0 then 0 else Before(w, ids, c, n - 1) + if ClassOf(w, ids[n - 1]) == c then 1 else 0
  }

  lemma {:induction false} OfClassPrefix(w: World, ids: seq<string>, c: Class, n: nat)
    requires n <= |ids|
    ensures OfClass(w, ids[..n], c) <= OfClass(w, ids, c)
    ensures |OfClass(w, ids[..n], c)| == Before(w, ids, c, n)
    decreases |ids|
  {
    if n == |ids| {
      assert ids[..n] == ids;
      if n == 0 {
      } else {
        OfClassPrefix(w, ids[..n - 1], c, n - 1);
        assert ids[..n - 1][..n - 1] == ids[..n - 1];
        BeforeLocal(w, ids, c, n - 1);
      }
    } else {
      var init := ids[..|ids| - 1];
      OfClassPrefix(w, init, c, n);
      assert init[..n] == ids[..n];
      BeforeLocal(w, ids, c, n);
    }
  }

  lemma {:induction false} BeforeLocal(w: World, ids: seq<string>, c: Class, n: nat)
    requires n < |ids|
    ensures Before(w, ids[..|ids| - 1], c, n) == Before(w, ids, c, n)
  {
    if n == 0 {
    } else {
      BeforeLocal(w, ids, c, n - 1);
    }
  }

  /** A row is in the sample of its class exactly if it is of that class and fewer than 25 of the rows
      before it are. */
  lemma SampleHas(w: World, ids: seq<string>, c: Class, i: nat)
    requires i < |ids| && forall j, k :: 0 <= j < k < |ids| ==> ids[j] != ids[k]
    ensures ids[i] in Sample(OfClass(w, ids, c)) <==> ClassOf(w, ids[i]) == c && Before(w, ids, c, i) < SAMPLE_CAP
  {
    var all, upTo := OfClass(w, ids, c), OfClass(w, ids[..i], c);
    OfClassPrefix(w, ids, c, i);
    OfClassMembers(w, ids, c);
    if ClassOf(w, ids[i]) == c {
      OfClassPrefix(w, ids, c, i + 1);
      OfClassStep(w, ids[..i], ids[i], c);
      assert ids[..i + 1] == ids[..i] + [ids[i]];
      assert all[|upTo|] == ids[i];
      OfClassDistinct(w, ids, c);
    }
  }

  lemma {:induction false} OfClassDistinct(w: World, ids: seq<string>, c: Class)
    requires forall j, k :: 0 <= j < k < |ids| ==> ids[j] != ids[k]
    ensures Distinct(OfClass(w, ids, c))
  {
    if ids == [] {
    } else {
      OfClassDistinct(w, ids[..|ids| - 1], c);
      OfClassMembers(w, ids[..|ids| - 1], c);
    }
  }

  /** An entity is out of a view exactly when no open gap of it surfaces there. */
  lemma InViewIff(id: string, kind: string, kindGaps: Specs, e: Entity, asOperator: bool)
    ensures EntryOfFile(id, kind, kindGaps, e, asOperator).Some? <==>
            exists g :: g in e.fill.gaps && Surfaces(kindGaps, e.fill, asOperator, g)
  {
    var shown := Shown(kindGaps, e.fill, asOperator);
    if g :| g in e.fill.gaps && Surfaces(kindGaps, e.fill, asOperator, g) {
      assert g in shown;
    } else {
      assert shown.Keys == {};
    }
  }

  /** What the two alarming classes mean, in the file's own terms. */
  lemma ClassMeaning(w: World, id: string, e: Entity)
    requires id in w.rows && ReadByID(w, w.rows[id].kind, id) == Read(e)
    ensures var gaps := GapsOfKind(w, w.rows[id].kind);
            var live := set g | g in e.fill.gaps && Shaped(gaps, e.fill, g) && !Deferred(e.fill, g);
            && (ClassOf(w, id) == HiddenFromBoth <==> e.fill.gaps != [] && live == {})
            && (ClassOf(w, id) == OperatorOnly <==>
                  live != {} && forall g :: g in live ==> LayeredSpec(gaps, e.fill, g).fillStrategy == "operator")
            && (ClassOf(w, id) == AgentCallable <==>
                  exists g :: g in live && LayeredSpec(gaps, e.fill, g).fillStrategy != "operator")
  {
    var kind := w.rows[id].kind;
    var gaps := GapsOfKind(w, kind);
    var live := set g | g in e.fill.gaps && Shaped(gaps, e.fill, g) && !Deferred(e.fill, g);
    InViewIff(id, kind, gaps, e, false);
    InViewIff(id, kind, gaps, e, true);
    assert forall g :: g in live <==>
        g in e.fill.gaps && (Surfaces(gaps, e.fill, true, g) || Surfaces(gaps, e.fill, false, g));
  }

  /** The other classes: a row without a file, one whose file cannot be read, and one without open gaps. */
  lemma OtherClassMeaning(w: World, id: string)
    requires id in w.rows
    ensures ClassOf(w, id) == ReadError <==> (w.rows[id].kind, id) in w.broken
    ensures ClassOf(w, id) == Missing <==> (w.rows[id].kind, id) !in w.broken && (w.rows[id].kind, id) !in w.files
    ensures ClassOf(w, id) == NoOpenGaps <==>
            (w.rows[id].kind, id) !in w.broken && (w.rows[id].kind, id) in w.files
            && w.files[(w.rows[id].kind, id)].fill.gaps == []
  {
  }

  /** The rows of a class, in the order of the enumeration. */
  lemma {:induction false} OfClassInOrder(w: World, ids: seq<string>, c: Class)
    ensures Picks(ids, OfClass(w, ids, c), (id: string) => if ClassOf(w, id) == c then Some(id) else None)
  {
    var pick := (id: string) => if ClassOf(w, id) == c then Some(id) else None;
    if ids == [] {
      PicksNothing(pick);
    } else {
      OfClassInOrder(w, ids[..|ids| - 1], c);
      PicksOneMore(ids[..|ids| - 1], OfClass(w, ids[..|ids| - 1], c), pick, ids[|ids| - 1]);
      assert ids == ids[..|ids| - 1] + [ids[|ids| - 1]];
    }
  }

  /** The diagnostics handler's enumeration. */
  method ListAllCandidates(stream: seq<string>, batch: nat) returns (entities: seq<string>)
    requires Increasing(stream) && (forall i :: 0 <= i < |stream| ==> stream[i] != "") && batch >= 1
    ensures entities == stream
  {
    entities := [];
    var after, short := "", false;
    SeekStart(stream);
    while !short
      invariant |entities| <= |stream| && entities == stream[..|entities|]
      invariant !short ==> At(stream, "", 0, |entities|, after)
      invariant short ==> |entities| == |stream|
      decreases !short, |stream| - |entities|
    {
      FetchAt(stream, "", |entities|, after, batch);
      var page := Fetch(stream, after, batch);
      entities := entities + page;
      if |page| < batch {
        short := true;
      } else {
        after := page[|page| - 1];
      }
    }
  }

  // ---------------------------------------------------------------- rows the page query passes over

  /** Every entry is a fill's or a defer's mark: nothing a workflow injected is waiting. */
  predicate Settled(state: map<string, GapEntry>) {
    !HasPending(state)
  }

  lemma {:induction false} OpsKeepSettled(v: Fillable, ops: seq<Fill.Op>, now: int, known: Specs)
    requires Settled(v.gapState)
    ensures Settled(Fill.ApplyOps(v, ops, now, known).gapState)
  {
    if ops == [] {
    } else {
      OpsKeepSettled(v, ops[..|ops| - 1], now, known);
    }
  }

  /** An op that leaves a mark. */
  predicate Marks(op: Fill.Op) {
    op.OpSet? || op.OpDefer?
  }

  lemma SurfacesLocal(kindGaps: Specs, v: Fillable, w: Fillable, asOperator: bool, g: string)
    requires GapLifecycle.At(v, g) == GapLifecycle.At(w, g)
    ensures Surfaces(kindGaps, v, asOperator, g) == Surfaces(kindGaps, w, asOperator, g)
  {
    assert GapLifecycle.At(v, g).state == GapLifecycle.At(w, g).state;
    assert EntryOf(v.gapState, g) == EntryOf(w.gapState, g);
  }

  lemma CallMarks(kindGaps: Specs, v: Fillable, call: GapLifecycle.Call, ops: seq<Fill.Op>, i: nat)
    requires GapLifecycle.Accepted(kindGaps, v, call, ops) && i < |ops| && Marks(ops[i])
    ensures ops[i].field in GapLifecycle.After(kindGaps, v, call, ops).gapState
  {
    var known := Effective(kindGaps, v.gapState);
    Fill.ParsedFieldsDiffer(GapLifecycle.ContextOf(kindGaps, v, call), call.req, ops);
    GapLifecycle.ApplyOpsHere(v, ops, call.now, known, i);
    assert GapLifecycle.At(GapLifecycle.After(kindGaps, v, call, ops), ops[i].field).state.Some?;
  }

  lemma CallLeavesAlone(kindGaps: Specs, v: Fillable, call: GapLifecycle.Call, ops: seq<Fill.Op>, g: string)
    requires GapLifecycle.Accepted(kindGaps, v, call, ops) && g !in call.req
    ensures GapLifecycle.At(GapLifecycle.After(kindGaps, v, call, ops), g) == GapLifecycle.At(v, g)
  {
    forall j | 0 <= j < |ops| ensures ops[j].field != g { assert ops[j] in ops; }
    GapLifecycle.ApplyOpsElsewhere(v, ops, call.now, Effective(kindGaps, v.gapState), g);
  }

  /** The page query against the queue it feeds. Once a call sets or defers a single field of an
      entity whose gaps all come from the kind config, its row is no longer selected; every gap the
      call did not touch still surfaces as before, but the scan never reaches it. */
  lemma PartialFillHidesTheRest(kindGaps: Specs, e: Entity, call: GapLifecycle.Call, ops: seq<Fill.Op>, source: string,
                                rows: map<string, Row>, asOperator: bool, i: nat, g: string)
    requires Settled(e.fill.gapState) && GapLifecycle.Accepted(kindGaps, e.fill, call, ops)
    requires i < |ops| && Marks(ops[i])
    requires g in e.fill.gaps && g !in call.req && Surfaces(kindGaps, e.fill, asOperator, g)
    ensures var written :=
              FillHandler.Filled(e, GapLifecycle.After(kindGaps, e.fill, call, ops), ops, source, call.now);
            && g in written.fill.gaps && Surfaces(kindGaps, written.fill, asOperator, g)
            && EntryOfFile(e.id, e.kind, kindGaps, written, asOperator).Some?
            && !Selected(FillHandler.RowsAfterFill(rows, written)[e.id], Surfaceable, "")
  {
    var after := GapLifecycle.After(kindGaps, e.fill, call, ops);
    OpsKeepSettled(e.fill, ops, call.now, Effective(kindGaps, e.fill.gapState));
    CallMarks(kindGaps, e.fill, call, ops, i);
    CallLeavesAlone(kindGaps, e.fill, call, ops, g);
    SurfacesLocal(kindGaps, e.fill, after, asOperator, g);
    assert GapLifecycle.At(after, g).open == GapLifecycle.At(e.fill, g).open;
    InViewIff(e.id, e.kind, kindGaps, FillHandler.Filled(e, after, ops, source, call.now), asOperator);
  }

  /** Over any run of fill calls on such an entity nothing ever becomes pending again, */
  lemma {:induction false} SettledOverRun(kindGaps: Specs, files: seq<Fillable>, calls: seq<GapLifecycle.Call>,
                                          ops: seq<seq<Fill.Op>>, n: nat)
    requires GapLifecycle.FillRun(kindGaps, files, calls, ops) && n < |files| && Settled(files[0].gapState)
    ensures Settled(files[n].gapState)
  {
    if n == 0 {
    } else {
      SettledOverRun(kindGaps, files, calls, ops, n - 1);
      assert files[n - 1 + 1] == GapLifecycle.After(kindGaps, files[n - 1], calls[n - 1], ops[n - 1]);
      OpsKeepSettled(files[n - 1], ops[n - 1], calls[n - 1].now, Effective(kindGaps, files[n - 1].gapState));
    }
  }

  /** so the row is selected exactly while nothing at all is filled or deferred. */
  lemma SelectedOverRunIff(kindGaps: Specs, files: seq<Fillable>, calls: seq<GapLifecycle.Call>,
                           ops: seq<seq<Fill.Op>>, n: nat, row: Row)
    requires GapLifecycle.FillRun(kindGaps, files, calls, ops) && n < |files| && Settled(files[0].gapState)
    requires row.data.Some? && row.gapState == files[n].gapState
    ensures Selected(row, Surfaceable, "") <==> files[n].gapState == map[]
  {
    SettledOverRun(kindGaps, files, calls, ops, n);
  }

  /** A concrete one: two registered gaps, one filled by an agent, and the other is never listed. */
  lemma HiddenEntityWitness()
    ensures var kindGaps: Specs := map["a" := NO_SPEC, "b" := NO_SPEC];
            var e := FillHandler.NewLabelFile("k:x", "k", ["a", "b"]);
            var call := GapLifecycle.Call(map["a" := Fill.RStr("v")], {}, false, false, 0);
            var ops := [Fill.OpSet("a", Fill.Scalar(VStr("v")))];
            var written := FillHandler.Filled(e, GapLifecycle.After(kindGaps, e.fill, call, ops), ops, "s", 0);
            && GapLifecycle.Accepted(kindGaps, e.fill, call, ops)
            && "b" in written.fill.gaps
            && EntryOfFile("k:x", "k", kindGaps, written, false).Some?
            && !Selected(FillHandler.RowsAfterFill(map[], written)["k:x"], Surfaceable, "")
  {
    var kindGaps: Specs := map["a" := NO_SPEC, "b" := NO_SPEC];
    var e := FillHandler.NewLabelFile("k:x", "k", ["a", "b"]);
    var call := GapLifecycle.Call(map["a" := Fill.RStr("v")], {}, false, false, 0);
    var op := Fill.OpSet("a", Fill.Scalar(VStr("v")));
    var ctx := GapLifecycle.ContextOf(kindGaps, e.fill, call);
    assert e.fill.gaps[0] == "a" && e.fill.gaps[1] == "b";
    assert Fill.ParseField(ctx, "a", Fill.RStr("v")) == Ok(op);
    forall o ensures o in [op] <==> o.field in call.req && Fill.ParseField(ctx, o.field, call.req[o.field]) == Ok(o) {}
    PartialFillHidesTheRest(kindGaps, e, call, [op], "s", map[], false, 0, "b");
  }
}
