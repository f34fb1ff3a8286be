/** The tracker as the program has it: records that goroutines update in place, two maps under
    one mutex, and methods that are its critical sections. `Model` reads the heap as a
    `Tracker`, and every method is tied to the function of that name there. */
module TrackerService {
  import opened Base
  import opened Tracker

  class IngestRecord {
    const invocationKey: string
    var state: State
    var entityID: string
    var transitionClosed: bool
    var cleanContent: string
    var cleanContentTruncated: bool
    var gaps: map<string, string>
    var options: map<string, string>
    var failureCode: string
    var failureMessage: string

    constructor (entityID: string, invocationKey: string)
      ensures View() == Record(Pending, entityID, invocationKey, "", false, map[], map[], "", "", 0)
    {
      this.invocationKey := invocationKey;
      this.entityID := entityID;
      state, transitionClosed := Pending, false;
      cleanContent, cleanContentTruncated := "", false;
      gaps, options := map[], map[];
      failureCode, failureMessage := "", "";
    }

    function View(): Record
      reads this
    {
      Record(state, entityID, invocationKey, cleanContent, cleanContentTruncated, gaps, options,
             failureCode, failureMessage, if transitionClosed then 1 else 0)
    }

    /** The field writes of one settling site, before the channel is closed. */
    method Report(tr: Transition)
      requires !tr.Fixture?
      modifies this
      ensures View() == Settle(old(View()), tr).(closes := old(View()).closes)
    {
      match tr
      case Fail(code, message) =>
        state, failureCode, failureMessage := Failed, code, message;
      case Missing(message) =>
        state, failureMessage := NotFound, message;
      case Choose(opts) =>
        state, options := Disambiguation, opts;
      case Fill(id, content, truncated, open) =>
        entityID, state := id, NeedsFill;
        cleanContent, cleanContentTruncated, gaps := content, truncated, open;
      case Finish(id) =>
        entityID, state := id, Complete;
    }

    /** Closing a closed channel panics, so every caller must prove it is still open. */
    method CloseTransition()
      requires !transitionClosed
      modifies this`transitionClosed
      ensures transitionClosed
    {
      transitionClosed := true;
    }
  }

  /** What interrupts a wait other than the transition. */
  datatype Alarm = NoAlarm | Timeout | Cancelled(message: string)

  datatype FanOutResult = FanOutResult(instance: string, state: string, entityID: string, error: string)

  /** An enabled instance, with the outcome of building its environment and of its wait. */
  datatype Instance = Instance(name: string, envError: Option<string>, alarm: Alarm)

  class IngestTracker {
    var records: map<string, IngestRecord>
    var byInvocationKey: map<string, IngestRecord>
    ghost var all: set<IngestRecord>  // every record begun so far

    constructor ()
      ensures Valid() && all == {}
    {
      records, byInvocationKey, all := map[], map[], {};
    }

    ghost function Model(): Tracker<IngestRecord>
      reads this, all
    {
      Tracker(map r | r in all :: r.View(), byInvocationKey, records)
    }

    /** The heap is consistent in the sense of `Tracker.Consistent`; see ValidIsConsistent. */
    ghost predicate Valid()
      reads this, all
    {
      && (forall k :: k in byInvocationKey ==>
            k != "" && byInvocationKey[k] in all
            && byInvocationKey[k].state == Pending && byInvocationKey[k].invocationKey == k)
      && (forall r :: r in all && r.state == Pending && r.invocationKey != "" ==>
            r.invocationKey in byInvocationKey && byInvocationKey[r.invocationKey] == r)
      && (forall r :: r in all ==> (r.transitionClosed <==> r.state != Pending))
    }

    lemma ValidIsConsistent()
      ensures Valid() <==> Consistent(Model())
    {
      assert forall r :: r in all ==> Model().heap[r] == r.View();
      if Consistent(Model()) {
        forall r | r in all && r.state == Pending && r.invocationKey != ""
          ensures r.invocationKey in byInvocationKey && byInvocationKey[r.invocationKey] == r
        {
          assert Model().heap[r].invocationKey == r.invocationKey;
        }
      }
    }

    /** What a settling critical section does to the heap is what Transit does to the model. */
    lemma SettledIsTransit(before: Tracker<IngestRecord>, rec: IngestRecord, tr: Transition)
      requires before.heap.Keys == all && rec in all && !tr.Fixture?
      requires rec.View() == Settle(before.heap[rec], tr)
      requires byInvocationKey == ClearKey(before, rec) && records == before.records
      requires forall r :: r in all && r != rec ==> r.View() == before.heap[r]
      ensures Model() == Transit(before, rec, tr)
    {
      assert Model().heap == before.heap[rec := rec.View()];
    }

    lemma SettledKeepsValid(before: Tracker<IngestRecord>, rec: IngestRecord, tr: Transition)
      requires Consistent(before) && before.heap.Keys == all && rec in all && !tr.Fixture?
      requires before.heap[rec].state == Pending && rec.View() == Settle(before.heap[rec], tr)
      requires byInvocationKey == ClearKey(before, rec) && records == before.records
      requires forall r :: r in all && r != rec ==> r.View() == before.heap[r]
      ensures Valid() && Model() == Transit(before, rec, tr)
    {
      SettledIsTransit(before, rec, tr);
      TransitKeepsConsistent(before, rec, tr);
      ValidIsConsistent();
    }

    /** What a creating critical section does to the heap is what Begin does to the model. */
    lemma BegunIsBegin(before: Tracker<IngestRecord>, att: Attempt, rec: IngestRecord)
      requires rec !in before.heap && all == before.heap.Keys + {rec} && !Subscribes(before, att)
      requires rec.View() == FreshRecord(att)
      requires byInvocationKey == if AttemptKey(att) != "" then before.byInvocationKey[AttemptKey(att) := rec]
                                  else before.byInvocationKey
      requires records == before.records[(if att.plannedID == "" then att.url else att.plannedID) := rec]
      requires forall r :: r in before.heap ==> r.View() == before.heap[r]
      ensures Model() == Begin(before, att, rec)
    {
      assert Model().heap == before.heap[rec := FreshRecord(att)];
    }

    method BeginAttempt(att: Attempt) returns (rec: IngestRecord, spawned: bool)
      requires Valid()
      modifies this
      ensures Valid() && rec in all
      ensures spawned <==> !Subscribes(old(Model()), att)
      ensures spawned ==> fresh(rec) && all == old(all) + {rec} && rec.View() == FreshRecord(att)
      ensures !spawned ==> all == old(all) && rec == old(byInvocationKey)[AttemptKey(att)]
      ensures Model() == Begin(old(Model()), att, rec)
      ensures rec == BeginReturns(old(Model()), att, rec)
      ensures rec.state == Pending && rec.invocationKey == AttemptKey(att)
    {
      var key := AttemptKey(att);
      if key != "" && key in byInvocationKey {
        rec, spawned := byInvocationKey[key], false;
        return;
      }
      ghost var before := Model();
      rec := new IngestRecord(att.plannedID, key);
      spawned := true;
      var mapKey := if att.plannedID == "" then att.url else att.plannedID;
      records := records[mapKey := rec];
      if key != "" {
        byInvocationKey := byInvocationKey[key := rec];
      }
      all := all + {rec};
      BegunIsBegin(before, att, rec);
    }

    function Unindexed(rec: IngestRecord): map<string, IngestRecord>
      reads this
    {
      if rec.invocationKey != "" && rec.invocationKey in byInvocationKey && byInvocationKey[rec.invocationKey] == rec
      then byInvocationKey - {rec.invocationKey}
      else byInvocationKey
    }

    /** Removes the record's key from the index, but only if the index still names this record. */
    method ClearInvocationKeyLocked(rec: IngestRecord)
      modifies this`byInvocationKey
      ensures byInvocationKey == old(Unindexed(rec))
    {
      if rec.invocationKey == "" {
        return;
      }
      if rec.invocationKey in byInvocationKey && byInvocationKey[rec.invocationKey] == rec {
        byInvocationKey := byInvocationKey - {rec.invocationKey};
      }
    }

    /** The critical section that ends a record's pending life. */
    method SettleLocked(rec: IngestRecord, tr: Transition)
      requires Valid() && rec in all && rec.state == Pending && !tr.Fixture?
      modifies this`byInvocationKey, rec
      ensures Valid() && byInvocationKey == old(Unindexed(rec))
      ensures rec.View() == Settle(old(rec.View()), tr)
      ensures Model() == Transit(old(Model()), rec, tr)
    {
      ghost var before := Model();
      ValidIsConsistent();
      WriteOutcome(rec, tr);
      SettledKeepsValid(before, rec, tr);
    }

    /** Fields, then index, then channel. */
    method WriteOutcome(rec: IngestRecord, tr: Transition)
      requires !rec.transitionClosed && !tr.Fixture?
      modifies this`byInvocationKey, rec
      ensures byInvocationKey == old(Unindexed(rec)) && rec.View() == Settle(old(rec.View()), tr)
    {
      rec.Report(tr);
      ClearInvocationKeyLocked(rec);
      rec.CloseTransition();
    }

    method MarkFailed(rec: IngestRecord, code: string, message: string)
      requires Valid() && rec in all && rec.state == Pending
      modifies this`byInvocationKey, rec
      ensures Valid() && byInvocationKey == old(Unindexed(rec))
      ensures rec.View() == Settle(old(rec.View()), Fail(code, message))
    {
      SettleLocked(rec, Fail(code, message));
    }

    method MarkNotFound(rec: IngestRecord, message: string)
      requires Valid() && rec in all && rec.state == Pending
      modifies this`byInvocationKey, rec
      ensures Valid() && byInvocationKey == old(Unindexed(rec))
      ensures rec.View() == Settle(old(rec.View()), Missing(message))
    {
      SettleLocked(rec, Missing(message));
    }

    /** Any number of critical sections of other goroutines. Callers learn only what the mutex
        and the field discipline promise: the index stays consistent, records are never
        forgotten, finished records and the caller's own record keep their fields. */
    method OtherGoroutines(mine: IngestRecord)
      requires Valid() && mine in all
      modifies this, all
      ensures Valid() && old(all) <= all && fresh(all - old(all))
      ensures mine.View() == old(mine.View())
      ensures forall r :: r in old(all) && old(r.state) != Pending ==> r.View() == old(r.View())
    {
    }

    /** As OtherGoroutines, from the point of view of a waiter: here the record's own runner
        may settle it, and has done so if `settled`. */
    method UntilWoken(rec: IngestRecord, settled: bool)
      requires Valid() && rec in all
      modifies this, all
      ensures Valid() && old(all) <= all && fresh(all - old(all))
      ensures settled ==> rec.transitionClosed
      ensures forall r :: r in old(all) && old(r.state) != Pending ==> r.View() == old(r.View())
    {
      if settled && !rec.transitionClosed {
          MarkFailed(rec, "internal_error", "");
      }
    }

    /** handleFirstEnvelope; `persistError` is the outcome of persistEnvelope. */
    method HandleFirstEnvelope(rec: IngestRecord, plugin: string, url: string, env: Envelope,
                               persistError: Option<string>)
        returns (error: Option<string>)
      requires Valid() && rec in all && rec.state == Pending
      modifies this, all
      ensures Valid() && old(all) <= all && fresh(all - old(all))
      ensures rec.View() == Settle(old(rec.View()),
                                   if Storable(env) then AfterPersist(env, persistError) else Reject(plugin, url, env))
      ensures EndsByEnvelope(rec.View(), old(rec.View()), plugin, url, env, persistError)
      ensures error == if Persisted(env) then persistError else None
      ensures rec.invocationKey !in byInvocationKey || byInvocationKey[rec.invocationKey] != rec
    {
      FirstEnvelopeEnds(rec.View(), plugin, url, env, persistError);
      if |env.options| > 0 {
        SettleLocked(rec, Choose(env.options));
        return None;
      }
      if env.entity.None? && |env.gaps| == 0 {
        MarkNotFound(rec, plugin + ": no result for " + url);
        return None;
      }
      if env.entity.None? || env.entity.value.id == "" || env.entity.value.kind == "" {
        MarkFailed(rec, "internal_error", plugin + ": returned an entity without id/kind");
        return None;
      }
      OtherGoroutines(rec);  // persistEnvelope runs without the tracker mutex
      if persistError.Some? {
        MarkFailed(rec, "internal_error", persistError.value);
      } else if |env.gaps| > 0 {
        SettleLocked(rec, Fill(env.entity.value.id, env.rawContent, env.rawContentTruncated, env.gaps));
      } else {
        SettleLocked(rec, Finish(env.entity.value.id));
      }
      return persistError;
    }

    /** One callback of the plugin stream, preceded by anything other goroutines do. `handled`
        is the firstHandled flag, `stored` whether the envelope reached disk. */
    method OnEnvelope(rec: IngestRecord, plugin: string, url: string, d: Delivery, handled: bool)
        returns (failed: bool, stored: bool)
      requires Valid() && rec in all && (handled <==> rec.state != Pending)
      modifies this, all
      ensures Valid() && old(all) <= all && fresh(all - old(all))
      ensures handled || d.env.Some? <==> rec.state != Pending
      ensures rec.View() == if d.env.Some? && !handled then Settle(old(rec.View()), FirstVerdict(plugin, url, d))
                            else old(rec.View())
      ensures failed == CallbackFails(d)
      ensures stored == (d.env.Some? && Storable(d.env.value) && d.persistError.None?)
    {
      OtherGoroutines(rec);
      if d.env.None? {
        return true, false;
      }
      var error;
      if !handled {
        error := HandleFirstEnvelope(rec, plugin, url, d.env.value, d.persistError);
      } else {
        error := PersistSubsequentEnvelope(d.env.value, d.persistError);
      }
      return error.Some?, Storable(d.env.value) && error.None?;
    }

    /** runPluginSimulation against an arbitrary stream, with other goroutines running between any two
        callbacks. The record ends as the stream says, its channel closed and its key gone, and the
        envelopes that landed among the `n` delivered are on disk in order. */
    method RunPluginSimulation(rec: IngestRecord, plugin: string, url: string, script: Script)
        returns (ghost stored: seq<Envelope>, ghost n: nat, ghost at: seq<nat>)
      requires Valid() && rec in all && rec.state == Pending
      modifies this, all
      ensures Valid() && rec in all
      ensures n <= |script.deliveries| && DeliveredTo(script.deliveries, n)
      ensures EndsAs(rec.View(), old(rec.View()), plugin, url, script, n)
      ensures StoredAt(stored, script.deliveries[..n], at)
      ensures stored == Stored(script.deliveries[..Consumed(script.deliveries)])
      ensures rec.View() == Settle(old(rec.View()), Verdict(plugin, url, script))
      ensures rec.transitionClosed && rec.state != Pending
      ensures forall k :: k in byInvocationKey ==> byInvocationKey[k] != rec
    {
      stored := Stream(rec, plugin, url, script);
      VerdictEnds(old(rec.View()), plugin, url, script);
      n := Consumed(script.deliveries);
      at := StoredInOrder(script.deliveries[..n]);
    }

    /** Stream with the runner's callback, and what follows it. `stored` lists the envelopes that reached
        disk. */
    method Stream(rec: IngestRecord, plugin: string, url: string, script: Script)
        returns (ghost stored: seq<Envelope>)
      requires Valid() && rec in all && rec.state == Pending
      modifies this, all
      ensures Valid() && rec in all
      ensures rec.View() == Settle(old(rec.View()), Verdict(plugin, url, script))
      ensures rec.transitionClosed && rec.state != Pending
      ensures forall k :: k in byInvocationKey ==> byInvocationKey[k] != rec
      ensures stored == Stored(script.deliveries[..Consumed(script.deliveries)])
    {
      var ds := script.deliveries;
      ghost var before := rec.View();
      var i, firstHandled := 0, false;
      var streamErr: Option<string> := None;
      stored := [];
      while i < |ds| && streamErr.None?
        invariant 0 <= i <= |ds|
        invariant Valid() && rec in all && old(all) <= all && fresh(all - old(all))
        invariant streamErr.None? ==> NoneAborts(ds, i)
        invariant streamErr.Some? ==>
                    i > 0 && NoneAborts(ds, i - 1) && Aborts(ds[i - 1]) && streamErr == ds[i - 1].abort
        invariant firstHandled <==> FirstEnvelope(ds[..i]).Some?
        invariant firstHandled <==> rec.state != Pending
        invariant rec.View() == ViewAfter(before, plugin, url, ds[..i])
        invariant stored == Stored(ds[..i])
      {
        var d := ds[i];
        var failed, kept := OnEnvelope(rec, plugin, url, d, firstHandled);
        ViewAfterExtends(before, plugin, url, ds, i);
        firstHandled := firstHandled || d.env.Some?;
        stored := stored + if kept then [d.env.value] else [];
        i := i + 1;
        if failed && d.abort.Some? {
          streamErr := d.abort;
        }
      }
      ConsumedIs(ds, i);
      VerdictIs(before, plugin, url, script);
      OnStreamEnd(rec, plugin, url, if streamErr.None? then script.tail else streamErr, firstHandled);
    }

    /** What happens after Stream returns: a run that never reported anything reports now. */
    method OnStreamEnd(rec: IngestRecord, plugin: string, url: string, streamErr: Option<string>, handled: bool)
      requires Valid() && rec in all && (handled <==> rec.state != Pending)
      modifies this`byInvocationKey, rec
      ensures Valid()
      ensures rec.View() == if handled then old(rec.View())
                else Settle(old(rec.View()), EndVerdict(plugin, url, streamErr))
    {
      if streamErr.Some? {
        if !handled {
          MarkFailed(rec, "fetch_failed", plugin + ": " + streamErr.value);
        }
        return;
      }
      if !handled {
        MarkNotFound(rec, plugin + ": no result for " + url);
      }
    }

    /** persistSubsequentEnvelope: a malformed later envelope is skipped, a usable one is
        persisted; the record is not an argument and is not touched. */
    method PersistSubsequentEnvelope(env: Envelope, persistError: Option<string>) returns (error: Option<string>)
      ensures error == if Storable(env) then persistError else None
    {
      if |env.options| > 0 {
        return None;
      }
      if env.entity.None? || env.entity.value.id == "" || env.entity.value.kind == "" {
        return None;
      }
      return persistError;
    }

    /** wait: an answer is always the final content of the record. */
    method Wait(rec: IngestRecord, alarm: Alarm) returns (r: Result<Record, Alarm>)
      requires Valid() && rec in all
      modifies this, all
      ensures Valid() && old(all) <= all && fresh(all - old(all))
      ensures r.Ok? ==> Terminal(r.value) && r.value == rec.View()
      ensures r.Err? ==> r.error == alarm != NoAlarm && old(rec.state) == Pending
      ensures old(rec.state) != Pending ==> r == Ok(old(rec.View()))
      ensures forall q :: q in old(all) && old(q.state) != Pending ==> q.View() == old(q.View())
    {
      if rec.state != Pending {
        return Ok(rec.View());
      }
      UntilWoken(rec, alarm == NoAlarm);
      if alarm != NoAlarm {
        return Err(alarm);
      }
      return Ok(rec.View());
    }

    /** runFanOutInstance. */
    method RunFanOutInstance(plugin: string, url: string, inst: Instance, waitSeconds: nat)
        returns (result: FanOutResult, rec: IngestRecord)
      requires Valid()
      modifies this, all
      ensures Valid() && old(all) <= all && fresh(all - old(all)) && rec in all
      ensures rec.invocationKey == InvocationKey(plugin, inst.name, url)
      ensures result.instance == inst.name
      ensures Reports(result, rec, if waitSeconds == 0 then Timeout else inst.alarm)
      ensures forall q :: q in old(all) && old(q.state) != Pending ==> q.View() == old(q.View())
    {
      var att := Attempt(Some(plugin), inst.name, url, "");
      var spawned;
      rec, spawned := BeginAttempt(att);
      if waitSeconds == 0 {
        return FanOutResult(inst.name, "queued", att.plannedID, ""), rec;
      }
      var snap := Wait(rec, inst.alarm);
      match snap
      case Err(Timeout) => result := FanOutResult(inst.name, "queued", att.plannedID, "");
      case Err(Cancelled(message)) => result := FanOutResult(inst.name, "failed", "", message);
      case Ok(v) =>
        match v.state {
          case Complete => result := FanOutResult(inst.name, "complete", v.entityID, "");
          case NeedsFill => result := FanOutResult(inst.name, "needs_fill", v.entityID, "");
          case Disambiguation => result := FanOutResult(inst.name, "disambiguation", "", "");
          case Failed => result := FanOutResult(inst.name, "failed", "", v.failureMessage);
          case NotFound => result := FanOutResult(inst.name, "failed", "", "unknown terminal state 4");
        }
    }

    /** One round of the loop. */
    method DispatchOne(plugin: string, url: string, inst: Instance, waitSeconds: nat)
        returns (result: FanOutResult, rec: Option<IngestRecord>)
      requires Valid()
      modifies this, all
      ensures Valid() && old(all) <= all && fresh(all - old(all)) && (rec.Some? ==> rec.value in all)
      ensures Answers(result, inst) && RunsAlone(rec, plugin, url, inst) && ReportsOwn(result, rec, inst, waitSeconds)
      ensures forall q :: q in old(all) && old(q.state) != Pending ==> q.View() == old(q.View())
    {
      if inst.envError.Some? {
        return FanOutResult(inst.name, "failed", "", inst.envError.value), None;
      }
      var entry, started := RunFanOutInstance(plugin, url, inst, waitSeconds);
      return entry, Some(started);
    }

    /** dispatchFanOut over the enabled instances, serially and in declaration order: one result
        per instance whatever fails, and no two instances share a record. */
    method DispatchFanOut(plugin: string, url: string, instances: seq<Instance>, waitSeconds: nat)
        returns (results: seq<FanOutResult>, recs: seq<Option<IngestRecord>>)
      requires Valid() && Plain(plugin) && url != ""
      requires ValidInstances(instances)
      modifies this, all
      ensures Valid()
      ensures |results| == |recs| == |instances|
      ensures forall i :: 0 <= i < |instances| ==> Answers(results[i], instances[i])
      ensures forall i :: 0 <= i < |instances| ==> RunsAlone(recs[i], plugin, url, instances[i])
      ensures forall i :: 0 <= i < |instances| ==> ReportsOwn(results[i], recs[i], instances[i], waitSeconds)
      ensures forall i, j :: 0 <= i < j < |recs| && recs[i].Some? && recs[j].Some? ==> recs[i] != recs[j]
    {
      results, recs := [], [];
      for i := 0 to |instances|
        invariant Valid() && old(all) <= all && fresh(all - old(all))
        invariant |results| == |recs| == i
        invariant forall j :: 0 <= j < i ==> Answers(results[j], instances[j])
        invariant forall j :: 0 <= j < i ==> RunsAlone(recs[j], plugin, url, instances[j])
        invariant forall j :: 0 <= j < i ==> ReportsOwn(results[j], recs[j], instances[j], waitSeconds)
        invariant forall j :: 0 <= j < i && recs[j].Some? ==> recs[j].value in all
      {
        var entry, rec := DispatchOne(plugin, url, instances[i], waitSeconds);
        results, recs := results + [entry], recs + [rec];
      }
      forall i, j | 0 <= i < j < |recs| && recs[i].Some? && recs[j].Some? ensures recs[i] != recs[j] {
        InvocationKeyInjective(plugin, instances[i].name, url, plugin, instances[j].name, url);
      }
    }
  }

  /** The shape rule for `instances:` blocks: unique names without the key separators. */
  ghost predicate ValidInstances(instances: seq<Instance>) {
    && (forall i :: 0 <= i < |instances| ==> Plain(instances[i].name))
    && (forall i, j :: 0 <= i < j < |instances| ==> instances[i].name != instances[j].name)
  }

  ghost predicate Answers(result: FanOutResult, inst: Instance) {
    && result.instance == inst.name
    && (inst.envError.Some? ==> result.state == "failed" && result.error == inst.envError.value)
  }

  /** The instance got a record under its own key, unless its environment could not be built. */
  ghost predicate RunsAlone(rec: Option<IngestRecord>, plugin: string, url: string, inst: Instance) {
    && (rec.Some? <==> inst.envError.None?)
    && (rec.Some? ==> rec.value.invocationKey == InvocationKey(plugin, inst.name, url))
  }

  ghost function FirstVerdict(plugin: string, url: string, d: Delivery): Transition
    requires d.env.Some?
  {
    if Storable(d.env.value) then AfterPersist(d.env.value, d.persistError)
    else Reject(plugin, url, d.env.value)
  }

  /** A fan-out entry repeats the record's final state, or says the wait was cut short. A
      not_found record has no case of its own and is reported as a failure. */
  ghost predicate Reports(result: FanOutResult, rec: IngestRecord, alarm: Alarm)
    reads rec
  {
    || (alarm == Timeout && result.state == "queued" && result.entityID == "")
    || (alarm.Cancelled? && result.state == "failed" && result.error == alarm.message)
    || (rec.state != Pending
        && match rec.state
           case Complete => result.state == "complete" && result.entityID == rec.entityID
           case NeedsFill => result.state == "needs_fill" && result.entityID == rec.entityID
           case Disambiguation => result.state == "disambiguation" && result.entityID == ""
           case Failed => result.state == "failed" && result.error == rec.failureMessage
           case _ => result.state == "failed")
  }

  /** The result is about this instance's own record. */
  ghost predicate ReportsOwn(result: FanOutResult, rec: Option<IngestRecord>, inst: Instance, waitSeconds: nat)
    reads if rec.Some? then {rec.value} else {}
  {
    rec.Some? ==> Reports(result, rec.value, if waitSeconds == 0 then Timeout else inst.alarm)
  }

  /** What a runner's record looks like after the deliveries `ds`. */
  ghost function ViewAfter(before: Record, plugin: string, url: string, ds: seq<Delivery>): Record {
    match FirstEnvelope(ds)
    case None => before
    case Some(i) => Settle(before, FirstVerdict(plugin, url, ds[i]))
  }

  lemma ViewAfterExtends(before: Record, plugin: string, url: string, ds: seq<Delivery>, i: nat)
    requires i < |ds|
    ensures ViewAfter(before, plugin, url, ds[..i + 1]) ==
            if FirstEnvelope(ds[..i]).None? && ds[i].env.Some? then Settle(before, FirstVerdict(plugin, url, ds[i]))
            else ViewAfter(before, plugin, url, ds[..i])
    ensures FirstEnvelope(ds[..i + 1]).Some? <==> FirstEnvelope(ds[..i]).Some? || ds[i].env.Some?
    ensures Stored(ds[..i + 1]) == Stored(ds[..i]) +
              (if ds[i].env.Some? && Storable(ds[i].env.value) && ds[i].persistError.None? then [ds[i].env.value]
               else [])
  {
    var a, b := FirstEnvelope(ds[..i]), FirstEnvelope(ds[..i + 1]);
    assert forall j :: 0 <= j < i ==> ds[..i][j] == ds[..i + 1][j];
    assert ds[..i + 1][i] == ds[i];
    assert ds[..i + 1][..i] == ds[..i];
  }

  ghost function EndVerdict(plugin: string, url: string, streamErr: Option<string>): Transition {
    match streamErr
    case Some(error) => StreamFailure(plugin, error)
    case None => NoResult(plugin, url)
  }

  lemma VerdictIs(before: Record, plugin: string, url: string, script: Script)
    ensures var done := script.deliveries[..Consumed(script.deliveries)];
            Settle(before, Verdict(plugin, url, script)) ==
            if FirstEnvelope(done).Some? then ViewAfter(before, plugin, url, done)
            else Settle(before, EndVerdict(plugin, url, StreamError(script)))
  {
  }

  predicate NoneAborts(ds: seq<Delivery>, n: nat)
    requires n <= |ds|
  {
    forall j :: 0 <= j < n ==> !Aborts(ds[j])
  }

  lemma {:induction false} ConsumedIs(ds: seq<Delivery>, i: nat)
    requires i <= |ds|
    requires (i == |ds| && NoneAborts(ds, i)) || (i > 0 && NoneAborts(ds, i - 1) && Aborts(ds[i - 1]))
    ensures Consumed(ds) == i
    ensures i > 0 && NoneAborts(ds, i) ==> !Aborts(ds[i - 1])
  {
  }
}
