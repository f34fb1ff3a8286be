/** The ingest tracker as values: records, the critical sections of `ingest_tracker.go`, and
    every interleaving of requests, runners and waiters over them. `R` is the type of record
    addresses, so the same functions specify the class in `TrackerService`. */
module Tracker {
  import opened Base

  datatype State = Pending | Complete | NeedsFill | Disambiguation | NotFound | Failed

  /** One ingestRecord. `closes` counts the `close(rec.transition)` calls made so far. */
  datatype Record = Record(
    state: State,
    entityID: string,
    invocationKey: string,
    cleanContent: string,
    cleanContentTruncated: bool,
    gaps: map<string, string>,
    options: map<string, string>,
    failureCode: string,
    failureMessage: string,
    closes: nat)

  /** What the tracker sees of a fetched entity. */
  datatype EntityRef = EntityRef(id: string, kind: string)

  /** The part of a plugin FetchResult the tracker looks at. */
  datatype Envelope = Envelope(
    options: map<string, string>,
    entity: Option<EntityRef>,
    gaps: map<string, string>,
    rawContent: string,
    rawContentTruncated: bool)

  /** The ways a record leaves Pending, one per `close(rec.transition)` site. */
  datatype Transition =
    | Fail(code: string, message: string)
    | Missing(message: string)
    | Choose(options: map<string, string>)
    | Fill(entityID: string, content: string, truncated: bool, gaps: map<string, string>)
    | Finish(entityID: string)
    | Fixture(state: State, content: string, truncated: bool, gaps: map<string, string>,
              code: string, message: string)

  datatype Attempt = Attempt(plugin: Option<string>, instance: string, url: string, plannedID: string)

  datatype Tracker<R(==)> = Tracker(
    heap: map<R, Record>,
    byInvocationKey: map<string, R>,
    records: map<string, R>)

  // ---------------------------------------------------------------- critical sections

  function InvocationKey(plugin: string, instance: string, url: string): string {
    if url == "" then ""
    else if instance == "" then plugin + ":" + url
    else plugin + "/" + instance + ":" + url
  }

  function AttemptKey(att: Attempt): string {
    match att.plugin
    case None => ""
    case Some(plugin) => InvocationKey(plugin, att.instance, att.url)
  }

  function FreshRecord(att: Attempt): Record {
    Record(Pending, att.plannedID, AttemptKey(att), "", false, map[], map[], "", "", 0)
  }

  predicate Subscribes<R>(t: Tracker<R>, att: Attempt) {
    AttemptKey(att) != "" && AttemptKey(att) in t.byInvocationKey
  }

  /** beginAttempt under the tracker mutex; `spare` is the address a new record would get. */
  function Begin<R>(t: Tracker<R>, att: Attempt, spare: R): Tracker<R> {
    if Subscribes(t, att) then t
    else
      var key := AttemptKey(att);
      var mapKey := if att.plannedID == "" then att.url else att.plannedID;
      Tracker(t.heap[spare := FreshRecord(att)],
              if key != "" then t.byInvocationKey[key := spare] else t.byInvocationKey,
              t.records[mapKey := spare])
  }

  function BeginReturns<R>(t: Tracker<R>, att: Attempt, spare: R): R {
    if Subscribes(t, att) then t.byInvocationKey[AttemptKey(att)] else spare
  }

  function Settle(rec: Record, tr: Transition): Record {
    var closed := rec.(closes := rec.closes + 1);
    match tr
    case Fail(code, message) =>
      closed.(state := Failed, failureCode := code, failureMessage := message)
    case Missing(message) => closed.(state := NotFound, failureMessage := message)
    case Choose(options) => closed.(state := Disambiguation, options := options)
    case Fill(id, content, truncated, gaps) =>
      closed.(state := NeedsFill, entityID := id, cleanContent := content,
              cleanContentTruncated := truncated, gaps := gaps)
    case Finish(id) => closed.(state := Complete, entityID := id)
    case Fixture(state, content, truncated, gaps, code, message) =>
      closed.(state := state, cleanContent := content, cleanContentTruncated := truncated,
              gaps := gaps, failureCode := code, failureMessage := message)
  }

  /** clearInvocationKeyLocked: drops the index entry only while it still points at `r`. */
  function ClearKey<R>(t: Tracker<R>, r: R): map<string, R>
    requires r in t.heap
  {
    var key := t.heap[r].invocationKey;
    if key != "" && key in t.byInvocationKey && t.byInvocationKey[key] == r
    then t.byInvocationKey - {key}
    else t.byInvocationKey
  }

  /** State change, key removal and channel close in one critical section. */
  function Transit<R>(t: Tracker<R>, r: R, tr: Transition): Tracker<R>
    requires r in t.heap
  {
    t.(heap := t.heap[r := Settle(t.heap[r], tr)],
       byInvocationKey := if tr.Fixture? then t.byInvocationKey else ClearKey(t, r))
  }

  // ---------------------------------------------------------------- envelopes

  predicate Usable(env: Envelope) {
    env.entity.Some? && env.entity.value.id != "" && env.entity.value.kind != ""
  }

  /** The envelopes persistEnvelope is called on, wherever in the stream they arrive. */
  predicate Storable(env: Envelope) {
    |env.options| == 0 && Usable(env)
  }

  /** handleFirstEnvelope's verdict on an envelope it does not persist. */
  function Reject(plugin: string, url: string, env: Envelope): Transition
    requires !Storable(env)
  {
    if |env.options| > 0 then Choose(env.options)
    else if env.entity.None? && |env.gaps| == 0 then NoResult(plugin, url)
    else Fail("internal_error", plugin + ": returned an entity without id/kind")
  }

  function NoResult(plugin: string, url: string): Transition {
    Missing(plugin + ": no result for " + url)
  }

  function AfterPersist(env: Envelope, error: Option<string>): Transition
    requires Storable(env)
  {
    if error.Some? then Fail("internal_error", error.value)
    else if |env.gaps| > 0 then
      Fill(env.entity.value.id, env.rawContent, env.rawContentTruncated, env.gaps)
    else Finish(env.entity.value.id)
  }

  function StreamFailure(plugin: string, error: string): Transition {
    Fail("fetch_failed", plugin + ": " + error)
  }

  // ---------------------------------------------------------------- one plugin stream

  /** One callback invocation. `abort` is the error Stream returns if it gives up after this
      callback fails; None means it carries on with the next envelope. */
  datatype Delivery = Delivery(env: Option<Envelope>, persistError: Option<string>, abort: Option<string>)

  /** Everything a plugin stream can do: deliver any envelopes, then end cleanly or not. */
  datatype Script = Script(deliveries: seq<Delivery>, tail: Option<string>)

  predicate CallbackFails(d: Delivery) {
    d.env.None? || (Storable(d.env.value) && d.persistError.Some?)
  }

  predicate Aborts(d: Delivery) {
    CallbackFails(d) && d.abort.Some?
  }

  /** How many deliveries Stream makes before it returns. */
  function Consumed(ds: seq<Delivery>): (n: nat)
    ensures n <= |ds|
    ensures forall i :: 0 <= i < n - 1 ==> !Aborts(ds[i])
    ensures n < |ds| ==> n > 0 && Aborts(ds[n - 1])
  {
    if ds == [] then 0
    else if Aborts(ds[0]) then 1
    else 1 + Consumed(ds[1..])
  }

  function StreamError(s: Script): Option<string> {
    var n := Consumed(s.deliveries);
    if n > 0 && Aborts(s.deliveries[n - 1]) then s.deliveries[n - 1].abort else s.tail
  }

  /** The envelopes that reach disk, in order. */
  function Stored(ds: seq<Delivery>): seq<Envelope> {
    if ds == [] then []
    else
      var last := ds[|ds| - 1];
      Stored(ds[..|ds| - 1]) +
      (if last.env.Some? && Storable(last.env.value) && last.persistError.None?
       then [last.env.value] else [])
  }

  /** The first delivery that carries an envelope. */
  function FirstEnvelope(ds: seq<Delivery>): (r: Option<nat>)
    ensures r.Some? ==> r.value < |ds| && ds[r.value].env.Some?
    ensures r.Some? ==> forall j :: 0 <= j < r.value ==> ds[j].env.None?
    ensures r.None? ==> forall j :: 0 <= j < |ds| ==> ds[j].env.None?
  {
    if ds == [] then None
    else if ds[0].env.Some? then Some(0)
    else match FirstEnvelope(ds[1..])
         case None => None
         case Some(i) => Some(i + 1)
  }

  /** The one transition a plugin run makes: the first envelope decides it; without one, the
      way the stream ended does. Nothing after the first envelope appears here. */
  function Verdict(plugin: string, url: string, s: Script): Transition {
    match FirstEnvelope(s.deliveries[..Consumed(s.deliveries)])
    case Some(i) =>
      var d := s.deliveries[i];
      if Storable(d.env.value) then AfterPersist(d.env.value, d.persistError)
      else Reject(plugin, url, d.env.value)
    case None =>
      match StreamError(s)
      case Some(error) => StreamFailure(plugin, error)
      case None => NoResult(plugin, url)
  }

  /** Option A of the stream contract: two streams that agree up to and including their first
      envelope give the caller the same answer, whatever either does afterwards. */
  lemma {:induction false} LaterEnvelopesCannotChangeTheAnswer(plugin: string, url: string, a: Script, b: Script,
      i: nat)
    requires i < |a.deliveries| && i < |b.deliveries|
    requires a.deliveries[..i + 1] == b.deliveries[..i + 1]
    requires a.deliveries[i].env.Some?
    requires forall j :: 0 <= j < i ==> a.deliveries[j].env.None? && a.deliveries[j].abort.None?
    ensures Verdict(plugin, url, a) == Verdict(plugin, url, b)
    ensures Verdict(plugin, url, a) ==
            (if Storable(a.deliveries[i].env.value)
             then AfterPersist(a.deliveries[i].env.value, a.deliveries[i].persistError)
             else Reject(plugin, url, a.deliveries[i].env.value))
  {
    VerdictAtFirst(plugin, url, a, i);
    assert b.deliveries[i] == b.deliveries[..i + 1][i] == a.deliveries[i];
    forall j | 0 <= j < i ensures b.deliveries[j].env.None? && b.deliveries[j].abort.None? {
      assert b.deliveries[j] == b.deliveries[..i + 1][j] == a.deliveries[j];
    }
    VerdictAtFirst(plugin, url, b, i);
  }

  lemma {:induction false} VerdictAtFirst(plugin: string, url: string, s: Script, i: nat)
    requires i < |s.deliveries| && s.deliveries[i].env.Some?
    requires forall j :: 0 <= j < i ==> s.deliveries[j].env.None? && s.deliveries[j].abort.None?
    ensures FirstEnvelope(s.deliveries[..Consumed(s.deliveries)]) == Some(i)
  {
    var n := Consumed(s.deliveries);
    assert n > i;
    var first := FirstEnvelope(s.deliveries[..n]);
    assert s.deliveries[..n][i].env.Some?;
  }

  // ---------------------------------------------------------------- what a run comes to, in plain terms

  /** persistEnvelope is called on it. */
  predicate Persisted(env: Envelope) {
    env.options == map[] && env.entity.Some? && env.entity.value.id != "" && env.entity.value.kind != ""
  }

  /** The stream gives up after this delivery: its callback failed and the plugin passes errors on. */
  predicate GivesUp(d: Delivery) {
    d.abort.Some? && (d.env.None? || (Persisted(d.env.value) && d.persistError.Some?))
  }

  /** The stream made the first `n` deliveries. */
  ghost predicate DeliveredTo(ds: seq<Delivery>, n: nat) {
    && n <= |ds| && (forall i :: 0 <= i < n - 1 ==> !GivesUp(ds[i]))
    && (n < |ds| ==> n > 0 && GivesUp(ds[n - 1]))
  }

  /** The record after its first envelope: options ask the caller to choose; nothing at all is
      not_found; an entity without id or kind is an internal error, and so is one that could not be
      persisted; open gaps wait to be filled, with the content to fill them from; otherwise the
      record is complete. */
  predicate EndsByEnvelope(rec: Record, before: Record, plugin: string, url: string, env: Envelope,
                           persistError: Option<string>)
  {
    && rec.closes == before.closes + 1 && rec.invocationKey == before.invocationKey
    && if env.options != map[] then
         rec == before.(closes := rec.closes, state := Disambiguation, options := env.options)
       else if env.entity == None && env.gaps == map[] then EndsNotFound(rec, before, plugin, url)
       else if env.entity == None || env.entity.value.id == "" || env.entity.value.kind == "" then
         EndsFailed(rec, before, "internal_error", plugin + ": returned an entity without id/kind")
       else if persistError.Some? then EndsFailed(rec, before, "internal_error", persistError.value)
       else if env.gaps != map[] then
         rec == before.(closes := rec.closes, state := NeedsFill, entityID := env.entity.value.id, gaps := env.gaps,
                        cleanContent := env.rawContent, cleanContentTruncated := env.rawContentTruncated)
       else
         rec == before.(closes := rec.closes, state := Complete, entityID := env.entity.value.id)
  }

  predicate EndsFailed(rec: Record, before: Record, code: string, message: string) {
    rec == before.(closes := before.closes + 1, state := Failed, failureCode := code, failureMessage := message)
  }

  predicate EndsNotFound(rec: Record, before: Record, plugin: string, url: string) {
    rec == before.(closes := before.closes + 1, state := NotFound, failureMessage := plugin + ": no result for " + url)
  }

  /** The record after a run whose stream made `n` deliveries: the first envelope decides; without one,
      whether the stream erred. */
  ghost predicate EndsAs(rec: Record, before: Record, plugin: string, url: string, s: Script, n: nat)
    requires n <= |s.deliveries|
  {
    var ds := s.deliveries;
    && (forall i :: 0 <= i < n && ds[i].env.Some? && (forall j :: 0 <= j < i ==> ds[j].env.None?) ==>
          EndsByEnvelope(rec, before, plugin, url, ds[i].env.value, ds[i].persistError))
    && ((forall i :: 0 <= i < n ==> ds[i].env.None?) ==>
          var error := if n > 0 && GivesUp(ds[n - 1]) then ds[n - 1].abort else s.tail;
          match error
          case Some(e) => EndsFailed(rec, before, "fetch_failed", plugin + ": " + e)
          case None => EndsNotFound(rec, before, plugin, url))
  }

  lemma FirstEnvelopeEnds(before: Record, plugin: string, url: string, env: Envelope, persistError: Option<string>)
    ensures var tr := if Storable(env) then AfterPersist(env, persistError) else Reject(plugin, url, env);
            EndsByEnvelope(Settle(before, tr), before, plugin, url, env, persistError)
  {
  }

  lemma GivesUpIsAborts(d: Delivery)
    ensures GivesUp(d) <==> Aborts(d)
  {
  }

  lemma EnvelopeEnds(before: Record, plugin: string, url: string, s: Script, k: nat)
    requires FirstEnvelope(s.deliveries[..Consumed(s.deliveries)]) == Some(k)
    ensures EndsAs(Settle(before, Verdict(plugin, url, s)), before, plugin, url, s, Consumed(s.deliveries))
  {
    var ds, n := s.deliveries, Consumed(s.deliveries);
    assert forall i :: 0 <= i < n ==> ds[..n][i] == ds[i];
    FirstEnvelopeEnds(before, plugin, url, ds[k].env.value, ds[k].persistError);
    forall i | 0 <= i < n && ds[i].env.Some? && (forall j :: 0 <= j < i ==> ds[j].env.None?) ensures i == k {
    }
  }

  lemma StreamEnds(before: Record, plugin: string, url: string, s: Script)
    requires FirstEnvelope(s.deliveries[..Consumed(s.deliveries)]).None?
    ensures EndsAs(Settle(before, Verdict(plugin, url, s)), before, plugin, url, s, Consumed(s.deliveries))
  {
    var ds, n := s.deliveries, Consumed(s.deliveries);
    assert forall i :: 0 <= i < n ==> ds[..n][i] == ds[i];
    if n > 0 { GivesUpIsAborts(ds[n - 1]); }
  }

  lemma VerdictEnds(before: Record, plugin: string, url: string, s: Script)
    ensures DeliveredTo(s.deliveries, Consumed(s.deliveries))
    ensures EndsAs(Settle(before, Verdict(plugin, url, s)), before, plugin, url, s, Consumed(s.deliveries))
  {
    forall d: Delivery ensures GivesUp(d) <==> Aborts(d) { GivesUpIsAborts(d); }
    match FirstEnvelope(s.deliveries[..Consumed(s.deliveries)])
    case Some(k) => EnvelopeEnds(before, plugin, url, s, k);
    case None => StreamEnds(before, plugin, url, s);
  }

  /** The delivery's envelope reached disk. */
  predicate Landed(d: Delivery) {
    d.env.Some? && Persisted(d.env.value) && d.persistError.None?
  }

  /** The envelopes on disk are those of the deliveries at `at`, which are all that landed, in stream
      order. */
  ghost predicate StoredAt(stored: seq<Envelope>, ds: seq<Delivery>, at: seq<nat>) {
    && |at| == |stored|
    && (forall k :: 0 <= k < |at| ==> at[k] < |ds| && ds[at[k]].env == Some(stored[k]))
    && (forall k, m :: 0 <= k < m < |at| ==> at[k] < at[m])
    && (forall i :: 0 <= i < |ds| ==> (i in at <==> Landed(ds[i])))
  }

  lemma StoredAtSkips(stored: seq<Envelope>, ds: seq<Delivery>, at: seq<nat>, d: Delivery)
    requires StoredAt(stored, ds, at) && !Landed(d)
    ensures StoredAt(stored, ds + [d], at)
  {
  }

  lemma StoredAtTakes(stored: seq<Envelope>, ds: seq<Delivery>, at: seq<nat>, d: Delivery)
    requires StoredAt(stored, ds, at) && Landed(d)
    ensures StoredAt(stored + [d.env.value], ds + [d], at + [|ds|])
  {
    assert forall i :: 0 <= i < |ds| ==> (i in at + [|ds|] <==> i in at);
  }

  lemma {:induction false} StoredInOrder(ds: seq<Delivery>) returns (at: seq<nat>)
    ensures StoredAt(Stored(ds), ds, at)
  {
    if ds == [] {
      at := [];
    } else {
      var init, last := ds[..|ds| - 1], ds[|ds| - 1];
      at := StoredInOrder(init);
      assert ds == init + [last];
      if Landed(last) {
        StoredAtTakes(Stored(init), init, at, last);
        at := at + [|init|];
      } else {
        StoredAtSkips(Stored(init), init, at, last);
        assert Stored(ds) == Stored(init);
      }
    }
  }

  // ---------------------------------------------------------------- invariants of the index

  predicate Terminal(rec: Record) { rec.state != Pending }

  /** Every in-flight key points at a pending record that carries it, every pending record with
      a key is the one indexed, and a channel is closed (once) exactly when its record is
      terminal. */
  ghost predicate Consistent<R>(t: Tracker<R>) {
    && (forall k :: k in t.byInvocationKey ==>
          k != "" && t.byInvocationKey[k] in t.heap
          && t.heap[t.byInvocationKey[k]].state == Pending
          && t.heap[t.byInvocationKey[k]].invocationKey == k)
    && (forall r :: r in t.heap && t.heap[r].state == Pending && t.heap[r].invocationKey != "" ==>
          t.heap[r].invocationKey in t.byInvocationKey
          && t.byInvocationKey[t.heap[r].invocationKey] == r)
    && (forall r :: r in t.heap ==> t.heap[r].closes == if Terminal(t.heap[r]) then 1 else 0)
  }

  /** A fixture run may only declare a terminal state, and only on a record without a key. */
  predicate LegalTransition(rec: Record, tr: Transition) {
    rec.state == Pending && (tr.Fixture? ==> tr.state != Pending && rec.invocationKey == "")
  }

  lemma BeginKeepsConsistent<R>(t: Tracker<R>, att: Attempt, spare: R)
    requires Consistent(t) && spare !in t.heap
    ensures Consistent(Begin(t, att, spare))
  {
  }

  lemma TransitKeepsConsistent<R>(t: Tracker<R>, r: R, tr: Transition)
    requires Consistent(t) && r in t.heap && LegalTransition(t.heap[r], tr)
    ensures Consistent(Transit(t, r, tr))
  {
    var u := Transit(t, r, tr);
    assert u.heap.Keys == t.heap.Keys;
    forall r' | r' in u.heap && u.heap[r'].state == Pending && u.heap[r'].invocationKey != ""
      ensures u.heap[r'].invocationKey in u.byInvocationKey
      ensures u.byInvocationKey[u.heap[r'].invocationKey] == r'
    {
      assert r' != r && u.heap[r'] == t.heap[r'];
    }
  }

  /** At most one pending record per key. */
  lemma OnePendingRecordPerKey<R>(t: Tracker<R>, r1: R, r2: R)
    requires Consistent(t) && r1 in t.heap && r2 in t.heap
    requires t.heap[r1].state == Pending && t.heap[r2].state == Pending
    requires t.heap[r1].invocationKey == t.heap[r2].invocationKey != ""
    ensures r1 == r2
  {
    assert t.byInvocationKey[t.heap[r1].invocationKey] == r1;
  }

  /** Nobody is ever handed a record that already finished. */
  lemma BeginReturnsPending<R>(t: Tracker<R>, att: Attempt, spare: R)
    requires Consistent(t) && spare !in t.heap
    ensures var r, u := BeginReturns(t, att, spare), Begin(t, att, spare);
            && r in u.heap && u.heap[r].state == Pending && u.heap[r].closes == 0
            && u.heap[r].invocationKey == AttemptKey(att)
            && (AttemptKey(att) != "" ==>
                  AttemptKey(att) in u.byInvocationKey && u.byInvocationKey[AttemptKey(att)] == r)
            && (r != spare ==> u == t)
  {
  }

  /** A new record is the only change to the heap, is listed under its planned id or else its URL, and
      starts from nothing but what the attempt says; subscribing adds nothing at all. */
  lemma BeginCreates<R>(t: Tracker<R>, att: Attempt, spare: R)
    requires spare !in t.heap
    ensures var key := match att.plugin case None => "" case Some(p) => InvocationKey(p, att.instance, att.url);
            var u := Begin(t, att, spare);
            if key != "" && key in t.byInvocationKey
                then u == t && BeginReturns(t, att, spare) == t.byInvocationKey[key]
            else
              && BeginReturns(t, att, spare) == spare && u.heap.Keys == t.heap.Keys + {spare}
              && (forall r :: r in t.heap ==> u.heap[r] == t.heap[r])
              && u.heap[spare].state == Pending && u.heap[spare].entityID == att.plannedID
              && u.heap[spare].gaps == map[] && u.heap[spare].options == map[] && u.heap[spare].closes == 0
              && (if att.plannedID != "" then att.plannedID else att.url) in u.records
              && u.records[if att.plannedID != "" then att.plannedID else att.url] == spare
  {
  }

  /** Settling a record releases its key, so the next attempt runs afresh. */
  lemma SettledKeyIsFree<R>(t: Tracker<R>, r: R, tr: Transition)
    requires Consistent(t) && r in t.heap && LegalTransition(t.heap[r], tr)
    ensures t.heap[r].invocationKey !in Transit(t, r, tr).byInvocationKey
  {
    assert t.heap[r].invocationKey != "" ==> t.byInvocationKey[t.heap[r].invocationKey] == r;
  }

  // ---------------------------------------------------------------- invocation keys

  predicate Plain(s: string) {
    forall i :: 0 <= i < |s| ==> s[i] != ':' && s[i] != '/'
  }

  lemma {:induction false} SplitUnique(a: string, b: string, restA: string, restB: string)
    requires Plain(a) && Plain(b)
    requires restA != "" && (restA[0] == ':' || restA[0] == '/')
    requires restB != "" && (restB[0] == ':' || restB[0] == '/')
    requires a + restA == b + restB
    ensures a == b && restA == restB
  {
    var whole := a + restA;
    assert whole[|a|] == restA[0];
    assert (b + restB)[|b|] == restB[0];
    assert a == whole[..|a|] && b == (b + restB)[..|b|];
    assert restA == whole[|a|..] && restB == (b + restB)[|b|..];
  }

  /** Two plugin attempts collapse into one record exactly when plugin, instance and URL agree. */
  lemma {:induction false} InvocationKeyInjective(p1: string, i1: string, u1: string, p2: string, i2: string,
                                                  u2: string)
    requires Plain(p1) && Plain(i1) && Plain(p2) && Plain(i2)
    requires u1 != "" && u2 != ""
    ensures InvocationKey(p1, i1, u1) == InvocationKey(p2, i2, u2) <==> p1 == p2 && i1 == i2 && u1 == u2
  {
    if InvocationKey(p1, i1, u1) == InvocationKey(p2, i2, u2) {
      var rest1 := if i1 == "" then ":" + u1 else "/" + (i1 + (":" + u1));
      var rest2 := if i2 == "" then ":" + u2 else "/" + (i2 + (":" + u2));
      assert InvocationKey(p1, i1, u1) == p1 + rest1;
      assert InvocationKey(p2, i2, u2) == p2 + rest2;
      SplitUnique(p1, p2, rest1, rest2);
      assert (i1 == "") == (i2 == "") by { assert rest1[0] == rest2[0]; }
      assert rest1[1..] == rest2[1..];
      if i1 == "" {
        assert rest1[1..] == u1 && rest2[1..] == u2;
      } else {
        assert rest1[1..] == i1 + (":" + u1) && rest2[1..] == i2 + (":" + u2);
        SplitUnique(i1, i2, ":" + u1, ":" + u2);
        assert (":" + u1)[1..] == u1 && (":" + u2)[1..] == u2;
      }
    }
  }
}
