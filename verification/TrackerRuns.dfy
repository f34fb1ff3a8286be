/** Every interleaving of callers, runner goroutines and long-poll waiters over one tracker.
    The plugin stream and the scheduler are adversaries: any enabled step may come next. */
module TrackerRuns {
  import opened Base
  import opened Tracker

  /** Where a record's own goroutine stands. `handled` is the runner's firstHandled flag;
      Persisting is the window in which envelope 1 is being written but not yet reported. */
  datatype Phase = Sleeping | Streaming(handled: bool) | Persisting(env: Envelope) | Returned

  datatype Runner = Runner(plugin: string, url: string, phase: Phase)

  /** One call of wait. */
  datatype Waiter<R> = Blocked(r: R) | Got(r: R, snapshot: Record) | GaveUp(r: R)

  datatype Sys<R(==)> = Sys(t: Tracker<R>, runners: map<R, Runner>, waiters: map<nat, Waiter<R>>)

  datatype Step<R> =
    | DoBegin(att: Attempt, spare: R)
    | FixtureEnd(r: R, outcome: Transition)
    | DeliverNil(r: R)
    | DeliverFirst(r: R, env: Envelope)
    | PersistEnd(r: R, error: Option<string>)
    | DeliverLater(r: R, env: Envelope)
    | StreamEnd(r: R, error: Option<string>)
    | Wait(w: nat, r: R)
    | Wake(w: nat)
    | Abandon(w: nat)

  function Init<R(==)>(): Sys<R> {
    Sys(Tracker(map[], map[], map[]), map[], map[])
  }

  predicate At<R(==)>(s: Sys<R>, r: R, phase: Phase) {
    r in s.runners && r in s.t.heap && s.runners[r].phase == phase
  }

  predicate Enabled<R(==)>(s: Sys<R>, step: Step<R>) {
    match step
    case DoBegin(att, spare) => spare !in s.t.heap && spare !in s.runners
    case FixtureEnd(r, outcome) => At(s, r, Sleeping)
                                   && (outcome.Fail? || (outcome.Fixture? && outcome.state != Pending))
    case DeliverNil(r) => At(s, r, Streaming(false)) || At(s, r, Streaming(true))
    case DeliverFirst(r, env) => At(s, r, Streaming(false))
    case PersistEnd(r, error) => r in s.runners && r in s.t.heap && s.runners[r].phase.Persisting?
                                 && Storable(s.runners[r].phase.env)
    case DeliverLater(r, env) => At(s, r, Streaming(true))
    case StreamEnd(r, error) => At(s, r, Streaming(false)) || At(s, r, Streaming(true))
    case Wait(w, r) => w !in s.waiters && r in s.t.heap
    case Wake(w) => w in s.waiters && s.waiters[w].Blocked? && s.waiters[w].r in s.t.heap
                    && s.t.heap[s.waiters[w].r].closes > 0
    case Abandon(w) => w in s.waiters && s.waiters[w].Blocked?
  }

  function Goto<R(==)>(s: Sys<R>, r: R, phase: Phase): Sys<R>
    requires r in s.runners
  {
    s.(runners := s.runners[r := s.runners[r].(phase := phase)])
  }

  function Settled<R(==)>(s: Sys<R>, r: R, tr: Transition, phase: Phase): Sys<R>
    requires r in s.runners && r in s.t.heap
  {
    Goto(s.(t := Transit(s.t, r, tr)), r, phase)
  }

  function Next<R(==)>(s: Sys<R>, step: Step<R>): Sys<R>
    requires Enabled(s, step)
  {
    match step
    case DoBegin(att, spare) =>
      if Subscribes(s.t, att) then s
      else
        var runner := match att.plugin
                      case None => Runner("", att.url, Sleeping)
                      case Some(plugin) => Runner(plugin, att.url, Streaming(false));
        s.(t := Begin(s.t, att, spare), runners := s.runners[spare := runner])
    case FixtureEnd(r, outcome) => Settled(s, r, outcome, Returned)
    case DeliverNil(r) => s
    case DeliverFirst(r, env) =>
      if Storable(env) then Goto(s, r, Persisting(env))
      else Settled(s, r, Reject(s.runners[r].plugin, s.runners[r].url, env), Streaming(true))
    case PersistEnd(r, error) =>
      Settled(s, r, AfterPersist(s.runners[r].phase.env, error), Streaming(true))
    case DeliverLater(r, env) => s
    case StreamEnd(r, error) =>
      if s.runners[r].phase.handled then Goto(s, r, Returned)
      else if error.Some? then
        Settled(s, r, StreamFailure(s.runners[r].plugin, error.value), Returned)
      else Settled(s, r, NoResult(s.runners[r].plugin, s.runners[r].url), Returned)
    case Wait(w, r) =>
      if Terminal(s.t.heap[r]) then s.(waiters := s.waiters[w := Got(r, s.t.heap[r])])
      else s.(waiters := s.waiters[w := Blocked(r)])
    case Wake(w) =>
      var r := s.waiters[w].r;
      s.(waiters := s.waiters[w := Got(r, s.t.heap[r])])
    case Abandon(w) => s.(waiters := s.waiters[w := GaveUp(s.waiters[w].r)])
  }

  // ---------------------------------------------------------------- the invariant

  /** A runner that has reported has a terminal record; one that has not has a pending one. */
  predicate Reported(phase: Phase) {
    phase == Streaming(true) || phase == Returned
  }

  ghost predicate Inv<R>(s: Sys<R>) {
    && Consistent(s.t)
    && s.runners.Keys == s.t.heap.Keys
    && (forall r :: r in s.runners ==>
          (Reported(s.runners[r].phase) <==> Terminal(s.t.heap[r]))
          && (s.runners[r].phase == Sleeping ==> s.t.heap[r].invocationKey == "")
          && (s.runners[r].phase.Persisting? ==> Storable(s.runners[r].phase.env)))
    && (forall w :: w in s.waiters ==> s.waiters[w].r in s.t.heap)
    && (forall w :: w in s.waiters && s.waiters[w].Got? ==>
          Terminal(s.waiters[w].snapshot) && s.waiters[w].snapshot == s.t.heap[s.waiters[w].r])
  }

  lemma SettledKeepsInv<R>(s: Sys<R>, r: R, tr: Transition, phase: Phase)
    requires Inv(s) && r in s.runners && !Reported(s.runners[r].phase) && Reported(phase)
    requires LegalTransition(s.t.heap[r], tr)
    ensures Inv(Settled(s, r, tr, phase))
  {
    TransitKeepsConsistent(s.t, r, tr);
    var u := Settled(s, r, tr, phase);
    assert Terminal(u.t.heap[r]);
    assert forall r' :: r' in s.t.heap && r' != r ==> u.t.heap[r'] == s.t.heap[r'];
  }

  lemma BeginKeepsInv<R>(s: Sys<R>, att: Attempt, spare: R)
    requires Inv(s) && Enabled(s, DoBegin(att, spare))
    ensures Inv(Next(s, DoBegin(att, spare)))
  {
    BeginKeepsConsistent(s.t, att, spare);
  }

  lemma PersistStartKeepsInv<R>(s: Sys<R>, r: R, env: Envelope)
    requires Inv(s) && At(s, r, Streaming(false)) && Storable(env)
    ensures Inv(Goto(s, r, Persisting(env)))
  {
  }

  lemma ReturnKeepsInv<R>(s: Sys<R>, r: R)
    requires Inv(s) && At(s, r, Streaming(true))
    ensures Inv(Goto(s, r, Returned))
  {
  }

  lemma WaiterKeepsInv<R>(s: Sys<R>, w: nat, waiter: Waiter<R>)
    requires Inv(s) && waiter.r in s.t.heap
    requires waiter.Got? ==> Terminal(waiter.snapshot) && waiter.snapshot == s.t.heap[waiter.r]
    ensures Inv(s.(waiters := s.waiters[w := waiter]))
  {
  }

  lemma NextKeepsInv<R>(s: Sys<R>, step: Step<R>)
    requires Inv(s) && Enabled(s, step)
    ensures Inv(Next(s, step))
  {
    match step
    case DoBegin(att, spare) => BeginKeepsInv(s, att, spare);
    case FixtureEnd(r, outcome) => SettledKeepsInv(s, r, outcome, Returned);
    case DeliverNil(r) =>
    case DeliverFirst(r, env) =>
      if Storable(env) {
        PersistStartKeepsInv(s, r, env);
      } else {
        SettledKeepsInv(s, r, Reject(s.runners[r].plugin, s.runners[r].url, env), Streaming(true));
      }
    case PersistEnd(r, error) =>
      SettledKeepsInv(s, r, AfterPersist(s.runners[r].phase.env, error), Streaming(true));
    case DeliverLater(r, env) =>
    case StreamEnd(r, error) =>
      if s.runners[r].phase.handled {
        ReturnKeepsInv(s, r);
      } else if error.Some? {
        SettledKeepsInv(s, r, StreamFailure(s.runners[r].plugin, error.value), Returned);
      } else {
        SettledKeepsInv(s, r, NoResult(s.runners[r].plugin, s.runners[r].url), Returned);
      }
    case Wait(w, r) =>
      WaiterKeepsInv(s, w, if Terminal(s.t.heap[r]) then Got(r, s.t.heap[r]) else Blocked(r));
    case Wake(w) => WaiterKeepsInv(s, w, Got(s.waiters[w].r, s.t.heap[s.waiters[w].r]));
    case Abandon(w) => WaiterKeepsInv(s, w, GaveUp(s.waiters[w].r));
  }

  /** `r` has a runner whose phase says whether it has reported. */
  predicate Tracked<R(==)>(s: Sys<R>, r: R) {
    r in s.t.heap && r in s.runners && (Reported(s.runners[r].phase) <==> Terminal(s.t.heap[r]))
  }

  /** Only a record's own goroutine writes it, at most once, and then it has reported. */
  lemma OnlyOwnRunnerWrites<R>(s: Sys<R>, step: Step<R>, r: R)
    requires Tracked(s, r) && Enabled(s, step)
    ensures r in Next(s, step).t.heap && r in Next(s, step).runners
    ensures Next(s, step).t.heap[r] != s.t.heap[r] ==>
              && (step.FixtureEnd? || step.DeliverFirst? || step.PersistEnd? || step.StreamEnd?)
              && step.r == r && !Terminal(s.t.heap[r]) && Reported(Next(s, step).runners[r].phase)
  {
  }

  // ---------------------------------------------------------------- whole runs

  /** A run from the empty tracker: `states[i+1]` follows `states[i]` by `steps[i]`. */
  ghost predicate Run<R>(states: seq<Sys<R>>, steps: seq<Step<R>>) {
    && |states| == |steps| + 1
    && states[0] == Init()
    && forall i :: 0 <= i < |steps| ==> Follows(states[i], steps[i], states[i + 1])
  }

  ghost predicate Follows<R>(s: Sys<R>, step: Step<R>, s': Sys<R>) {
    Enabled(s, step) && s' == Next(s, step)
  }

  lemma {:induction false} RunKeepsInv<R>(states: seq<Sys<R>>, steps: seq<Step<R>>, i: nat)
    requires Run(states, steps) && i < |states|
    ensures Inv(states[i])
  {
    if i == 0 {
    } else {
      RunKeepsInv(states, steps, i - 1);
      assert Follows(states[i - 1], steps[i - 1], states[i - 1 + 1]);
      NextKeepsInv(states[i - 1], steps[i - 1]);
    }
  }

  /** The transition channel is never closed twice, and when the runner returns it has been
      closed exactly once, the record is terminal, and its key leads somewhere else or nowhere. */
  lemma RunnerClosesExactlyOnce<R>(states: seq<Sys<R>>, steps: seq<Step<R>>, i: nat, r: R)
    requires Run(states, steps) && i < |states| && r in states[i].t.heap
    ensures states[i].t.heap[r].closes <= 1
    ensures r in states[i].runners
    ensures states[i].runners[r].phase == Returned ==>
              && states[i].t.heap[r].closes == 1
              && Terminal(states[i].t.heap[r])
              && (forall k :: k in states[i].t.byInvocationKey ==> states[i].t.byInvocationKey[k] != r)
  {
    RunKeepsInv(states, steps, i);
  }

  lemma StepFreezesTerminal<R>(states: seq<Sys<R>>, steps: seq<Step<R>>, i: nat, r: R)
    requires Run(states, steps) && i < |steps| && r in states[i].t.heap
    ensures r in states[i + 1].t.heap
    ensures Terminal(states[i].t.heap[r]) ==> states[i + 1].t.heap[r] == states[i].t.heap[r]
  {
    RunKeepsInv(states, steps, i);
    assert Follows(states[i], steps[i], states[i + 1]);
    OnlyOwnRunnerWrites(states[i], steps[i], r);
  }

  lemma {:induction false} TerminalForever<R>(states: seq<Sys<R>>, steps: seq<Step<R>>, i: nat, j: nat, r: R)
    requires Run(states, steps) && i <= j < |states| && r in states[i].t.heap
    ensures r in states[j].t.heap
    ensures Terminal(states[i].t.heap[r]) ==> states[j].t.heap[r] == states[i].t.heap[r]
  {
    if i < j {
      TerminalForever(states, steps, i, j - 1, r);
      StepFreezesTerminal(states, steps, j - 1, r);
    }
  }

  /** Waiter fidelity: a snapshot is never pending, two waiters on one record see the same
      outcome no matter when each of them looked, and that outcome is still the record's at
      every later point of the run, while later envelopes are being persisted. */
  lemma WaitersAgree<R>(states: seq<Sys<R>>, steps: seq<Step<R>>, i: nat, j: nat, v: nat, w: nat)
    requires Run(states, steps) && i <= j < |states|
    requires v in states[i].waiters && w in states[j].waiters
    requires states[i].waiters[v].Got? && states[j].waiters[w].Got?
    requires states[i].waiters[v].r == states[j].waiters[w].r
    ensures states[i].waiters[v].snapshot == states[j].waiters[w].snapshot
    ensures Terminal(states[i].waiters[v].snapshot)
    ensures states[j].waiters[w].r in states[j].t.heap
    ensures states[j].t.heap[states[j].waiters[w].r] == states[i].waiters[v].snapshot
  {
    RunKeepsInv(states, steps, i);
    RunKeepsInv(states, steps, j);
    TerminalForever(states, steps, i, j, states[i].waiters[v].r);
  }

  /** `r` is the only record of `t` still pending under `key`. */
  ghost predicate SolePending<R>(t: Tracker<R>, key: string, r: R) {
    forall r' :: r' in t.heap ==> (t.heap[r'].state == Pending && t.heap[r'].invocationKey == key ==> r' == r)
  }

  /** No caller of beginAttempt ever subscribes to a record that already finished, and the
      record it gets is the only pending one of its key, at any point of any run. */
  lemma DedupNeverJoinsFinishedRun<R>(states: seq<Sys<R>>, steps: seq<Step<R>>, i: nat, att: Attempt, spare: R)
    requires Run(states, steps) && i < |steps| && steps[i] == DoBegin(att, spare)
    ensures var r := BeginReturns(states[i].t, att, spare);
            && r in states[i + 1].t.heap
            && states[i + 1].t.heap[r].state == Pending
            && states[i + 1].t.heap[r].invocationKey == AttemptKey(att)
            && (AttemptKey(att) != "" ==> SolePending(states[i + 1].t, AttemptKey(att), r))
  {
    RunKeepsInv(states, steps, i);
    RunKeepsInv(states, steps, i + 1);
    assert Follows(states[i], steps[i], states[i + 1]);
    BeginReturnsPending(states[i].t, att, spare);
    var t, r := states[i + 1].t, BeginReturns(states[i].t, att, spare);
    if AttemptKey(att) != "" {
      forall r' | r' in t.heap
        ensures t.heap[r'].state == Pending && t.heap[r'].invocationKey == AttemptKey(att) ==> r' == r
      {
        if t.heap[r'].state == Pending && t.heap[r'].invocationKey == AttemptKey(att) {
          OnePendingRecordPerKey(t, r', r);
        }
      }
    }
  }

  /** No wakeup is lost: at any point of any run a blocked waiter can wake at once, or one more
      step of the runner it waits for is possible and makes it able to. */
  lemma BlockedWaiterHasHope<R>(states: seq<Sys<R>>, steps: seq<Step<R>>, i: nat, w: nat)
    requires Run(states, steps) && i < |states|
    requires w in states[i].waiters && states[i].waiters[w].Blocked?
    ensures Enabled(states[i], Wake(w))
            || exists step: Step<R> {:trigger Next(states[i], step)} ::
                 && Enabled(states[i], step)
                 && Enabled(Next(states[i], step), Wake(w))
  {
    RunKeepsInv(states, steps, i);
    var s := states[i];
    var r := s.waiters[w].r;
    if s.t.heap[r].closes == 0 {
      var step :=
        match s.runners[r].phase
        case Sleeping => FixtureEnd(r, Fail("internal_error", ""))
        case Persisting(_) => PersistEnd(r, None)
        case _ => StreamEnd(r, None);
      assert Enabled(s, step);
      assert Enabled(Next(s, step), Wake(w));
    }
  }
}
