/** All interleavings of locked writers: persistEnvelope runs and fill calls, on any entities.
    Each one acquires the entity's write lock or gives up, reads the file, computes the new file
    from what it read, writes it, releases, and only then publishes what it queued. */
module WriteProtocol {
  import opened Base
  import opened Vault

  type Tid = nat

  /** What a writer adds to the file's provenance; a fill call without a set op adds nothing. */
  datatype Job = Job(id: string, entry: Option<Provenance>)

  /** A vault file; `rest` is everything but the provenance list. */
  datatype File = File(provenance: seq<Provenance>, rest: nat)

  datatype Phase = Ready | Locked | HasRead(seen: Option<File>) | Wrote | Failed | Unlocked | Rejected

  /** `queue` is the PendingEvents list, `sent` how much of it Drain has published. */
  datatype Thread = Thread(phase: Phase, wrote: bool, queue: seq<nat>, sent: nat)

  /** A published event, its publisher, and who held the publisher's artifact at that moment. */
  datatype Publication = Publication(t: Tid, event: nat, holder: Option<Tid>)

  /** `order` records the successful lock acquisitions, of all artifacts, as they happened. */
  datatype Sys = Sys(
    threads: map<Tid, Thread>,
    locks: map<string, Tid>,
    files: map<string, File>,
    order: seq<Tid>,
    bus: seq<Publication>)

  datatype Step =
    | Acquire(t: Tid)
    | Read(t: Tid)
    | Queue(t: Tid, event: nat)
    | Write(t: Tid, rest: nat)
    | Fail(t: Tid)
    | Release(t: Tid)
    | Publish(t: Tid)

  function ProvenanceOf(files: map<string, File>, id: string): seq<Provenance> {
    if id in files then files[id].provenance else []
  }

  predicate Critical(p: Phase) {
    p.Locked? || p.HasRead? || p.Wrote? || p.Failed?
  }

  function Init(jobs: map<Tid, Job>, files: map<string, File>): Sys {
    Sys(map t | t in jobs :: Thread(Ready, false, [], 0), map[], files, [], [])
  }

  predicate Enabled(jobs: map<Tid, Job>, s: Sys, step: Step) {
    && step.t in jobs && step.t in s.threads
    && var th := s.threads[step.t];
    match step
    case Acquire(_) => th.phase.Ready?
    case Read(_) => th.phase.Locked?
    case Queue(_, _) => Critical(th.phase)
    case Write(_, _) => th.phase.HasRead?
    case Fail(_) => th.phase.Locked? || th.phase.HasRead?
    case Release(_) => th.phase.Wrote? || th.phase.Failed?
    case Publish(_) => th.phase.Unlocked? && th.sent < |th.queue|
  }

  function Goto(s: Sys, t: Tid, phase: Phase): Sys
    requires t in s.threads
  {
    s.(threads := s.threads[t := s.threads[t].(phase := phase)])
  }

  function Next(jobs: map<Tid, Job>, s: Sys, step: Step): Sys
    requires Enabled(jobs, s, step)
  {
    var t, id, th := step.t, jobs[step.t].id, s.threads[step.t];
    match step
    case Acquire(_) =>
      if id in s.locks then Goto(s, t, Rejected)
      else Goto(s.(locks := s.locks[id := t], order := s.order + [t]), t, Locked)
    case Read(_) => Goto(s, t, HasRead(Lookup(s.files, id)))
    case Queue(_, event) => s.(threads := s.threads[t := th.(queue := th.queue + [event])])
    case Write(_, rest) =>
      var before := if th.phase.seen.Some? then th.phase.seen.value.provenance else [];
      var added := if jobs[t].entry.Some? then [jobs[t].entry.value] else [];
      s.(files := s.files[id := File(before + added, rest)],
         threads := s.threads[t := th.(phase := Wrote, wrote := true)])
    case Fail(_) => Goto(s, t, Failed)
    case Release(_) => Goto(s.(locks := s.locks - {id}), t, Unlocked)
    case Publish(_) =>
      s.(bus := s.bus + [Publication(t, th.queue[th.sent], Lookup(s.locks, id))],
         threads := s.threads[t := th.(sent := th.sent + 1)])
  }

  // ---------------------------------------------------------------- invariants

  predicate HasLocked(p: Phase) {
    !p.Ready? && !p.Rejected?
  }

  /** The last writer in `ts` to have acquired `id`. */
  function LastOn(jobs: map<Tid, Job>, ts: seq<Tid>, id: string): Option<Tid> {
    if ts == [] then None
    else
      var t := ts[|ts| - 1];
      if t in jobs && jobs[t].id == id then Some(t) else LastOn(jobs, ts[..|ts| - 1], id)
  }

  /** The lock table names exactly the writers inside their critical section. */
  ghost predicate LockInv(jobs: map<Tid, Job>, s: Sys) {
    && s.threads.Keys == jobs.Keys
    && (forall id :: id in s.locks ==>
        s.locks[id] in jobs && jobs[s.locks[id]].id == id && Critical(s.threads[s.locks[id]].phase))
    && (forall t :: t in jobs && Critical(s.threads[t].phase) ==> jobs[t].id in s.locks && s.locks[jobs[t].id] == t)
  }

  /** No writer acquires twice, the ones that acquired are listed, a writer inside is the last to
      have acquired its artifact, and only a writer that got through its write has written. */
  ghost predicate OrderInv(jobs: map<Tid, Job>, s: Sys) {
    && s.threads.Keys == jobs.Keys
    && Distinct(s.order)
    && (forall t :: t in s.order <==> t in jobs && HasLocked(s.threads[t].phase))
    && (forall t :: t in jobs && Critical(s.threads[t].phase) ==> LastOn(jobs, s.order, jobs[t].id) == Some(t))
    && (forall t :: t in jobs ==> FlagFits(s.threads[t]))
  }

  /** What a writer read is still what is on disk. */
  ghost predicate ReadInv(jobs: map<Tid, Job>, s: Sys) {
    && s.threads.Keys == jobs.Keys
    && forall t :: t in jobs && s.threads[t].phase.HasRead? ==> s.threads[t].phase.seen == Lookup(s.files, jobs[t].id)
  }

  function Entry(jobs: map<Tid, Job>, t: Tid): seq<Provenance> {
    if t in jobs && jobs[t].entry.Some? then [jobs[t].entry.value] else []
  }

  /** The entries of the writers of `id` in `ts` whose write landed, in that order. */
  function Entries(jobs: map<Tid, Job>, s: Sys, ts: seq<Tid>, id: string): seq<Provenance> {
    if ts == [] then []
    else
      var t := ts[|ts| - 1];
      Entries(jobs, s, ts[..|ts| - 1], id) +
      if t in jobs && jobs[t].id == id && t in s.threads && s.threads[t].wrote then Entry(jobs, t) else []
  }

  ghost predicate ProvenanceInv(jobs: map<Tid, Job>, files0: map<string, File>, s: Sys) {
    forall id :: ProvenanceOf(s.files, id) == ProvenanceOf(files0, id) + Entries(jobs, s, s.order, id)
  }

  /** The events of one publisher, in the order they reached the bus. */
  function PublishedBy(bus: seq<Publication>, t: Tid): seq<nat> {
    if bus == [] then []
    else PublishedBy(bus[..|bus| - 1], t) + if bus[|bus| - 1].t == t then [bus[|bus| - 1].event] else []
  }

  ghost predicate BusInv(jobs: map<Tid, Job>, s: Sys) {
    && s.threads.Keys == jobs.Keys
    && (forall i :: 0 <= i < |s.bus| ==> s.bus[i].holder != Some(s.bus[i].t))
    && (forall t :: t in jobs ==> s.threads[t].sent <= |s.threads[t].queue|
                                  && PublishedBy(s.bus, t) == s.threads[t].queue[..s.threads[t].sent])
  }

  ghost predicate Inv(jobs: map<Tid, Job>, files0: map<string, File>, s: Sys) {
    LockInv(jobs, s) && OrderInv(jobs, s) && ReadInv(jobs, s) && ProvenanceInv(jobs, files0, s) && BusInv(jobs, s)
  }

  /** Only thread `t` moves, and it stays on the same side of its lock. */
  ghost predicate StaysPut(s: Sys, s': Sys, t: Tid) {
    && s'.locks == s.locks && s'.order == s.order
    && t in s.threads && s'.threads.Keys == s.threads.Keys
    && (forall u :: u in s.threads && u != t ==> s'.threads[u] == s.threads[u])
    && Critical(s'.threads[t].phase) == Critical(s.threads[t].phase)
    && HasLocked(s'.threads[t].phase) == HasLocked(s.threads[t].phase)
  }

  /** The flag of a thread that wrote goes with its phase. */
  predicate FlagFits(th: Thread) {
    th.wrote ==> th.phase.Wrote? || th.phase.Unlocked?
  }

  /** Every step that neither takes nor drops a lock. */
  lemma OtherStepStaysPut(jobs: map<Tid, Job>, s: Sys, step: Step)
    requires Enabled(jobs, s, step) && !step.Release? && (step.Acquire? ==> jobs[step.t].id in s.locks)
    requires FlagFits(s.threads[step.t])
    ensures StaysPut(s, Next(jobs, s, step), step.t) && FlagFits(Next(jobs, s, step).threads[step.t])
  {
  }

  lemma StaysPutKeepsLockInv(jobs: map<Tid, Job>, s: Sys, s': Sys, t: Tid)
    requires LockInv(jobs, s) && StaysPut(s, s', t)
    ensures LockInv(jobs, s')
  {
  }

  lemma StaysPutKeepsOrderInv(jobs: map<Tid, Job>, s: Sys, s': Sys, t: Tid)
    requires OrderInv(jobs, s) && StaysPut(s, s', t)
    requires FlagFits(s'.threads[t])
    ensures OrderInv(jobs, s')
  {
  }

  lemma AcquireKeepsLockInv(jobs: map<Tid, Job>, s: Sys, t: Tid)
    requires LockInv(jobs, s) && Enabled(jobs, s, Acquire(t)) && jobs[t].id !in s.locks
    ensures LockInv(jobs, Next(jobs, s, Acquire(t)))
  {
  }

  lemma ReleaseKeepsLockInv(jobs: map<Tid, Job>, s: Sys, t: Tid)
    requires LockInv(jobs, s) && Enabled(jobs, s, Release(t))
    ensures LockInv(jobs, Next(jobs, s, Release(t)))
  {
    assert s.locks[jobs[t].id] == t;
  }

  lemma ReleaseKeepsOrderInv(jobs: map<Tid, Job>, s: Sys, t: Tid)
    requires OrderInv(jobs, s) && Enabled(jobs, s, Release(t))
    ensures OrderInv(jobs, Next(jobs, s, Release(t)))
  {
  }

  lemma NextKeepsLockInv(jobs: map<Tid, Job>, s: Sys, step: Step)
    requires LockInv(jobs, s) && Enabled(jobs, s, step)
    ensures LockInv(jobs, Next(jobs, s, step))
  {
    if step.Acquire? && jobs[step.t].id !in s.locks {
      AcquireKeepsLockInv(jobs, s, step.t);
    } else if step.Release? {
      ReleaseKeepsLockInv(jobs, s, step.t);
    } else {
      StaysPutKeepsLockInv(jobs, s, Next(jobs, s, step), step.t);
    }
  }

  lemma AcquireKeepsOrderInv(jobs: map<Tid, Job>, s: Sys, t: Tid)
    requires LockInv(jobs, s) && OrderInv(jobs, s) && Enabled(jobs, s, Acquire(t)) && jobs[t].id !in s.locks
    ensures OrderInv(jobs, Next(jobs, s, Acquire(t)))
  {
    var s' := Next(jobs, s, Acquire(t));
    assert s'.order[..|s'.order| - 1] == s.order;
    assert t !in s.order;
    assert forall u :: u in s'.order <==> u in s.order || u == t;
    forall u | u in jobs && u != t && Critical(s'.threads[u].phase)
      ensures LastOn(jobs, s'.order, jobs[u].id) == Some(u)
    {
      assert s'.threads[u] == s.threads[u] && jobs[u].id != jobs[t].id;
    }
  }

  lemma NextKeepsOrderInv(jobs: map<Tid, Job>, s: Sys, step: Step)
    requires LockInv(jobs, s) && OrderInv(jobs, s) && Enabled(jobs, s, step)
    ensures OrderInv(jobs, Next(jobs, s, step))
  {
    if step.Acquire? && jobs[step.t].id !in s.locks {
      AcquireKeepsOrderInv(jobs, s, step.t);
    } else if step.Release? {
      ReleaseKeepsOrderInv(jobs, s, step.t);
    } else {
      OtherStepStaysPut(jobs, s, step);
      StaysPutKeepsOrderInv(jobs, s, Next(jobs, s, step), step.t);
    }
  }

  lemma NextKeepsReadInv(jobs: map<Tid, Job>, s: Sys, step: Step)
    requires LockInv(jobs, s) && ReadInv(jobs, s) && Enabled(jobs, s, step)
    ensures ReadInv(jobs, Next(jobs, s, step))
  {
    if step.Write? {
      var s' := Next(jobs, s, step);
      forall t | t in jobs && s'.threads[t].phase.HasRead?
        ensures s'.threads[t].phase.seen == Lookup(s'.files, jobs[t].id)
      {
        assert jobs[t].id != jobs[step.t].id;  // two writers cannot both be inside
      }
    }
  }

  /** Entries depends only on who has written. */
  lemma {:induction false} EntriesSame(jobs: map<Tid, Job>, s: Sys, s': Sys, ts: seq<Tid>, id: string)
    requires s'.threads.Keys == s.threads.Keys
    requires forall t :: t in ts && t in s.threads && t in jobs && jobs[t].id == id ==>
               s.threads[t].wrote == s'.threads[t].wrote
    ensures Entries(jobs, s, ts, id) == Entries(jobs, s', ts, id)
  {
    if ts == [] {
    } else {
      EntriesSame(jobs, s, s', ts[..|ts| - 1], id);
    }
  }

  /** A write extends the list by the writer's own entry, because the writer acquired last. */
  lemma {:induction false} WriteAppends(jobs: map<Tid, Job>, s: Sys, s': Sys, ts: seq<Tid>, t: Tid)
    requires t in jobs && t in s.threads && Distinct(ts) && LastOn(jobs, ts, jobs[t].id) == Some(t)
    requires s'.threads.Keys == s.threads.Keys
    requires forall u :: u in s.threads && u != t ==> s'.threads[u].wrote == s.threads[u].wrote
    requires !s.threads[t].wrote && s'.threads[t].wrote
    ensures Entries(jobs, s', ts, jobs[t].id) == Entries(jobs, s, ts, jobs[t].id) + Entry(jobs, t)
  {
    var init, last := ts[..|ts| - 1], ts[|ts| - 1];
    if last == t {
      assert t !in init;
      EntriesSame(jobs, s, s', init, jobs[t].id);
    } else {
      WriteAppends(jobs, s, s', init, t);
    }
  }

  lemma WriteKeepsProvenance(jobs: map<Tid, Job>, files0: map<string, File>, s: Sys, t: Tid, rest: nat)
    requires OrderInv(jobs, s) && ReadInv(jobs, s) && ProvenanceInv(jobs, files0, s) && Enabled(jobs, s, Write(t, rest))
    ensures ProvenanceInv(jobs, files0, Next(jobs, s, Write(t, rest)))
  {
    var s' := Next(jobs, s, Write(t, rest));
    assert s.threads[t].phase.seen == Lookup(s.files, jobs[t].id);
    forall id ensures ProvenanceOf(s'.files, id) == ProvenanceOf(files0, id) + Entries(jobs, s', s'.order, id) {
      if id == jobs[t].id {
        WriteAppends(jobs, s, s', s.order, t);
      } else {
        EntriesSame(jobs, s, s', s.order, id);
      }
    }
  }

  /** A step that writes no file, and lets at most one writer that has not written acquire. */
  lemma QuietKeepsProvenance(jobs: map<Tid, Job>, files0: map<string, File>, s: Sys, s': Sys, acquired: seq<Tid>)
    requires ProvenanceInv(jobs, files0, s) && s'.files == s.files && s'.threads.Keys == s.threads.Keys
    requires forall t :: t in s.threads ==> s'.threads[t].wrote == s.threads[t].wrote
    requires |acquired| <= 1 && s'.order == s.order + acquired
    requires forall t :: t in acquired && t in s.threads ==> !s.threads[t].wrote
    ensures ProvenanceInv(jobs, files0, s')
  {
    forall id ensures Entries(jobs, s', s'.order, id) == Entries(jobs, s, s.order, id) {
      EntriesSame(jobs, s, s', s.order, id);
      if acquired != [] {
        assert s'.order[..|s'.order| - 1] == s.order;
        assert s'.order[|s'.order| - 1] in acquired;
      } else {
        assert s'.order == s.order;
      }
    }
  }

  lemma NextKeepsProvenanceInv(jobs: map<Tid, Job>, files0: map<string, File>, s: Sys, step: Step)
    requires OrderInv(jobs, s) && ReadInv(jobs, s) && ProvenanceInv(jobs, files0, s) && Enabled(jobs, s, step)
    ensures ProvenanceInv(jobs, files0, Next(jobs, s, step))
  {
    if step.Write? {
      WriteKeepsProvenance(jobs, files0, s, step.t, step.rest);
    } else {
      QuietKeepsProvenance(jobs, files0, s, Next(jobs, s, step),
                           if step.Acquire? && jobs[step.t].id !in s.locks then [step.t] else []);
    }
  }

  lemma PublishKeepsBusInv(jobs: map<Tid, Job>, s: Sys, t: Tid)
    requires LockInv(jobs, s) && BusInv(jobs, s) && Enabled(jobs, s, Publish(t))
    ensures BusInv(jobs, Next(jobs, s, Publish(t)))
  {
    var s', th := Next(jobs, s, Publish(t)), s.threads[t];
    assert Lookup(s.locks, jobs[t].id) != Some(t);
    assert s'.bus[..|s'.bus| - 1] == s.bus;
    assert th.queue[..th.sent + 1] == th.queue[..th.sent] + [th.queue[th.sent]];
  }

  lemma QueueKeepsBusInv(jobs: map<Tid, Job>, s: Sys, t: Tid, event: nat)
    requires BusInv(jobs, s) && Enabled(jobs, s, Queue(t, event))
    ensures BusInv(jobs, Next(jobs, s, Queue(t, event)))
  {
    var th := s.threads[t];
    assert (th.queue + [event])[..th.sent] == th.queue[..th.sent];
  }

  lemma OtherStepSameQueues(jobs: map<Tid, Job>, s: Sys, step: Step)
    requires s.threads.Keys == jobs.Keys && Enabled(jobs, s, step) && !step.Publish? && !step.Queue?
    ensures var s' := Next(jobs, s, step);
            s'.bus == s.bus && s'.threads.Keys == s.threads.Keys
            && forall t :: t in jobs ==>
                s'.threads[t].queue == s.threads[t].queue && s'.threads[t].sent == s.threads[t].sent
  {
  }

  lemma SameQueuesKeepBusInv(jobs: map<Tid, Job>, s: Sys, s': Sys)
    requires BusInv(jobs, s) && s'.bus == s.bus && s'.threads.Keys == s.threads.Keys
    requires forall t :: t in jobs ==>
               s'.threads[t].queue == s.threads[t].queue && s'.threads[t].sent == s.threads[t].sent
    ensures BusInv(jobs, s')
  {
  }

  lemma NextKeepsBusInv(jobs: map<Tid, Job>, s: Sys, step: Step)
    requires LockInv(jobs, s) && BusInv(jobs, s) && Enabled(jobs, s, step)
    ensures BusInv(jobs, Next(jobs, s, step))
  {
    if step.Publish? {
      PublishKeepsBusInv(jobs, s, step.t);
    } else if step.Queue? {
      QueueKeepsBusInv(jobs, s, step.t, step.event);
    } else {
      OtherStepSameQueues(jobs, s, step);
      SameQueuesKeepBusInv(jobs, s, Next(jobs, s, step));
    }
  }

  lemma NextKeepsInv(jobs: map<Tid, Job>, files0: map<string, File>, s: Sys, step: Step)
    requires Inv(jobs, files0, s) && Enabled(jobs, s, step)
    ensures Inv(jobs, files0, Next(jobs, s, step))
  {
    NextKeepsLockInv(jobs, s, step);
    NextKeepsOrderInv(jobs, s, step);
    NextKeepsReadInv(jobs, s, step);
    NextKeepsProvenanceInv(jobs, files0, s, step);
    NextKeepsBusInv(jobs, s, step);
  }

  // ---------------------------------------------------------------- whole runs

  /** The states some interleaving can reach. */
  ghost predicate Run(jobs: map<Tid, Job>, files0: map<string, File>, states: seq<Sys>, steps: seq<Step>) {
    && |states| == |steps| + 1
    && states[0] == Init(jobs, files0)
    && forall i :: 0 <= i < |steps| ==> Follows(jobs, states[i], steps[i], states[i + 1])
  }

  ghost predicate Follows(jobs: map<Tid, Job>, s: Sys, step: Step, s': Sys) {
    Enabled(jobs, s, step) && s' == Next(jobs, s, step)
  }

  lemma {:induction false} RunKeepsInv(jobs: map<Tid, Job>, files0: map<string, File>, states: seq<Sys>,
                                       steps: seq<Step>, i: nat)
    requires Run(jobs, files0, states, steps) && i < |states|
    ensures Inv(jobs, files0, states[i])
  {
    if i == 0 {
    } else {
      RunKeepsInv(jobs, files0, states, steps, i - 1);
      assert Follows(jobs, states[i - 1], steps[i - 1], states[i - 1 + 1]);
      NextKeepsInv(jobs, files0, states[i - 1], steps[i - 1]);
    }
  }

  /** No lost updates. At every moment of every interleaving an entity's provenance is what it
      was at the start followed by one entry for each of its writers whose write landed, in the
      order they took the lock; every such writer is counted, and none twice. */
  lemma NoLostUpdates(jobs: map<Tid, Job>, files0: map<string, File>, states: seq<Sys>, steps: seq<Step>, i: nat,
                      id: string)
    requires Run(jobs, files0, states, steps) && i < |states|
    ensures ProvenanceOf(states[i].files, id) ==
            ProvenanceOf(files0, id) + Entries(jobs, states[i], states[i].order, id)
    ensures Distinct(states[i].order)
    ensures forall t :: t in jobs && t in states[i].threads && states[i].threads[t].wrote ==> t in states[i].order
  {
    RunKeepsInv(jobs, files0, states, steps, i);
  }

  /** Nothing is published while its publisher still holds the lock, and each publisher's events
      reach the bus in the order it queued them, none skipped. */
  lemma PublishedAfterRelease(jobs: map<Tid, Job>, files0: map<string, File>, states: seq<Sys>, steps: seq<Step>,
                              i: nat)
    requires Run(jobs, files0, states, steps) && i < |states|
    ensures forall p :: p in states[i].bus ==> p.holder != Some(p.t)
    ensures forall t :: t in jobs ==>
              t in states[i].threads && PublishedBy(states[i].bus, t) <= states[i].threads[t].queue
  {
    RunKeepsInv(jobs, files0, states, steps, i);
  }
}
