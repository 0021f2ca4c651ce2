/**
 Concurrent `discover` calls over the shared state map and the reducer: each action is what one
 call does between two awaits.
 */
module Subscriptions {
  import opened Protocol
  import R = Reducer

  datatype Source = FromThreadStarted | FromActivation | FromReconciliation

  datatype SubscriptionState =
    | Subscribing(source: Source, attempt: nat)
    | Subscribed
    | RetryWait(attempt: nat)
    | Ephemeral
    | CapacityDegraded
    | Released
    | FailedState

  predicate Retained(st: SubscriptionState) {
    st.Subscribed? || st.Subscribing? || st.RetryWait?
  }

  function RetainedThreads(states: map<ThreadId, SubscriptionState>): set<ThreadId> {
    set t | t in states && Retained(states[t])
  }

  datatype DiscoveryOutcome = NowSubscribed | AlreadyManaged | EphemeralThread | OverCapacity | DiscoveryFailed

  /** The answer to one `thread/resume`. */
  datatype ResumeReply =
    | Resumed
    | ResumeNotWritten
    | ResumeRejected(ephemeral: bool, overloaded: bool)
    | ResumeError

  /** The replies after which `discover` tries again while it has attempts left. */
  predicate Retryable(reply: ResumeReply) {
    reply.ResumeNotWritten? || (reply.ResumeRejected? && (reply.ephemeral || reply.overloaded))
  }

  /** How the resume loop ends on a reply it does not retry. */
  function GiveUp(reply: ResumeReply): (SubscriptionState, DiscoveryOutcome) {
    if reply.ResumeRejected? && reply.ephemeral then (Ephemeral, EphemeralThread)
    else (FailedState, DiscoveryFailed)
  }

  // ----- The system -----

  datatype Phase =
    | Claimed                                  // state recorded, `begin_subscription` next
    | Resuming(attempt: nat)                   // `thread/resume` in flight
    | Waiting(attempt: nat)                    // RetryWait recorded, sleeping
    | GivenUp(outcome: DiscoveryOutcome)       // final state recorded, `cancel_subscription` next
    | Won                                      // resumed, `finish_subscription` next
    | Promoted                                 // reducer promoted, Subscribed to be recorded next
    | Reading                                  // `thread/read` in flight
    | Done(outcome: DiscoveryOutcome)

  /** One `discover` call; `resumes` counts the `thread/resume` requests it has sent. */
  datatype Task = Task(thread: ThreadId, source: Source, phase: Phase, resumes: nat)

  datatype Config = Config(cap: nat, resumeLimit: nat, release: bool)

  /** Where a `release_if_idle` call stands. */
  datatype ReleasePhase =
    | Unsubscribing                            // `thread/unsubscribe` in flight
    | Agreed                                   // the daemon agreed, Released to be recorded next
    | Recorded                                 // `set_subscribed(false)` next
    | Finished(released: bool)

  datatype Release = Release(thread: ThreadId, phase: ReleasePhase)

  datatype System = System(
    states: map<ThreadId, SubscriptionState>, view: R.State, tasks: map<nat, Task>, releases: map<nat, Release>)

  datatype Action =
    | Discover(id: nat, t: ThreadId, source: Source)
    | Protect(id: nat)
    | Answered(id: nat, reply: ResumeReply)
    | Retry(id: nat)
    | Unprotect(id: nat)
    | Promote(id: nat)
    | Record(id: nat)
    | ReadBack(id: nat, read: Option<RawThread>)
    | Touch(op: R.Op)                          // ingress, eviction and reconciliation
    | CheckIdle(id: nat, t: ThreadId)          // release_if_idle: the switches and the snapshot
    | Unsubscribe(id: nat, ok: bool)           // release_if_idle: the daemon's answer
    | RecordRelease(id: nat)                   // release_if_idle: the state map
    | Drop(id: nat)                            // release_if_idle: the reducer

  /** The reducer operations other tasks may run at any time. */
  predicate Foreign(op: R.Op) {
    op.ApplyOp? || op.Evict? || op.Reconcile?
  }

  function Put(s: System, id: nat, task: Task): System {
    s.(tasks := s.tasks[id := task])
  }

  function PutRelease(s: System, id: nat, release: Release): System {
    s.(releases := s.releases[id := release])
  }

  /** An entry that is not idle refuses; a thread without an entry does not. */
  predicate MayRelease(view: R.State, t: ThreadId) {
    t in view.threads ==> view.threads[t].status == "idle"
  }

  predicate OfRelease(a: Action) {
    a.Unsubscribe? || a.RecordRelease? || a.Drop?
  }

  function ReleaseStep(s: System, a: Action, release: Release): System
    requires OfRelease(a)
  {
    match a
    case Unsubscribe(id, ok) =>
      if release.phase.Unsubscribing? then
        PutRelease(s, id, release.(phase := if ok then Agreed else Finished(false)))
      else s
    case RecordRelease(id) =>
      if release.phase.Agreed? then
        PutRelease(s, id, release.(phase := Recorded)).(states := s.states[release.thread := Released])
      else s
    case Drop(id) =>
      if release.phase.Recorded? then
        PutRelease(s, id, release.(phase := Finished(true))).(view := R.Step(s.view, R.Subscribe(release.thread, false)))
      else s
  }

  predicate OfTask(a: Action) {
    a.Protect? || a.Answered? || a.Retry? || a.Unprotect? || a.Promote? || a.Record? || a.ReadBack?
  }

  function TaskStep(config: Config, s: System, a: Action, task: Task): System
    requires OfTask(a)
  {
    var t := task.thread;
    match a
    case Protect(id) =>
      if task.phase.Claimed? then
        Put(s, id, task.(phase := Resuming(1), resumes := 1)).(view := R.Step(s.view, R.Begin(t)))
      else s
    case Answered(id, reply) =>
      if !task.phase.Resuming? then s
      else if reply.Resumed? then Put(s, id, task.(phase := Won))
      else if Retryable(reply) && task.phase.attempt < config.resumeLimit then
        Put(s, id, task.(phase := Waiting(task.phase.attempt + 1)))
          .(states := s.states[t := RetryWait(task.phase.attempt + 1)])
      else
        Put(s, id, task.(phase := GivenUp(GiveUp(reply).1))).(states := s.states[t := GiveUp(reply).0])
    case Retry(id) =>
      if task.phase.Waiting? then
        Put(s, id, task.(phase := Resuming(task.phase.attempt), resumes := task.resumes + 1))
          .(states := s.states[t := Subscribing(task.source, task.phase.attempt)])
      else s
    case Unprotect(id) =>
      if task.phase.GivenUp? then
        Put(s, id, task.(phase := Done(task.phase.outcome))).(view := R.Step(s.view, R.Cancel(t)))
      else s
    case Promote(id) =>
      if task.phase.Won? then Put(s, id, task.(phase := Promoted)).(view := R.Step(s.view, R.Finish(t))) else s
    case Record(id) =>
      if task.phase.Promoted? then Put(s, id, task.(phase := Reading)).(states := s.states[t := Subscribed]) else s
    case ReadBack(id, read) =>
      if !task.phase.Reading? then s
      else
        Put(s, id, task.(phase := Done(NowSubscribed)))
          .(view := if read.Some? then R.Step(s.view, R.Reconcile(read.value)) else s.view)
  }

  /** One atomic action; one that is not enabled leaves the system as it is. */
  function Step(config: Config, s: System, a: Action): System {
    match a
    case Discover(id, t, source) =>
      if id in s.tasks then s
      else if t in s.states && Retained(s.states[t]) then Put(s, id, Task(t, source, Done(AlreadyManaged), 0))
      else if |RetainedThreads(s.states)| >= config.cap then
        Put(s, id, Task(t, source, Done(OverCapacity), 0)).(states := s.states[t := CapacityDegraded])
      else
        Put(s, id, Task(t, source, Claimed, 0)).(states := s.states[t := Subscribing(source, 1)])
    case Touch(op) => if Foreign(op) then s.(view := R.Step(s.view, op)) else s
    case CheckIdle(id, t) =>
      if id in s.releases then s
      else
        PutRelease(s, id, Release(t, if config.release && MayRelease(s.view, t) then Unsubscribing else Finished(false)))
    case Unsubscribe(_, _) => if a.id in s.releases then ReleaseStep(s, a, s.releases[a.id]) else s
    case RecordRelease(_) => if a.id in s.releases then ReleaseStep(s, a, s.releases[a.id]) else s
    case Drop(_) => if a.id in s.releases then ReleaseStep(s, a, s.releases[a.id]) else s
    case _ => if a.id in s.tasks then TaskStep(config, s, a, s.tasks[a.id]) else s
  }

  function Run(config: Config, s: System, actions: seq<Action>): System
    decreases |actions|
  {
    if actions == [] then s else Run(config, Step(config, s, actions[0]), actions[1..])
  }

  const INITIAL := System(map[], R.INITIAL, map[], map[])

  // ----- Invariant -----

  /** Between claiming the thread and recording the subscription, the call owns the thread's state. */
  predicate InLoop(phase: Phase) {
    phase.Claimed? || phase.Resuming? || phase.Waiting? || phase.Won? || phase.Promoted?
  }

  ghost predicate Budget(config: Config, task: Task) {
    && task.resumes <= Max(1, config.resumeLimit)
    && (task.phase.Claimed? ==> task.resumes == 0)
    && (task.phase.Resuming? ==> task.resumes == task.phase.attempt <= Max(1, config.resumeLimit))
    && (task.phase.Waiting? ==> task.resumes + 1 == task.phase.attempt <= Max(1, config.resumeLimit))
  }

  /** While a call is in its loop, the state map says so and nothing else about the thread. */
  predicate Owns(s: System, task: Task) {
    InLoop(task.phase) ==>
      task.thread in s.states && Retained(s.states[task.thread]) && !s.states[task.thread].Subscribed?
  }

  ghost predicate SingleFlight(s: System) {
    forall i, j | i in s.tasks && j in s.tasks && InLoop(s.tasks[i].phase) && InLoop(s.tasks[j].phase) ::
      s.tasks[i].thread == s.tasks[j].thread ==> i == j
  }

  /** One call per thread is in its loop, and all but the `clobbered` ones own their thread's state. */
  ghost predicate Held(s: System, clobbered: set<nat>) {
    SingleFlight(s) && forall id :: id in s.tasks && id !in clobbered ==> Owns(s, s.tasks[id])
  }

  /** The state map and the reducer: what is recorded as subscribed, or about to be, is subscribed. */
  ghost predicate Agree(s: System) {
    && (forall t :: t in s.states && s.states[t].Subscribed? ==> R.EntryOf(s.view, t).subscribed)
    && (forall id :: id in s.tasks && s.tasks[id].phase.Promoted? ==> R.EntryOf(s.view, s.tasks[id].thread).subscribed)
  }

  /** No reducer operation but an explicit release takes a subscription away. */
  lemma SubscriptionKept(view: R.State, op: R.Op, t: ThreadId)
    requires R.EntryOf(view, t).subscribed && !(op.Subscribe? && !op.subscribed)
    ensures R.EntryOf(R.Step(view, op), t).subscribed
  {
  }

  lemma RetainedUpdate(states: map<ThreadId, SubscriptionState>, t: ThreadId, st: SubscriptionState)
    ensures RetainedThreads(states[t := st]) ==
            if Retained(st) then RetainedThreads(states) + {t} else RetainedThreads(states) - {t}
  {
  }

  lemma SubsetSize<X>(a: set<X>, b: set<X>)
    requires a <= b
    ensures |a| <= |b|
  {
    assert b == a + (b - a);
  }

  lemma RetainedBound(states: map<ThreadId, SubscriptionState>, t: ThreadId, st: SubscriptionState, cap: nat)
    requires |RetainedThreads(states)| <= cap
    requires Retained(st) ==> t in RetainedThreads(states) || |RetainedThreads(states)| < cap
    ensures |RetainedThreads(states[t := st])| <= cap
  {
    RetainedUpdate(states, t, st);
    if Retained(st) && t in RetainedThreads(states) {
      assert RetainedThreads(states) + {t} == RetainedThreads(states);
    } else if !Retained(st) {
      assert RetainedThreads(states) - {t} <= RetainedThreads(states);
      SubsetSize(RetainedThreads(states) - {t}, RetainedThreads(states));
    }
  }

  /** A release gets past its check exactly if releases are on and the thread is idle or unknown. */
  lemma CheckPassesIff(config: Config, s: System, id: nat, t: ThreadId)
    requires id !in s.releases
    ensures Step(config, s, CheckIdle(id, t)).releases[id].phase.Unsubscribing? <==>
            config.release && (t !in s.view.threads || s.view.threads[t].status == "idle")
  {
  }

  // ----- What releases can break -----

  /** The calls in their loop over whose thread's state the step records a release. */
  function Clobbered(s: System, a: Action): set<nat> {
    if a.RecordRelease? && a.id in s.releases && s.releases[a.id].phase.Agreed? then
      set i | i in s.tasks && InLoop(s.tasks[i].phase) && s.tasks[i].thread == s.releases[a.id].thread
    else {}
  }

  /** A `discover` finds room for a thread while a clobbered call of the thread is still in its loop. */
  ghost predicate Reclaims(config: Config, s: System, clobbered: set<nat>, a: Action) {
    && a.Discover? && a.id !in s.tasks
    && a.t !in RetainedThreads(s.states) && |RetainedThreads(s.states)| < config.cap
    && exists i :: i in clobbered && i in s.tasks && InLoop(s.tasks[i].phase) && s.tasks[i].thread == a.t
  }

  /** With the map full, a call in its loop records its thread as held although it is not held any more. */
  predicate Overfills(config: Config, s: System, a: Action) {
    && |RetainedThreads(s.states)| == config.cap
    && (a.Answered? || a.Retry? || a.Record?) && a.id in s.tasks
    && s.tasks[a.id].thread !in RetainedThreads(s.states)
    && var phase := s.tasks[a.id].phase;
    match a
    case Answered(_, reply) => phase.Resuming? && Retryable(reply) && phase.attempt < config.resumeLimit
    case Retry(_) => phase.Waiting?
    case Record(_) => phase.Promoted?
  }

  /** The step drops the subscription of a thread that is recorded as subscribed, or about to be. */
  ghost predicate Undercuts(s: System, a: Action) {
    && a.Drop? && a.id in s.releases && s.releases[a.id].phase.Recorded?
    && var t := s.releases[a.id].thread;
    || (t in s.states && s.states[t].Subscribed?)
    || (exists i :: i in s.tasks && s.tasks[i].phase.Promoted? && s.tasks[i].thread == t)
  }

  ghost predicate EverClobbers(config: Config, s: System, actions: seq<Action>)
    decreases |actions|
  {
    actions != [] && (Clobbered(s, actions[0]) != {} || EverClobbers(config, Step(config, s, actions[0]), actions[1..]))
  }

  ghost predicate EverReclaims(config: Config, s: System, clobbered: set<nat>, actions: seq<Action>)
    decreases |actions|
  {
    actions != []
    && (Reclaims(config, s, clobbered, actions[0])
        || EverReclaims(config, Step(config, s, actions[0]), clobbered + Clobbered(s, actions[0]), actions[1..]))
  }

  ghost predicate EverOverfills(config: Config, s: System, actions: seq<Action>)
    decreases |actions|
  {
    actions != [] && (Overfills(config, s, actions[0]) || EverOverfills(config, Step(config, s, actions[0]), actions[1..]))
  }

  ghost predicate EverUndercuts(config: Config, s: System, actions: seq<Action>)
    decreases |actions|
  {
    actions != [] && (Undercuts(s, actions[0]) || EverUndercuts(config, Step(config, s, actions[0]), actions[1..]))
  }

  /** At some point of the run two calls on one thread are in their loops. */
  ghost predicate EverDoubled(config: Config, s: System, actions: seq<Action>)
    decreases |actions|
  {
    !SingleFlight(s) || (actions != [] && EverDoubled(config, Step(config, s, actions[0]), actions[1..]))
  }

  /** At some point of the run more threads are held than the cap allows. */
  ghost predicate EverOverCap(config: Config, s: System, actions: seq<Action>)
    decreases |actions|
  {
    |RetainedThreads(s.states)| > config.cap
    || (actions != [] && EverOverCap(config, Step(config, s, actions[0]), actions[1..]))
  }

  /** At some point of the run the state map and the reducer disagree. */
  ghost predicate EverDisagrees(config: Config, s: System, actions: seq<Action>)
    decreases |actions|
  {
    !Agree(s) || (actions != [] && EverDisagrees(config, Step(config, s, actions[0]), actions[1..]))
  }

  /** With idle release off no release gets past its check. */
  ghost predicate NoneReleasing(s: System) {
    forall id :: id in s.releases ==> s.releases[id].phase.Finished?
  }

  lemma NoneReleasingStep(config: Config, s: System, a: Action)
    requires !config.release && NoneReleasing(s)
    ensures NoneReleasing(Step(config, s, a))
  {
    if !a.CheckIdle? {
      assert Step(config, s, a).releases == s.releases;
    }
  }

  lemma {:induction false} ReleaseOffIsClean(config: Config, s: System, actions: seq<Action>)
    requires !config.release && NoneReleasing(s)
    ensures !EverClobbers(config, s, actions) && !EverUndercuts(config, s, actions)
    decreases |actions|
  {
    if actions != [] {
      NoneReleasingStep(config, s, actions[0]);
      ReleaseOffIsClean(config, Step(config, s, actions[0]), actions[1..]);
    }
  }

  // ----- The budget of a call -----

  ghost predicate Budgeted(config: Config, s: System) {
    forall id :: id in s.tasks ==> Budget(config, s.tasks[id])
  }

  lemma TaskStepBudgeted(config: Config, s: System, a: Action)
    requires Budgeted(config, s) && OfTask(a) && a.id in s.tasks
    ensures Budgeted(config, TaskStep(config, s, a, s.tasks[a.id]))
  {
    assert Budget(config, s.tasks[a.id]);
  }

  lemma {:induction false} RunBudgeted(config: Config, s: System, actions: seq<Action>)
    requires Budgeted(config, s)
    ensures Budgeted(config, Run(config, s, actions))
    decreases |actions|
  {
    if actions != [] {
      if OfTask(actions[0]) && actions[0].id in s.tasks {
        TaskStepBudgeted(config, s, actions[0]);
      }
      RunBudgeted(config, Step(config, s, actions[0]), actions[1..]);
    }
  }

  /** Whatever is released, each call sends at most `max(1, limit)` resumes. */
  lemma ResumesBounded(config: Config, actions: seq<Action>)
    ensures var s := Run(config, INITIAL, actions);
            forall i :: i in s.tasks ==> s.tasks[i].resumes <= Max(1, config.resumeLimit)
  {
    RunBudgeted(config, INITIAL, actions);
    var s := Run(config, INITIAL, actions);
    forall i | i in s.tasks
      ensures s.tasks[i].resumes <= Max(1, config.resumeLimit)
    {
      assert Budget(config, s.tasks[i]);
    }
  }

  // ----- Single flight -----

  /** The owner of a thread moves on and rewrites the thread's state. */
  lemma OwnerKeeps(s: System, clobbered: set<nat>, id: nat, task: Task, st: SubscriptionState)
    requires Held(s, clobbered) && id in s.tasks && InLoop(s.tasks[id].phase)
    requires task.thread == s.tasks[id].thread
    requires InLoop(task.phase) ==> Retained(st) && !st.Subscribed?
    ensures Held(Put(s, id, task).(states := s.states[task.thread := st]), clobbered)
  {
    var s' := Put(s, id, task).(states := s.states[task.thread := st]);
    forall j | j in s'.tasks && j !in clobbered
      ensures Owns(s', s'.tasks[j])
    {
      assert j != id ==> Owns(s, s.tasks[j]);
    }
  }

  /** A call moves on and leaves the state map alone. */
  lemma PhaseKeeps(s: System, clobbered: set<nat>, id: nat, task: Task, view: R.State)
    requires Held(s, clobbered) && id in s.tasks && task.thread == s.tasks[id].thread
    requires InLoop(task.phase) ==> InLoop(s.tasks[id].phase)
    ensures Held(Put(s, id, task).(view := view), clobbered)
  {
    var s' := Put(s, id, task).(view := view);
    forall j | j in s'.tasks && j !in clobbered
      ensures Owns(s', s'.tasks[j])
    {
      assert Owns(s, s.tasks[j]);
    }
  }

  lemma DiscoverKeeps(config: Config, s: System, clobbered: set<nat>, id: nat, t: ThreadId, source: Source)
    requires Held(s, clobbered) && id !in s.tasks && !Reclaims(config, s, clobbered, Discover(id, t, source))
    ensures Held(Step(config, s, Discover(id, t, source)), clobbered)
  {
    var s' := Step(config, s, Discover(id, t, source));
    forall j | j in s.tasks && j !in clobbered
      ensures Owns(s', s.tasks[j])
    {
      assert Owns(s, s.tasks[j]);
    }
    if InLoop(s'.tasks[id].phase) {
      forall j | j in s.tasks && InLoop(s.tasks[j].phase)
        ensures s.tasks[j].thread != t
      {
        assert j !in clobbered ==> Owns(s, s.tasks[j]);
      }
    }
  }

  lemma TaskStepKeeps(config: Config, s: System, clobbered: set<nat>, a: Action)
    requires Held(s, clobbered) && OfTask(a) && a.id in s.tasks
    ensures Held(Step(config, s, a), clobbered)
  {
    var task := s.tasks[a.id];
    var t := task.thread;
    match a
    case Protect(id) =>
      if task.phase.Claimed? {
        PhaseKeeps(s, clobbered, id, task.(phase := Resuming(1), resumes := 1), R.Step(s.view, R.Begin(t)));
      }
    case Answered(id, reply) =>
      if task.phase.Resuming? {
        if reply.Resumed? {
          PhaseKeeps(s, clobbered, id, task.(phase := Won), s.view);
        } else if Retryable(reply) && task.phase.attempt < config.resumeLimit {
          OwnerKeeps(s, clobbered, id, task.(phase := Waiting(task.phase.attempt + 1)),
                     RetryWait(task.phase.attempt + 1));
        } else {
          OwnerKeeps(s, clobbered, id, task.(phase := GivenUp(GiveUp(reply).1)), GiveUp(reply).0);
        }
      }
    case Retry(id) =>
      if task.phase.Waiting? {
        OwnerKeeps(s, clobbered, id, task.(phase := Resuming(task.phase.attempt), resumes := task.resumes + 1),
                   Subscribing(task.source, task.phase.attempt));
      }
    case Unprotect(id) =>
      if task.phase.GivenUp? {
        PhaseKeeps(s, clobbered, id, task.(phase := Done(task.phase.outcome)), R.Step(s.view, R.Cancel(t)));
      }
    case Promote(id) =>
      if task.phase.Won? {
        PhaseKeeps(s, clobbered, id, task.(phase := Promoted), R.Step(s.view, R.Finish(t)));
      }
    case Record(id) =>
      if task.phase.Promoted? {
        OwnerKeeps(s, clobbered, id, task.(phase := Reading), Subscribed);
      }
    case ReadBack(id, read) =>
      if task.phase.Reading? {
        PhaseKeeps(s, clobbered, id, task.(phase := Done(NowSubscribed)), Step(config, s, a).view);
      }
  }

  /** Every step but a reclaiming `discover` keeps single flight, and clobbers whom it clobbers. */
  lemma StepHeld(config: Config, s: System, clobbered: set<nat>, a: Action)
    requires Held(s, clobbered) && !Reclaims(config, s, clobbered, a)
    ensures Held(Step(config, s, a), clobbered + Clobbered(s, a))
  {
    if a.Discover? {
      if a.id !in s.tasks {
        DiscoverKeeps(config, s, clobbered, a.id, a.t, a.source);
      }
    } else if OfTask(a) {
      if a.id in s.tasks {
        TaskStepKeeps(config, s, clobbered, a);
      }
    } else {
      var s' := Step(config, s, a);
      forall j | j in s'.tasks && j !in clobbered + Clobbered(s, a)
        ensures Owns(s', s'.tasks[j])
      {
        assert Owns(s, s.tasks[j]);
      }
    }
  }

  lemma ReclaimDoubles(config: Config, s: System, clobbered: set<nat>, a: Action)
    requires Reclaims(config, s, clobbered, a)
    ensures !SingleFlight(Step(config, s, a))
  {
    var s' := Step(config, s, a);
    var i :| i in clobbered && i in s.tasks && InLoop(s.tasks[i].phase) && s.tasks[i].thread == a.t;
    assert InLoop(s'.tasks[a.id].phase) && s'.tasks[i] == s.tasks[i] && i != a.id;
  }

  lemma {:induction false} EverDoubledIff(config: Config, s: System, clobbered: set<nat>, actions: seq<Action>)
    requires Held(s, clobbered)
    ensures EverDoubled(config, s, actions) <==> EverReclaims(config, s, clobbered, actions)
    decreases |actions|
  {
    if actions != [] {
      if Reclaims(config, s, clobbered, actions[0]) {
        ReclaimDoubles(config, s, clobbered, actions[0]);
      } else {
        StepHeld(config, s, clobbered, actions[0]);
        EverDoubledIff(config, Step(config, s, actions[0]), clobbered + Clobbered(s, actions[0]), actions[1..]);
      }
    }
  }

  /**
   Two calls on one thread are ever in the resume sequence together exactly when a release is recorded
   over a call in its loop and, with that call still in its loop, a `discover` of the thread finds room.
   */
  lemma SingleFlightLostIff(config: Config, actions: seq<Action>)
    ensures EverDoubled(config, INITIAL, actions) <==> EverReclaims(config, INITIAL, {}, actions)
  {
    EverDoubledIff(config, INITIAL, {}, actions);
  }

  // ----- The cap -----

  /** One more state: over the cap exactly when it holds a new thread in a full map. */
  lemma UpdateCap(states: map<ThreadId, SubscriptionState>, t: ThreadId, st: SubscriptionState, cap: nat)
    requires |RetainedThreads(states)| <= cap
    ensures |RetainedThreads(states[t := st])| <= cap <==>
            !(Retained(st) && t !in RetainedThreads(states) && |RetainedThreads(states)| == cap)
  {
    RetainedUpdate(states, t, st);
    if !(Retained(st) && t !in RetainedThreads(states) && |RetainedThreads(states)| == cap) {
      RetainedBound(states, t, st, cap);
    }
  }

  lemma TaskStepCap(config: Config, s: System, a: Action)
    requires |RetainedThreads(s.states)| <= config.cap && OfTask(a) && a.id in s.tasks
    ensures |RetainedThreads(TaskStep(config, s, a, s.tasks[a.id]).states)| <= config.cap <==> !Overfills(config, s, a)
  {
    var task := s.tasks[a.id];
    match a
    case Answered(_, reply) =>
      if task.phase.Resuming? && !reply.Resumed? {
        UpdateCap(s.states, task.thread,
                  if Retryable(reply) && task.phase.attempt < config.resumeLimit then RetryWait(task.phase.attempt + 1)
                  else GiveUp(reply).0, config.cap);
      }
    case Retry(_) =>
      if task.phase.Waiting? {
        UpdateCap(s.states, task.thread, Subscribing(task.source, task.phase.attempt), config.cap);
      }
    case Record(_) =>
      if task.phase.Promoted? {
        UpdateCap(s.states, task.thread, Subscribed, config.cap);
      }
    case _ =>
  }

  /** A step takes the number of held threads over the cap exactly when it overfills a full map. */
  lemma StepCap(config: Config, s: System, a: Action)
    requires |RetainedThreads(s.states)| <= config.cap
    ensures |RetainedThreads(Step(config, s, a).states)| <= config.cap <==> !Overfills(config, s, a)
  {
    if OfTask(a) && a.id in s.tasks {
      TaskStepCap(config, s, a);
    } else if a.Discover? && a.id !in s.tasks && !(a.t in s.states && Retained(s.states[a.t])) {
      RetainedBound(s.states, a.t, Step(config, s, a).states[a.t], config.cap);
    } else if a.RecordRelease? && a.id in s.releases && s.releases[a.id].phase.Agreed? {
      RetainedBound(s.states, s.releases[a.id].thread, Released, config.cap);
    }
  }

  lemma {:induction false} EverOverCapFrom(config: Config, s: System, actions: seq<Action>)
    requires |RetainedThreads(s.states)| <= config.cap
    ensures EverOverCap(config, s, actions) <==> EverOverfills(config, s, actions)
    decreases |actions|
  {
    if actions != [] {
      StepCap(config, s, actions[0]);
      if !Overfills(config, s, actions[0]) {
        EverOverCapFrom(config, Step(config, s, actions[0]), actions[1..]);
      }
    }
  }

  /**
   The cap is ever exceeded exactly when, with the map full, a call in its loop records its thread as
   held although the thread is not held any more.
   */
  lemma CapLostIff(config: Config, actions: seq<Action>)
    ensures EverOverCap(config, INITIAL, actions) <==> EverOverfills(config, INITIAL, actions)
  {
    assert RetainedThreads(INITIAL.states) == {};
    EverOverCapFrom(config, INITIAL, actions);
  }

  /** A run in which no release is recorded over a call in its loop keeps everything. */
  lemma {:induction false} UnclobberedRun(config: Config, s: System, actions: seq<Action>)
    requires Held(s, {}) && |RetainedThreads(s.states)| <= config.cap && !EverClobbers(config, s, actions)
    ensures Held(Run(config, s, actions), {}) && |RetainedThreads(Run(config, s, actions).states)| <= config.cap
    ensures !EverReclaims(config, s, {}, actions) && !EverOverfills(config, s, actions)
    decreases |actions|
  {
    if actions != [] {
      var a, s' := actions[0], Step(config, s, actions[0]);
      assert {} + Clobbered(s, a) == {};
      assert !Overfills(config, s, a) by {
        assert a.Answered? || a.Retry? || a.Record? ==> a.id in s.tasks ==> Owns(s, s.tasks[a.id]);
      }
      StepHeld(config, s, {}, a);
      StepCap(config, s, a);
      UnclobberedRun(config, s', actions[1..]);
    }
  }

  // ----- Agreement with the reducer -----

  /** Every reducer operation in the system but the end of a release keeps every subscription. */
  lemma ViewAgrees(config: Config, s: System, a: Action)
    requires !a.Drop?
    ensures forall t :: R.EntryOf(s.view, t).subscribed ==> R.EntryOf(Step(config, s, a).view, t).subscribed
  {
    forall t | R.EntryOf(s.view, t).subscribed
      ensures R.EntryOf(Step(config, s, a).view, t).subscribed
    {
      match a
      case Touch(op) =>
        if Foreign(op) {
          SubscriptionKept(s.view, op, t);
        }
      case Protect(id) =>
        if id in s.tasks {
          SubscriptionKept(s.view, R.Begin(s.tasks[id].thread), t);
        }
      case Unprotect(id) =>
        if id in s.tasks {
          SubscriptionKept(s.view, R.Cancel(s.tasks[id].thread), t);
        }
      case Promote(id) =>
        if id in s.tasks {
          SubscriptionKept(s.view, R.Finish(s.tasks[id].thread), t);
        }
      case ReadBack(id, read) =>
        if read.Some? {
          SubscriptionKept(s.view, R.Reconcile(read.value), t);
        }
      case _ =>
    }
  }

  lemma TaskStatesAgree(config: Config, s: System, a: Action)
    requires Agree(s) && OfTask(a)
    ensures var s' := Step(config, s, a);
            && (forall t :: t in s'.states && s'.states[t].Subscribed? ==>
                  (t in s.states && s.states[t].Subscribed?) || R.EntryOf(s.view, t).subscribed)
            && (forall id :: id in s'.tasks && s'.tasks[id].phase.Promoted? ==>
                  (id in s.tasks && s.tasks[id] == s'.tasks[id])
                  || R.EntryOf(s'.view, s'.tasks[id].thread).subscribed)
  {
  }

  /** Nothing is recorded as subscribed, or promoted, that the reducer has not subscribed. */
  lemma StatesAgree(config: Config, s: System, a: Action)
    requires Agree(s)
    ensures var s' := Step(config, s, a);
            && (forall t :: t in s'.states && s'.states[t].Subscribed? ==>
                  (t in s.states && s.states[t].Subscribed?) || R.EntryOf(s.view, t).subscribed)
            && (forall id :: id in s'.tasks && s'.tasks[id].phase.Promoted? ==>
                  (id in s.tasks && s.tasks[id] == s'.tasks[id])
                  || R.EntryOf(s'.view, s'.tasks[id].thread).subscribed)
  {
    if OfTask(a) {
      TaskStatesAgree(config, s, a);
    }
  }

  lemma DropAgrees(config: Config, s: System, a: Action)
    requires Agree(s) && a.Drop? && !Undercuts(s, a)
    ensures Agree(Step(config, s, a))
  {
    if a.id in s.releases && s.releases[a.id].phase.Recorded? {
      var t := s.releases[a.id].thread;
      assert forall u :: u != t ==> R.EntryOf(R.Step(s.view, R.Subscribe(t, false)), u) == R.EntryOf(s.view, u);
    }
  }

  /** Every step but an undercutting release keeps the agreement. */
  lemma StepAgrees(config: Config, s: System, a: Action)
    requires Agree(s) && !Undercuts(s, a)
    ensures Agree(Step(config, s, a))
  {
    if a.Drop? {
      DropAgrees(config, s, a);
    } else {
      ViewAgrees(config, s, a);
      StatesAgree(config, s, a);
    }
  }

  lemma UndercutDisagrees(config: Config, s: System, a: Action)
    requires Undercuts(s, a)
    ensures !Agree(Step(config, s, a))
  {
    var s', t := Step(config, s, a), s.releases[a.id].thread;
    assert !R.EntryOf(s'.view, t).subscribed && s'.states == s.states && s'.tasks == s.tasks;
  }

  lemma {:induction false} EverDisagreesIff(config: Config, s: System, actions: seq<Action>)
    requires Agree(s)
    ensures EverDisagrees(config, s, actions) <==> EverUndercuts(config, s, actions)
    ensures !EverUndercuts(config, s, actions) ==> Agree(Run(config, s, actions))
    decreases |actions|
  {
    if actions != [] {
      if Undercuts(s, actions[0]) {
        UndercutDisagrees(config, s, actions[0]);
      } else {
        StepAgrees(config, s, actions[0]);
        EverDisagreesIff(config, Step(config, s, actions[0]), actions[1..]);
      }
    }
  }

  /**
   The state map and the reducer ever disagree about a subscribed thread, or one about to be recorded
   as subscribed, exactly when a release ends on such a thread.
   */
  lemma AgreementLostIff(config: Config, actions: seq<Action>)
    ensures EverDisagrees(config, INITIAL, actions) <==> EverUndercuts(config, INITIAL, actions)
  {
    EverDisagreesIff(config, INITIAL, actions);
  }

  // ----- Results over every run -----

  /**
   Each call sends at most `max(1, limit)` resumes.  In every interleaving of any number of `discover`
   and `release_if_idle` calls in which no release is recorded over a thread whose call is in its loop -
   so in every interleaving at all with idle release disabled: no more threads than the cap are held,
   and at most one call per thread is in the resume sequence.
   */
  lemma CapAndSingleFlight(config: Config, actions: seq<Action>)
    ensures var s := Run(config, INITIAL, actions);
            && (forall i :: i in s.tasks ==> s.tasks[i].resumes <= Max(1, config.resumeLimit))
            && (!config.release || !EverClobbers(config, INITIAL, actions) ==>
                  && |RetainedThreads(s.states)| <= config.cap
                  && SingleFlight(s))
  {
    ResumesBounded(config, actions);
    if !config.release {
      ReleaseOffIsClean(config, INITIAL, actions);
    }
    if !EverClobbers(config, INITIAL, actions) {
      assert RetainedThreads(INITIAL.states) == {};
      UnclobberedRun(config, INITIAL, actions);
    }
  }

  /** Only a release recorded over a call in its loop can make single flight or the cap fail. */
  lemma OnlyClobberingBreaks(config: Config, actions: seq<Action>)
    ensures EverDoubled(config, INITIAL, actions) || EverOverCap(config, INITIAL, actions) ==>
              config.release && EverClobbers(config, INITIAL, actions)
  {
    SingleFlightLostIff(config, actions);
    CapLostIff(config, actions);
    if !config.release {
      ReleaseOffIsClean(config, INITIAL, actions);
    }
    if !EverClobbers(config, INITIAL, actions) {
      assert RetainedThreads(INITIAL.states) == {};
      UnclobberedRun(config, INITIAL, actions);
    }
  }

  /**
   The two components agree: whenever the state map says Subscribed, the reducer holds the thread as
   subscribed, whatever cancellations of failed calls race with newer ones, unless an old release ends
   on a thread that has been subscribed again.
   */
  lemma SubscribedAgree(config: Config, actions: seq<Action>, t: ThreadId)
    requires !config.release || !EverUndercuts(config, INITIAL, actions)
    ensures var s := Run(config, INITIAL, actions);
            t in s.states && s.states[t].Subscribed? ==> t in s.view.threads && s.view.threads[t].subscribed
  {
    if !config.release {
      ReleaseOffIsClean(config, INITIAL, actions);
    }
    EverDisagreesIff(config, INITIAL, actions);
    var s := Run(config, INITIAL, actions);
    assert t in s.states && s.states[t].Subscribed? ==> R.EntryOf(s.view, t).subscribed;
  }

  // ----- Pending marks never leak -----

  /** The call has marked its thread as subscribing and will still withdraw or cash in the mark. */
  predicate Marked(task: Task, t: ThreadId) {
    task.thread == t && (task.phase.Resuming? || task.phase.Waiting? || task.phase.Won? || task.phase.GivenUp?)
  }

  ghost predicate MarksAnswered(s: System) {
    forall t :: t in s.view.subscribing ==> exists id :: id in s.tasks && Marked(s.tasks[id], t)
  }

  lemma StepMarks(config: Config, s: System, a: Action)
    requires MarksAnswered(s)
    ensures MarksAnswered(Step(config, s, a))
  {
    var s' := Step(config, s, a);
    forall t | t in s'.view.subscribing
      ensures exists id :: id in s'.tasks && Marked(s'.tasks[id], t)
    {
      if t in s.view.subscribing {
        var id :| id in s.tasks && Marked(s.tasks[id], t);
        assert id in s'.tasks && Marked(s'.tasks[id], t);
      } else {
        assert a.Protect? && a.id in s'.tasks && Marked(s'.tasks[a.id], t);
      }
    }
  }

  lemma {:induction false} RunMarks(config: Config, s: System, actions: seq<Action>)
    requires MarksAnswered(s)
    ensures MarksAnswered(Run(config, s, actions))
    decreases |actions|
  {
    if actions != [] {
      StepMarks(config, s, actions[0]);
      RunMarks(config, Step(config, s, actions[0]), actions[1..]);
    }
  }

  /** In every interleaving a thread the reducer protects as subscribing has a call that is still at it. */
  lemma MarksNeverLeak(config: Config, actions: seq<Action>, t: ThreadId)
    ensures var s := Run(config, INITIAL, actions);
            t in s.view.subscribing ==>
              exists id :: id in s.tasks && s.tasks[id].thread == t && !s.tasks[id].phase.Done?
  {
    RunMarks(config, INITIAL, actions);
  }

  // ----- Pending relevance can be lost -----

  /** The step is the late `cancel_subscription` of another call that gave up on the same thread. */
  predicate StaleCancel(s: System, a: Action, t: ThreadId) {
    a.Unprotect? && a.id in s.tasks && s.tasks[a.id].phase.GivenUp? && s.tasks[a.id].thread == t
  }

  /** The step is the end of a release of the thread. */
  predicate LateDrop(s: System, a: Action, t: ThreadId) {
    a.Drop? && a.id in s.releases && s.releases[a.id].phase.Recorded? && s.releases[a.id].thread == t
  }

  /**
   A call in the middle of its resume loop loses the reducer's protection of its thread exactly when
   an earlier, failed call on the same thread gets round to cancelling, or a release of the thread
   gets round to dropping the subscription.
   */
  lemma ProtectionLostIff(config: Config, s: System, a: Action, id: nat)
    requires SingleFlight(s) && id in s.tasks
    requires s.tasks[id].phase.Resuming? || s.tasks[id].phase.Waiting?
    requires s.tasks[id].thread in s.view.subscribing
    ensures s.tasks[id].thread !in Step(config, s, a).view.subscribing <==>
            StaleCancel(s, a, s.tasks[id].thread) || LateDrop(s, a, s.tasks[id].thread)
  {
    if OfTask(a) && a.id in s.tasks && a.id != id {
      assert InLoop(s.tasks[id].phase);
      assert InLoop(s.tasks[a.id].phase) ==> s.tasks[a.id].thread != s.tasks[id].thread;
    }
  }

  function RaceActions(t: ThreadId, source: Source): seq<Action> {
    [Discover(0, t, source), Protect(0), Answered(0, ResumeError),
     Discover(1, t, source), Protect(1), Unprotect(0)]
  }

  lemma RunThree(config: Config, s: System, a: seq<Action>)
    requires |a| == 3
    ensures Run(config, s, a) == Step(config, Step(config, Step(config, s, a[0]), a[1]), a[2])
  {
    var s1 := Step(config, s, a[0]);
    var s2 := Step(config, s1, a[1]);
    assert a[1..][1..] == [a[2]] && [a[2]][1..] == [];
    assert Run(config, s2, [a[2]]) == Run(config, Step(config, s2, a[2]), []);
    assert Run(config, s1, a[1..]) == Run(config, s2, [a[2]]);
  }

  lemma FirstCallFails(config: Config, t: ThreadId, source: Source)
    requires config == Config(1, 1, false)
    ensures var s := Run(config, INITIAL, RaceActions(t, source)[..3]);
            s.states == map[t := FailedState] && s.tasks == map[0 := Task(t, source, GivenUp(DiscoveryFailed), 1)]
  {
    var actions := RaceActions(t, source);
    RunThree(config, INITIAL, actions[..3]);
    assert RetainedThreads(INITIAL.states) == {};
    var s1 := Step(config, INITIAL, actions[0]);
    assert s1 == System(map[t := Subscribing(source, 1)], R.INITIAL, map[0 := Task(t, source, Claimed, 0)], map[]);
    var s2 := Step(config, s1, actions[1]);
    assert s2 == System(s1.states, s2.view, map[0 := Task(t, source, Resuming(1), 1)], map[]);
  }

  lemma SecondCallUnprotected(config: Config, s: System, t: ThreadId, source: Source)
    requires config == Config(1, 1, false) && !R.EntryOf(s.view, t).subscribed && R.EntryOf(s.view, t).activeTurn.None?
    requires s.states == map[t := FailedState] && s.tasks == map[0 := Task(t, source, GivenUp(DiscoveryFailed), 1)]
    ensures var s' := Run(config, s, RaceActions(t, source)[3..]);
            1 in s'.tasks && s'.tasks[1] == Task(t, source, Resuming(1), 1)
            && t !in s'.view.subscribing && t !in s'.view.threads
  {
    var actions := RaceActions(t, source);
    RunThree(config, s, actions[3..]);
    assert RetainedThreads(s.states) == {};
    var s4 := Step(config, s, actions[3]);
    assert s4 == System(s4.states, s.view, s.tasks[1 := Task(t, source, Claimed, 0)], s.releases);
    var s5 := Step(config, s4, actions[4]);
    assert s5 == System(s4.states, R.Step(s.view, R.Begin(t)), s.tasks[1 := Task(t, source, Resuming(1), 1)], s.releases);
  }

  lemma FirstCallView(config: Config, t: ThreadId, source: Source)
    requires config == Config(1, 1, false)
    ensures var view := Run(config, INITIAL, RaceActions(t, source)[..3]).view;
            !R.EntryOf(view, t).subscribed && R.EntryOf(view, t).activeTurn.None?
  {
    var actions := RaceActions(t, source);
    RunThree(config, INITIAL, actions[..3]);
    assert RetainedThreads(INITIAL.states) == {};
    var s1 := Step(config, INITIAL, actions[0]);
    var s2 := Step(config, s1, actions[1]);
    assert s2.view == R.Step(R.INITIAL, R.Begin(t));
    assert Step(config, s2, actions[2]).view == s2.view;
  }

  lemma {:induction false} RunAppend(config: Config, s: System, a: seq<Action>, b: seq<Action>)
    ensures Run(config, s, a + b) == Run(config, Run(config, s, a), b)
    decreases |a|
  {
    if a == [] {
      assert a + b == b;
    } else {
      assert (a + b)[1..] == a[1..] + b;
      RunAppend(config, Step(config, s, a[0]), a[1..], b);
    }
  }

  /** That race exists: the second call is resuming and the reducer has forgotten the thread. */
  lemma StaleCancelRace(t: ThreadId, source: Source)
    ensures var s := Run(Config(1, 1, false), INITIAL, RaceActions(t, source));
            1 in s.tasks && s.tasks[1] == Task(t, source, Resuming(1), 1)
            && t !in s.view.subscribing && t !in s.view.threads
  {
    var config, actions := Config(1, 1, false), RaceActions(t, source);
    var s := Run(config, INITIAL, actions[..3]);
    FirstCallFails(config, t, source);
    FirstCallView(config, t, source);
    SecondCallUnprotected(config, s, t, source);
    assert actions == actions[..3] + actions[3..];
    RunAppend(config, INITIAL, actions[..3], actions[3..]);
  }

  // ----- The cap and idle release -----

  /** The cap is never exceeded, whatever happens. */
  ghost predicate CapAlwaysHolds(config: Config) {
    forall actions :: |RetainedThreads(Run(config, INITIAL, actions).states)| <= config.cap
  }

  ghost predicate NothingHeld(s: System) {
    RetainedThreads(s.states) == {} && forall i :: i in s.tasks ==> s.tasks[i].phase.Done?
  }

  lemma NoRoomStep(config: Config, s: System, a: Action)
    requires config.cap == 0 && NothingHeld(s)
    ensures NothingHeld(Step(config, s, a))
  {
    var s' := Step(config, s, a);
    if a.Discover? {
      var t := a.t;
      assert t in s.states && Retained(s.states[t]) ==> t in RetainedThreads(s.states);
      RetainedUpdate(s.states, t, CapacityDegraded);
    } else if a.RecordRelease? {
      if a.id in s.releases {
        RetainedUpdate(s.states, s.releases[a.id].thread, Released);
      }
      assert s'.tasks == s.tasks;
    } else if OfTask(a) {
      assert a.id in s.tasks ==> s.tasks[a.id].phase.Done? && s' == s;
    } else {
      assert s'.states == s.states && s'.tasks == s.tasks;
    }
  }

  /** With no room at all nothing is ever held, released or not. */
  lemma {:induction false} NoRoom(config: Config, s: System, actions: seq<Action>)
    requires config.cap == 0 && NothingHeld(s)
    ensures NothingHeld(Run(config, s, actions))
    decreases |actions|
  {
    if actions != [] {
      NoRoomStep(config, s, actions[0]);
      NoRoom(config, Step(config, s, actions[0]), actions[1..]);
    }
  }

  /** Distinct thread names. */
  function Name(i: nat): ThreadId {
    seq(i, _ => 'x')
  }

  function Names(k: nat): (r: set<ThreadId>)
    ensures |r| == k
    ensures forall t :: t in r <==> 1 <= |t| <= k && t == Name(|t|)
  {
    if k == 0 then {}
    else
      assert |Name(k)| == k;
      Names(k - 1) + {Name(k)}
  }

  function Fill(k: nat): seq<Action> {
    if k == 0 then [] else Fill(k - 1) + [Discover(k, Name(k), FromActivation)]
  }

  /** Thread 0's call is still resuming, but only `Names(k)` are held. */
  ghost predicate Filled(s: System, k: nat, owner: Task) {
    && RetainedThreads(s.states) == Names(k)
    && 0 in s.tasks && s.tasks[0] == owner
    && (forall i :: i in s.tasks ==> i <= k)
  }

  lemma FillClaims(config: Config, s: System, k: nat)
    requires RetainedThreads(s.states) == Names(k) && k < config.cap && k + 1 !in s.tasks
    ensures Step(config, s, Discover(k + 1, Name(k + 1), FromActivation)) ==
            s.(states := s.states[Name(k + 1) := Subscribing(FromActivation, 1)],
               tasks := s.tasks[k + 1 := Task(Name(k + 1), FromActivation, Claimed, 0)])
  {
    assert |Name(k + 1)| == k + 1 && Name(k + 1) !in Names(k);
    assert Name(k + 1) !in RetainedThreads(s.states);
  }

  lemma FillStep(config: Config, s: System, k: nat, owner: Task)
    requires Filled(s, k, owner) && k < config.cap
    ensures Filled(Step(config, s, Discover(k + 1, Name(k + 1), FromActivation)), k + 1, owner)
  {
    FillClaims(config, s, k);
    RetainedUpdate(s.states, Name(k + 1), Subscribing(FromActivation, 1));
  }

  lemma RunLast(config: Config, s: System, actions: seq<Action>, a: Action)
    ensures Run(config, s, actions + [a]) == Step(config, Run(config, s, actions), a)
  {
    var before := Run(config, s, actions);
    RunAppend(config, s, actions, [a]);
    assert [a][1..] == [];
    assert Run(config, before, [a]) == Run(config, Step(config, before, a), []);
  }

  /** While thread 0 looks released, other threads fill the room its call still counts on. */
  lemma {:induction false} Fills(config: Config, s: System, k: nat, owner: Task)
    requires k <= config.cap && Filled(s, 0, owner)
    ensures Filled(Run(config, s, Fill(k)), k, owner)
  {
    if k > 0 {
      Fills(config, s, k - 1, owner);
      FillStep(config, Run(config, s, Fill(k - 1)), k - 1, owner);
      RunLast(config, s, Fill(k - 1), Discover(k, Name(k), FromActivation));
    }
  }

  /** The check comes while the reducer has no entry of the thread; the daemon's answer comes late. */
  function OverfillStart(): seq<Action> {
    [CheckIdle(0, Name(0)), Discover(0, Name(0), FromActivation), Protect(0), Unsubscribe(0, true), RecordRelease(0)]
  }

  function OverfillEnd(): seq<Action> {
    [Answered(0, Resumed), Promote(0), Record(0)]
  }

  lemma OverfillReleases(config: Config, s: System)
    requires s.states == map[Name(0) := Subscribing(FromActivation, 1)]
    requires s.tasks == map[0 := Task(Name(0), FromActivation, Claimed, 0)]
    requires s.releases == map[0 := Release(Name(0), Unsubscribing)]
    ensures var a := OverfillStart();
            Filled(Run(config, s, [a[2], a[3], a[4]]), 0, Task(Name(0), FromActivation, Resuming(1), 1))
  {
    var t, a := Name(0), OverfillStart();
    RunThree(config, s, [a[2], a[3], a[4]]);
    var s3 := Step(config, s, a[2]);
    assert s3 == System(s.states, s3.view, map[0 := Task(t, FromActivation, Resuming(1), 1)], s.releases);
    var s4 := Step(config, s3, a[3]);
    assert s4 == s3.(releases := map[0 := Release(t, Agreed)]);
    var s5 := Step(config, s4, a[4]);
    assert s5.states == map[t := Released] && RetainedThreads(s5.states) == {} && s5.tasks == s3.tasks;
  }

  lemma RunTwo(config: Config, s: System, a: Action, b: Action)
    ensures Run(config, s, [a, b]) == Step(config, Step(config, s, a), b)
  {
    var s1 := Step(config, s, a);
    assert [a, b][1..] == [b] && [b][1..] == [];
    assert Run(config, s1, [b]) == Run(config, Step(config, s1, b), []);
  }

  lemma OverfillStarts(config: Config)
    requires config.release && config.cap > 0
    ensures Filled(Run(config, INITIAL, OverfillStart()), 0, Task(Name(0), FromActivation, Resuming(1), 1))
  {
    var t, a := Name(0), OverfillStart();
    assert a == [a[0], a[1]] + [a[2], a[3], a[4]];
    RunAppend(config, INITIAL, [a[0], a[1]], [a[2], a[3], a[4]]);
    RunTwo(config, INITIAL, a[0], a[1]);
    assert RetainedThreads(INITIAL.states) == {};
    var s1 := Step(config, INITIAL, a[0]);
    assert s1 == INITIAL.(releases := map[0 := Release(t, Unsubscribing)]);
    var s2 := Step(config, s1, a[1]);
    assert s2 == System(map[t := Subscribing(FromActivation, 1)], R.INITIAL,
                        map[0 := Task(t, FromActivation, Claimed, 0)], s1.releases);
    OverfillReleases(config, s2);
  }

  lemma OverfillEnds(config: Config, s: System)
    requires Filled(s, config.cap, Task(Name(0), FromActivation, Resuming(1), 1))
    ensures |RetainedThreads(Run(config, s, OverfillEnd()).states)| == config.cap + 1
  {
    var t := Name(0);
    RunThree(config, s, OverfillEnd());
    var e1 := Step(config, s, Answered(0, Resumed));
    assert e1 == s.(tasks := e1.tasks) && e1.tasks[0] == Task(t, FromActivation, Won, 1);
    var e2 := Step(config, e1, Promote(0));
    assert e2 == e1.(view := e2.view, tasks := e2.tasks) && e2.tasks[0] == Task(t, FromActivation, Promoted, 1);
    var e3 := Step(config, e2, Record(0));
    assert e3.states == s.states[t := Subscribed];
    RetainedUpdate(s.states, t, Subscribed);
    assert |t| == 0 && t !in Names(config.cap);
  }

  /**
   A release whose check came before the thread's call began, and which is recorded while that call
   is resuming, lets the cap be exceeded by one.
   */
  lemma ReleaseOverfills(config: Config)
    requires config.release && config.cap > 0
    ensures |RetainedThreads(Run(config, INITIAL, OverfillStart() + Fill(config.cap) + OverfillEnd()).states)|
            == config.cap + 1
  {
    RunAppend(config, INITIAL, OverfillStart() + Fill(config.cap), OverfillEnd());
    RunAppend(config, INITIAL, OverfillStart(), Fill(config.cap));
    OverfillStarts(config);
    Fills(config, Run(config, INITIAL, OverfillStart()), config.cap, Task(Name(0), FromActivation, Resuming(1), 1));
    OverfillEnds(config, Run(config, INITIAL, OverfillStart() + Fill(config.cap)));
  }

  /** The subscription cap holds in every run exactly when idle release is off or there is no room at all. */
  lemma CapHoldsIff(config: Config)
    ensures CapAlwaysHolds(config) <==> !config.release || config.cap == 0
  {
    if !config.release || config.cap == 0 {
      forall actions
        ensures |RetainedThreads(Run(config, INITIAL, actions).states)| <= config.cap
      {
        if !config.release {
          CapAndSingleFlight(config, actions);
        } else {
          NoRoom(config, INITIAL, actions);
        }
      }
    } else {
      ReleaseOverfills(config);
    }
  }

  // ----- Single flight, agreement and idle release -----

  /** The same late answer, and then another `discover` of the thread: two calls are in the loop. */
  lemma ReleaseDoubles(config: Config)
    requires config.release && config.cap > 0
    ensures var s := Run(config, INITIAL, OverfillStart() + [Discover(1, Name(0), FromActivation)]);
            && 0 in s.tasks && s.tasks[0] == Task(Name(0), FromActivation, Resuming(1), 1)
            && 1 in s.tasks && s.tasks[1] == Task(Name(0), FromActivation, Claimed, 0)
            && !SingleFlight(s)
  {
    OverfillStarts(config);
    var before := Run(config, INITIAL, OverfillStart());
    RunLast(config, INITIAL, OverfillStart(), Discover(1, Name(0), FromActivation));
    assert Name(0) !in RetainedThreads(before.states) && 1 !in before.tasks;
  }

  function ReleaseUpToDrop(t: ThreadId): seq<Action> {
    [CheckIdle(0, t), Unsubscribe(0, true), RecordRelease(0)]
  }

  function Subscribes(t: ThreadId): seq<Action> {
    [Discover(0, t, FromActivation), Protect(0), Answered(0, Resumed)] + [Promote(0), Record(0)]
  }

  lemma ReleaseRecorded(config: Config, t: ThreadId)
    requires config.release
    ensures Run(config, INITIAL, ReleaseUpToDrop(t)) ==
            System(map[t := Released], R.INITIAL, map[], map[0 := Release(t, Recorded)])
  {
    RunThree(config, INITIAL, ReleaseUpToDrop(t));
    var s1 := Step(config, INITIAL, CheckIdle(0, t));
    assert s1 == INITIAL.(releases := map[0 := Release(t, Unsubscribing)]);
    var s2 := Step(config, s1, Unsubscribe(0, true));
    assert s2 == INITIAL.(releases := map[0 := Release(t, Agreed)]);
  }

  lemma WonRun(config: Config, s: System, t: ThreadId)
    requires config.cap > 0 && s.states == map[t := Released] && s.tasks == map[]
    ensures var s' := Run(config, s, [Discover(0, t, FromActivation), Protect(0), Answered(0, Resumed)]);
            && s'.states == map[t := Subscribing(FromActivation, 1)] && s'.releases == s.releases
            && s'.tasks == map[0 := Task(t, FromActivation, Won, 1)]
  {
    var first := [Discover(0, t, FromActivation), Protect(0), Answered(0, Resumed)];
    RunThree(config, s, first);
    assert RetainedThreads(s.states) == {};
    var s1 := Step(config, s, first[0]);
    assert s1 == s.(states := map[t := Subscribing(FromActivation, 1)],
                    tasks := map[0 := Task(t, FromActivation, Claimed, 0)]);
    var s2 := Step(config, s1, Protect(0));
    assert s2 == s1.(view := s2.view, tasks := map[0 := Task(t, FromActivation, Resuming(1), 1)]);
  }

  lemma PromotedRecorded(config: Config, s: System, t: ThreadId)
    requires s.states == map[t := Subscribing(FromActivation, 1)]
    requires s.tasks == map[0 := Task(t, FromActivation, Won, 1)]
    ensures var s' := Step(config, Step(config, s, Promote(0)), Record(0));
            s'.states == map[t := Subscribed] && s'.releases == s.releases
  {
    var promoted := Step(config, s, Promote(0));
    assert promoted == s.(view := promoted.view, tasks := map[0 := Task(t, FromActivation, Promoted, 1)]);
  }

  lemma SubscribesRun(config: Config, s: System, t: ThreadId)
    requires config.cap > 0 && s.states == map[t := Released] && s.tasks == map[]
    ensures var s' := Run(config, s, Subscribes(t));
            s'.states == map[t := Subscribed] && s'.releases == s.releases
  {
    var first := [Discover(0, t, FromActivation), Protect(0), Answered(0, Resumed)];
    RunAppend(config, s, first, [Promote(0), Record(0)]);
    WonRun(config, s, t);
    var won := Run(config, s, first);
    RunTwo(config, won, Promote(0), Record(0));
    PromotedRecorded(config, won, t);
  }

  /**
   A release of an idle thread is overtaken: between its two last steps the thread is subscribed
   again, and then the release drops that subscription from the reducer alone.
   */
  lemma LateDropDisagrees(config: Config, t: ThreadId)
    requires config.release && config.cap > 0
    ensures var s := Run(config, INITIAL, ReleaseUpToDrop(t) + Subscribes(t) + [Drop(0)]);
            t in s.states && s.states[t].Subscribed? && !R.EntryOf(s.view, t).subscribed
  {
    var recorded := Run(config, INITIAL, ReleaseUpToDrop(t));
    RunLast(config, INITIAL, ReleaseUpToDrop(t) + Subscribes(t), Drop(0));
    RunAppend(config, INITIAL, ReleaseUpToDrop(t), Subscribes(t));
    ReleaseRecorded(config, t);
    SubscribesRun(config, recorded, t);
  }
}
