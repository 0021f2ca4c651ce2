/**
 The authoritative reducer: per-thread state pruned inline, a bounded lifecycle replay log, and
 one-shot waiters that are scanned in place.

 The first part gives each operation as a function on a state value and proves what holds over
 every run; the class at the end performs the operations in place and is tied to the functions.
 */
module Reducer {
  import opened Protocol

  datatype ThreadState = ThreadState(
    threadId: ThreadId,
    status: string,
    activeTurn: Option<TurnId>,
    subscribed: bool,
    ephemeral: bool,
    lastSequence: Sequence,
    raw: Option<RawThread>)

  /** What one lock protects: the snapshot and the set of pending subscriptions. */
  datatype State = State(
    atSequence: Sequence,
    threads: map<ThreadId, ThreadState>,
    subscribing: set<ThreadId>)

  const INITIAL := State(0, map[], {})

  function Fresh(t: ThreadId): ThreadState {
    ThreadState(t, "unknown", None, false, false, 0, None)
  }

  function EntryOf(s: State, t: ThreadId): ThreadState {
    if t in s.threads then s.threads[t] else Fresh(t)
  }

  predicate Prunable(thread: ThreadState) {
    !thread.subscribed && thread.activeTurn.None?
  }

  // ----- The operations -----

  /** The effect of one event on its thread's entry. */
  function Advance(thread: ThreadState, e: Event): ThreadState {
    var seen := thread.(lastSequence := e.sequence);
    match e.name
    case Some(ThreadStarted) =>
      seen.(status := "idle", raw := e.thread, ephemeral := e.thread.Some? && e.thread.value.ephemeral)
    case Some(ThreadStatusChanged) =>
      seen.(status := match e.status.Text() case Some(text) => text case None => "unknown")
    case Some(TurnStarted) =>
      seen.(status := "active", activeTurn := e.turnId)
    case Some(TurnCompleted) =>
      seen.(status := "idle",
            activeTurn := if thread.activeTurn == e.turnId || e.turnId.None? then None else thread.activeTurn)
    case _ => seen
  }

  /** What an entry that is still there after an event about its thread shows. */
  ghost predicate EntryShows(now: ThreadState, before: ThreadState, e: Event) {
    && now.lastSequence == e.sequence && now.subscribed == before.subscribed
    && (e.name == Some(ThreadStarted) ==>
          && now.status == "idle" && now.activeTurn == before.activeTurn && now.raw == e.thread
          && (now.ephemeral <==> e.thread.Some? && e.thread.value.ephemeral))
    && (e.name != Some(ThreadStarted) ==> now.raw == before.raw && now.ephemeral == before.ephemeral)
    && (e.name == Some(ThreadStatusChanged) ==>
          && now.activeTurn == before.activeTurn
          && (e.status.Tagged? ==> now.status == e.status.tag)
          && (e.status.Plain? ==> now.status == e.status.text)
          && (e.status.Missing? ==> now.status == "unknown"))
    && (e.name == Some(TurnStarted) ==> now.status == "active" && now.activeTurn == e.turnId)
    && (e.name == Some(TurnCompleted) ==>
          && now.status == "idle"
          && (e.turnId.None? || e.turnId == before.activeTurn ==> now.activeTurn == None)
          && (e.turnId.Some? && e.turnId != before.activeTurn ==> now.activeTurn == before.activeTurn))
    && ((e.name.None? || e.name.value.OtherMethod?) ==>
          now.status == before.status && now.activeTurn == before.activeTurn)
  }

  function Apply(s: State, e: Event): State {
    var at := Max(s.atSequence, e.sequence);
    match e.threadId
    case None => s.(atSequence := at)
    case Some(t) =>
      var thread := Advance(EntryOf(s, t), e);
      if t !in s.subscribing && Prunable(thread) then s.(atSequence := at, threads := s.threads - {t})
      else s.(atSequence := at, threads := s.threads[t := thread])
  }

  function BeginSubscription(s: State, t: ThreadId): State {
    s.(subscribing := s.subscribing + {t}, threads := s.threads[t := EntryOf(s, t)])
  }

  function FinishSubscription(s: State, t: ThreadId): State {
    s.(subscribing := s.subscribing - {t}, threads := s.threads[t := EntryOf(s, t).(subscribed := true)])
  }

  function CancelSubscription(s: State, t: ThreadId): State {
    s.(subscribing := s.subscribing - {t},
       threads := if t in s.threads && Prunable(s.threads[t]) then s.threads - {t} else s.threads)
  }

  function SetSubscribed(s: State, t: ThreadId, subscribed: bool): State {
    if subscribed then FinishSubscription(s, t)
    else if t !in s.threads then s.(subscribing := s.subscribing - {t})
    else
      var thread := s.threads[t].(subscribed := false);
      s.(subscribing := s.subscribing - {t},
         threads := if Prunable(thread) then s.threads - {t} else s.threads[t := thread])
  }

  function EvictIdle(s: State): State {
    s.(threads := map t | t in s.threads && (t in s.subscribing || !Prunable(s.threads[t])) :: s.threads[t])
  }

  /** The id of the last turn that is not terminal; none if that turn carries no id. */
  function InFlightTurn(turns: seq<RawTurn>): Option<TurnId> {
    if turns == [] then None
    else if !turns[|turns| - 1].status.Terminal() then turns[|turns| - 1].id
    else InFlightTurn(turns[..|turns| - 1])
  }

  /** The newest turn whose status is none of completed, failed and interrupted. */
  predicate NewestOpen(turns: seq<RawTurn>, i: nat) {
    && i < |turns|
    && !turns[i].status.Completed? && !turns[i].status.Failed? && !turns[i].status.Interrupted?
    && forall j :: i < j < |turns| ==>
         turns[j].status.Completed? || turns[j].status.Failed? || turns[j].status.Interrupted?
  }

  /** The in-flight turn is the newest one that is not over; its id may be missing. */
  lemma {:induction false} InFlightMeaning(turns: seq<RawTurn>)
    ensures forall i: nat :: NewestOpen(turns, i) ==> InFlightTurn(turns) == turns[i].id
    ensures (forall i: nat :: !NewestOpen(turns, i)) ==> InFlightTurn(turns) == None
    ensures (forall i: nat :: !NewestOpen(turns, i)) <==>
            forall j :: 0 <= j < |turns| ==>
              turns[j].status.Completed? || turns[j].status.Failed? || turns[j].status.Interrupted?
  {
    if turns != [] {
      var n := |turns| - 1;
      var init := turns[..n];
      InFlightMeaning(init);
      if turns[n].status.Terminal() {
        assert forall j :: 0 <= j < n ==> init[j] == turns[j];
        assert forall i: nat :: NewestOpen(init, i) <==> NewestOpen(turns, i);
      } else {
        assert NewestOpen(turns, n);
        assert forall i: nat :: NewestOpen(turns, i) ==> i == n;
      }
    }
  }

  function ReconcileThread(s: State, raw: RawThread): State {
    match raw.id
    case None => s
    case Some(t) =>
      var active := InFlightTurn(raw.turns);
      var status := match raw.status.Text() case Some(text) => text case None => "unknown";
      s.(threads := s.threads[t := ThreadState(
        t,
        if active.Some? then "active" else status,
        active,
        t in s.threads && s.threads[t].subscribed,
        raw.ephemeral,
        s.atSequence,
        Some(raw))])
  }

  /** An event shows on the entry of its thread, if that is still there, and nowhere else. */
  ghost predicate EventShows(before: State, now: State, e: Event) {
    && (e.threadId.Some? && e.threadId.value in now.threads ==>
          EntryShows(now.threads[e.threadId.value], EntryOf(before, e.threadId.value), e))
    && (forall u :: Some(u) != e.threadId ==> EntryOf(now, u) == EntryOf(before, u))
  }

  lemma AdvanceShows(thread: ThreadState, e: Event)
    ensures EntryShows(Advance(thread, e), thread, e)
  {
  }

  lemma ApplyShows(s: State, e: Event)
    ensures EventShows(s, Apply(s, e), e)
  {
    if e.threadId.Some? {
      AdvanceShows(EntryOf(s, e.threadId.value), e);
    }
  }

  datatype Op =
    | ApplyOp(event: Event)
    | Begin(t: ThreadId)
    | Finish(t: ThreadId)
    | Cancel(t: ThreadId)
    | Subscribe(t: ThreadId, subscribed: bool)
    | Evict
    | Reconcile(raw: RawThread)

  function Step(s: State, op: Op): State {
    match op
    case ApplyOp(e) => Apply(s, e)
    case Begin(t) => BeginSubscription(s, t)
    case Finish(t) => FinishSubscription(s, t)
    case Cancel(t) => CancelSubscription(s, t)
    case Subscribe(t, subscribed) => SetSubscribed(s, t, subscribed)
    case Evict => EvictIdle(s)
    case Reconcile(raw) => ReconcileThread(s, raw)
  }

  function Run(s: State, ops: seq<Op>): State
    decreases |ops|
  {
    if ops == [] then s else Run(Step(s, ops[0]), ops[1..])
  }

  // ----- Pruning is unobservable -----

  /** The two facts actions depend on, in a reducer that never creates or prunes entries. */
  datatype Facts = Facts(active: map<ThreadId, TurnId>, subscribed: set<ThreadId>)

  function ActiveOf(f: Facts, t: ThreadId): Option<TurnId> {
    if t in f.active then Some(f.active[t]) else None
  }

  function SetActive(f: Facts, t: ThreadId, turn: Option<TurnId>): Facts {
    match turn
    case None => f.(active := f.active - {t})
    case Some(id) => f.(active := f.active[t := id])
  }

  function FactStep(f: Facts, op: Op): Facts {
    match op
    case ApplyOp(e) =>
      if e.threadId.None? then f
      else if e.name == Some(TurnStarted) then SetActive(f, e.threadId.value, e.turnId)
      else if e.name == Some(TurnCompleted)
              && (e.turnId.None? || e.turnId == ActiveOf(f, e.threadId.value))
      then SetActive(f, e.threadId.value, None)
      else f
    case Finish(t) => f.(subscribed := f.subscribed + {t})
    case Subscribe(t, subscribed) =>
      f.(subscribed := if subscribed then f.subscribed + {t} else f.subscribed - {t})
    case Reconcile(raw) =>
      if raw.id.None? then f else SetActive(f, raw.id.value, InFlightTurn(raw.turns))
    case _ => f
  }

  function FactRun(f: Facts, ops: seq<Op>): Facts
    decreases |ops|
  {
    if ops == [] then f else FactRun(FactStep(f, ops[0]), ops[1..])
  }

  ghost predicate ShowsAt(s: State, f: Facts, t: ThreadId) {
    EntryOf(s, t).activeTurn == ActiveOf(f, t) && (EntryOf(s, t).subscribed <==> t in f.subscribed)
  }

  /** The pruning reducer shows exactly the facts `f`, absent entries reading as idle and unsubscribed. */
  ghost predicate Shows(s: State, f: Facts) {
    forall t :: ShowsAt(s, f, t)
  }

  lemma StepShowsFactsAt(s: State, f: Facts, op: Op, t: ThreadId)
    requires ShowsAt(s, f, t)
    ensures ShowsAt(Step(s, op), FactStep(f, op), t)
  {
    match op
    case ApplyOp(e) =>
      if e.threadId == Some(t) {
        var thread := Advance(EntryOf(s, t), e);
        assert thread.subscribed == EntryOf(s, t).subscribed;
        assert thread.activeTurn == ActiveOf(FactStep(f, op), t);
        assert EntryOf(Step(s, op), t).activeTurn == thread.activeTurn;
      } else {
        assert EntryOf(Step(s, op), t) == EntryOf(s, t);
      }
    case Begin(u) =>
    case Finish(u) =>
    case Cancel(u) =>
    case Subscribe(u, subscribed) =>
    case Evict =>
    case Reconcile(raw) =>
  }

  lemma StepShowsFacts(s: State, f: Facts, op: Op)
    requires Shows(s, f)
    ensures Shows(Step(s, op), FactStep(f, op))
  {
    forall t
      ensures ShowsAt(Step(s, op), FactStep(f, op), t)
    {
      assert ShowsAt(s, f, t);
      StepShowsFactsAt(s, f, op, t);
    }
  }

  /** Over every run, pruning changes no thread's active turn and no thread's subscription. */
  lemma {:induction false} PruningUnobservable(s: State, f: Facts, ops: seq<Op>)
    requires Shows(s, f)
    ensures Shows(Run(s, ops), FactRun(f, ops))
    decreases |ops|
  {
    if ops != [] {
      StepShowsFacts(s, f, ops[0]);
      PruningUnobservable(Step(s, ops[0]), FactStep(f, ops[0]), ops[1..]);
    }
  }

  /** In particular from the empty reducer on, where nothing is active and nothing subscribed. */
  lemma PruningUnobservableFromStart(ops: seq<Op>, t: ThreadId)
    ensures var s, f := Run(INITIAL, ops), FactRun(Facts(map[], {}), ops);
            EntryOf(s, t).activeTurn == ActiveOf(f, t) && (EntryOf(s, t).subscribed <==> t in f.subscribed)
  {
    PruningUnobservable(INITIAL, Facts(map[], {}), ops);
    assert ShowsAt(Run(INITIAL, ops), FactRun(Facts(map[], {}), ops), t);
  }

  // ----- Only relevant threads are retained -----

  predicate RelevantEntry(s: State, t: ThreadId)
    requires t in s.threads
  {
    s.threads[t].subscribed || s.threads[t].activeTurn.Some? || t in s.subscribing
  }

  /** No active turn changes, and no entry but that of `t` changes at all. */
  ghost predicate SameFactsBut(before: State, after: State, t: ThreadId) {
    && EntryOf(after, t).activeTurn == EntryOf(before, t).activeTurn
    && (forall u :: u != t ==> EntryOf(after, u) == EntryOf(before, u)
                               && (u in after.threads <==> u in before.threads)
                               && (u in after.subscribing <==> u in before.subscribing))
  }

  /** Bookkeeping that every operation keeps. */
  ghost predicate Sound(s: State) {
    && s.subscribing <= s.threads.Keys
    && (forall t :: t in s.threads ==> s.threads[t].lastSequence <= s.atSequence && s.threads[t].threadId == t)
  }

  ghost predicate Relevant(s: State) {
    forall t :: t in s.threads ==> RelevantEntry(s, t)
  }

  lemma ApplySound(s: State, e: Event)
    requires Sound(s)
    ensures Sound(Apply(s, e)) && s.atSequence <= Apply(s, e).atSequence
  {
    if e.threadId.Some? {
      AdvanceShows(EntryOf(s, e.threadId.value), e);
    }
  }

  lemma StepSound(s: State, op: Op)
    requires Sound(s)
    ensures Sound(Step(s, op))
    ensures s.atSequence <= Step(s, op).atSequence
  {
    if op.ApplyOp? {
      ApplySound(s, op.event);
    }
  }

  /** Only an event moves the snapshot's sequence. */
  lemma OnlyEventsAdvance(s: State, op: Op)
    ensures Step(s, op).atSequence == if op.ApplyOp? then Max(s.atSequence, op.event.sequence) else s.atSequence
  {
  }

  /** A reconciliation that leaves its thread relevant. */
  predicate ReconcilesRelevant(s: State, raw: RawThread) {
    raw.id.Some? ==>
      InFlightTurn(raw.turns).Some? || raw.id.value in s.subscribing || EntryOf(s, raw.id.value).subscribed
  }

  lemma StepRelevant(s: State, op: Op)
    requires Sound(s) && Relevant(s)
    ensures Relevant(Step(s, op)) <==> (op.Reconcile? ==> ReconcilesRelevant(s, op.raw))
  {
    var s' := Step(s, op);
    if op.Reconcile? && op.raw.id.Some? {
      var t := op.raw.id.value;
      assert t in s'.threads;
      assert RelevantEntry(s', t) <==> ReconcilesRelevant(s, op.raw);
      forall u | u in s'.threads && u != t
        ensures RelevantEntry(s', u)
      {
        assert RelevantEntry(s, u);
      }
    } else {
      forall u | u in s'.threads
        ensures RelevantEntry(s', u)
      {
        assert u in s.threads ==> RelevantEntry(s, u);
      }
    }
  }

  /** Every reconciliation in the run hits a thread that stays relevant. */
  ghost predicate ReconcilesOnlyRelevant(s: State, ops: seq<Op>)
    decreases |ops|
  {
    ops != [] ==>
      && (ops[0].Reconcile? ==> ReconcilesRelevant(s, ops[0].raw))
      && ReconcilesOnlyRelevant(Step(s, ops[0]), ops[1..])
  }

  /** Over every such run only subscribed, subscribing or active threads are retained. */
  lemma {:induction false} RelevantThreadsOnly(s: State, ops: seq<Op>)
    requires Sound(s) && Relevant(s) && ReconcilesOnlyRelevant(s, ops)
    ensures Sound(Run(s, ops)) && Relevant(Run(s, ops))
    decreases |ops|
  {
    if ops != [] {
      StepSound(s, ops[0]);
      StepRelevant(s, ops[0]);
      RelevantThreadsOnly(Step(s, ops[0]), ops[1..]);
    }
  }

  /**
   A thread whose status reads "active" but whose turns are all terminal becomes an entry that
   nothing protects; it stays until its next event or the next `evict_idle`.
   */
  lemma IdleReconcileAccumulates(t: ThreadId)
    ensures var raw := RawThread(Some(t), Tagged("active"), [RawTurn(Some("u"), Completed)], false);
            var s := ReconcileThread(INITIAL, raw);
            t in s.threads && !RelevantEntry(s, t) && t !in EvictIdle(s).threads
  {
    var turns := [RawTurn(Some("u"), Completed)];
    assert turns[..0] == [];
    assert InFlightTurn(turns) == None;
  }

  lemma EvictIdleCount(s: State)
    ensures |s.threads| - |EvictIdle(s).threads| == |set t | t in s.threads && !RelevantEntry(s, t)|
  {
    var gone := set t | t in s.threads && !RelevantEntry(s, t);
    var kept := EvictIdle(s).threads.Keys;
    assert kept + gone == s.threads.Keys && kept !! gone;
    assert |s.threads.Keys| == |kept| + |gone|;
  }

  /** Eviction restores relevance from any state and removes exactly the irrelevant entries. */
  lemma EvictIdleRestores(s: State)
    ensures Relevant(EvictIdle(s))
    ensures forall t :: t in s.threads ==>
              (t in EvictIdle(s).threads <==> RelevantEntry(s, t))
              && (t in EvictIdle(s).threads ==> EvictIdle(s).threads[t] == s.threads[t])
    ensures |s.threads| - |EvictIdle(s).threads| == |set t | t in s.threads && !RelevantEntry(s, t)|
    ensures Sound(s) ==> Sound(EvictIdle(s))
  {
    EvictIdleCount(s);
    forall t | t in EvictIdle(s).threads
      ensures RelevantEntry(EvictIdle(s), t)
    {
      assert RelevantEntry(s, t);
    }
  }

  // ----- The lifecycle replay log -----

  datatype ReplayResult =
    | Replay(events: seq<Event>)
    | TooOld(requestedAfter: Sequence, oldest: Sequence, snapshot: State)

  const U64_MAX: nat := 0xFFFF_FFFF_FFFF_FFFF

  function SaturatingSucc(n: nat): nat {
    if n >= U64_MAX then U64_MAX else n + 1
  }

  function After(es: seq<Event>, sequence: Sequence): seq<Event> {
    if es == [] then []
    else if es[0].sequence > sequence then [es[0]] + After(es[1..], sequence)
    else After(es[1..], sequence)
  }

  predicate MustGap(log: seq<Event>, sequence: Sequence) {
    log != [] && SaturatingSucc(sequence) < log[0].sequence
  }

  predicate Between(low: Sequence, n: Sequence, high: Sequence) {
    low < n < high
  }

  /** A gap is reported exactly when some number between the request and the log is not in the log any more. */
  lemma MustGapIff(log: seq<Event>, sequence: Sequence)
    requires log != [] ==> log[0].sequence <= U64_MAX
    ensures MustGap(log, sequence) <==> log != [] && exists n :: Between(sequence, n, log[0].sequence)
  {
    if log != [] && sequence + 1 < log[0].sequence {
      assert Between(sequence, sequence + 1, log[0].sequence);
    }
  }

  function Lifecycles(es: seq<Event>): (r: seq<Event>)
    ensures forall e :: e in r ==> e.plane.Lifecycle? && e in es
  {
    if es == [] then []
    else if es[0].plane.Lifecycle? then [es[0]] + Lifecycles(es[1..])
    else Lifecycles(es[1..])
  }

  lemma {:induction false} LifecyclesAppend(es: seq<Event>, e: Event)
    ensures Lifecycles(es + [e]) == if e.plane.Lifecycle? then Lifecycles(es) + [e] else Lifecycles(es)
  {
    if es == [] {
      assert [e][1..] == [];
    } else {
      assert (es + [e])[1..] == es[1..] + [e];
      LifecyclesAppend(es[1..], e);
    }
  }

  function LastOf(es: seq<Event>, n: nat): seq<Event> {
    if |es| <= n then es else es[|es| - n..]
  }

  ghost predicate Increasing(es: seq<Event>) {
    forall i, j :: 0 <= i < j < |es| ==> es[i].sequence < es[j].sequence
  }

  lemma {:induction false} IncreasingLifecycles(es: seq<Event>)
    requires Increasing(es)
    ensures Increasing(Lifecycles(es))
  {
    if es != [] {
      var rest := es[1..];
      assert forall i :: 0 <= i < |rest| ==> rest[i] == es[i + 1];
      IncreasingLifecycles(rest);
      forall e | e in Lifecycles(rest)
        ensures es[0].sequence < e.sequence
      {
        var i :| 0 <= i < |rest| && rest[i] == e;
      }
    }
  }

  lemma {:induction false} AfterConcat(a: seq<Event>, b: seq<Event>, sequence: Sequence)
    ensures After(a + b, sequence) == After(a, sequence) + After(b, sequence)
  {
    if a == [] {
      assert a + b == b;
    } else {
      assert (a + b)[1..] == a[1..] + b;
      AfterConcat(a[1..], b, sequence);
    }
  }

  lemma {:induction false} AfterNothing(es: seq<Event>, sequence: Sequence)
    requires forall e :: e in es ==> e.sequence <= sequence
    ensures After(es, sequence) == []
  {
    if es != [] {
      assert es[0] in es;
      AfterNothing(es[1..], sequence);
    }
  }

  lemma {:induction false} AfterMember(es: seq<Event>, sequence: Sequence)
    ensures forall e :: e in After(es, sequence) <==> e in es && e.sequence > sequence
  {
    if es != [] {
      AfterMember(es[1..], sequence);
    }
  }

  /**
   A log that is a suffix of an increasing history answers either with everything after
   `sequence`, or with a gap.
   */
  lemma ReplayComplete(history: seq<Event>, capacity: nat, sequence: Sequence)
    requires Increasing(history) && capacity > 0
    requires forall e :: e in history ==> e.sequence <= U64_MAX
    requires !MustGap(LastOf(history, capacity), sequence)
    ensures After(LastOf(history, capacity), sequence) == After(history, sequence)
  {
    if |history| > capacity {
      var n := |history| - capacity;
      var lost := history[..n];
      assert history == lost + history[n..];
      AfterConcat(lost, history[n..], sequence);
      forall e | e in lost
        ensures e.sequence <= sequence
      {
        assert e in history && LastOf(history, capacity)[0] == history[n];
        var i :| 0 <= i < n && history[i] == e;
      }
      AfterNothing(lost, sequence);
    }
  }

  /** Which event the last dropped one is, if any was dropped. */
  function LastDropped(history: seq<Event>, capacity: nat): Option<Event> {
    if |history| > capacity then Some(history[|history| - capacity - 1]) else None
  }

  lemma LongerIsDifferent(a: seq<Event>, b: seq<Event>)
    requires a != []
    ensures a + b != b
  {
    assert |a + b| > |b|;
  }

  /** Forgetting a prefix changes the answer exactly when the prefix ends above the request. */
  lemma LossIff(lost: seq<Event>, rest: seq<Event>, sequence: Sequence)
    requires Increasing(lost) && lost != []
    ensures After(rest, sequence) != After(lost + rest, sequence) <==> lost[|lost| - 1].sequence > sequence
  {
    var n := |lost| - 1;
    AfterConcat(lost, rest, sequence);
    if lost[n].sequence > sequence {
      AfterMember(lost, sequence);
      assert lost[n] in After(lost, sequence);
      LongerIsDifferent(After(lost, sequence), After(rest, sequence));
    } else {
      forall e | e in lost
        ensures e.sequence <= sequence
      {
        var i :| 0 <= i <= n && lost[i] == e;
      }
      AfterNothing(lost, sequence);
      assert [] + After(rest, sequence) == After(rest, sequence);
    }
  }

  lemma PrefixIncreasing(es: seq<Event>, n: nat)
    requires Increasing(es) && n <= |es|
    ensures Increasing(es[..n])
  {
  }

  /**
   `GapTooOld` is conservative.  Asked below the log, it is a real loss exactly when the newest
   event that fell out of the log is newer than the request; in particular never while the log is
   shorter than its capacity.
   */
  lemma GapIsRealIff(history: seq<Event>, capacity: nat, sequence: Sequence)
    requires Increasing(history) && capacity > 0
    requires MustGap(LastOf(history, capacity), sequence)
    ensures After(LastOf(history, capacity), sequence) != After(history, sequence) <==>
            LastDropped(history, capacity).Some? && LastDropped(history, capacity).value.sequence > sequence
    ensures |LastOf(history, capacity)| < capacity ==>
              After(LastOf(history, capacity), sequence) == After(history, sequence)
  {
    if |history| > capacity {
      var n := |history| - capacity;
      PrefixIncreasing(history, n);
      LossIff(history[..n], history[n..], sequence);
      assert history[..n] + history[n..] == history;
    }
  }

  /** A gap without a loss: the feed starts with a delta, so the first lifecycle event has number 2. */
  lemma FalseAlarm(d: Event, e: Event, capacity: nat)
    requires Consecutive([d, e]) && d.plane.Delta? && e.plane.Lifecycle? && capacity > 0
    ensures var history := Lifecycles([d, e]);
            && history == [e] && LastDropped(history, capacity).None?
            && MustGap(LastOf(history, capacity), 0)
            && After(LastOf(history, capacity), 0) == After(history, 0) == [e]
  {
    assert [d, e][0] == d && [d, e][1] == e;
    assert [d, e][1..] == [e] && [e][1..] == [];
    assert Lifecycles([e]) == [e] + Lifecycles([]);
  }

  // ----- Waiters -----

  /** A registered waiter: its oneshot channel and its predicate. */
  datatype Waiter = Waiter(id: nat, wants: Event -> bool)

  function SwapRemove(ws: seq<Waiter>, i: nat): seq<Waiter>
    requires i < |ws|
  {
    ws[i := ws[|ws| - 1]][..|ws| - 1]
  }

  lemma SwapRemoveParts(ws: seq<Waiter>, i: nat)
    requires i < |ws|
    ensures multiset(SwapRemove(ws, i)) + multiset{ws[i]} == multiset(ws)
  {
    var n := |ws| - 1;
    var swapped := ws[i := ws[n]];
    assert ws == ws[..n] + [ws[n]];
    assert swapped == swapped[..n] + [swapped[n]];
    if i < n {
      assert swapped[..n] == ws[..n][i := ws[n]];
      assert multiset(swapped[..n]) == multiset(ws[..n])[ws[i] := multiset(ws[..n])[ws[i]] - 1] + multiset{ws[n]};
    }
  }

  /** The first event that satisfies the predicate. */
  function FirstMatch(wants: Event -> bool, es: seq<Event>): Option<Event> {
    if es == [] then None
    else if wants(es[0]) then Some(es[0])
    else FirstMatch(wants, es[1..])
  }

  lemma {:induction false} FirstMatchAppend(wants: Event -> bool, es: seq<Event>, e: Event)
    ensures FirstMatch(wants, es + [e]) ==
            if FirstMatch(wants, es).Some? then FirstMatch(wants, es)
            else if wants(e) then Some(e) else None
  {
    if es == [] {
      assert [e][1..] == [];
    } else {
      assert (es + [e])[1..] == es[1..] + [e];
      FirstMatchAppend(wants, es[1..], e);
    }
  }

  ghost predicate DistinctIds(ws: seq<Waiter>) {
    forall i, j :: 0 <= i < j < |ws| ==> ws[i].id != ws[j].id
  }

  lemma SwapRemoveDistinct(ws: seq<Waiter>, i: nat)
    requires i < |ws| && DistinctIds(ws)
    ensures DistinctIds(SwapRemove(ws, i))
    ensures forall w :: w in SwapRemove(ws, i) <==> w in ws && w.id != ws[i].id
  {
    var r := SwapRemove(ws, i);
    forall w | w in ws && w.id != ws[i].id
      ensures w in r
    {
      var j :| 0 <= j < |ws| && ws[j] == w;
      assert w == if j == |ws| - 1 then r[i] else r[j];
    }
  }

  /** A waiter's predicate and how many events had been applied when it was registered. */
  datatype Registration = Registration(wants: Event -> bool, since: nat)

  ghost predicate Waits(w: Waiter, registered: map<nat, Registration>, mailbox: map<nat, Event>) {
    w.id in registered && registered[w.id].wants == w.wants && w.id !in mailbox
  }

  /**
   The waiter has received exactly the first event applied after its registration that satisfies
   its predicate, or it is still in the list because there was none.
   */
  ghost predicate Served(
    id: nat, r: Registration, waiters: seq<Waiter>, mailbox: map<nat, Event>, applied: seq<Event>)
  {
    && r.since <= |applied|
    && (id in mailbox || exists w :: w in waiters && w.id == id)
    && FirstMatch(r.wants, applied[r.since..]) == if id in mailbox then Some(mailbox[id]) else None
  }

  ghost predicate WaitersOk(
    waiters: seq<Waiter>, next: nat, mailbox: map<nat, Event>, registered: map<nat, Registration>,
    applied: seq<Event>)
  {
    && DistinctIds(waiters)
    && (forall w :: w in waiters ==> Waits(w, registered, mailbox))
    && (forall id :: id in mailbox ==> id in registered)
    && (forall id :: id in registered ==> id < next && Served(id, registered[id], waiters, mailbox, applied))
  }

  /** One scan keeps `Served`: `ready` and `left` split the waiters by whether they want `e`. */
  lemma ScanServes(
    id: nat, r: Registration, e: Event, applied: seq<Event>,
    before: seq<Waiter>, ready: seq<Waiter>, left: seq<Waiter>,
    mailbox: map<nat, Event>, mailbox': map<nat, Event>)
    requires Served(id, r, before, mailbox, applied)
    requires forall w :: w in before && w.id == id ==> w.wants == r.wants
    requires forall w :: w in ready <==> w in before && w.wants(e)
    requires forall w :: w in left <==> w in before && !w.wants(e)
    requires forall w :: w in ready ==> w.id !in mailbox && w.id in mailbox' && mailbox'[w.id] == e
    requires id in mailbox' ==> id in mailbox || exists w :: w in ready && w.id == id
    requires id in mailbox ==> id in mailbox' && mailbox'[id] == mailbox[id]
    ensures Served(id, r, left, mailbox', applied + [e])
  {
    assert (applied + [e])[r.since..] == applied[r.since..] + [e];
    FirstMatchAppend(r.wants, applied[r.since..], e);
    if id !in mailbox {
      var w :| w in before && w.id == id;
      if w.wants(e) {
        assert w in ready;
      } else {
        assert w in left;
      }
    }
  }

  /** One scan keeps everybody's part of the bargain. */
  lemma ScanKeeps(
    e: Event, applied: seq<Event>, next: nat, registered: map<nat, Registration>,
    before: seq<Waiter>, ready: seq<Waiter>, left: seq<Waiter>,
    mailbox: map<nat, Event>, mailbox': map<nat, Event>)
    requires WaitersOk(before, next, mailbox, registered, applied) && DistinctIds(left)
    requires forall w :: w in ready <==> w in before && w.wants(e)
    requires forall w :: w in left <==> w in before && !w.wants(e)
    requires forall w, r :: w in left && r in ready ==> w.id != r.id
    requires forall id :: id in mailbox' <==> id in mailbox || exists w :: w in ready && w.id == id
    requires forall w :: w in ready ==> mailbox'[w.id] == e
    requires forall id :: id in mailbox ==> mailbox'[id] == mailbox[id]
    ensures WaitersOk(left, next, mailbox', registered, applied + [e])
  {
    forall w | w in left
      ensures Waits(w, registered, mailbox')
    {
      assert Waits(w, registered, mailbox);
    }
    forall id | id in registered
      ensures Served(id, registered[id], left, mailbox', applied + [e])
    {
      assert Served(id, registered[id], before, mailbox, applied);
      forall w | w in before && w.id == id
        ensures w.wants == registered[id].wants
      {
        assert Waits(w, registered, mailbox);
      }
      forall w | w in ready
        ensures w.id !in mailbox
      {
        assert Waits(w, registered, mailbox);
      }
      ScanServes(id, registered[id], e, applied, before, ready, left, mailbox, mailbox');
    }
    forall id | id in mailbox'
      ensures id in registered
    {
      if id !in mailbox {
        var w :| w in ready && w.id == id;
        assert Waits(w, registered, mailbox);
      }
    }
  }

  lemma ReadyAreUnserved(
    before: seq<Waiter>, next: nat, mailbox: map<nat, Event>, registered: map<nat, Registration>, applied: seq<Event>,
    ready: seq<Waiter>)
    requires WaitersOk(before, next, mailbox, registered, applied)
    requires forall w :: w in ready ==> w in before
    ensures forall w :: w in ready ==> w.id !in mailbox
  {
    assert forall w :: w in ready ==> Waits(w, registered, mailbox);
  }

  lemma NewWaiterDistinct(ws: seq<Waiter>, added: Waiter)
    requires DistinctIds(ws) && forall w :: w in ws ==> w.id < added.id
    ensures DistinctIds(ws + [added])
  {
    assert forall i :: 0 <= i < |ws| ==> ws[i] in ws && ws[i].id < added.id;
  }

  lemma NewWaiterServed(
    id: nat, r: Registration, ws: seq<Waiter>, added: Waiter, mailbox: map<nat, Event>, applied: seq<Event>)
    requires (id !in mailbox && id == added.id && r == Registration(added.wants, |applied|))
             || Served(id, r, ws, mailbox, applied)
    ensures Served(id, r, ws + [added], mailbox, applied)
  {
    if id == added.id && r.since == |applied| {
      assert applied[r.since..] == [];
      assert (ws + [added])[|ws|] == added;
    }
    if id !in mailbox && Served(id, r, ws, mailbox, applied) {
      var w :| w in ws && w.id == id;
      assert w in ws + [added];
    }
  }

  // ----- The reducer object -----

  class Reducer {
    const capacity: nat
    var atSequence: Sequence
    var threads: map<ThreadId, ThreadState>
    var subscribing: set<ThreadId>
    var log: seq<Event>
    var waiters: seq<Waiter>
    var nextWaiter: nat
    /** What each waiter's oneshot channel has received. */
    var mailbox: map<nat, Event>
    ghost var applied: seq<Event>
    ghost var registered: map<nat, Registration>

    ghost function View(): State
      reads this
    {
      State(atSequence, threads, subscribing)
    }

    ghost predicate LogValid()
      reads this
    {
      capacity > 0 && log == LastOf(Lifecycles(applied), capacity)
    }

    ghost predicate WaitersValid()
      reads this
    {
      WaitersOk(waiters, nextWaiter, mailbox, registered, applied)
    }

    ghost predicate Valid()
      reads this
    {
      LogValid() && WaitersValid()
    }

    constructor (capacity: nat)
      requires capacity > 0
      ensures Valid() && View() == INITIAL && applied == [] && registered == map[]
      ensures this.capacity == capacity
    {
      this.capacity := capacity;
      atSequence, threads, subscribing := 0, map[], {};
      log, waiters, nextWaiter, mailbox := [], [], 0, map[];
      applied, registered := [], map[];
    }

    /** The state critical section of `apply`. */
    method ApplyState(e: Event)
      modifies this`atSequence, this`threads
      ensures View() == Step(old(View()), ApplyOp(e))
    {
      atSequence := Max(atSequence, e.sequence);
      if e.threadId.Some? {
        var t := e.threadId.value;
        var pending := t in subscribing;
        var thread := if t in threads then threads[t] else Fresh(t);
        thread := thread.(lastSequence := e.sequence);
        match e.name {
          case Some(ThreadStarted) =>
            thread := thread.(status := "idle", raw := e.thread);
            thread := thread.(ephemeral := thread.raw.Some? && thread.raw.value.ephemeral);
          case Some(ThreadStatusChanged) =>
            var text := e.status.Text();
            thread := thread.(status := if text.Some? then text.value else "unknown");
          case Some(TurnStarted) =>
            thread := thread.(status := "active", activeTurn := e.turnId);
          case Some(TurnCompleted) =>
            if thread.activeTurn == e.turnId || e.turnId.None? {
              thread := thread.(activeTurn := None);
            }
            thread := thread.(status := "idle");
          case _ =>
        }
        threads := threads[t := thread];
        if !pending && Prunable(thread) {
          threads := threads - {t};
        }
      }
    }

    /** The log critical section of `apply`: append, then drop from the front while too long. */
    method AppendLog(e: Event)
      requires capacity > 0 && |log| <= capacity
      modifies this`log
      ensures log == if e.plane.Lifecycle? then LastOf(old(log) + [e], capacity) else old(log)
    {
      if e.plane.Lifecycle? {
        log := log + [e];
        while |log| > capacity
          invariant |log| <= |old(log)| + 1
          invariant |log| >= capacity || log == old(log) + [e]
          invariant log == LastOf(old(log) + [e], |log|)
        {
          log := log[1..];
        }
      }
    }

    /** The waiter critical section of `apply`: matching waiters are swap-removed in place. */
    method TakeReady(e: Event) returns (ready: seq<Waiter>)
      requires DistinctIds(waiters)
      modifies this`waiters
      ensures multiset(ready) + multiset(waiters) == multiset(old(waiters))
      ensures DistinctIds(waiters) && DistinctIds(ready)
      ensures forall w, r :: w in waiters && r in ready ==> w.id != r.id
      ensures forall w :: w in ready <==> w in old(waiters) && w.wants(e)
      ensures forall w :: w in waiters <==> w in old(waiters) && !w.wants(e)
    {
      ready := [];
      var index := 0;
      while index < |waiters|
        invariant index <= |waiters|
        invariant multiset(ready) + multiset(waiters) == multiset(old(waiters))
        invariant DistinctIds(waiters) && DistinctIds(ready)
        invariant forall w, r :: w in waiters && r in ready ==> w.id != r.id
        invariant forall w :: w in old(waiters) <==> w in waiters || w in ready
        invariant forall w :: w in ready ==> w.wants(e)
        invariant forall j :: 0 <= j < index ==> !waiters[j].wants(e)
        decreases |waiters| - index
      {
        if waiters[index].wants(e) {
          SwapRemoveParts(waiters, index);
          SwapRemoveDistinct(waiters, index);
          ready := ready + [waiters[index]];
          waiters := SwapRemove(waiters, index);
        } else {
          index := index + 1;
        }
      }
    }

    /** Sends `e` down the oneshot channel of every ready waiter. */
    method Send(ready: seq<Waiter>, e: Event)
      modifies this`mailbox
      ensures forall id :: id in mailbox <==> id in old(mailbox) || exists w :: w in ready && w.id == id
      ensures forall w :: w in ready ==> mailbox[w.id] == e
      ensures forall id :: id in old(mailbox) && (forall w :: w in ready ==> w.id != id) ==>
                mailbox[id] == old(mailbox)[id]
    {
      var i := 0;
      while i < |ready|
        invariant i <= |ready|
        invariant forall id :: id in mailbox <==> id in old(mailbox) || exists w :: w in ready[..i] && w.id == id
        invariant forall w :: w in ready[..i] ==> mailbox[w.id] == e
        invariant forall id :: id in old(mailbox) && (forall w :: w in ready[..i] ==> w.id != id) ==>
                    mailbox[id] == old(mailbox)[id]
      {
        assert ready[..i + 1] == ready[..i] + [ready[i]];
        mailbox := mailbox[ready[i].id := e];
        i := i + 1;
      }
      assert ready[..i] == ready;
    }

    /** Scans the waiters for `e` and fires the matching ones, each at most once in its life. */
    method NotifyWaiters(e: Event)
      requires WaitersValid()
      modifies this`waiters, this`mailbox, this`applied
      ensures WaitersValid() && applied == old(applied) + [e]
      ensures forall id :: id in old(mailbox) ==> id in mailbox && mailbox[id] == old(mailbox)[id]
    {
      var ready := TakeReady(e);
      Send(ready, e);
      applied := applied + [e];
      ReadyAreUnserved(old(waiters), nextWaiter, old(mailbox), registered, old(applied), ready);
      ScanKeeps(e, old(applied), nextWaiter, registered, old(waiters), ready, waiters, old(mailbox), mailbox);
    }

    method Apply(e: Event)
      requires Valid()
      modifies this
      ensures Valid() && applied == old(applied) + [e] && registered == old(registered)
      ensures View() == Step(old(View()), ApplyOp(e))
      ensures forall id :: id in old(mailbox) ==> id in mailbox && mailbox[id] == old(mailbox)[id]
      ensures EventShows(old(View()), View(), e)
    {
      ApplyState(e);
      AppendLog(e);
      NotifyWaiters(e);
      LifecyclesAppend(old(applied), e);
      ApplyShows(old(View()), e);
    }

    method RegisterWaiter(wants: Event -> bool) returns (id: nat)
      requires Valid()
      modifies this`waiters, this`nextWaiter, this`registered
      ensures Valid() && id !in old(registered)
      ensures registered == old(registered)[id := Registration(wants, |applied|)]
    {
      id := nextWaiter;
      nextWaiter := nextWaiter + 1;
      waiters := waiters + [Waiter(id, wants)];
      registered := registered[id := Registration(wants, |applied|)];
      NewWaiterDistinct(old(waiters), waiters[|waiters| - 1]);
      forall k | k in registered
        ensures Served(k, registered[k], waiters, mailbox, applied)
      {
        NewWaiterServed(k, registered[k], old(waiters), waiters[|waiters| - 1], mailbox, applied);
      }
    }

    /**
     `events_since`.  On a history numbered in increasing 64-bit sequences, a replay is everything
     ever applied on the lifecycle plane after `sequence`, in order.
     */
    method EventsSince(sequence: Sequence) returns (r: ReplayResult)
      requires Valid()
      ensures r.TooOld? <==> MustGap(log, sequence)
      ensures (log != [] ==> log[0].sequence <= U64_MAX) ==>
                (r.TooOld? <==> log != [] && exists n :: Between(sequence, n, log[0].sequence))
      ensures r.TooOld? ==> r == TooOld(sequence, log[0].sequence, View())
      ensures r.Replay? ==> r.events == After(log, sequence)
      ensures r.Replay? && Increasing(applied) && (forall e :: e in applied ==> e.sequence <= U64_MAX) ==>
                r.events == After(Lifecycles(applied), sequence)
    {
      if log != [] ==> log[0].sequence <= U64_MAX {
        MustGapIff(log, sequence);
      }
      if log != [] && SaturatingSucc(sequence) < log[0].sequence {
        return TooOld(sequence, log[0].sequence, State(atSequence, threads, subscribing));
      }
      r := Replay(After(log, sequence));
      if Increasing(applied) && forall e :: e in applied ==> e.sequence <= U64_MAX {
        IncreasingLifecycles(applied);
        ReplayComplete(Lifecycles(applied), capacity, sequence);
      }
    }

    method SetSubscribed(t: ThreadId, subscribed: bool)
      modifies this`threads, this`subscribing
      ensures View() == Step(old(View()), Subscribe(t, subscribed))
      ensures EntryOf(View(), t).subscribed == subscribed && t !in subscribing
      ensures SameFactsBut(old(View()), View(), t)
      ensures old(Valid()) ==> Valid()
    {
      if subscribed {
        FinishSubscription(t);
        return;
      }
      subscribing := subscribing - {t};
      if t in threads {
        threads := threads[t := threads[t].(subscribed := false)];
        if Prunable(threads[t]) {
          threads := threads - {t};
        }
      }
      assert t !in old(threads) ==> threads == old(threads);
    }

    method BeginSubscription(t: ThreadId)
      modifies this`threads, this`subscribing
      ensures View() == Step(old(View()), Begin(t))
      ensures t in threads && t in subscribing
      ensures SameFactsBut(old(View()), View(), t) && EntryOf(View(), t) == old(EntryOf(View(), t))
      ensures old(Valid()) ==> Valid()
    {
      subscribing := subscribing + {t};
      if t !in threads {
        threads := threads[t := Fresh(t)];
      }
    }

    method FinishSubscription(t: ThreadId)
      modifies this`threads, this`subscribing
      ensures View() == Step(old(View()), Finish(t))
      ensures t in threads && threads[t].subscribed && t !in subscribing
      ensures SameFactsBut(old(View()), View(), t)
      ensures old(Valid()) ==> Valid()
    {
      subscribing := subscribing - {t};
      if t !in threads {
        threads := threads[t := Fresh(t)];
      }
      threads := threads[t := threads[t].(subscribed := true)];
    }

    method CancelSubscription(t: ThreadId)
      modifies this`threads, this`subscribing
      ensures View() == Step(old(View()), Cancel(t))
      ensures t !in subscribing && (t in threads ==> RelevantEntry(View(), t))
      ensures SameFactsBut(old(View()), View(), t) && EntryOf(View(), t).subscribed == old(EntryOf(View(), t).subscribed)
      ensures old(Valid()) ==> Valid()
    {
      subscribing := subscribing - {t};
      if t in threads && Prunable(threads[t]) {
        threads := threads - {t};
      }
    }

    /** Returns how many entries nothing protected. */
    method EvictIdle() returns (removed: nat)
      modifies this`threads
      ensures View() == Step(old(View()), Evict)
      ensures old(Valid()) ==> Valid()
      ensures removed == |set t | t in old(threads) && !RelevantEntry(old(View()), t)|
    {
      EvictIdleRestores(View());
      var before := |threads|;
      threads := map t | t in threads && (t in subscribing || !Prunable(threads[t])) :: threads[t];
      removed := before - |threads|;
    }

    method ReconcileThread(raw: RawThread)
      modifies this`threads
      ensures View() == Step(old(View()), Reconcile(raw))
      ensures old(Valid()) ==> Valid()
      ensures raw.id.None? ==> threads == old(threads)
      ensures raw.id.Some? ==>
                var t := raw.id.value;
                && t in threads && threads[t].threadId == t
                && (forall i: nat :: NewestOpen(raw.turns, i) ==> threads[t].activeTurn == raw.turns[i].id)
                && ((forall i: nat :: !NewestOpen(raw.turns, i)) ==> threads[t].activeTurn == None)
                && threads[t].status == (if threads[t].activeTurn.Some? then "active"
                                         else if raw.status.Tagged? then raw.status.tag
                                         else if raw.status.Plain? then raw.status.text else "unknown")
                && threads[t].subscribed == old(EntryOf(View(), t).subscribed)
                && threads[t].ephemeral == raw.ephemeral && threads[t].raw == Some(raw)
                && threads[t].lastSequence == atSequence
                && (forall u :: u != t ==> EntryOf(View(), u) == old(EntryOf(View(), u)))
    {
      if raw.id.None? {
        return;
      }
      var t := raw.id.value;
      var text := raw.status.Text();
      var active := InFlightTurn(raw.turns);
      InFlightMeaning(raw.turns);
      var wasSubscribed := t in threads && threads[t].subscribed;
      threads := threads[t := ThreadState(
        t,
        if active.Some? then "active" else if text.Some? then text.value else "unknown",
        active,
        wasSubscribed,
        raw.ephemeral,
        atSequence,
        Some(raw))];
    }
  }
}
