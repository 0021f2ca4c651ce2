/**
 Explicit-target actions: they retry only what was provably not written and classify everything
 else conservatively.

 The class performs one action at a time against a scripted client.  The system below it runs any
 number of actions against the transport's own state machine, interleaved at every await.
 */
module Control {
  import opened Protocol
  import R = Reducer
  import T = Transport

  datatype Target = Turn(thread: ThreadId, turn: TurnId) | Thread(thread: ThreadId)

  /** What `request_action` returns; an accepted response may carry the id of the created turn. */
  datatype RpcResult =
    | Accepted(turn: Option<TurnId>)
    | Rejected
    | NotWritten
    | OutcomeUnknown
    | TimedOut
    | Closed

  datatype Note =
    | CompletionSeen
    | TerminalOnRead
    | NoTerminalEvidence
    | StartedSeen
    | TurnIdReturned
    | NoTurnId
    | RequestAccepted
    | WriteAmbiguous

  datatype Evidence = Evidence(correlation: nat, rpcAccepted: bool, observed: Option<Event>, note: Note)

  datatype Outcome =
    | Confirmed(target: Target, evidence: Evidence)
    | Refused(target: Target, byDaemon: bool)
    | Unknown(target: Target, evidence: Evidence)

  // ----- Classification -----

  predicate CompletionOf(e: Event, thread: ThreadId, turn: TurnId) {
    e.name == Some(TurnCompleted) && e.threadId == Some(thread) && e.turnId == Some(turn)
  }

  predicate StartOf(e: Event, thread: ThreadId) {
    e.name == Some(TurnStarted) && e.threadId == Some(thread)
  }

  function FindTurn(turns: seq<RawTurn>, turn: TurnId): Option<RawTurn> {
    if turns == [] then None
    else if turns[0].id == Some(turn) then Some(turns[0])
    else FindTurn(turns[1..], turn)
  }

  /** The target turn is terminal in what `thread/read` returned, if it returned a thread. */
  predicate TerminalInRead(read: Option<RawThread>, turn: TurnId) {
    read.Some? && FindTurn(read.value.turns, turn).Some? && FindTurn(read.value.turns, turn).value.status.Terminal()
  }

  function ReconcileInterrupt(
    thread: ThreadId, turn: TurnId, correlation: nat, accepted: bool, read: Option<RawThread>): Outcome
  {
    if TerminalInRead(read, turn) then
      Confirmed(Turn(thread, turn), Evidence(correlation, accepted, None, TerminalOnRead))
    else
      Unknown(Turn(thread, turn), Evidence(correlation, accepted, None, NoTerminalEvidence))
  }

  function ClassifyInterrupt(
    thread: ThreadId, turn: TurnId, correlation: nat, result: RpcResult, seen: Option<Event>, read: Option<RawThread>)
    : Outcome
  {
    match result
    case Accepted(_) =>
      if seen.Some? then Confirmed(Turn(thread, turn), Evidence(correlation, true, seen, CompletionSeen))
      else ReconcileInterrupt(thread, turn, correlation, true, read)
    case Rejected => Refused(Turn(thread, turn), true)
    case OutcomeUnknown => ReconcileInterrupt(thread, turn, correlation, false, read)
    case TimedOut => ReconcileInterrupt(thread, turn, correlation, false, read)
    case _ => Refused(Turn(thread, turn), false)
  }

  function ClassifyStart(thread: ThreadId, correlation: nat, result: RpcResult, seen: Option<Event>): Outcome {
    match result
    case Accepted(turn) =>
      if turn.Some? && seen.Some? && seen.value.turnId == turn then
        Confirmed(Thread(thread), Evidence(correlation, true, seen, StartedSeen))
      else if turn.Some? then
        Confirmed(Thread(thread), Evidence(correlation, true, None, TurnIdReturned))
      else Unknown(Thread(thread), Evidence(correlation, true, None, NoTurnId))
    case Rejected => Refused(Thread(thread), true)
    case OutcomeUnknown => Unknown(Thread(thread), Evidence(correlation, false, None, WriteAmbiguous))
    case TimedOut => Unknown(Thread(thread), Evidence(correlation, false, None, WriteAmbiguous))
    case _ => Refused(Thread(thread), false)
  }

  function ClassifySteer(thread: ThreadId, turn: TurnId, correlation: nat, result: RpcResult): Outcome {
    match result
    case Accepted(_) => Confirmed(Turn(thread, turn), Evidence(correlation, true, None, RequestAccepted))
    case Rejected => Refused(Turn(thread, turn), true)
    case OutcomeUnknown => Unknown(Turn(thread, turn), Evidence(correlation, false, None, WriteAmbiguous))
    case TimedOut => Unknown(Turn(thread, turn), Evidence(correlation, false, None, WriteAmbiguous))
    case _ => Refused(Turn(thread, turn), false)
  }

  /** What a read says about the status of the target turn. */
  function StatusRead(read: Option<RawThread>, turn: TurnId): TurnStatus {
    if read.Some? && FindTurn(read.value.turns, turn).Some? then FindTurn(read.value.turns, turn).value.status
    else NoStatus
  }

  /** The turn status that the evidence of an interrupt's outcome shows: the event's, or else the read's. */
  function StatusShown(outcome: Outcome, read: Option<RawThread>): TurnStatus
    requires !outcome.Refused? && outcome.target.Turn?
  {
    if outcome.evidence.observed.Some? then outcome.evidence.observed.value.turnStatus
    else StatusRead(read, outcome.target.turn)
  }

  /** The documented promise: a confirmed interrupt has evidence that its turn ended as interrupted. */
  predicate ConfirmsInterrupted(outcome: Outcome, read: Option<RawThread>)
    requires outcome.target.Turn?
  {
    outcome.Confirmed? && StatusShown(outcome, read).Interrupted?
  }

  function Completions(thread: ThreadId, turn: TurnId): Event -> bool {
    (e: Event) => CompletionOf(e, thread, turn)
  }

  function Starts(thread: ThreadId): Event -> bool {
    (e: Event) => StartOf(e, thread)
  }

  // ----- What an outcome means -----

  lemma {:induction false} FirstMatchFirst(wants: Event -> bool, es: seq<Event>)
    ensures R.FirstMatch(wants, es).None? <==> forall i :: 0 <= i < |es| ==> !wants(es[i])
    ensures R.FirstMatch(wants, es).Some? ==>
              exists i :: 0 <= i < |es| && es[i] == R.FirstMatch(wants, es).value && wants(es[i])
                          && forall j :: 0 <= j < i ==> !wants(es[j])
  {
    if es != [] {
      var rest := es[1..];
      FirstMatchFirst(wants, rest);
      if !wants(es[0]) && R.FirstMatch(wants, rest).Some? {
        var i :| 0 <= i < |rest| && rest[i] == R.FirstMatch(wants, rest).value && wants(rest[i])
                 && forall j :: 0 <= j < i ==> !wants(rest[j]);
        assert es[i + 1] == rest[i];
        assert forall j :: 0 < j < i + 1 ==> es[j] == rest[j - 1];
      }
      if !wants(es[0]) && R.FirstMatch(wants, rest).None? {
        assert forall j :: 0 < j < |es| ==> es[j] == rest[j - 1];
      }
    }
  }

  /** Position of the first turn with the target's id. */
  predicate FirstTurn(turns: seq<RawTurn>, turn: TurnId, k: nat) {
    k < |turns| && turns[k].id == Some(turn) && forall j :: 0 <= j < k ==> turns[j].id != Some(turn)
  }

  /** The read shows the target turn as completed, failed or interrupted. */
  ghost predicate ReadShowsOver(read: Option<RawThread>, turn: TurnId) {
    read.Some?
    && exists k: nat :: FirstTurn(read.value.turns, turn, k)
                        && var status := read.value.turns[k].status;
                        status.Completed? || status.Failed? || status.Interrupted?
  }

  lemma {:induction false} FindTurnFirst(turns: seq<RawTurn>, turn: TurnId)
    ensures forall k: nat :: FirstTurn(turns, turn, k) ==> FindTurn(turns, turn) == Some(turns[k])
    ensures FindTurn(turns, turn).Some? ==> exists k: nat :: FirstTurn(turns, turn, k)
  {
    if turns != [] {
      var rest := turns[1..];
      FindTurnFirst(rest, turn);
      assert forall k :: 0 <= k < |rest| ==> rest[k] == turns[k + 1];
      if turns[0].id == Some(turn) {
        assert FirstTurn(turns, turn, 0);
      } else {
        forall k: nat | FirstTurn(turns, turn, k)
          ensures FirstTurn(rest, turn, k - 1)
        {
        }
        if k: nat :| FirstTurn(rest, turn, k) {
          assert FirstTurn(turns, turn, k + 1);
        }
      }
    }
  }

  lemma TerminalMeaning(read: Option<RawThread>, turn: TurnId)
    ensures TerminalInRead(read, turn) <==> ReadShowsOver(read, turn)
  {
    if read.Some? {
      FindTurnFirst(read.value.turns, turn);
    }
  }

  /** A `turn/completed` of exactly this turn. */
  ghost predicate Completes(e: Event, thread: ThreadId, turn: TurnId) {
    e.name == Some(TurnCompleted) && e.threadId == Some(thread) && e.turnId == Some(turn)
  }

  /**
   When an interrupt is confirmed, unknown or refused: confirmed by a completion seen after an accepted
   response, or, with nothing seen or an ambiguous reply, by a read that shows the turn over.
   */
  ghost predicate InterruptVerdict(
    outcome: Outcome, result: RpcResult, window: seq<Event>, read: Option<RawThread>, thread: ThreadId, turn: TurnId)
  {
    var seen := exists e :: e in window && Completes(e, thread, turn);
    var asks := (result.Accepted? && !seen) || result.OutcomeUnknown? || result.TimedOut?;
    && outcome.target == Turn(thread, turn)
    && (outcome.Confirmed? <==> (result.Accepted? && seen) || (asks && ReadShowsOver(read, turn)))
    && (outcome.Unknown? <==> asks && !ReadShowsOver(read, turn))
    && (outcome.Refused? <==> result.Rejected? || result.NotWritten? || result.Closed?)
    && (outcome.Refused? ==> (outcome.byDaemon <==> result.Rejected?))
    && (!outcome.Refused? ==>
          && (outcome.evidence.rpcAccepted <==> result.Accepted?)
          && (outcome.evidence.observed.Some? <==> result.Accepted? && seen)
          && (outcome.evidence.observed.Some? ==> Completes(outcome.evidence.observed.value, thread, turn)))
  }

  /** Position of the first `turn/started` of the thread. */
  ghost predicate FirstStart(window: seq<Event>, thread: ThreadId, k: nat) {
    && k < |window| && window[k].name == Some(TurnStarted) && window[k].threadId == Some(thread)
    && forall j :: 0 <= j < k ==> !(window[j].name == Some(TurnStarted) && window[j].threadId == Some(thread))
  }

  /** A start is confirmed exactly by a returned turn id, and has evidence exactly if the first start seen has it. */
  ghost predicate StartVerdict(outcome: Outcome, result: RpcResult, window: seq<Event>, thread: ThreadId) {
    var returned := if result.Accepted? then result.turn else None;
    && outcome.target == Thread(thread)
    && (outcome.Confirmed? <==> returned.Some?)
    && (outcome.Unknown? <==> (result.Accepted? && returned.None?) || result.OutcomeUnknown? || result.TimedOut?)
    && (outcome.Refused? <==> result.Rejected? || result.NotWritten? || result.Closed?)
    && (outcome.Refused? ==> (outcome.byDaemon <==> result.Rejected?))
    && (!outcome.Refused? ==> (outcome.evidence.rpcAccepted <==> result.Accepted?))
    && (outcome.Confirmed? ==>
          && (forall k: nat :: FirstStart(window, thread, k) ==>
                outcome.evidence.observed == if window[k].turnId == returned then Some(window[k]) else None)
          && ((forall k: nat :: !FirstStart(window, thread, k)) ==> outcome.evidence.observed == None))
  }

  /** A steer is confirmed exactly by acceptance, on exactly its thread and turn. */
  ghost predicate SteerVerdict(outcome: Outcome, result: RpcResult, thread: ThreadId, turn: TurnId) {
    && outcome.target == Turn(thread, turn)
    && (outcome.Confirmed? <==> result.Accepted?)
    && (outcome.Unknown? <==> result.OutcomeUnknown? || result.TimedOut?)
    && (outcome.Refused? <==> result.Rejected? || result.NotWritten? || result.Closed?)
    && (outcome.Refused? ==> (outcome.byDaemon <==> result.Rejected?))
    && (!outcome.Refused? ==> (outcome.evidence.rpcAccepted <==> result.Accepted?) && outcome.evidence.observed.None?)
  }

  lemma CompletionMatched(thread: ThreadId, turn: TurnId, window: seq<Event>)
    ensures var seen := R.FirstMatch(Completions(thread, turn), window);
            && (seen.Some? <==> exists e :: e in window && Completes(e, thread, turn))
            && (seen.Some? ==> Completes(seen.value, thread, turn))
  {
    var wants := Completions(thread, turn);
    FirstMatchFirst(wants, window);
    forall e | e in window && Completes(e, thread, turn)
      ensures R.FirstMatch(wants, window).Some?
    {
      var i :| 0 <= i < |window| && window[i] == e;
      assert wants(window[i]);
    }
    if R.FirstMatch(wants, window).Some? {
      var i :| 0 <= i < |window| && window[i] == R.FirstMatch(wants, window).value && wants(window[i])
               && forall j :: 0 <= j < i ==> !wants(window[j]);
      assert window[i] in window && Completes(window[i], thread, turn);
    }
  }

  lemma InterruptMeaning(thread: ThreadId, turn: TurnId, correlation: nat, result: RpcResult, window: seq<Event>,
                         read: Option<RawThread>)
    ensures var seen := R.FirstMatch(Completions(thread, turn), window);
            InterruptVerdict(ClassifyInterrupt(thread, turn, correlation, result, seen, read),
                             result, window, read, thread, turn)
  {
    CompletionMatched(thread, turn, window);
    TerminalMeaning(read, turn);
  }

  lemma FirstStartSeen(thread: ThreadId, window: seq<Event>)
    ensures var seen := R.FirstMatch(Starts(thread), window);
            && (forall k: nat :: FirstStart(window, thread, k) ==> seen == Some(window[k]))
            && ((forall k: nat :: !FirstStart(window, thread, k)) ==> seen == None)
  {
    var seen := R.FirstMatch(Starts(thread), window);
    FirstMatchFirst(Starts(thread), window);
    if seen.Some? {
      var i :| 0 <= i < |window| && window[i] == seen.value && Starts(thread)(window[i])
               && forall j :: 0 <= j < i ==> !Starts(thread)(window[j]);
      assert FirstStart(window, thread, i);
      assert forall k: nat :: FirstStart(window, thread, k) ==> k == i;
    } else {
      forall k: nat
        ensures !FirstStart(window, thread, k)
      {
        assert k < |window| ==> !Starts(thread)(window[k]);
      }
    }
  }

  lemma StartMeaning(thread: ThreadId, correlation: nat, result: RpcResult, window: seq<Event>)
    ensures StartVerdict(ClassifyStart(thread, correlation, result, R.FirstMatch(Starts(thread), window)),
                         result, window, thread)
  {
    FirstMatchFirst(Starts(thread), window);
    FirstStartSeen(thread, window);
  }

  // ----- One action at a time -----

  /** The result `send_not_written_safe` returns and how many requests it took. */
  ghost predicate SendsSafely(replies: nat -> RpcResult, retries: nat, result: RpcResult, tries: nat) {
    && 1 <= tries <= retries + 1
    && result == replies(tries - 1)
    && (forall i :: 0 <= i < tries - 1 ==> replies(i).NotWritten?)
    && (result.NotWritten? ==> tries == retries + 1)
  }

  class Controller {
    const retries: nat
    const reducer: R.Reducer
    var locks: map<ThreadId, nat>
    var nextLock: nat
    var nextCorrelation: nat

    /** Distinct threads have distinct locks. */
    ghost predicate Valid()
      reads this
    {
      && (forall t :: t in locks ==> locks[t] < nextLock)
      && (forall t, u :: t in locks && u in locks && locks[t] == locks[u] ==> t == u)
    }

    constructor (reducer: R.Reducer, retries: nat)
      ensures Valid() && this.reducer == reducer && this.retries == retries
    {
      this.reducer, this.retries := reducer, retries;
      locks, nextLock, nextCorrelation := map[], 0, 1;
    }

    /** The lock of a thread, created on first use and the same ever after. */
    method LockFor(t: ThreadId) returns (lock: nat)
      requires Valid()
      modifies this`locks, this`nextLock
      ensures Valid() && t in locks && lock == locks[t]
      ensures forall u :: u in old(locks) ==> u in locks && locks[u] == old(locks)[u]
      ensures forall u :: u in locks && u != t ==> u in old(locks)
    {
      if t !in locks {
        locks := locks[t := nextLock];
        nextLock := nextLock + 1;
      }
      lock := locks[t];
    }

    method NextCorrelation() returns (correlation: nat)
      modifies this`nextCorrelation
      ensures correlation == old(nextCorrelation) && nextCorrelation == correlation + 1
    {
      correlation := nextCorrelation;
      nextCorrelation := nextCorrelation + 1;
    }

    /** Requests again only while the reply proves that nothing was written. */
    method SendNotWrittenSafe(replies: nat -> RpcResult) returns (result: RpcResult, tries: nat)
      ensures SendsSafely(replies, retries, result, tries)
    {
      var retried := 0;
      result, tries := replies(0), 1;
      while result.NotWritten? && retried < retries
        invariant retried <= retries && tries == retried + 1
        invariant result == replies(tries - 1)
        invariant forall i :: 0 <= i < tries - 1 ==> replies(i).NotWritten?
        decreases retries - retried
      {
        retried := retried + 1;
        result := replies(tries);
        tries := tries + 1;
      }
    }

    /** The ingress applies `window` while the action waits; returns what the waiter received. */
    method Await(id: nat, window: seq<Event>) returns (seen: Option<Event>)
      requires reducer.Valid() && id in reducer.registered
      requires reducer.registered[id].since == |reducer.applied|
      modifies reducer
      ensures reducer.Valid() && reducer.applied == old(reducer.applied) + window
      ensures seen == R.FirstMatch(old(reducer.registered)[id].wants, window)
    {
      ghost var before := reducer.applied;
      var i := 0;
      while i < |window|
        invariant i <= |window|
        invariant reducer.Valid() && reducer.registered == old(reducer.registered)
        invariant reducer.applied == before + window[..i]
      {
        assert window[..i + 1] == window[..i] + [window[i]];
        reducer.Apply(window[i]);
        i := i + 1;
      }
      assert window[..i] == window;
      assert (before + window)[|before|..] == window;
      assert R.Served(id, reducer.registered[id], reducer.waiters, reducer.mailbox, reducer.applied);
      seen := if id in reducer.mailbox then Some(reducer.mailbox[id]) else None;
    }

    /**
     `interrupt`: the waiter is registered before the request, so the evidence is the first
     completion of exactly this turn among everything applied from then on, early or late.
     */
    method Interrupt(
      thread: ThreadId, turn: TurnId, replies: nat -> RpcResult, window: seq<Event>, read: Option<RawThread>)
      returns (outcome: Outcome, ghost result: RpcResult, ghost tries: nat)
      requires Valid() && reducer.Valid()
      modifies this, reducer
      ensures Valid() && reducer.Valid() && reducer.applied == old(reducer.applied) + window
      ensures SendsSafely(replies, retries, result, tries)
      ensures outcome == ClassifyInterrupt(
                           thread, turn, old(nextCorrelation), result,
                           R.FirstMatch(Completions(thread, turn), window), read)
      ensures InterruptVerdict(outcome, result, window, read, thread, turn)
    {
      var _ := LockFor(thread);
      var correlation := NextCorrelation();
      var id := reducer.RegisterWaiter(Completions(thread, turn));
      var reply, n := SendNotWrittenSafe(replies);
      var seen := Await(id, window);
      outcome := ClassifyInterrupt(thread, turn, correlation, reply, seen, read);
      InterruptMeaning(thread, turn, correlation, reply, window, read);
      result, tries := reply, n;
    }

    method Start(thread: ThreadId, replies: nat -> RpcResult, window: seq<Event>)
      returns (outcome: Outcome, ghost result: RpcResult, ghost tries: nat)
      requires Valid() && reducer.Valid()
      modifies this, reducer
      ensures Valid() && reducer.Valid() && reducer.applied == old(reducer.applied) + window
      ensures SendsSafely(replies, retries, result, tries)
      ensures outcome == ClassifyStart(thread, old(nextCorrelation), result,
                                       R.FirstMatch(Starts(thread), window))
      ensures StartVerdict(outcome, result, window, thread)
    {
      var _ := LockFor(thread);
      var correlation := NextCorrelation();
      var id := reducer.RegisterWaiter(Starts(thread));
      var reply, n := SendNotWrittenSafe(replies);
      var seen := Await(id, window);
      outcome := ClassifyStart(thread, correlation, reply, seen);
      StartMeaning(thread, correlation, reply, window);
      result, tries := reply, n;
    }

    method Steer(thread: ThreadId, turn: TurnId, replies: nat -> RpcResult)
      returns (outcome: Outcome, ghost result: RpcResult, ghost tries: nat)
      requires Valid()
      modifies this
      ensures Valid() && SendsSafely(replies, retries, result, tries)
      ensures outcome == ClassifySteer(thread, turn, old(nextCorrelation), result)
      ensures SteerVerdict(outcome, result, thread, turn)
    {
      var _ := LockFor(thread);
      var correlation := NextCorrelation();
      var reply, n := SendNotWrittenSafe(replies);
      outcome := ClassifySteer(thread, turn, correlation, reply);
      result, tries := reply, n;
    }
  }

  /**
   An accepted interrupt of a turn that simply completed is confirmed all the same: the code looks at
   the ids of a completion and not at its status.
   */
  method CompletedTurnConfirms(controller: Controller, e: Event, thread: ThreadId, turn: TurnId)
    returns (outcome: Outcome)
    requires controller.Valid() && controller.reducer.Valid()
    requires CompletionOf(e, thread, turn) && e.turnStatus.Completed?
    modifies controller, controller.reducer
    ensures outcome.Confirmed? && outcome.target == Turn(thread, turn) && outcome.evidence.observed == Some(e)
    ensures !ConfirmsInterrupted(outcome, None)
  {
    ghost var result, tries;
    outcome, result, tries := controller.Interrupt(thread, turn, _ => Accepted(None), [e], None);
  }

  // ----- Any number of actions over the transport -----

  datatype Kind = Interrupting | Starting | Steering

  datatype Phase =
    | Queueing                    // waiting for the thread's lock
    | Ready                       // about to call `request_action`
    | Holding(id: RpcId)          // id drawn, command not yet in the queue
    | Awaiting(id: RpcId)         // command in the queue, oneshot open
    | Sleeping
    | Replied(result: RpcResult)
    | Watched(result: RpcResult, seen: Option<Event>, upto: nat)   // the waiter answered or timed out
    | ReadHolding(result: RpcResult, upto: nat, id: RpcId)         // `thread/read` drawn, not yet in the queue
    | ReadAwaiting(result: RpcResult, upto: nat, id: RpcId)        // `thread/read` in the queue
    | Dropped                     // the caller dropped the future
    | Finished(result: RpcResult, seen: Option<Event>, upto: nat, read: Option<RawThread>, outcome: Outcome)

  /**
   `ids` are the request ids the action has drawn so far, `tries` its calls of `request_action` and
   `replies` what they returned.  `since` and `base` say when its waiter was registered: how many
   events the reducer had scanned its waiters for, and how much the socket had shown.  `readId` is the
   id of the `thread/read` an interrupt falls back on, `asked` what the socket had shown by then.
   */
  datatype Call = Call(
    kind: Kind, thread: ThreadId, turn: TurnId, correlation: nat, since: nat, base: nat,
    phase: Phase, retried: nat, tries: nat, ids: seq<RpcId>, replies: seq<RpcResult>,
    readId: Option<RpcId>, asked: nat)

  /**
   `holders` says which call has each thread's lock.  Of the transport's feed the reducer has scanned
   its waiters for the first `scanned` events and fired those that matched the first `notified`.
   */
  datatype System = System(
    wire: T.Wire, calls: map<nat, Call>, holders: map<ThreadId, nat>, nextCorrelation: nat,
    scanned: nat, notified: nat)

  datatype Config = Config(transport: T.Config, retries: nat)

  datatype Action =
    | Elsewhere(action: T.Action)    // the connection loop, or any other client
    | Open(c: nat, kind: Kind, thread: ThreadId, turn: TurnId)
    | Acquire(c: nat)
    | Request(c: nat)
    | Submit(c: nat)
    | Deliver(c: nat, created: Option<TurnId>)
    | Expire(c: nat)
    | Wake(c: nat)
    | Scan                           // ingress: the reducer's waiter lock
    | Fire                           // ingress: the oneshots of the waiters that matched
    | Observe(c: nat)                // the waiter, or its time-out if nothing has come by now
    | Conclude(c: nat)
    | AskRead(c: nat)
    | SubmitRead(c: nat)
    | DeliverRead(c: nat, answer: Option<RawThread>)
    | ExpireRead(c: nat)
    | Drop(c: nat)

  /** The retry rule of `send_not_written_safe`. */
  function Reply(retries: nat, call: Call, result: RpcResult): Call {
    var told := call.(replies := call.replies + [result]);
    if result.NotWritten? && call.retried < retries then told.(phase := Sleeping, retried := call.retried + 1)
    else told.(phase := Replied(result))
  }

  function FromVerdict(v: T.Verdict, turn: Option<TurnId>): RpcResult {
    match v
    case Accepted => Accepted(turn)
    case Rejected => Rejected
    case NotWritten => NotWritten
    case OutcomeUnknown => OutcomeUnknown
  }

  function Classify(call: Call, result: RpcResult, seen: Option<Event>, read: Option<RawThread>): Outcome {
    match call.kind
    case Interrupting => ClassifyInterrupt(call.thread, call.turn, call.correlation, result, seen, read)
    case Starting => ClassifyStart(call.thread, call.correlation, result, seen)
    case Steering => ClassifySteer(call.thread, call.turn, call.correlation, result)
  }

  /** The events of the feed from the registration on up to `upto`. */
  function Window(feed: seq<Event>, since: nat, upto: nat): seq<Event> {
    if since <= upto <= |feed| then feed[since..upto] else []
  }

  /** What the call's waiter has received by the time `upto` events were fired; only an accepted call waits. */
  function SeenBy(call: Call, feed: seq<Event>, result: RpcResult, upto: nat): Option<Event> {
    if !result.Accepted? then None
    else match call.kind
         case Interrupting => R.FirstMatch(Completions(call.thread, call.turn), Window(feed, call.since, upto))
         case Starting => R.FirstMatch(Starts(call.thread), Window(feed, call.since, upto))
         case Steering => None
  }

  /** An interrupt that was or may have been written, and saw nothing, reads its thread back. */
  predicate NeedsRead(kind: Kind, result: RpcResult, seen: Option<Event>) {
    kind.Interrupting? && seen.None? && (result.Accepted? || result.OutcomeUnknown? || result.TimedOut?)
  }

  /** The id a call has drawn and not yet put into the queue. */
  function HeldId(call: Call): Option<RpcId> {
    match call.phase
    case Holding(id) => Some(id)
    case ReadHolding(_, _, id) => Some(id)
    case _ => None
  }

  predicate HeldBySome(s: System, id: RpcId) {
    exists c :: c in s.calls && HeldId(s.calls[c]) == Some(id)
  }

  predicate Active(call: Call) {
    !call.phase.Queueing? && !call.phase.Finished? && !call.phase.Dropped?
  }

  function With(s: System, c: nat, call: Call): System {
    s.(calls := s.calls[c := call])
  }

  predicate OfCall(a: Action) {
    !a.Elsewhere? && !a.Open? && !a.Scan? && !a.Fire?
  }

  /** The call reports its outcome and releases the lock. */
  function Finish(s: System, c: nat, call: Call, result: RpcResult, seen: Option<Event>, upto: nat,
                  read: Option<RawThread>): System
  {
    With(s, c, call.(phase := Finished(result, seen, upto, read, Classify(call, result, seen, read))))
      .(holders := s.holders - {call.thread})
  }

  function CallStep(config: Config, s: System, a: Action, call: Call): System
    requires OfCall(a)
  {
    match a
    case Acquire(c) =>
      if call.phase.Queueing? && call.thread !in s.holders then
        With(s, c, call.(phase := Ready, correlation := s.nextCorrelation,
                        since := s.scanned, base := |s.wire.reqs.trace|))
          .(holders := s.holders[call.thread := c], nextCorrelation := s.nextCorrelation + 1)
      else s
    case Request(c) =>
      if !call.phase.Ready? then s
      else if !s.wire.ready then
        With(s, c, Reply(config.retries, call.(tries := call.tries + 1), NotWritten))
      else
        var id := Number(s.wire.reqs.nextId);
        With(s, c, call.(phase := Holding(id), tries := call.tries + 1, ids := call.ids + [id]))
          .(wire := T.Step(config.transport, s.wire, T.Allocate))
    case Submit(c) =>
      if !call.phase.Holding? then s
      else
        With(s, c, if s.wire.live then call.(phase := Awaiting(call.phase.id))
                   else Reply(config.retries, call, Closed))
          .(wire := T.Step(config.transport, s.wire, T.Enqueue(call.phase.id)))
    case Deliver(c, turn) =>
      if !call.phase.Awaiting? then s
      else if call.phase.id in s.wire.reqs.verdicts then
        With(s, c, Reply(config.retries, call, FromVerdict(s.wire.reqs.verdicts[call.phase.id], turn)))
      else if call.phase.id in s.wire.reqs.dropped then
        With(s, c, Reply(config.retries, call, Closed))
      else s
    case Expire(c) =>
      if call.phase.Awaiting? && call.phase.id !in s.wire.reqs.verdicts && call.phase.id !in s.wire.reqs.dropped then
        With(s, c, Reply(config.retries, call, TimedOut))
      else s
    case Wake(c) =>
      if call.phase.Sleeping? then With(s, c, call.(phase := Ready)) else s
    case Observe(c) =>
      if call.phase.Replied? then
        var upto := Max(call.since, s.notified);
        With(s, c, call.(phase := Watched(call.phase.result, SeenBy(call, s.wire.feed, call.phase.result, upto), upto)))
      else s
    case Conclude(c) =>
      if call.phase.Watched? && !NeedsRead(call.kind, call.phase.result, call.phase.seen) then
        Finish(s, c, call, call.phase.result, call.phase.seen, call.phase.upto, None)
      else s
    case AskRead(c) =>
      if call.phase.Watched? && NeedsRead(call.kind, call.phase.result, call.phase.seen) then
        var id := Number(s.wire.reqs.nextId);
        With(s, c, call.(phase := ReadHolding(call.phase.result, call.phase.upto, id), readId := Some(id),
                         asked := |s.wire.reqs.trace|))
          .(wire := T.Step(config.transport, s.wire, T.Allocate))
      else s
    case SubmitRead(c) =>
      if call.phase.ReadHolding? then
        With(s, c, call.(phase := ReadAwaiting(call.phase.result, call.phase.upto, call.phase.id)))
          .(wire := T.Step(config.transport, s.wire, T.Enqueue(call.phase.id)))
      else s
    case DeliverRead(c, answer) =>
      if !call.phase.ReadAwaiting? then s
      else if call.phase.id in s.wire.reqs.verdicts then
        Finish(s, c, call, call.phase.result, None, call.phase.upto,
               if s.wire.reqs.verdicts[call.phase.id].Accepted? then answer else None)
      else if call.phase.id in s.wire.reqs.dropped then
        Finish(s, c, call, call.phase.result, None, call.phase.upto, None)
      else s
    case ExpireRead(c) =>
      if call.phase.ReadAwaiting? && call.phase.id !in s.wire.reqs.verdicts && call.phase.id !in s.wire.reqs.dropped then
        Finish(s, c, call, call.phase.result, None, call.phase.upto, None)
      else s
    case Drop(c) =>
      if call.phase.Finished? || call.phase.Dropped? then s
      else
        With(s, c, call.(phase := Dropped))
          .(holders := if Active(call) then s.holders - {call.thread} else s.holders)
  }

  /** One atomic action; one that is not enabled leaves the system as it is. */
  ghost function Step(config: Config, s: System, a: Action): System {
    match a
    case Elsewhere(action) =>
      if action.Enqueue? && HeldBySome(s, action.id) then s
      else s.(wire := T.Step(config.transport, s.wire, action))
    case Open(c, kind, thread, turn) =>
      if c in s.calls then s else With(s, c, Call(kind, thread, turn, 0, 0, 0, Queueing, 0, 0, [], [], None, 0))
    case Scan => if s.scanned == s.notified && s.scanned < |s.wire.feed| then s.(scanned := s.scanned + 1) else s
    case Fire => s.(notified := s.scanned)
    case _ =>
      if a.c !in s.calls then s else CallStep(config, s, a, s.calls[a.c])
  }

  ghost function Run(config: Config, s: System, actions: seq<Action>): System
    decreases |actions|
  {
    if actions == [] then s else Run(config, Step(config, s, actions[0]), actions[1..])
  }

  function Initial(config: Config): System {
    System(T.Initial(config.transport), map[], map[], 1, 0, 0)
  }

  // ----- Invariant -----

  ghost predicate AllNotWritten(r: T.Requests, ids: seq<RpcId>) {
    forall i :: 0 <= i < |ids| ==> ids[i] in r.verdicts && r.verdicts[ids[i]] == T.NotWritten
  }

  /** All ids but the last were provably not written. */
  ghost predicate LastOpen(r: T.Requests, ids: seq<RpcId>) {
    ids != [] && AllNotWritten(r, ids[..|ids| - 1])
  }

  /** What the caller was told is what the transport recorded for the last id. */
  ghost predicate ResultTrue(r: T.Requests, ids: seq<RpcId>, result: RpcResult) {
    if result.NotWritten? then AllNotWritten(r, ids)
    else
      && LastOpen(r, ids)
      && var last := ids[|ids| - 1];
      match result
      case Accepted(_) => last in r.verdicts && r.verdicts[last] == T.Accepted
      case Rejected => last in r.verdicts && r.verdicts[last] == T.Rejected
      case OutcomeUnknown => last in r.verdicts && r.verdicts[last] == T.OutcomeUnknown
      case Closed => last in r.dropped
      case TimedOut => true
  }

  /** The call of `request_action` under way, if any, has not returned yet. */
  predicate InRequest(phase: Phase) {
    phase.Holding? || phase.Awaiting?
  }

  predicate Answered(phase: Phase) {
    phase.Replied? || phase.Watched? || phase.ReadHolding? || phase.ReadAwaiting? || phase.Finished?
  }

  /** Every reply but the last was `NotWritten`, and the last one was returned for good. */
  ghost predicate RepliesTrue(config: Config, call: Call) {
    && call.retried <= config.retries
    && (forall i :: 0 <= i < call.retried ==> i < |call.replies| && call.replies[i].NotWritten?)
    && call.retried <= |call.replies| <= call.tries <= call.retried + 1
    && (!call.phase.Dropped? ==>
          && |call.replies| == (if Answered(call.phase) then call.retried + 1 else call.retried)
          && call.tries == (if Answered(call.phase) || InRequest(call.phase) then call.retried + 1 else call.retried))
    && (Answered(call.phase) ==>
          && call.phase.result == call.replies[call.retried]
          && (call.phase.result.NotWritten? ==> call.retried == config.retries))
  }

  ghost predicate CallInv(config: Config, r: T.Requests, call: Call) {
    && RepliesTrue(config, call)
    && |call.ids| <= call.tries
    && (HeldId(call).Some? ==> HeldId(call).value in r.issued)
    && match call.phase
       case Queueing => call.ids == []
       case Ready => AllNotWritten(r, call.ids)
       case Sleeping => AllNotWritten(r, call.ids)
       case Holding(id) => LastOpen(r, call.ids) && call.ids[|call.ids| - 1] == id
       case Awaiting(id) => LastOpen(r, call.ids) && call.ids[|call.ids| - 1] == id
       case Dropped => AllNotWritten(r, call.ids) || LastOpen(r, call.ids)
       case _ => ResultTrue(r, call.ids, call.phase.result)
  }

  /** A read comes with an accepted response to the call's own `thread/read`. */
  ghost predicate ReadTrue(r: T.Requests, call: Call) {
    && (call.phase.Queueing? ==> call.readId.None?)
    && (call.phase.Finished? && NeedsRead(call.kind, call.phase.result, call.phase.seen) ==> call.readId.Some?)
    && (call.phase.ReadHolding? || call.phase.ReadAwaiting? ==> call.readId == Some(call.phase.id))
    && (call.phase.Finished? && call.phase.read.Some? ==>
          && call.readId.Some? && call.readId.value in r.verdicts
          && r.verdicts[call.readId.value] == T.Accepted)
  }

  /** No two calls hold the same id. */
  ghost predicate HeldApart(s: System) {
    forall c, d :: c in s.calls && d in s.calls && c != d && HeldId(s.calls[c]).Some? ==>
      HeldId(s.calls[c]) != HeldId(s.calls[d])
  }

  ghost predicate LocksTrue(s: System) {
    forall c :: c in s.calls && Active(s.calls[c]) ==>
      s.calls[c].thread in s.holders && s.holders[s.calls[c].thread] == c
  }

  ghost predicate Inv(config: Config, s: System) {
    && T.Inv(s.wire)
    && (forall c :: c in s.calls ==> CallInv(config, s.wire.reqs, s.calls[c]) && ReadTrue(s.wire.reqs, s.calls[c]))
    && HeldApart(s) && LocksTrue(s)
  }

  /** What a call knows stays true as long as the id it holds stays in its hands. */
  lemma CallInvLater(config: Config, r: T.Requests, r': T.Requests, call: Call)
    requires CallInv(config, r, call) && ReadTrue(r, call) && T.Extends(r, r')
    requires HeldId(call).Some? ==> HeldId(call).value in r'.issued
    ensures CallInv(config, r', call) && ReadTrue(r', call)
  {
  }

  lemma ReplyInv(config: Config, r: T.Requests, call: Call, result: RpcResult)
    requires call.retried <= config.retries && call.tries == call.retried + 1 && |call.ids| <= call.tries
    requires |call.replies| == call.retried && forall i :: 0 <= i < call.retried ==> call.replies[i].NotWritten?
    requires ResultTrue(r, call.ids, result)
    ensures CallInv(config, r, Reply(config.retries, call, result)) && ReadTrue(r, Reply(config.retries, call, result))
  {
  }

  lemma DeliverTrue(r: T.Requests, ids: seq<RpcId>, turn: Option<TurnId>)
    requires LastOpen(r, ids) && ids[|ids| - 1] in r.verdicts
    ensures ResultTrue(r, ids, FromVerdict(r.verdicts[ids[|ids| - 1]], turn))
  {
    assert ids == ids[..|ids| - 1] + [ids[|ids| - 1]];
  }

  /** Changing one call, and the wire along with it, keeps everybody's invariant. */
  lemma ChangeKeeps(config: Config, s: System, s': System, c: nat)
    requires Inv(config, s) && T.Inv(s'.wire) && T.Extends(s.wire.reqs, s'.wire.reqs)
    requires c in s'.calls && s'.calls == s.calls[c := s'.calls[c]]
    requires CallInv(config, s'.wire.reqs, s'.calls[c]) && ReadTrue(s'.wire.reqs, s'.calls[c])
    requires forall d :: d in s.calls && d != c && HeldId(s.calls[d]).Some? ==>
               && HeldId(s.calls[d]).value in s'.wire.reqs.issued
               && HeldId(s.calls[d]) != HeldId(s'.calls[c])
    requires LocksTrue(s')
    ensures Inv(config, s')
  {
    forall d | d in s'.calls
      ensures CallInv(config, s'.wire.reqs, s'.calls[d]) && ReadTrue(s'.wire.reqs, s'.calls[d])
    {
      if d != c {
        CallInvLater(config, s.wire.reqs, s'.wire.reqs, s.calls[d]);
      }
    }
  }

  /** A call that moves on without holding an id, while the wire stands still. */
  lemma QuietKeeps(config: Config, s: System, s': System, c: nat)
    requires Inv(config, s) && s'.wire == s.wire
    requires c in s'.calls && s'.calls == s.calls[c := s'.calls[c]] && HeldId(s'.calls[c]).None?
    requires CallInv(config, s.wire.reqs, s'.calls[c]) && ReadTrue(s.wire.reqs, s'.calls[c])
    requires LocksTrue(s')
    ensures Inv(config, s')
  {
    forall d | d in s.calls && HeldId(s.calls[d]).Some?
      ensures HeldId(s.calls[d]).value in s.wire.reqs.issued
    {
      assert CallInv(config, s.wire.reqs, s.calls[d]);
    }
    ChangeKeeps(config, s, s', c);
  }

  /** A call that draws a fresh id. */
  lemma DrawKeeps(config: Config, s: System, s': System, c: nat)
    requires Inv(config, s) && c in s.calls && Active(s.calls[c])
    requires c in s'.calls
    requires s' == With(s, c, s'.calls[c]).(wire := T.Step(config.transport, s.wire, T.Allocate))
    requires HeldId(s'.calls[c]) == Some(Number(s.wire.reqs.nextId)) && s'.calls[c].thread == s.calls[c].thread
    requires CallInv(config, s'.wire.reqs, s'.calls[c]) && ReadTrue(s'.wire.reqs, s'.calls[c])
    ensures Inv(config, s')
  {
    T.StepInv(config.transport, s.wire, T.Allocate);
    T.FreshUnissued(s.wire.reqs);
    forall d | d in s.calls && d != c && HeldId(s.calls[d]).Some?
      ensures HeldId(s.calls[d]).value in s.wire.reqs.issued
    {
      assert CallInv(config, s.wire.reqs, s.calls[d]);
    }
    assert s'.calls == s.calls[c := s'.calls[c]];
    ChangeKeeps(config, s, s', c);
  }

  /** A call that puts the id it holds into the queue. */
  lemma EnqueueKeeps(config: Config, s: System, s': System, c: nat, id: RpcId)
    requires Inv(config, s) && c in s.calls && Active(s.calls[c]) && HeldId(s.calls[c]) == Some(id)
    requires c in s'.calls
    requires s' == With(s, c, s'.calls[c]).(wire := T.Step(config.transport, s.wire, T.Enqueue(id)))
    requires HeldId(s'.calls[c]).None? && s'.calls[c].thread == s.calls[c].thread
    requires CallInv(config, s'.wire.reqs, s'.calls[c]) && ReadTrue(s'.wire.reqs, s'.calls[c])
    ensures Inv(config, s')
  {
    T.StepInv(config.transport, s.wire, T.Enqueue(id));
    T.StepExtends(config.transport, s.wire, T.Enqueue(id));
    forall d | d in s.calls && d != c && HeldId(s.calls[d]).Some?
      ensures HeldId(s.calls[d]).value in s'.wire.reqs.issued
    {
      assert CallInv(config, s.wire.reqs, s.calls[d]);
      assert HeldId(s.calls[d]) != HeldId(s.calls[c]);
    }
    assert s'.calls == s.calls[c := s'.calls[c]];
    ChangeKeeps(config, s, s', c);
  }

  lemma ElsewhereKeeps(config: Config, s: System, action: T.Action)
    requires Inv(config, s) && !(action.Enqueue? && HeldBySome(s, action.id))
    ensures Inv(config, s.(wire := T.Step(config.transport, s.wire, action)))
  {
    T.StepInv(config.transport, s.wire, action);
    T.StepExtends(config.transport, s.wire, action);
    var wire' := T.Step(config.transport, s.wire, action);
    forall c | c in s.calls
      ensures CallInv(config, wire'.reqs, s.calls[c]) && ReadTrue(wire'.reqs, s.calls[c])
    {
      assert CallInv(config, s.wire.reqs, s.calls[c]);
      if HeldId(s.calls[c]).Some? {
        T.IssuedKept(config.transport, s.wire, action, HeldId(s.calls[c]).value);
      }
      CallInvLater(config, s.wire.reqs, wire'.reqs, s.calls[c]);
    }
  }

  lemma GateClosedKeeps(config: Config, s: System, c: nat)
    requires Inv(config, s) && c in s.calls && s.calls[c].phase.Ready? && !s.wire.ready
    ensures Inv(config, Step(config, s, Request(c)))
  {
    var call := s.calls[c];
    assert CallInv(config, s.wire.reqs, call);
    ReplyInv(config, s.wire.reqs, call.(tries := call.tries + 1), NotWritten);
    QuietKeeps(config, s, Step(config, s, Request(c)), c);
  }

  /** Drawing another id after ids that were all proven unwritten. */
  lemma DrawnInv(config: Config, r: T.Requests, call: Call, id: RpcId)
    requires T.RequestsInv(r) && CallInv(config, r, call) && ReadTrue(r, call) && call.phase.Ready?
    requires id == Number(r.nextId)
    ensures var drawn := call.(phase := Holding(id), tries := call.tries + 1, ids := call.ids + [id]);
            CallInv(config, T.TakeId(r), drawn) && ReadTrue(T.TakeId(r), drawn)
  {
    assert (call.ids + [id])[..|call.ids|] == call.ids;
  }

  lemma RequestKeeps(config: Config, s: System, c: nat)
    requires Inv(config, s) && c in s.calls && s.calls[c].phase.Ready?
    ensures Inv(config, Step(config, s, Request(c)))
  {
    if s.wire.ready {
      DrawnInv(config, s.wire.reqs, s.calls[c], Number(s.wire.reqs.nextId));
      DrawKeeps(config, s, Step(config, s, Request(c)), c);
    } else {
      GateClosedKeeps(config, s, c);
    }
  }

  lemma SubmitKeeps(config: Config, s: System, c: nat)
    requires Inv(config, s) && c in s.calls && s.calls[c].phase.Holding?
    ensures Inv(config, Step(config, s, Submit(c)))
  {
    var call := s.calls[c];
    var id := call.phase.id;
    var s' := Step(config, s, Submit(c));
    assert CallInv(config, s.wire.reqs, call);
    T.StepExtends(config.transport, s.wire, T.Enqueue(id));
    CallInvLater(config, s.wire.reqs, s'.wire.reqs, call.(phase := Awaiting(id)));
    if !s.wire.live {
      ReplyInv(config, s'.wire.reqs, call, Closed);
    }
    EnqueueKeeps(config, s, s', c, id);
  }

  lemma AnswerKeeps(config: Config, s: System, c: nat, result: RpcResult)
    requires Inv(config, s) && c in s.calls && s.calls[c].phase.Awaiting?
    requires ResultTrue(s.wire.reqs, s.calls[c].ids, result)
    ensures Inv(config, With(s, c, Reply(config.retries, s.calls[c], result)))
  {
    assert CallInv(config, s.wire.reqs, s.calls[c]);
    ReplyInv(config, s.wire.reqs, s.calls[c], result);
    QuietKeeps(config, s, With(s, c, Reply(config.retries, s.calls[c], result)), c);
  }

  lemma OpenKeeps(config: Config, s: System, c: nat, kind: Kind, thread: ThreadId, turn: TurnId)
    requires Inv(config, s) && c !in s.calls
    ensures Inv(config, Step(config, s, Open(c, kind, thread, turn)))
  {
    QuietKeeps(config, s, Step(config, s, Open(c, kind, thread, turn)), c);
  }

  lemma AcquireKeeps(config: Config, s: System, c: nat)
    requires Inv(config, s) && c in s.calls && s.calls[c].phase.Queueing? && s.calls[c].thread !in s.holders
    ensures Inv(config, Step(config, s, Acquire(c)))
  {
    assert CallInv(config, s.wire.reqs, s.calls[c]);
    QuietKeeps(config, s, Step(config, s, Acquire(c)), c);
  }

  lemma DeliverKeeps(config: Config, s: System, c: nat, created: Option<TurnId>)
    requires Inv(config, s) && c in s.calls && s.calls[c].phase.Awaiting?
    ensures Inv(config, Step(config, s, Deliver(c, created)))
  {
    assert CallInv(config, s.wire.reqs, s.calls[c]);
    if s.calls[c].phase.id in s.wire.reqs.verdicts {
      DeliverTrue(s.wire.reqs, s.calls[c].ids, created);
      AnswerKeeps(config, s, c, FromVerdict(s.wire.reqs.verdicts[s.calls[c].phase.id], created));
    } else if s.calls[c].phase.id in s.wire.reqs.dropped {
      AnswerKeeps(config, s, c, Closed);
    }
  }

  lemma ExpireKeeps(config: Config, s: System, c: nat)
    requires Inv(config, s) && c in s.calls && s.calls[c].phase.Awaiting?
    ensures Inv(config, Step(config, s, Expire(c)))
  {
    assert CallInv(config, s.wire.reqs, s.calls[c]);
    AnswerKeeps(config, s, c, TimedOut);
  }

  lemma WakeKeeps(config: Config, s: System, c: nat)
    requires Inv(config, s) && c in s.calls && s.calls[c].phase.Sleeping?
    ensures Inv(config, Step(config, s, Wake(c)))
  {
    assert CallInv(config, s.wire.reqs, s.calls[c]);
    QuietKeeps(config, s, Step(config, s, Wake(c)), c);
  }

  lemma ObserveKeeps(config: Config, s: System, c: nat)
    requires Inv(config, s) && c in s.calls && s.calls[c].phase.Replied?
    ensures Inv(config, Step(config, s, Observe(c)))
  {
    assert CallInv(config, s.wire.reqs, s.calls[c]);
    QuietKeeps(config, s, Step(config, s, Observe(c)), c);
  }

  lemma AskKeeps(config: Config, s: System, c: nat)
    requires Inv(config, s) && c in s.calls && s.calls[c].phase.Watched?
    requires NeedsRead(s.calls[c].kind, s.calls[c].phase.result, s.calls[c].phase.seen)
    ensures Inv(config, Step(config, s, AskRead(c)))
  {
    assert CallInv(config, s.wire.reqs, s.calls[c]);
    DrawKeeps(config, s, Step(config, s, AskRead(c)), c);
  }

  lemma SubmitReadKeeps(config: Config, s: System, c: nat)
    requires Inv(config, s) && c in s.calls && s.calls[c].phase.ReadHolding?
    ensures Inv(config, Step(config, s, SubmitRead(c)))
  {
    var call, s' := s.calls[c], Step(config, s, SubmitRead(c));
    T.StepExtends(config.transport, s.wire, T.Enqueue(call.phase.id));
    CallInvLater(config, s.wire.reqs, s'.wire.reqs, s'.calls[c]);
    EnqueueKeeps(config, s, s', c, call.phase.id);
  }

  /** The last call on a thread's lock lets go of it. */
  lemma LetGo(s: System, s': System, c: nat)
    requires LocksTrue(s) && c in s.calls && c in s'.calls && s'.calls == s.calls[c := s'.calls[c]]
    requires !Active(s'.calls[c])
    requires s'.holders == if Active(s.calls[c]) then s.holders - {s.calls[c].thread} else s.holders
    ensures LocksTrue(s')
  {
  }

  lemma FinishKeeps(config: Config, s: System, c: nat, seen: Option<Event>, read: Option<RawThread>)
    requires Inv(config, s) && c in s.calls
    requires s.calls[c].phase.Watched? || s.calls[c].phase.ReadAwaiting?
    requires s.calls[c].phase.Watched? ==> !NeedsRead(s.calls[c].kind, s.calls[c].phase.result, seen)
    requires read.Some? ==>
               && s.calls[c].phase.ReadAwaiting? && s.calls[c].phase.id in s.wire.reqs.verdicts
               && s.wire.reqs.verdicts[s.calls[c].phase.id] == T.Accepted
    ensures Inv(config, Finish(s, c, s.calls[c], s.calls[c].phase.result, seen, s.calls[c].phase.upto, read))
  {
    var call := s.calls[c];
    var s' := Finish(s, c, call, call.phase.result, seen, call.phase.upto, read);
    assert CallInv(config, s.wire.reqs, call) && ReadTrue(s.wire.reqs, call);
    LetGo(s, s', c);
    QuietKeeps(config, s, s', c);
  }

  lemma ConcludeKeeps(config: Config, s: System, c: nat)
    requires Inv(config, s) && c in s.calls && s.calls[c].phase.Watched?
    ensures Inv(config, Step(config, s, Conclude(c)))
  {
    if !NeedsRead(s.calls[c].kind, s.calls[c].phase.result, s.calls[c].phase.seen) {
      FinishKeeps(config, s, c, s.calls[c].phase.seen, None);
    }
  }

  lemma DeliverReadKeeps(config: Config, s: System, c: nat, answer: Option<RawThread>)
    requires Inv(config, s) && c in s.calls && s.calls[c].phase.ReadAwaiting?
    ensures Inv(config, Step(config, s, DeliverRead(c, answer)))
  {
    var id := s.calls[c].phase.id;
    FinishKeeps(config, s, c, None, None);
    if id in s.wire.reqs.verdicts && s.wire.reqs.verdicts[id].Accepted? {
      FinishKeeps(config, s, c, None, answer);
    }
  }

  lemma ExpireReadKeeps(config: Config, s: System, c: nat)
    requires Inv(config, s) && c in s.calls && s.calls[c].phase.ReadAwaiting?
    ensures Inv(config, Step(config, s, ExpireRead(c)))
  {
    FinishKeeps(config, s, c, None, None);
  }

  lemma DropKeeps(config: Config, s: System, c: nat)
    requires Inv(config, s) && c in s.calls && !s.calls[c].phase.Finished? && !s.calls[c].phase.Dropped?
    ensures Inv(config, Step(config, s, Drop(c)))
  {
    var s' := Step(config, s, Drop(c));
    assert CallInv(config, s.wire.reqs, s.calls[c]);
    LetGo(s, s', c);
    QuietKeeps(config, s, s', c);
  }

  /** The steps of a call before its waiter is asked. */
  lemma SendStepInv(config: Config, s: System, a: Action)
    requires Inv(config, s) && OfCall(a) && a.c in s.calls
    requires a.Acquire? || a.Request? || a.Submit? || a.Deliver? || a.Expire? || a.Wake?
    ensures Inv(config, Step(config, s, a))
  {
    var call := s.calls[a.c];
    match a
    case Acquire(c) =>
      if call.phase.Queueing? && call.thread !in s.holders {
        AcquireKeeps(config, s, c);
      }
    case Request(c) =>
      if call.phase.Ready? {
        RequestKeeps(config, s, c);
      }
    case Submit(c) =>
      if call.phase.Holding? {
        SubmitKeeps(config, s, c);
      }
    case Deliver(c, created) =>
      if call.phase.Awaiting? {
        DeliverKeeps(config, s, c, created);
      }
    case Expire(c) =>
      if call.phase.Awaiting? {
        ExpireKeeps(config, s, c);
      }
    case Wake(c) =>
      if call.phase.Sleeping? {
        WakeKeeps(config, s, c);
      }
  }

  /** The steps of an interrupt's own read. */
  lemma ReadStepInv(config: Config, s: System, a: Action)
    requires Inv(config, s) && OfCall(a) && a.c in s.calls
    requires a.SubmitRead? || a.DeliverRead? || a.ExpireRead?
    ensures Inv(config, Step(config, s, a))
  {
    var call := s.calls[a.c];
    match a
    case SubmitRead(c) =>
      if call.phase.ReadHolding? {
        SubmitReadKeeps(config, s, c);
      }
    case DeliverRead(c, answer) =>
      if call.phase.ReadAwaiting? {
        DeliverReadKeeps(config, s, c, answer);
      }
    case ExpireRead(c) =>
      if call.phase.ReadAwaiting? {
        ExpireReadKeeps(config, s, c);
      }
  }

  /** The steps from the waiter on, and dropping the call. */
  lemma ReportStepInv(config: Config, s: System, a: Action)
    requires Inv(config, s) && OfCall(a) && a.c in s.calls
    requires a.Observe? || a.Conclude? || a.AskRead? || a.Drop?
    ensures Inv(config, Step(config, s, a))
  {
    var call := s.calls[a.c];
    match a
    case Observe(c) =>
      if call.phase.Replied? {
        ObserveKeeps(config, s, c);
      }
    case Conclude(c) =>
      if call.phase.Watched? {
        ConcludeKeeps(config, s, c);
      }
    case AskRead(c) =>
      if call.phase.Watched? && NeedsRead(call.kind, call.phase.result, call.phase.seen) {
        AskKeeps(config, s, c);
      }
    case Drop(c) =>
      if !call.phase.Finished? && !call.phase.Dropped? {
        DropKeeps(config, s, c);
      }
  }

  lemma StepInv(config: Config, s: System, a: Action)
    requires Inv(config, s)
    ensures Inv(config, Step(config, s, a))
  {
    if a.Elsewhere? {
      if !(a.action.Enqueue? && HeldBySome(s, a.action.id)) {
        ElsewhereKeeps(config, s, a.action);
      }
    } else if a.Open? {
      if a.c !in s.calls {
        OpenKeeps(config, s, a.c, a.kind, a.thread, a.turn);
      }
    } else if OfCall(a) && a.c in s.calls {
      if a.Acquire? || a.Request? || a.Submit? || a.Deliver? || a.Expire? || a.Wake? {
        SendStepInv(config, s, a);
      } else if a.SubmitRead? || a.DeliverRead? || a.ExpireRead? {
        ReadStepInv(config, s, a);
      } else {
        ReportStepInv(config, s, a);
      }
    }
  }

  lemma InitialInv(config: Config)
    ensures Inv(config, Initial(config))
  {
    T.InitialInv(config.transport);
  }

  // ----- What the waiters saw -----

  /** What the call's waiter yielded; nothing, if the call went on to read its thread. */
  function SeenOf(phase: Phase): Option<Event>
    requires phase.Watched? || phase.ReadHolding? || phase.ReadAwaiting? || phase.Finished?
  {
    if phase.Watched? || phase.Finished? then phase.seen else None
  }

  /**
   The call's waiter was registered before any frame of the call was written, what it yielded is the
   first match in the feed from its registration on, and a read was asked for only after that.
   */
  ghost predicate WatchTrue(feed: seq<Event>, trace: seq<T.Seen>, scanned: nat, call: Call) {
    && call.since <= scanned && call.base <= |trace|
    && (forall i :: 0 <= i < |call.ids| ==> T.Wrote(call.ids[i]) !in trace[..call.base])
    && (call.readId.Some? ==>
          call.base <= call.asked <= |trace| && T.Wrote(call.readId.value) !in trace[..call.asked])
    && (call.phase.Watched? || call.phase.ReadHolding? || call.phase.ReadAwaiting? || call.phase.Finished? ==>
          && call.since <= call.phase.upto <= scanned
          && SeenOf(call.phase) == SeenBy(call, feed, call.phase.result, call.phase.upto))
    && (call.phase.Finished? ==>
          call.phase.outcome == Classify(call, call.phase.result, call.phase.seen, call.phase.read))
  }

  ghost predicate Watchful(s: System) {
    && s.notified <= s.scanned <= s.notified + 1 && s.scanned <= |s.wire.feed|
    && forall c :: c in s.calls ==> WatchTrue(s.wire.feed, s.wire.reqs.trace, s.scanned, s.calls[c])
  }

  lemma WatchLater(feed: seq<Event>, trace: seq<T.Seen>, scanned: nat, call: Call,
                   feed': seq<Event>, trace': seq<T.Seen>, scanned': nat)
    requires WatchTrue(feed, trace, scanned, call)
    requires feed <= feed' && trace <= trace' && scanned <= scanned' && scanned <= |feed|
    ensures WatchTrue(feed', trace', scanned', call)
  {
    assert trace'[..call.base] == trace[..call.base];
    if call.readId.Some? {
      assert trace'[..call.asked] == trace[..call.asked];
    }
    if call.phase.Watched? || call.phase.ReadHolding? || call.phase.ReadAwaiting? || call.phase.Finished? {
      assert Window(feed', call.since, call.phase.upto) == Window(feed, call.since, call.phase.upto);
    }
  }

  /** Only call `c` changes, and the wire at most grows. */
  lemma WatchChange(s: System, s': System, c: nat)
    requires Watchful(s) && s'.scanned == s.scanned && s'.notified == s.notified
    requires s.wire.feed <= s'.wire.feed && s.wire.reqs.trace <= s'.wire.reqs.trace
    requires c in s'.calls && s'.calls == s.calls[c := s'.calls[c]]
    requires WatchTrue(s'.wire.feed, s'.wire.reqs.trace, s'.scanned, s'.calls[c])
    ensures Watchful(s')
  {
    forall d | d in s'.calls
      ensures WatchTrue(s'.wire.feed, s'.wire.reqs.trace, s'.scanned, s'.calls[d])
    {
      if d != c {
        WatchLater(s.wire.feed, s.wire.reqs.trace, s.scanned, s.calls[d],
                   s'.wire.feed, s'.wire.reqs.trace, s'.scanned);
      }
    }
  }

  /** The wire and the reducer move on; the calls stand still. */
  lemma WatchAll(s: System, s': System)
    requires Watchful(s) && s'.calls == s.calls
    requires s'.notified <= s'.scanned <= s'.notified + 1 && s.scanned <= s'.scanned <= |s'.wire.feed|
    requires s.wire.feed <= s'.wire.feed && s.wire.reqs.trace <= s'.wire.reqs.trace
    ensures Watchful(s')
  {
    forall d | d in s'.calls
      ensures WatchTrue(s'.wire.feed, s'.wire.reqs.trace, s'.scanned, s'.calls[d])
    {
      WatchLater(s.wire.feed, s.wire.reqs.trace, s.scanned, s.calls[d],
                 s'.wire.feed, s'.wire.reqs.trace, s'.scanned);
    }
  }

  /** A new id is one that no frame has carried yet. */
  lemma RequestWatches(config: Config, s: System, c: nat)
    requires Inv(config, s) && Watchful(s) && c in s.calls && s.calls[c].phase.Ready?
    ensures Watchful(Step(config, s, Request(c)))
  {
    var call, s' := s.calls[c], Step(config, s, Request(c));
    if s.wire.ready {
      var id, trace := Number(s.wire.reqs.nextId), s.wire.reqs.trace;
      T.UnissuedUnwritten(s.wire.reqs, id);
      assert s'.calls[c].ids == call.ids + [id] && s'.wire.reqs.trace == trace;
      forall i | 0 <= i < |s'.calls[c].ids|
        ensures T.Wrote(s'.calls[c].ids[i]) !in trace[..call.base]
      {
        assert i < |call.ids| ==> s'.calls[c].ids[i] == call.ids[i];
      }
    }
    WatchChange(s, s', c);
  }

  lemma ObserveWatches(config: Config, s: System, c: nat)
    requires Watchful(s) && c in s.calls && s.calls[c].phase.Replied?
    ensures Watchful(Step(config, s, Observe(c)))
  {
    WatchChange(s, Step(config, s, Observe(c)), c);
  }

  /** A call that neither registers, nor draws an id, nor hears from its waiter. */
  lemma WatchMoves(s: System, s': System, c: nat)
    requires Watchful(s) && s'.scanned == s.scanned && s'.notified == s.notified
    requires s.wire.feed <= s'.wire.feed && s.wire.reqs.trace <= s'.wire.reqs.trace
    requires c in s.calls && c in s'.calls && s'.calls == s.calls[c := s'.calls[c]]
    requires s'.calls[c] == s.calls[c].(phase := s'.calls[c].phase, retried := s'.calls[c].retried,
                                        tries := s'.calls[c].tries, replies := s'.calls[c].replies)
    requires var p := s'.calls[c].phase; !p.Watched? && !p.ReadHolding? && !p.ReadAwaiting? && !p.Finished?
    ensures Watchful(s')
  {
    var call := s.calls[c];
    assert WatchTrue(s.wire.feed, s.wire.reqs.trace, s.scanned, call);
    assert s'.wire.reqs.trace[..call.base] == s.wire.reqs.trace[..call.base];
    if call.readId.Some? {
      assert s'.wire.reqs.trace[..call.asked] == s.wire.reqs.trace[..call.asked];
    }
    WatchChange(s, s', c);
  }

  lemma UnreadWhileQueueing(config: Config, s: System, c: nat)
    requires Inv(config, s) && c in s.calls && s.calls[c].phase.Queueing?
    ensures s.calls[c].readId.None?
  {
    assert ReadTrue(s.wire.reqs, s.calls[c]);
  }

  lemma AcquireWatches(config: Config, s: System, c: nat)
    requires Inv(config, s) && Watchful(s) && c in s.calls
    requires s.calls[c].phase.Queueing? && s.calls[c].thread !in s.holders
    ensures Watchful(Step(config, s, Acquire(c)))
  {
    assert CallInv(config, s.wire.reqs, s.calls[c]);
    assert WatchTrue(s.wire.feed, s.wire.reqs.trace, s.scanned, s.calls[c]);
    UnreadWhileQueueing(config, s, c);
    WatchChange(s, Step(config, s, Acquire(c)), c);
  }

  lemma SubmitWatches(config: Config, s: System, c: nat)
    requires Inv(config, s) && Watchful(s) && c in s.calls && s.calls[c].phase.Holding?
    ensures Watchful(Step(config, s, Submit(c)))
  {
    T.StepExtends(config.transport, s.wire, T.Enqueue(s.calls[c].phase.id));
    WatchMoves(s, Step(config, s, Submit(c)), c);
  }

  /** Nothing but the call's own bookkeeping moves. */
  lemma ReplyWatches(config: Config, s: System, a: Action)
    requires Watchful(s) && (a.Deliver? || a.Expire? || a.Wake? || a.Drop?) && a.c in s.calls
    ensures Watchful(Step(config, s, a))
  {
    var s' := Step(config, s, a);
    if s' != s {
      WatchMoves(s, s', a.c);
    }
  }

  lemma FinishWatches(s: System, c: nat, seen: Option<Event>, read: Option<RawThread>)
    requires Watchful(s) && c in s.calls && (s.calls[c].phase.Watched? || s.calls[c].phase.ReadAwaiting?)
    requires seen == SeenOf(s.calls[c].phase)
    ensures Watchful(Finish(s, c, s.calls[c], s.calls[c].phase.result, seen, s.calls[c].phase.upto, read))
  {
    var call := s.calls[c];
    assert WatchTrue(s.wire.feed, s.wire.reqs.trace, s.scanned, call);
    WatchChange(s, Finish(s, c, call, call.phase.result, seen, call.phase.upto, read), c);
  }

  /** The read's id is one that no frame has carried yet, either. */
  lemma AskWatches(config: Config, s: System, c: nat)
    requires Inv(config, s) && Watchful(s) && c in s.calls && s.calls[c].phase.Watched?
    requires NeedsRead(s.calls[c].kind, s.calls[c].phase.result, s.calls[c].phase.seen)
    ensures Watchful(Step(config, s, AskRead(c)))
  {
    var call, trace := s.calls[c], s.wire.reqs.trace;
    assert WatchTrue(s.wire.feed, trace, s.scanned, call);
    T.UnissuedUnwritten(s.wire.reqs, Number(s.wire.reqs.nextId));
    assert trace[..|trace|] == trace;
    WatchChange(s, Step(config, s, AskRead(c)), c);
  }

  lemma SubmitReadWatches(config: Config, s: System, c: nat)
    requires Inv(config, s) && Watchful(s) && c in s.calls && s.calls[c].phase.ReadHolding?
    ensures Watchful(Step(config, s, SubmitRead(c)))
  {
    var call, s' := s.calls[c], Step(config, s, SubmitRead(c));
    T.StepExtends(config.transport, s.wire, T.Enqueue(call.phase.id));
    T.FeedGrows(config.transport, s.wire, T.Enqueue(call.phase.id));
    WatchLater(s.wire.feed, s.wire.reqs.trace, s.scanned, call, s'.wire.feed, s'.wire.reqs.trace, s'.scanned);
    WatchChange(s, s', c);
  }

  lemma ReportWatches(config: Config, s: System, a: Action)
    requires Inv(config, s) && Watchful(s) && OfCall(a) && a.c in s.calls
    requires a.Conclude? || a.AskRead? || a.SubmitRead? || a.DeliverRead? || a.ExpireRead?
    ensures Watchful(Step(config, s, a))
  {
    var call := s.calls[a.c];
    match a
    case Conclude(c) =>
      if call.phase.Watched? {
        FinishWatches(s, c, call.phase.seen, None);
      }
    case AskRead(c) =>
      if call.phase.Watched? && NeedsRead(call.kind, call.phase.result, call.phase.seen) {
        AskWatches(config, s, c);
      }
    case SubmitRead(c) =>
      if call.phase.ReadHolding? {
        SubmitReadWatches(config, s, c);
      }
    case DeliverRead(c, answer) =>
      if call.phase.ReadAwaiting? {
        FinishWatches(s, c, None, None);
        FinishWatches(s, c, None, answer);
      }
    case ExpireRead(c) =>
      if call.phase.ReadAwaiting? {
        FinishWatches(s, c, None, None);
      }
  }

  lemma CallStepWatches(config: Config, s: System, a: Action)
    requires Inv(config, s) && Watchful(s) && OfCall(a) && a.c in s.calls
    ensures Watchful(Step(config, s, a))
  {
    var call := s.calls[a.c];
    if a.Acquire? {
      if call.phase.Queueing? && call.thread !in s.holders {
        AcquireWatches(config, s, a.c);
      }
    } else if a.Request? {
      if call.phase.Ready? {
        RequestWatches(config, s, a.c);
      }
    } else if a.Submit? {
      if call.phase.Holding? {
        SubmitWatches(config, s, a.c);
      }
    } else if a.Observe? {
      if call.phase.Replied? {
        ObserveWatches(config, s, a.c);
      }
    } else if a.Deliver? || a.Expire? || a.Wake? || a.Drop? {
      ReplyWatches(config, s, a);
    } else {
      ReportWatches(config, s, a);
    }
  }

  lemma StepWatches(config: Config, s: System, a: Action)
    requires Inv(config, s) && Watchful(s)
    ensures Watchful(Step(config, s, a))
  {
    match a
    case Elsewhere(action) =>
      T.StepExtends(config.transport, s.wire, action);
      T.FeedGrows(config.transport, s.wire, action);
      WatchAll(s, Step(config, s, a));
    case Open(c, _, _, _) =>
      if c !in s.calls {
        WatchChange(s, Step(config, s, a), c);
      }
    case Scan => WatchAll(s, Step(config, s, a));
    case Fire => WatchAll(s, Step(config, s, a));
    case _ =>
      if a.c in s.calls {
        CallStepWatches(config, s, a);
      }
  }

  lemma {:induction false} RunWatches(config: Config, s: System, actions: seq<Action>)
    requires Inv(config, s) && Watchful(s)
    ensures Inv(config, Run(config, s, actions)) && Watchful(Run(config, s, actions))
    decreases |actions|
  {
    if actions != [] {
      StepInv(config, s, actions[0]);
      StepWatches(config, s, actions[0]);
      RunWatches(config, Step(config, s, actions[0]), actions[1..]);
    }
  }

  /** Every reachable state. */
  lemma Reachable(config: Config, actions: seq<Action>)
    ensures Inv(config, Run(config, Initial(config), actions))
    ensures Watchful(Run(config, Initial(config), actions))
  {
    InitialInv(config);
    RunWatches(config, Initial(config), actions);
  }

  // ----- Results over every run -----

  /** The frames of all the requests of one action that ever reached the socket. */
  function TotalWrites(trace: seq<T.Seen>, ids: seq<RpcId>): nat {
    if ids == [] then 0
    else TotalWrites(trace, ids[..|ids| - 1]) + T.Writes(trace, ids[|ids| - 1])
  }

  lemma {:induction false} NotWrittenTotal(r: T.Requests, ids: seq<RpcId>)
    requires T.RequestsInv(r) && AllNotWritten(r, ids)
    ensures TotalWrites(r.trace, ids) == 0
  {
    if ids != [] {
      assert AllNotWritten(r, ids[..|ids| - 1]);
      NotWrittenTotal(r, ids[..|ids| - 1]);
      assert T.RequestInv(r, ids[|ids| - 1]);
    }
  }

  lemma LastOpenTotal(r: T.Requests, ids: seq<RpcId>)
    requires T.RequestsInv(r) && LastOpen(r, ids)
    ensures TotalWrites(r.trace, ids) == T.Writes(r.trace, ids[|ids| - 1]) <= 1
  {
    NotWrittenTotal(r, ids[..|ids| - 1]);
    assert T.RequestInv(r, ids[|ids| - 1]);
  }

  lemma CallWrites(config: Config, r: T.Requests, call: Call)
    requires T.RequestsInv(r) && CallInv(config, r, call)
    ensures TotalWrites(r.trace, call.ids) <= 1
  {
    if AllNotWritten(r, call.ids) {
      NotWrittenTotal(r, call.ids);
    } else {
      LastOpenTotal(r, call.ids);
    }
  }

  /**
   At most one wire write per action.  In every interleaving of any number of actions, other
   clients, disconnects, failed sends, lost responses and time-outs, all the requests of one action
   together put at most one frame on the wire, and there are at most `retries + 1` of them.
   */
  lemma AtMostOneWrite(config: Config, actions: seq<Action>)
    ensures var s := Run(config, Initial(config), actions);
            forall c :: c in s.calls ==>
              && TotalWrites(s.wire.reqs.trace, s.calls[c].ids) <= 1
              && |s.calls[c].ids| <= s.calls[c].tries <= config.retries + 1
  {
    Reachable(config, actions);
    var s := Run(config, Initial(config), actions);
    forall c | c in s.calls
      ensures TotalWrites(s.wire.reqs.trace, s.calls[c].ids) <= 1
    {
      CallWrites(config, s.wire.reqs, s.calls[c]);
    }
  }

  /** The id can never be written any more: its oneshot was answered or dropped without a write. */
  predicate Dead(r: T.Requests, id: RpcId) {
    id in r.dropped || (id in r.verdicts && r.verdicts[id] == T.NotWritten)
  }

  /** The first event since the call's registration that its waiter wants, among the first `upto` of the feed. */
  ghost predicate FirstSince(feed: seq<Event>, wants: Event -> bool, since: nat, upto: nat, e: Event) {
    exists k :: since <= k < upto <= |feed| && feed[k] == e && wants(e)
                && forall j :: since <= j < k ==> !wants(feed[j])
  }

  lemma WindowMatch(feed: seq<Event>, wants: Event -> bool, since: nat, upto: nat)
    requires since <= upto <= |feed|
    ensures var seen := R.FirstMatch(wants, Window(feed, since, upto));
            && (seen.Some? ==> FirstSince(feed, wants, since, upto, seen.value))
            && (seen.None? ==> forall j :: since <= j < upto ==> !wants(feed[j]))
  {
    var w := Window(feed, since, upto);
    FirstMatchFirst(wants, w);
    assert forall j :: since <= j < upto ==> feed[j] == w[j - since];
    if R.FirstMatch(wants, w).Some? {
      var i :| 0 <= i < |w| && w[i] == R.FirstMatch(wants, w).value && wants(w[i])
               && forall j :: 0 <= j < i ==> !wants(w[j]);
      assert feed[since + i] == w[i];
    }
  }

  /** What the three outcomes of a finished action are worth. */
  ghost predicate OutcomeSound(r: T.Requests, call: Call)
    requires call.phase.Finished?
  {
    var fate := if call.ids == [] then T.Unwritten else T.FateOf(r.trace, call.ids[|call.ids| - 1]);
    var writes := TotalWrites(r.trace, call.ids);
    match call.phase.outcome
    case Refused(_, byDaemon) =>
      if byDaemon then fate == T.Settled(T.Rejected)
      else writes == 0 && forall i :: 0 <= i < |call.ids| ==> Dead(r, call.ids[i])
    case Confirmed(target, evidence) =>
      && (evidence.rpcAccepted ==> fate == T.Settled(T.Accepted))
      && (!evidence.rpcAccepted ==> call.kind.Interrupting?)
    case Unknown(_, evidence) =>
      evidence.rpcAccepted ==> fate == T.Settled(T.Accepted)
  }

  /**
   The waiter was registered when the socket had shown `base` observations, none of them a frame of
   this action, and the evidence is the first event of the feed since then that the waiter wants.
   Without one, a confirmed interrupt rests on a read that shows exactly its turn terminal, and that
   read on an accepted response to a request of the call's own, written after the waiter had given up.
   */
  ghost predicate EvidenceSound(s: System, call: Call)
    requires call.phase.Finished?
  {
    && call.base <= |s.wire.reqs.trace|
    && (forall i :: 0 <= i < |call.ids| ==> T.Wrote(call.ids[i]) !in s.wire.reqs.trace[..call.base])
    && call.since <= call.phase.upto <= |s.wire.feed|
    && (call.phase.read.Some? ==>
          && call.readId.Some?
          && T.FateOf(s.wire.reqs.trace, call.readId.value) == T.Settled(T.Accepted)
          && call.base <= call.asked <= |s.wire.reqs.trace|
          && T.Wrote(call.readId.value) !in s.wire.reqs.trace[..call.asked])
    && (call.phase.outcome.Confirmed? ==>
          var evidence := call.phase.outcome.evidence;
          match call.kind
          case Interrupting =>
            && call.phase.outcome.target == Turn(call.thread, call.turn)
            && (if evidence.observed.Some? then
                  evidence.rpcAccepted
                  && FirstSince(s.wire.feed, Completions(call.thread, call.turn), call.since, call.phase.upto,
                                evidence.observed.value)
                else
                  && TerminalInRead(call.phase.read, call.turn)
                  && (evidence.rpcAccepted ==>
                        forall j :: call.since <= j < call.phase.upto ==>
                          !CompletionOf(s.wire.feed[j], call.thread, call.turn)))
          case Starting =>
            && evidence.rpcAccepted && call.phase.result.Accepted? && call.phase.result.turn.Some?
            && (evidence.observed.Some? ==>
                  && FirstSince(s.wire.feed, Starts(call.thread), call.since, call.phase.upto, evidence.observed.value)
                  && evidence.observed.value.turnId == call.phase.result.turn)
          case Steering => evidence.rpcAccepted && evidence.observed.None?)
  }

  lemma FinishedSound(config: Config, r: T.Requests, call: Call)
    requires T.RequestsInv(r) && CallInv(config, r, call) && call.phase.Finished?
    requires call.phase.outcome == Classify(call, call.phase.result, call.phase.seen, call.phase.read)
    ensures OutcomeSound(r, call)
  {
    if call.phase.result.NotWritten? {
      NotWrittenTotal(r, call.ids);
    } else {
      LastOpenTotal(r, call.ids);
      var last := call.ids[|call.ids| - 1];
      assert T.RequestInv(r, last);
      forall i | 0 <= i < |call.ids| - 1
        ensures Dead(r, call.ids[i])
      {
        assert call.ids[..|call.ids| - 1][i] == call.ids[i];
      }
    }
  }

  lemma FinishedEvidence(s: System, call: Call)
    requires call.phase.Finished? && s.scanned <= |s.wire.feed|
    requires T.RequestsInv(s.wire.reqs) && ReadTrue(s.wire.reqs, call)
    requires WatchTrue(s.wire.feed, s.wire.reqs.trace, s.scanned, call)
    ensures EvidenceSound(s, call)
  {
    if call.phase.read.Some? {
      assert T.RequestInv(s.wire.reqs, call.readId.value);
    }
    match call.kind
    case Interrupting =>
      WindowMatch(s.wire.feed, Completions(call.thread, call.turn), call.since, call.phase.upto);
    case Starting =>
      WindowMatch(s.wire.feed, Starts(call.thread), call.since, call.phase.upto);
    case Steering =>
  }

  /**
   Outcomes are sound in every interleaving.  `Refused` means that the daemon answered with an error,
   or that no frame of the action was written and none ever will be.  `Confirmed` means a non-error
   response; for an interrupt it means the first completion of exactly its turn that the transport fed
   to the reducer since a registration that precedes every frame of the action, or an accepted response
   to a later read of its own that shows exactly its turn terminal.
   */
  lemma OutcomesSound(config: Config, actions: seq<Action>)
    ensures var s := Run(config, Initial(config), actions);
            forall c :: c in s.calls && s.calls[c].phase.Finished? ==>
              OutcomeSound(s.wire.reqs, s.calls[c]) && EvidenceSound(s, s.calls[c])
  {
    Reachable(config, actions);
    var s := Run(config, Initial(config), actions);
    forall c | c in s.calls && s.calls[c].phase.Finished?
      ensures OutcomeSound(s.wire.reqs, s.calls[c]) && EvidenceSound(s, s.calls[c])
    {
      FinishedSound(config, s.wire.reqs, s.calls[c]);
      FinishedEvidence(s, s.calls[c]);
    }
  }

  /**
   When a finished interrupt is confirmed with a turn that really ended as interrupted, as documented:
   exactly when it was accepted and the first completion of its turn since its registration has that
   status, or, with no completion to go by, a read shows the turn with that status.
   */
  lemma ConfirmedInterruptedIff(config: Config, actions: seq<Action>, c: nat)
    ensures var s := Run(config, Initial(config), actions);
            c in s.calls && s.calls[c].phase.Finished? && s.calls[c].kind.Interrupting? ==>
              var call := s.calls[c];
              var first := R.FirstMatch(Completions(call.thread, call.turn),
                                        Window(s.wire.feed, call.since, call.phase.upto));
              call.phase.outcome.target == Turn(call.thread, call.turn)
              && (ConfirmsInterrupted(call.phase.outcome, call.phase.read) <==>
                    if call.phase.result.Accepted? && first.Some? then first.value.turnStatus.Interrupted?
                    else
                      && (call.phase.result.Accepted? || call.phase.result.OutcomeUnknown? || call.phase.result.TimedOut?)
                      && StatusRead(call.phase.read, call.turn).Interrupted?)
  {
    Reachable(config, actions);
  }

  /**
   In every interleaving each finished action meets the contract of the sequential controller: its
   replies are those of `SendNotWrittenSafe`, and its outcome is what the method computes from the
   last reply, the part of the feed between registration and observation, and the read.
   */
  lemma RunsMeetTheContract(config: Config, actions: seq<Action>, c: nat)
    ensures var s := Run(config, Initial(config), actions);
            c in s.calls && s.calls[c].phase.Finished? ==>
              var call, p := s.calls[c], s.calls[c].phase;
              var window := Window(s.wire.feed, call.since, p.upto);
              && |call.replies| == call.tries
              && SendsSafely((i: nat) => if i < |call.replies| then call.replies[i] else NotWritten,
                             config.retries, p.result, call.tries)
              && p.outcome == match call.kind
                              case Interrupting =>
                                ClassifyInterrupt(call.thread, call.turn, call.correlation, p.result,
                                                  R.FirstMatch(Completions(call.thread, call.turn), window), p.read)
                              case Starting =>
                                ClassifyStart(call.thread, call.correlation, p.result,
                                              R.FirstMatch(Starts(call.thread), window))
                              case Steering =>
                                ClassifySteer(call.thread, call.turn, call.correlation, p.result)
  {
    Reachable(config, actions);
    var s := Run(config, Initial(config), actions);
    if c in s.calls && s.calls[c].phase.Finished? {
      assert CallInv(config, s.wire.reqs, s.calls[c]);
    }
  }

  /** What a finished call reports, said without the code that computed it. */
  ghost predicate Reports(feed: seq<Event>, call: Call)
    requires call.phase.Finished?
  {
    var p, window := call.phase, Window(feed, call.since, call.phase.upto);
    match call.kind
    case Interrupting =>
      && InterruptVerdict(p.outcome, p.result, window, p.read, call.thread, call.turn)
      && (p.result.OutcomeUnknown? || p.result.TimedOut? ==> call.readId.Some?)
      && (p.result.Accepted? && p.outcome.evidence.observed.None? ==> call.readId.Some?)
    case Starting => StartVerdict(p.outcome, p.result, window, call.thread)
    case Steering => SteerVerdict(p.outcome, p.result, call.thread, call.turn)
  }

  lemma FinishedReports(r: T.Requests, feed: seq<Event>, trace: seq<T.Seen>, scanned: nat, call: Call)
    requires call.phase.Finished? && WatchTrue(feed, trace, scanned, call) && ReadTrue(r, call)
    ensures Reports(feed, call)
  {
    var p, window := call.phase, Window(feed, call.since, call.phase.upto);
    match call.kind
    case Interrupting => InterruptMeaning(call.thread, call.turn, call.correlation, p.result, window, p.read);
    case Starting => StartMeaning(call.thread, call.correlation, p.result, window);
    case Steering =>
  }

  /**
   The other direction of soundness.  In every interleaving a finished action whose last reply is an
   accepted response is confirmed on exactly its target (a start if a turn id came with it, an
   interrupt if a completion or a read shows the turn over), an ambiguous reply is never refused, and
   a refusal by the daemon or a proven non-write is always reported as such.
   */
  lemma OutcomesComplete(config: Config, actions: seq<Action>)
    ensures var s := Run(config, Initial(config), actions);
            forall c :: c in s.calls && s.calls[c].phase.Finished? ==> Reports(s.wire.feed, s.calls[c])
  {
    Reachable(config, actions);
    var s := Run(config, Initial(config), actions);
    forall c | c in s.calls && s.calls[c].phase.Finished?
      ensures Reports(s.wire.feed, s.calls[c])
    {
      FinishedReports(s.wire.reqs, s.wire.feed, s.wire.reqs.trace, s.scanned, s.calls[c]);
    }
  }

  /** A reply that is delivered says what the transport's verdict says; only a missing one can time out. */
  lemma DeliversTheVerdict(config: Config, s: System, c: nat, created: Option<TurnId>)
    requires Inv(config, s) && c in s.calls && s.calls[c].phase.Awaiting?
    ensures var id, replies := s.calls[c].phase.id, Step(config, s, Deliver(c, created)).calls[c].replies;
            id in s.wire.reqs.verdicts ==>
              && replies != []
              && var told := replies[|replies| - 1];
              && (s.wire.reqs.verdicts[id] == T.Accepted <==> told == Accepted(created))
              && (s.wire.reqs.verdicts[id] == T.Rejected <==> told == Rejected)
              && (s.wire.reqs.verdicts[id] == T.NotWritten <==> told == NotWritten)
              && (s.wire.reqs.verdicts[id] == T.OutcomeUnknown <==> told == OutcomeUnknown)
    ensures s.calls[c].phase.id in s.wire.reqs.verdicts ==> Step(config, s, Expire(c)) == s
  {
  }

  /** The waiter is registered at the moment the lock is taken, for everything scanned from then on. */
  lemma RegistersNow(config: Config, s: System, c: nat)
    requires c in s.calls && s.calls[c].phase.Queueing? && s.calls[c].thread !in s.holders
    ensures var call := Step(config, s, Acquire(c)).calls[c];
            call.since == s.scanned && call.base == |s.wire.reqs.trace| && call.correlation == s.nextCorrelation
  {
  }

  /** An accepted interrupt that looks for its completion finds any that was fired since its registration. */
  lemma ObservesEverything(config: Config, s: System, c: nat, k: nat)
    requires c in s.calls && s.calls[c].phase.Replied? && s.calls[c].phase.result.Accepted?
    requires s.calls[c].kind.Interrupting? && s.calls[c].since <= k < s.notified <= |s.wire.feed|
    requires Completes(s.wire.feed[k], s.calls[c].thread, s.calls[c].turn)
    ensures var p := Step(config, s, Observe(c)).calls[c].phase;
            p.Watched? && p.seen.Some? && Completes(p.seen.value, s.calls[c].thread, s.calls[c].turn)
  {
    var call := s.calls[c];
    var window := Window(s.wire.feed, call.since, Max(call.since, s.notified));
    assert window[k - call.since] == s.wire.feed[k];
    CompletionMatched(call.thread, call.turn, window);
  }

  /** While the gate is closed an action draws no id and puts nothing on the wire; it is told so. */
  lemma GateClosedSendsNothing(config: Config, s: System, c: nat)
    requires c in s.calls && s.calls[c].phase.Ready? && !s.wire.ready
    ensures var s' := Step(config, s, Request(c));
            s'.wire == s.wire && s'.calls[c].ids == s.calls[c].ids
            && s'.calls[c].replies == s.calls[c].replies + [NotWritten]
  {
  }

  /** A frame of the action was written and no response settled it. */
  predicate Ambiguous(r: T.Requests, call: Call) {
    && TotalWrites(r.trace, call.ids) == 1
    && call.ids != []
    && T.FateOf(r.trace, call.ids[|call.ids| - 1]) in {T.Unanswered, T.Settled(T.OutcomeUnknown)}
  }

  /** A written `start` or `steer` that no response settled is always reported as unknown. */
  lemma AmbiguousIsUnknown(config: Config, actions: seq<Action>)
    ensures var s := Run(config, Initial(config), actions);
            forall c | c in s.calls && s.calls[c].phase.Finished? && !s.calls[c].kind.Interrupting? ::
              Ambiguous(s.wire.reqs, s.calls[c]) ==> s.calls[c].phase.outcome.Unknown?
  {
    Reachable(config, actions);
    var s := Run(config, Initial(config), actions);
    forall c | c in s.calls && s.calls[c].phase.Finished? && !s.calls[c].kind.Interrupting?
               && Ambiguous(s.wire.reqs, s.calls[c])
      ensures s.calls[c].phase.outcome.Unknown?
    {
      var call := s.calls[c];
      assert T.RequestInv(s.wire.reqs, call.ids[|call.ids| - 1]);
      if call.phase.result.NotWritten? {
        NotWrittenTotal(s.wire.reqs, call.ids);
      } else {
        LastOpenTotal(s.wire.reqs, call.ids);
      }
    }
  }

  /** Actions on one thread run one at a time. */
  lemma OnePerThread(config: Config, actions: seq<Action>)
    ensures var s := Run(config, Initial(config), actions);
            forall c, d | c in s.calls && d in s.calls && Active(s.calls[c]) && Active(s.calls[d]) ::
              s.calls[c].thread == s.calls[d].thread ==> c == d
  {
    Reachable(config, actions);
  }
}
