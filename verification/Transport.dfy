/**
 The reconnecting request transport.

 `Wire` is everything the connection loop and its clients share.  Each action is one arm of one of
 the loop's selects, or one atomic client step.  The wire trace records what an observer of the
 socket sees, and the verdict a caller gets is proved to be a function of that trace alone.
 */
module Transport {
  import opened Protocol

  /** The answer the loop sends down a request's oneshot channel. */
  datatype Verdict = Accepted | Rejected | NotWritten | OutcomeUnknown

  datatype Command = Request(id: RpcId) | Notify | Reconciled | Shutdown

  /** What can be seen on the socket. */
  datatype Seen = Wrote(id: RpcId) | Heard(id: RpcId, hasError: bool) | Lost

  /** A parsed frame together with what the clock and the encoder say about it. */
  datatype Arrival = Arrival(frame: Frame, monotonicMs: nat, unixMs: nat, size: nat)

  datatype Config = Config(readIdle: nat, retryInitial: nat, retryMax: nat)

  /** Every request's whereabouts, and what the socket showed of it. */
  datatype Requests = Requests(
    nextId: nat,
    issued: set<RpcId>,          // ids handed out whose command is not yet in the queue
    queue: seq<Command>,
    pending: set<RpcId>,
    trace: seq<Seen>,
    verdicts: map<RpcId, Verdict>,
    answers: multiset<RpcId>,    // how often each oneshot was answered
    dropped: set<RpcId>)         // oneshots dropped without an answer

  datatype Wire = Wire(
    reqs: Requests,
    live: bool,                  // the loop still owns the command receiver
    up: bool,                    // inside `drive`
    ready: bool,                 // the action gate
    attempts: nat,
    backoff: nat,
    sequence: nat,
    ingressOpen: bool,
    feed: seq<Event>)            // everything sent to the authoritative ingress

  datatype Incoming =
    | Eof
    | ReadError
    | Ping(pongOk: bool)
    | Skipped
    | Undecodable
    | Malformed
    | Valid(arrival: Arrival)

  /** One iteration of the select in `drive`. */
  datatype Select =
    | NextCommand(sendOk: bool)
    | SendersGone
    | Message(incoming: Incoming)
    | Tick(idle: nat, pingOk: bool)

  datatype DriveExit = ExitShutdown | ExitDisconnected | ExitCommandsClosed

  /** What ends the wait after a failed attempt: the delay, a command, or the last sender going away. */
  datatype Wait = Slept | TookCommand | NoSenders

  /** One pass of the connection loop up to `drive`. */
  datatype Attempt =
    | NoSocket(wait: Wait)
    | HandshakeFailed(arrivals: seq<Arrival>, wait: Wait)
    | HandshakeDone(arrivals: seq<Arrival>)

  datatype Action =
    | Allocate
    | Enqueue(id: RpcId)
    | Send(command: Command)     // notify, mark_reconciled and shutdown
    | OpenGate                   // the store in mark_reconciled
    | CloseGate                  // its undo when the loop is gone
    | CloseIngress
    | Connect(attempt: Attempt)
    | Drive(select: Select)

  function Initial(config: Config): Wire {
    Wire(Requests(1, {}, [], {}, [], map[], multiset{}, {}), true, false, false, 0, config.retryInitial, 0, true, [])
  }

  // ----- What happens to requests -----

  function Answer(r: Requests, id: RpcId, verdict: Verdict): Requests {
    r.(verdicts := r.verdicts[id := verdict], answers := r.answers + multiset{id})
  }

  function Write(r: Requests, id: RpcId): Requests {
    r.(trace := r.trace + [Wrote(id)], pending := r.pending + {id})
  }

  /** A response frame is seen; outside `drive` nothing is pending, so nothing is answered. */
  function Hear(r: Requests, id: RpcId, hasError: bool): Requests {
    var heard := r.(trace := r.trace + [Heard(id, hasError)]);
    if id in r.pending then
      Answer(heard.(pending := r.pending - {id}), id, if hasError then Rejected else Accepted)
    else heard
  }

  function Unknowns(ids: set<RpcId>): map<RpcId, Verdict> {
    map id | id in ids :: OutcomeUnknown
  }

  /** Leaving `drive`: everything pending was written and is unanswered. */
  function Drain(r: Requests): Requests {
    r.(pending := {},
       trace := r.trace + [Lost],
       verdicts := r.verdicts + Unknowns(r.pending),
       answers := r.answers + multiset(r.pending))
  }

  function QueuedIds(queue: seq<Command>): set<RpcId> {
    set c | c in queue && c.Request? :: c.id
  }

  /** The command receiver goes away and with it every command still queued. */
  function Abandon(r: Requests): Requests {
    r.(queue := [], dropped := r.dropped + QueuedIds(r.queue))
  }

  function PopCommand(r: Requests): Requests
    requires r.queue != []
  {
    r.(queue := r.queue[1..])
  }

  // ----- Steps of the loop -----

  /** Numbers one frame and hands it to the ingress. */
  function NumberFrame(w: Wire, a: Arrival): Wire {
    var seq1 := w.sequence + 1;
    w.(sequence := seq1,
       feed := if w.ingressOpen then w.feed + [FromFrame(seq1, a.monotonicMs, a.unixMs, a.size, a.frame)] else w.feed,
       reqs := if a.frame.Response? then Hear(w.reqs, a.frame.id, a.frame.hasError) else w.reqs)
  }

  /** The handshake numbers every frame it reads; a closed ingress ends it at the first one. */
  function NumberAll(w: Wire, arrivals: seq<Arrival>): Wire
    decreases |arrivals|
  {
    if arrivals == [] then w
    else if !w.ingressOpen then NumberFrame(w, arrivals[0])
    else NumberAll(NumberFrame(w, arrivals[0]), arrivals[1..])
  }

  predicate AnswersInitialize(a: Arrival) {
    a.frame.Response? && a.frame.id == Number(0)
  }

  /** The handshake ends with the first answer to `initialize`, which must not be an error. */
  predicate HandshakeSucceeds(arrivals: seq<Arrival>) {
    && arrivals != []
    && AnswersInitialize(arrivals[|arrivals| - 1]) && !arrivals[|arrivals| - 1].frame.hasError
    && forall i :: 0 <= i < |arrivals| - 1 ==> !AnswersInitialize(arrivals[i])
  }

  /** The loop ends. */
  function Stop(w: Wire): Wire {
    w.(live := false, up := false, reqs := Abandon(w.reqs))
  }

  /** `reject_while_disconnected`. */
  function RejectHead(w: Wire): Wire {
    if w.reqs.queue == [] then w
    else
      var rest := PopCommand(w.reqs);
      match w.reqs.queue[0]
      case Request(id) => w.(reqs := Answer(rest, id, NotWritten))
      case Shutdown => Stop(w.(reqs := rest))
      case _ => w.(reqs := rest)
  }

  function Min(a: nat, b: nat): nat {
    if a < b then a else b
  }

  function Served(w: Wire, wait: Wait): Wire {
    match wait
    case Slept => w
    case TookCommand => RejectHead(w)
    case NoSenders => Stop(w)
  }

  function Counted(w: Wire): Wire {
    w.(attempts := w.attempts + 1)
  }

  function Slower(config: Config, w: Wire): Wire {
    if w.live then w.(backoff := Min(2 * w.backoff, config.retryMax)) else w
  }

  /** A failed connection attempt: count it, wait or serve a command, double the delay. */
  function AttemptFailed(config: Config, w: Wire, wait: Wait): Wire {
    Slower(config, Served(Counted(w), wait))
  }

  function ConnectStep(config: Config, w: Wire, attempt: Attempt): Wire {
    match attempt
    case NoSocket(wait) => AttemptFailed(config, w, wait)
    case HandshakeFailed(arrivals, wait) => AttemptFailed(config, NumberAll(w, arrivals), wait)
    case HandshakeDone(arrivals) =>
      if HandshakeSucceeds(arrivals) && w.ingressOpen then
        NumberAll(w, arrivals).(up := true, ready := false, backoff := config.retryInitial)
      else w
  }

  function CommandStep(w: Wire, sendOk: bool): (Wire, Option<DriveExit>) {
    if w.reqs.queue == [] then (w, None)
    else
      var rest := PopCommand(w.reqs);
      match w.reqs.queue[0]
      case Request(id) =>
        if sendOk then (w.(reqs := Write(rest, id)), None)
        else (w.(reqs := Answer(rest, id, NotWritten)), Some(ExitDisconnected))
      case Notify => (w.(reqs := rest), if sendOk then None else Some(ExitDisconnected))
      case Reconciled => (w.(reqs := rest, ready := true), None)
      case Shutdown => (w.(reqs := rest), Some(ExitShutdown))
  }

  /** One arm of `drive`; the exit is `None` while the connection stays up. */
  function DriveStep(config: Config, w: Wire, s: Select): (Wire, Option<DriveExit>) {
    match s
    case NextCommand(sendOk) => CommandStep(w, sendOk)
    case SendersGone => (w, Some(ExitCommandsClosed))
    case Message(incoming) =>
      (match incoming
       case Eof => (w, Some(ExitDisconnected))
       case ReadError => (w, Some(ExitDisconnected))
       case Undecodable => (w, Some(ExitDisconnected))
       case Ping(_) => (w, None)
       case Skipped => (w, None)
       case Malformed => (w, None)
       case Valid(a) => (NumberFrame(w, a), if w.ingressOpen then None else Some(ExitCommandsClosed)))
    case Tick(idle, pingOk) =>
      (w, if idle >= 2 * config.readIdle || (idle >= config.readIdle && !pingOk)
          then Some(ExitDisconnected) else None)
  }

  function Leave(w: Wire, exit: DriveExit): Wire {
    var d := w.(reqs := Drain(w.reqs));
    if exit.ExitDisconnected? then d.(up := false, ready := false, attempts := d.attempts + 1) else Stop(d)
  }

  // ----- Steps of the clients -----

  function TakeId(r: Requests): Requests {
    r.(nextId := r.nextId + 1, issued := r.issued + {Number(r.nextId)})
  }

  /** Sending the command into the queue; with the loop gone the send fails. */
  function Submit(r: Requests, live: bool, id: RpcId): Requests
    requires id in r.issued
  {
    if live then r.(issued := r.issued - {id}, queue := r.queue + [Request(id)])
    else r.(issued := r.issued - {id}, dropped := r.dropped + {id})
  }

  function Step(config: Config, w: Wire, a: Action): Wire {
    match a
    case Allocate => w.(reqs := TakeId(w.reqs))
    case Enqueue(id) => if id in w.reqs.issued then w.(reqs := Submit(w.reqs, w.live, id)) else w
    case Send(command) =>
      if w.live && !command.Request? then w.(reqs := w.reqs.(queue := w.reqs.queue + [command])) else w
    case OpenGate => w.(ready := true)
    case CloseGate => if w.live then w else w.(ready := false)
    case CloseIngress => w.(ingressOpen := false)
    case Connect(attempt) => if w.live && !w.up then ConnectStep(config, w, attempt) else w
    case Drive(s) =>
      if w.live && w.up then
        var (w1, exit) := DriveStep(config, w, s);
        if exit.None? then w1 else Leave(w1, exit.value)
      else w
  }

  function Run(config: Config, w: Wire, actions: seq<Action>): Wire
    decreases |actions|
  {
    if actions == [] then w else Run(config, Step(config, w, actions[0]), actions[1..])
  }

  // ----- What the trace says about a request -----

  datatype Fate = Unwritten | Unanswered | Settled(verdict: Verdict)

  function AfterSeen(fate: Fate, seen: Seen, id: RpcId): Fate {
    match seen
    case Wrote(j) => if j == id && fate.Unwritten? then Unanswered else fate
    case Heard(j, hasError) =>
      if j == id && fate.Unanswered? then Settled(if hasError then Rejected else Accepted) else fate
    case Lost => if fate.Unanswered? then Settled(OutcomeUnknown) else fate
  }

  /**
   The fate of a request, read off the socket: the first response with its id after its frame and
   before the connection was lost decides it; losing the connection first leaves it unknown.
   */
  function FateOf(trace: seq<Seen>, id: RpcId): Fate {
    if trace == [] then Unwritten
    else AfterSeen(FateOf(trace[..|trace| - 1], id), trace[|trace| - 1], id)
  }

  function Writes(trace: seq<Seen>, id: RpcId): nat {
    if trace == [] then 0
    else Writes(trace[..|trace| - 1], id) + if trace[|trace| - 1] == Wrote(id) then 1 else 0
  }

  lemma TraceAppend(trace: seq<Seen>, seen: Seen, id: RpcId)
    ensures FateOf(trace + [seen], id) == AfterSeen(FateOf(trace, id), seen, id)
    ensures Writes(trace + [seen], id) == Writes(trace, id) + if seen == Wrote(id) then 1 else 0
  {
    assert (trace + [seen])[..|trace|] == trace;
  }

  // ----- Invariant -----

  function Queued(queue: seq<Command>, id: RpcId): nat {
    if queue == [] then 0 else (if queue[0] == Request(id) then 1 else 0) + Queued(queue[1..], id)
  }

  lemma {:induction false} QueuedAppend(queue: seq<Command>, c: Command, id: RpcId)
    ensures Queued(queue + [c], id) == Queued(queue, id) + if c == Request(id) then 1 else 0
  {
    if queue == [] {
      assert [c][1..] == [];
    } else {
      assert (queue + [c])[1..] == queue[1..] + [c];
      QueuedAppend(queue[1..], c, id);
    }
  }

  lemma {:induction false} QueuedIff(queue: seq<Command>, id: RpcId)
    ensures Queued(queue, id) > 0 <==> id in QueuedIds(queue)
  {
    if queue != [] {
      QueuedIff(queue[1..], id);
      assert queue == [queue[0]] + queue[1..];
      if queue[0] == Request(id) {
        assert queue[0] in queue;
      }
      if Request(id) in queue[1..] {
        assert Request(id) in queue;
      }
    }
  }

  predicate Issued(r: Requests, id: RpcId) {
    id.Number? && 1 <= id.n < r.nextId
  }

  /** How many places hold the request. */
  function Places(r: Requests, id: RpcId): nat {
    (if id in r.issued then 1 else 0)
    + Queued(r.queue, id)
    + (if id in r.pending then 1 else 0)
    + r.answers[id]
    + (if id in r.dropped then 1 else 0)
  }

  /** The request is in exactly one place, and where it is agrees with what the socket showed. */
  ghost predicate RequestInv(r: Requests, id: RpcId) {
    && Places(r, id) == (if Issued(r, id) then 1 else 0)
    && (id in r.verdicts <==> r.answers[id] > 0)
    && (id in r.pending <==> FateOf(r.trace, id).Unanswered?)
    && (FateOf(r.trace, id).Settled? ==> id in r.verdicts)
    && (id in r.verdicts ==>
          FateOf(r.trace, id) == if r.verdicts[id].NotWritten? then Unwritten else Settled(r.verdicts[id]))
    && Writes(r.trace, id) == (if FateOf(r.trace, id).Unwritten? then 0 else 1)
  }

  ghost predicate RequestsInv(r: Requests) {
    r.nextId >= 1 && forall id :: RequestInv(r, id)
  }

  ghost predicate LoopInv(w: Wire) {
    && (!w.up ==> w.reqs.pending == {})
    && (!w.live ==> !w.up && w.reqs.queue == [])
    && (w.live ==> w.reqs.dropped == {})
    && |w.feed| <= w.sequence
    && (w.ingressOpen ==> |w.feed| == w.sequence)
    && Consecutive(w.feed)
  }

  ghost predicate Inv(w: Wire) {
    LoopInv(w) && RequestsInv(w.reqs)
  }

  // ----- Each request step keeps the invariant -----

  lemma WriteKeeps(r: Requests, id: RpcId)
    requires RequestsInv(r) && r.queue != [] && r.queue[0] == Request(id)
    ensures RequestsInv(Write(PopCommand(r), id))
  {
    forall j
      ensures RequestInv(Write(PopCommand(r), id), j)
    {
      assert RequestInv(r, j);
      TraceAppend(r.trace, Wrote(id), j);
    }
  }

  lemma RejectKeeps(r: Requests, id: RpcId)
    requires RequestsInv(r) && r.queue != [] && r.queue[0] == Request(id)
    ensures RequestsInv(Answer(PopCommand(r), id, NotWritten))
  {
    forall j
      ensures RequestInv(Answer(PopCommand(r), id, NotWritten), j)
    {
      assert RequestInv(r, j);
    }
  }

  lemma PopKeeps(r: Requests)
    requires RequestsInv(r) && r.queue != [] && !r.queue[0].Request?
    ensures RequestsInv(PopCommand(r))
  {
    forall j
      ensures RequestInv(PopCommand(r), j)
    {
      assert RequestInv(r, j);
    }
  }

  lemma HearKeepsOne(r: Requests, id: RpcId, hasError: bool, j: RpcId)
    requires RequestInv(r, j) && RequestInv(r, id)
    ensures RequestInv(Hear(r, id, hasError), j)
  {
    TraceAppend(r.trace, Heard(id, hasError), j);
  }

  /**
   A response settles the pending request with its id, answering it for the first time; a response
   that nothing waits for answers nobody.
   */
  lemma HearKeeps(r: Requests, id: RpcId, hasError: bool)
    requires RequestsInv(r)
    ensures RequestsInv(Hear(r, id, hasError))
    ensures id !in r.pending ==>
              Hear(r, id, hasError).verdicts == r.verdicts && Hear(r, id, hasError).answers == r.answers
    ensures id in r.pending ==>
              && r.answers[id] == 0 && Hear(r, id, hasError).answers[id] == 1
              && id in Hear(r, id, hasError).verdicts
              && Hear(r, id, hasError).verdicts[id] == (if hasError then Rejected else Accepted)
              && Hear(r, id, hasError).pending == r.pending - {id}
    ensures forall j :: j != id ==>
              && (j in Hear(r, id, hasError).verdicts <==> j in r.verdicts)
              && (j in r.verdicts ==> Hear(r, id, hasError).verdicts[j] == r.verdicts[j])
  {
    assert RequestInv(r, id);
    forall j
      ensures RequestInv(Hear(r, id, hasError), j)
    {
      assert RequestInv(r, j);
      HearKeepsOne(r, id, hasError, j);
    }
  }

  /** At the end of a connection exactly the pending requests are answered, as unknown, for the first time. */
  lemma DrainKeeps(r: Requests)
    requires RequestsInv(r)
    ensures RequestsInv(Drain(r)) && Drain(r).pending == {}
    ensures forall j :: j in Drain(r).verdicts && j !in r.verdicts <==> j in r.pending
    ensures forall j :: j in r.pending ==>
              r.answers[j] == 0 && Drain(r).answers[j] == 1 && Drain(r).verdicts[j] == OutcomeUnknown
    ensures forall j :: j in r.verdicts ==> Drain(r).verdicts[j] == r.verdicts[j]
  {
    forall j | j in r.pending
      ensures r.answers[j] == 0 && j !in r.verdicts && multiset(r.pending)[j] == 1
    {
      assert RequestInv(r, j);
    }
    forall j
      ensures RequestInv(Drain(r), j)
    {
      assert RequestInv(r, j);
      TraceAppend(r.trace, Lost, j);
      assert multiset(r.pending)[j] == if j in r.pending then 1 else 0;
    }
  }

  lemma AbandonKeeps(r: Requests)
    requires RequestsInv(r)
    ensures RequestsInv(Abandon(r))
  {
    forall j
      ensures RequestInv(Abandon(r), j)
    {
      assert RequestInv(r, j);
      QueuedIff(r.queue, j);
    }
  }

  lemma TakeIdKeeps(r: Requests)
    requires RequestsInv(r)
    ensures RequestsInv(TakeId(r))
  {
    forall j
      ensures RequestInv(TakeId(r), j)
    {
      assert RequestInv(r, j);
    }
  }

  lemma SubmitKeeps(r: Requests, live: bool, id: RpcId)
    requires RequestsInv(r) && id in r.issued
    ensures RequestsInv(Submit(r, live, id))
  {
    forall j
      ensures RequestInv(Submit(r, live, id), j)
    {
      assert RequestInv(r, j);
      QueuedAppend(r.queue, Request(id), j);
    }
  }

  lemma SendKeeps(r: Requests, c: Command)
    requires RequestsInv(r) && !c.Request?
    ensures RequestsInv(r.(queue := r.queue + [c]))
  {
    forall j
      ensures RequestInv(r.(queue := r.queue + [c]), j)
    {
      assert RequestInv(r, j);
      QueuedAppend(r.queue, c, j);
    }
  }

  // ----- Each step of the loop keeps the invariant -----

  lemma InitialInv(config: Config)
    ensures Inv(Initial(config))
  {
    assert forall id :: FateOf([], id) == Unwritten;
  }

  lemma NumberFrameKeeps(w: Wire, a: Arrival)
    requires Inv(w)
    ensures Inv(NumberFrame(w, a))
  {
    if a.frame.Response? {
      HearKeeps(w.reqs, a.frame.id, a.frame.hasError);
    }
  }

  lemma {:induction false} NumberAllKeeps(w: Wire, arrivals: seq<Arrival>)
    requires Inv(w) && !w.up
    ensures var w' := NumberAll(w, arrivals);
            Inv(w') && w' == w.(sequence := w'.sequence, feed := w'.feed, reqs := w'.reqs)
            && w'.reqs == w.reqs.(trace := w'.reqs.trace) && w.reqs.trace <= w'.reqs.trace
    decreases |arrivals|
  {
    if arrivals != [] {
      NumberFrameKeeps(w, arrivals[0]);
      if w.ingressOpen {
        NumberAllKeeps(NumberFrame(w, arrivals[0]), arrivals[1..]);
      }
    }
  }

  lemma RejectHeadKeeps(w: Wire)
    requires Inv(w) && w.live && !w.up
    ensures Inv(RejectHead(w))
  {
    if w.reqs.queue != [] {
      match w.reqs.queue[0]
      case Request(id) => RejectKeeps(w.reqs, id);
      case Shutdown =>
        PopKeeps(w.reqs);
        AbandonKeeps(PopCommand(w.reqs));
      case _ => PopKeeps(w.reqs);
    }
  }

  lemma AttemptFailedKeeps(config: Config, w: Wire, wait: Wait)
    requires Inv(w) && w.live && !w.up
    ensures Inv(AttemptFailed(config, w, wait))
  {
    var counted := w.(attempts := w.attempts + 1);
    assert Inv(counted);
    RejectHeadKeeps(counted);
    AbandonKeeps(counted.reqs);
  }

  lemma HandshakeKeeps(config: Config, w: Wire, arrivals: seq<Arrival>)
    requires Inv(w) && w.live && !w.up
    ensures Inv(NumberAll(w, arrivals).(up := true, ready := false, backoff := config.retryInitial))
  {
    NumberAllKeeps(w, arrivals);
  }

  lemma ConnectKeeps(config: Config, w: Wire, attempt: Attempt)
    requires Inv(w) && w.live && !w.up
    ensures Inv(ConnectStep(config, w, attempt))
  {
    match attempt
    case NoSocket(wait) => AttemptFailedKeeps(config, w, wait);
    case HandshakeFailed(arrivals, wait) =>
      NumberAllKeeps(w, arrivals);
      AttemptFailedKeeps(config, NumberAll(w, arrivals), wait);
    case HandshakeDone(arrivals) => HandshakeKeeps(config, w, arrivals);
  }

  lemma CommandKeeps(w: Wire, sendOk: bool)
    requires Inv(w) && w.live && w.up
    ensures Inv(CommandStep(w, sendOk).0) && CommandStep(w, sendOk).0.up && CommandStep(w, sendOk).0.live
  {
    if w.reqs.queue != [] {
      if w.reqs.queue[0].Request? {
        WriteKeeps(w.reqs, w.reqs.queue[0].id);
        RejectKeeps(w.reqs, w.reqs.queue[0].id);
      } else {
        PopKeeps(w.reqs);
      }
    }
  }

  lemma LeaveKeeps(w: Wire, exit: DriveExit)
    requires Inv(w) && w.live && w.up
    ensures Inv(Leave(w, exit))
  {
    DrainKeeps(w.reqs);
    AbandonKeeps(Drain(w.reqs));
  }

  lemma DriveStepKeeps(config: Config, w: Wire, s: Select)
    requires Inv(w) && w.live && w.up
    ensures Inv(DriveStep(config, w, s).0)
    ensures DriveStep(config, w, s).0.up && DriveStep(config, w, s).0.live
  {
    match s
    case NextCommand(sendOk) => CommandKeeps(w, sendOk);
    case Message(incoming) =>
      if incoming.Valid? {
        NumberFrameKeeps(w, incoming.arrival);
      }
    case _ =>
  }

  lemma StepInv(config: Config, w: Wire, a: Action)
    requires Inv(w)
    ensures Inv(Step(config, w, a))
  {
    match a
    case Allocate => TakeIdKeeps(w.reqs);
    case Enqueue(id) =>
      if id in w.reqs.issued {
        SubmitKeeps(w.reqs, w.live, id);
      }
    case Send(command) =>
      if !command.Request? {
        SendKeeps(w.reqs, command);
      }
    case Connect(attempt) =>
      if w.live && !w.up {
        ConnectKeeps(config, w, attempt);
      }
    case Drive(s) =>
      if w.live && w.up {
        DriveStepKeeps(config, w, s);
        var (w1, exit) := DriveStep(config, w, s);
        if exit.Some? {
          LeaveKeeps(w1, exit.value);
        }
      }
    case _ =>
  }

  lemma {:induction false} RunInv(config: Config, w: Wire, actions: seq<Action>)
    requires Inv(w)
    ensures Inv(Run(config, w, actions))
    decreases |actions|
  {
    if actions != [] {
      StepInv(config, w, actions[0]);
      RunInv(config, Step(config, w, actions[0]), actions[1..]);
    }
  }

  // ----- Results over every run -----

  predicate Ends(seen: Seen, id: RpcId) {
    seen.Lost? || (seen.Heard? && seen.id == id)
  }

  /** The frame `i` starts the request's fate and `j`, the first response or loss after it, ends it. */
  ghost predicate Decides(trace: seq<Seen>, id: RpcId, i: nat, j: nat) {
    && i < j < |trace|
    && trace[i] == Wrote(id) && (forall k :: 0 <= k < i ==> trace[k] != Wrote(id))
    && Ends(trace[j], id) && (forall k :: i < k < j ==> !Ends(trace[k], id))
  }

  function VerdictOf(seen: Seen): Verdict {
    if !seen.Heard? then OutcomeUnknown else if seen.hasError then Rejected else Accepted
  }

  ghost predicate FirstWrite(trace: seq<Seen>, id: RpcId, i: nat) {
    i < |trace| && trace[i] == Wrote(id) && forall k :: 0 <= k < i ==> trace[k] != Wrote(id)
  }

  /** `FateOf` says exactly which two observations settled the request. */
  lemma {:induction false} FateMeaning(trace: seq<Seen>, id: RpcId)
    ensures FateOf(trace, id).Unwritten? <==> Wrote(id) !in trace
    ensures FateOf(trace, id).Unanswered? ==>
              exists i: nat :: FirstWrite(trace, id, i) && forall k :: i < k < |trace| ==> !Ends(trace[k], id)
    ensures FateOf(trace, id).Settled? ==>
              exists i: nat, j: nat :: Decides(trace, id, i, j) && FateOf(trace, id).verdict == VerdictOf(trace[j])
  {
    if trace != [] {
      var n := |trace| - 1;
      var init := trace[..n];
      FateMeaning(init, id);
      assert trace == init + [trace[n]];
      var before := FateOf(init, id);
      if before.Settled? {
        var i: nat, j: nat :| Decides(init, id, i, j) && before.verdict == VerdictOf(init[j]);
        assert Decides(trace, id, i, j);
      } else if before.Unanswered? {
        var i: nat :| FirstWrite(init, id, i) && forall k :: i < k < n ==> !Ends(init[k], id);
        assert FirstWrite(trace, id, i);
        if Ends(trace[n], id) {
          assert Decides(trace, id, i, n);
        }
      } else if trace[n] == Wrote(id) {
        assert FirstWrite(trace, id, n);
      }
    }
  }

  /**
   Exactly one verdict.  In every reachable state every issued request is in exactly one place; its
   frame was written at most once; its oneshot was answered at most once, with `NotWritten` exactly
   if no frame was ever written and otherwise with what the socket showed; once the connection
   is gone every written request has its verdict; and while the loop lives, every request it has taken
   is pending or answered, none dropped.
   */
  lemma ExactlyOneVerdict(config: Config, actions: seq<Action>, id: RpcId)
    ensures var w := Run(config, Initial(config), actions);
            var r := w.reqs;
            && (Issued(r, id) ==> Places(r, id) == 1)
            && Writes(r.trace, id) <= 1 && r.answers[id] <= 1
            && (id in r.verdicts <==> r.answers[id] == 1)
            && (id in r.verdicts ==> (r.verdicts[id] == NotWritten <==> Writes(r.trace, id) == 0))
            && (id in r.verdicts && r.verdicts[id] != NotWritten ==> FateOf(r.trace, id) == Settled(r.verdicts[id]))
            && (!w.up && Writes(r.trace, id) == 1 ==> id in r.verdicts)
            && (id in r.dropped ==> Writes(r.trace, id) == 0 && id !in r.verdicts)
            && (!w.live ==> Queued(r.queue, id) == 0)
            && (w.live ==> r.dropped == {})
            && (Issued(r, id) && id !in r.issued && Queued(r.queue, id) == 0 && id !in r.dropped ==>
                  id in r.pending || id in r.verdicts)
            && (!w.up ==> r.pending == {})
  {
    InitialInv(config);
    RunInv(config, Initial(config), actions);
    var r := Run(config, Initial(config), actions).reqs;
    assert RequestInv(r, id);
  }

  /** Frames are numbered 1, 2, 3, ... without a gap across every reconnect. */
  lemma FeedConsecutive(config: Config, actions: seq<Action>)
    ensures var w := Run(config, Initial(config), actions);
            Consecutive(w.feed)
  {
    InitialInv(config);
    RunInv(config, Initial(config), actions);
  }

  /** A later state never takes back an answer, and what was seen on the socket stays seen. */
  ghost predicate Extends(r: Requests, r': Requests) {
    && r.nextId <= r'.nextId && r.trace <= r'.trace
    && (forall id :: id in r.verdicts ==> id in r'.verdicts && r'.verdicts[id] == r.verdicts[id])
    && r.dropped <= r'.dropped
  }

  lemma ExtendsTransitive(a: Requests, b: Requests, c: Requests)
    requires Extends(a, b) && Extends(b, c)
    ensures Extends(a, c)
  {
  }

  lemma HearExtends(r: Requests, id: RpcId, hasError: bool)
    requires RequestsInv(r)
    ensures Extends(r, Hear(r, id, hasError))
  {
    assert RequestInv(r, id);
  }

  lemma CommandExtends(w: Wire, sendOk: bool)
    requires Inv(w) && w.live && w.up
    ensures Extends(w.reqs, CommandStep(w, sendOk).0.reqs)
  {
    if w.reqs.queue != [] && w.reqs.queue[0].Request? {
      assert RequestInv(w.reqs, w.reqs.queue[0].id);
    }
  }

  lemma DrainExtends(r: Requests)
    requires RequestsInv(r)
    ensures Extends(r, Drain(r))
  {
    forall id | id in r.verdicts
      ensures id !in r.pending
    {
      assert RequestInv(r, id);
    }
  }

  lemma RejectHeadExtends(w: Wire)
    requires Inv(w) && w.live && !w.up
    ensures Extends(w.reqs, RejectHead(w).reqs)
  {
    if w.reqs.queue != [] && w.reqs.queue[0].Request? {
      assert RequestInv(w.reqs, w.reqs.queue[0].id);
    }
  }

  lemma FailedExtends(config: Config, w: Wire, wait: Wait)
    requires Inv(w) && w.live && !w.up
    ensures Extends(w.reqs, AttemptFailed(config, w, wait).reqs)
  {
    var counted := w.(attempts := w.attempts + 1);
    assert Inv(counted);
    RejectHeadExtends(counted);
  }

  lemma ConnectExtends(config: Config, w: Wire, attempt: Attempt)
    requires Inv(w) && w.live && !w.up
    ensures Extends(w.reqs, ConnectStep(config, w, attempt).reqs)
  {
    match attempt
    case NoSocket(wait) => FailedExtends(config, w, wait);
    case HandshakeFailed(arrivals, wait) =>
      NumberAllKeeps(w, arrivals);
      FailedExtends(config, NumberAll(w, arrivals), wait);
      ExtendsTransitive(w.reqs, NumberAll(w, arrivals).reqs, AttemptFailed(config, NumberAll(w, arrivals), wait).reqs);
    case HandshakeDone(arrivals) => NumberAllKeeps(w, arrivals);
  }

  lemma DriveExtends(config: Config, w: Wire, s: Select)
    requires Inv(w) && w.live && w.up
    ensures Extends(w.reqs, DriveStep(config, w, s).0.reqs)
  {
    match s
    case NextCommand(sendOk) => CommandExtends(w, sendOk);
    case Message(incoming) =>
      if incoming.Valid? && incoming.arrival.frame.Response? {
        HearExtends(w.reqs, incoming.arrival.frame.id, incoming.arrival.frame.hasError);
      }
    case _ =>
  }

  lemma StepExtends(config: Config, w: Wire, a: Action)
    requires Inv(w)
    ensures Extends(w.reqs, Step(config, w, a).reqs)
  {
    if a.Connect? && w.live && !w.up {
      ConnectExtends(config, w, a.attempt);
    } else if a.Drive? && w.live && w.up {
      var (w1, exit) := DriveStep(config, w, a.select);
      DriveStepKeeps(config, w, a.select);
      DriveExtends(config, w, a.select);
      DrainExtends(w1.reqs);
      ExtendsTransitive(w.reqs, w1.reqs, Drain(w1.reqs));
    }
  }

  lemma ConnectKeepsIssued(config: Config, w: Wire, attempt: Attempt)
    requires Inv(w) && w.live && !w.up
    ensures ConnectStep(config, w, attempt).reqs.issued == w.reqs.issued
  {
    NumberAllKeeps(w, if attempt.NoSocket? then [] else attempt.arrivals);
  }

  lemma DriveKeepsIssued(config: Config, w: Wire, s: Select)
    ensures DriveStep(config, w, s).0.reqs.issued == w.reqs.issued
  {
  }

  /** Only its own enqueueing takes an id out of the hands of the client that drew it. */
  lemma IssuedKept(config: Config, w: Wire, a: Action, id: RpcId)
    requires Inv(w) && id in w.reqs.issued && a != Enqueue(id)
    ensures id in Step(config, w, a).reqs.issued
  {
    if a.Connect? && w.live && !w.up {
      ConnectKeepsIssued(config, w, a.attempt);
    } else if a.Drive? && w.live && w.up {
      DriveKeepsIssued(config, w, a.select);
    }
  }

  lemma FailedFeedStays(config: Config, w: Wire, wait: Wait)
    ensures AttemptFailed(config, w, wait).feed == w.feed
  {
    var counted := w.(attempts := w.attempts + 1);
    assert RejectHead(counted).feed == w.feed;
  }

  lemma {:induction false} NumberAllFeedGrows(w: Wire, arrivals: seq<Arrival>)
    ensures w.feed <= NumberAll(w, arrivals).feed
    decreases |arrivals|
  {
    if arrivals != [] && w.ingressOpen {
      NumberAllFeedGrows(NumberFrame(w, arrivals[0]), arrivals[1..]);
    }
  }

  lemma ConnectFeedGrows(config: Config, w: Wire, attempt: Attempt)
    ensures w.feed <= ConnectStep(config, w, attempt).feed
  {
    match attempt
    case NoSocket(wait) => FailedFeedStays(config, w, wait);
    case HandshakeFailed(arrivals, wait) =>
      NumberAllFeedGrows(w, arrivals);
      FailedFeedStays(config, NumberAll(w, arrivals), wait);
    case HandshakeDone(arrivals) => NumberAllFeedGrows(w, arrivals);
  }

  lemma DriveFeedGrows(config: Config, w: Wire, s: Select)
    ensures w.feed <= DriveStep(config, w, s).0.feed
  {
  }

  /** What was handed to the ingress stays handed to it. */
  lemma FeedGrows(config: Config, w: Wire, a: Action)
    ensures w.feed <= Step(config, w, a).feed
  {
    match a
    case Connect(attempt) =>
      ConnectFeedGrows(config, w, attempt);
    case Drive(s) =>
      DriveFeedGrows(config, w, s);
    case _ =>
  }

  lemma FreshUnissued(r: Requests)
    requires RequestsInv(r)
    ensures Number(r.nextId) !in r.issued
  {
    assert RequestInv(r, Number(r.nextId));
  }

  /** No frame carries an id that was not handed out yet. */
  lemma UnissuedUnwritten(r: Requests, id: RpcId)
    requires RequestsInv(r) && !Issued(r, id)
    ensures Wrote(id) !in r.trace
  {
    assert RequestInv(r, id);
    FateMeaning(r.trace, id);
  }

  /** The reconnect delay doubles up to its maximum and restarts after a handshake. */
  ghost predicate BackoffInv(config: Config, w: Wire) {
    config.retryInitial <= config.retryMax ==> config.retryInitial <= w.backoff <= config.retryMax
  }

  lemma {:induction false} NumberAllBackoff(w: Wire, arrivals: seq<Arrival>)
    ensures NumberAll(w, arrivals).backoff == w.backoff
    decreases |arrivals|
  {
    if arrivals != [] && w.ingressOpen {
      NumberAllBackoff(NumberFrame(w, arrivals[0]), arrivals[1..]);
    }
  }

  lemma FailedBackoff(config: Config, w: Wire, wait: Wait)
    requires BackoffInv(config, w)
    ensures BackoffInv(config, AttemptFailed(config, w, wait))
  {
    var counted := w.(attempts := w.attempts + 1);
    assert RejectHead(counted).backoff == w.backoff;
  }

  lemma ConnectBackoff(config: Config, w: Wire, attempt: Attempt)
    requires BackoffInv(config, w)
    ensures BackoffInv(config, ConnectStep(config, w, attempt))
  {
    match attempt
    case NoSocket(wait) => FailedBackoff(config, w, wait);
    case HandshakeFailed(arrivals, wait) =>
      NumberAllBackoff(w, arrivals);
      FailedBackoff(config, NumberAll(w, arrivals), wait);
    case HandshakeDone(_) =>
  }

  lemma DriveBackoff(config: Config, w: Wire, s: Select)
    ensures DriveStep(config, w, s).0.backoff == w.backoff
  {
  }

  lemma BackoffStep(config: Config, w: Wire, a: Action)
    requires BackoffInv(config, w)
    ensures BackoffInv(config, Step(config, w, a))
  {
    match a
    case Connect(attempt) =>
      if w.live && !w.up {
        ConnectBackoff(config, w, attempt);
      }
    case Drive(s) =>
      DriveBackoff(config, w, s);
    case _ =>
  }

  lemma {:induction false} BackoffBounded(config: Config, w: Wire, actions: seq<Action>)
    requires BackoffInv(config, w)
    ensures BackoffInv(config, Run(config, w, actions))
    decreases |actions|
  {
    if actions != [] {
      BackoffStep(config, w, actions[0]);
      BackoffBounded(config, Step(config, w, actions[0]), actions[1..]);
    }
  }

  lemma {:induction false} RunSnoc(config: Config, w: Wire, actions: seq<Action>, a: Action)
    ensures Run(config, w, actions + [a]) == Step(config, Run(config, w, actions), a)
    decreases |actions|
  {
    if actions == [] {
      assert [a][1..] == [];
      assert Run(config, w, [a]) == Run(config, Step(config, w, a), []);
    } else {
      assert (actions + [a])[1..] == actions[1..] + [a];
      RunSnoc(config, Step(config, w, actions[0]), actions[1..], a);
    }
  }

  lemma FailedStaysDown(config: Config, w: Wire, wait: Wait)
    requires !w.up
    ensures !AttemptFailed(config, w, wait).up
  {
    var counted := w.(attempts := w.attempts + 1);
    assert !RejectHead(counted).up;
  }

  /**
   A connection comes up exactly when the handshake ended with the first answer to `initialize`, that
   answer is no error, and the ingress is still there; its gate is closed and the delay starts afresh.
   */
  lemma ComesUpIff(config: Config, w: Wire, a: Action)
    requires Inv(w) && w.live && !w.up
    ensures Step(config, w, a).up <==>
            && a.Connect? && a.attempt.HandshakeDone? && w.ingressOpen
            && var arrivals := a.attempt.arrivals;
            && arrivals != [] && arrivals[|arrivals| - 1].frame == Response(Number(0), false)
            && forall i :: 0 <= i < |arrivals| - 1 ==>
                 !(arrivals[i].frame.Response? && arrivals[i].frame.id == Number(0))
    ensures Step(config, w, a).up ==> !Step(config, w, a).ready && Step(config, w, a).backoff == config.retryInitial
  {
    match a
    case Connect(attempt) =>
      if attempt.HandshakeFailed? {
        NumberAllKeeps(w, attempt.arrivals);
        FailedStaysDown(config, NumberAll(w, attempt.arrivals), attempt.wait);
      } else if attempt.NoSocket? {
        FailedStaysDown(config, w, attempt.wait);
      }
    case _ =>
  }

  /** What ends a connection, and whether the loop then tries again. */
  lemma ConnectionEndsIff(config: Config, w: Wire, s: Select)
    requires Inv(w) && w.live && w.up
    ensures var w' := Step(config, w, Drive(s));
            var head := if w.reqs.queue != [] then Some(w.reqs.queue[0]) else None;
            var lost :=
              || (s.Message? && (s.incoming.Eof? || s.incoming.ReadError? || s.incoming.Undecodable?))
              || (s.Tick? && (s.idle >= 2 * config.readIdle || (s.idle >= config.readIdle && !s.pingOk)))
              || (s == NextCommand(false) && head.Some? && (head.value.Request? || head.value.Notify?));
            var over :=
              || s.SendersGone?
              || (s.NextCommand? && head == Some(Shutdown))
              || (s.Message? && s.incoming.Valid? && !w.ingressOpen);
            && (w'.up <==> !lost && !over)
            && (w'.live <==> !over)
            && (lost ==> !w'.ready && w'.attempts == w.attempts + 1)
            && (s.NextCommand? && head == Some(Reconciled) ==> w'.ready)
  {
  }

  /** A request the connection takes is on the wire and pending, or, if the send failed, answered `NotWritten`. */
  lemma RequestTaken(config: Config, w: Wire, sendOk: bool)
    requires Inv(w) && w.live && w.up && w.reqs.queue != [] && w.reqs.queue[0].Request?
    ensures var id, r, r' := w.reqs.queue[0].id, w.reqs, Step(config, w, Drive(NextCommand(sendOk))).reqs;
            && r'.queue == r.queue[1..]
            && (sendOk ==> r'.trace == r.trace + [Wrote(id)] && r'.pending == r.pending + {id} && r'.verdicts == r.verdicts)
            && (!sendOk ==> r'.trace == r.trace + [Lost] && id in r'.verdicts && r'.verdicts[id] == NotWritten)
  {
    assert RequestInv(w.reqs, w.reqs.queue[0].id);
  }

  /** The event carries the frame's number, receipt and content; a response has no method and is lifecycle. */
  ghost predicate IsEventOf(e: Event, sequence: Sequence, a: Arrival) {
    && e.sequence == sequence && e.monotonicMs == a.monotonicMs && e.unixReceiptMs == a.unixMs && e.size == a.size
    && !e.reconstructed
    && (a.frame.Response? ==> e.name.None? && e.threadId.None? && e.turnId.None? && e.plane.Lifecycle?)
    && (!a.frame.Response? ==>
          && e.name == Some(a.frame.body.name) && e.plane == a.frame.body.plane
          && e.threadId == a.frame.body.threadId && e.turnId == a.frame.body.turnId
          && e.status == a.frame.body.status && e.thread == a.frame.body.thread
          && e.turnStatus == a.frame.body.turnStatus && e.emittedAtMs == a.frame.body.emittedAtMs)
  }

  /** Every frame becomes the next event of the feed, and a response settles the pending request it answers. */
  lemma FrameTaken(config: Config, w: Wire, a: Arrival)
    requires Inv(w) && w.live && w.up && w.ingressOpen
    ensures var w' := Step(config, w, Drive(Message(Valid(a))));
            && |w'.feed| == |w.feed| + 1 && w'.sequence == w.sequence + 1 && w'.up
            && IsEventOf(w'.feed[|w.feed|], w.sequence + 1, a)
            && (a.frame.Response? && a.frame.id in w.reqs.pending ==>
                  && a.frame.id in w'.reqs.verdicts && a.frame.id !in w'.reqs.pending
                  && w'.reqs.verdicts[a.frame.id] == if a.frame.hasError then Rejected else Accepted)
            && (a.frame.Response? && a.frame.id !in w.reqs.pending ==> w'.reqs.verdicts == w.reqs.verdicts)
  {
  }

  function Pow2(k: nat): nat {
    if k == 0 then 1 else 2 * Pow2(k - 1)
  }

  function FailedAttempts(k: nat): seq<Action> {
    if k == 0 then [] else FailedAttempts(k - 1) + [Connect(NoSocket(Slept))]
  }

  lemma OneFailure(config: Config, w: Wire)
    requires w.live && !w.up
    ensures Step(config, w, Connect(NoSocket(Slept))) ==
            w.(attempts := w.attempts + 1, backoff := Min(2 * w.backoff, config.retryMax))
  {
  }

  lemma DoubledDelay(initial: nat, k: nat, max: nat)
    requires k > 0
    ensures Min(2 * Min(Pow2(k - 1) * initial, max), max) == Min(Pow2(k) * initial, max)
  {
    assert Pow2(k) * initial == 2 * (Pow2(k - 1) * initial);
  }

  /** After `k` failed attempts in a row the delay has doubled `k` times, up to its maximum. */
  lemma {:induction false} DelayDoubles(config: Config, k: nat)
    requires config.retryInitial <= config.retryMax
    ensures var w := Run(config, Initial(config), FailedAttempts(k));
            w.backoff == Min(Pow2(k) * config.retryInitial, config.retryMax) && w.attempts == k && w.live && !w.up
  {
    if k > 0 {
      DelayDoubles(config, k - 1);
      RunSnoc(config, Initial(config), FailedAttempts(k - 1), Connect(NoSocket(Slept)));
      OneFailure(config, Run(config, Initial(config), FailedAttempts(k - 1)));
      DoubledDelay(config.retryInitial, k, config.retryMax);
    } else {
      assert Run(config, Initial(config), []) == Initial(config);
      assert Pow2(0) * config.retryInitial == config.retryInitial;
    }
  }

  lemma DriveStepStaysUp(config: Config, w: Wire, s: Select)
    ensures DriveStep(config, w, s).0.live == w.live && DriveStep(config, w, s).0.up == w.up
  {
  }

  lemma DriveThenLeave(config: Config, w: Wire, s: Select, w': Wire, exit: Option<DriveExit>)
    requires w.live && w.up && (w', exit) == DriveStep(config, w, s)
    ensures Step(config, w, Drive(s)) == if exit.None? then w' else Leave(w', exit.value)
  {
  }

  // ----- The connection task -----

  lemma {:induction false} NumberAllFrame(w: Wire, arrivals: seq<Arrival>)
    ensures NumberAll(w, arrivals).live == w.live
    decreases |arrivals|
  {
    if arrivals != [] && w.ingressOpen {
      NumberAllFrame(NumberFrame(w, arrivals[0]), arrivals[1..]);
    }
  }

  /** The task that owns the socket; `Drive` is the select loop of one connection. */
  class Connection {
    const config: Config
    var queue: seq<Command>
    var live: bool
    var up: bool
    var pending: set<RpcId>
    var ready: bool
    var attempts: nat
    var backoff: nat
    var sequence: nat
    var ingressOpen: bool
    var feed: seq<Event>
    var verdicts: map<RpcId, Verdict>
    var nextId: nat
    var issued: set<RpcId>
    ghost var trace: seq<Seen>
    ghost var answers: multiset<RpcId>
    ghost var dropped: set<RpcId>

    ghost function Reqs(): Requests
      reads this
    {
      Requests(nextId, issued, queue, pending, trace, verdicts, answers, dropped)
    }

    ghost function View(): Wire
      reads this
    {
      Wire(Reqs(), live, up, ready, attempts, backoff, sequence, ingressOpen, feed)
    }

    constructor (config: Config)
      ensures View() == Initial(config) && this.config == config
    {
      this.config := config;
      queue, live, up, pending, ready := [], true, false, {}, false;
      attempts, backoff, sequence, ingressOpen, feed := 0, config.retryInitial, 0, true, [];
      verdicts := map[];
      nextId, issued, trace, answers, dropped := 1, {}, [], multiset{}, {};
    }

    /** Sends a verdict down the request's oneshot channel. */
    method Respond(id: RpcId, verdict: Verdict)
      modifies this`verdicts, this`answers
      ensures Reqs() == Answer(old(Reqs()), id, verdict)
    {
      verdicts := verdicts[id := verdict];
      answers := answers + multiset{id};
    }

    method OnCommand(sendOk: bool) returns (exit: Option<DriveExit>)
      modifies this
      ensures (View(), exit) == CommandStep(old(View()), sendOk)
    {
      exit := None;
      if queue == [] {
        return;
      }
      var command := queue[0];
      queue := queue[1..];
      match command {
        case Request(id) =>
          if !sendOk {
            Respond(id, NotWritten);
            return Some(ExitDisconnected);
          }
          trace := trace + [Wrote(id)];
          pending := pending + {id};
        case Notify =>
          if !sendOk {
            return Some(ExitDisconnected);
          }
        case Reconciled =>
          ready := true;
        case Shutdown =>
          return Some(ExitShutdown);
      }
    }

    /** A response frame settles the pending request with its id, if there is one. */
    method Settle(id: RpcId, hasError: bool)
      modifies this`pending, this`trace, this`verdicts, this`answers
      ensures Reqs() == Hear(old(Reqs()), id, hasError)
    {
      trace := trace + [Heard(id, hasError)];
      if id in pending {
        pending := pending - {id};
        Respond(id, if hasError then Rejected else Accepted);
      }
    }

    /** Numbers a frame, settles the request it answers, and forwards the event. */
    method OnFrame(a: Arrival) returns (forwarded: bool)
      modifies this
      ensures View() == NumberFrame(old(View()), a) && forwarded == ingressOpen
    {
      ghost var before := View();
      SettleFrame(a.frame);
      forwarded := Forward(a);
      assert View() == NumberFrame(before, a);
    }

    method SettleFrame(frame: Frame)
      modifies this`pending, this`trace, this`verdicts, this`answers
      ensures Reqs() == if frame.Response? then Hear(old(Reqs()), frame.id, frame.hasError) else old(Reqs())
    {
      if frame.Response? {
        Settle(frame.id, frame.hasError);
      }
    }

    method Forward(a: Arrival) returns (forwarded: bool)
      modifies this`sequence, this`feed
      ensures sequence == old(sequence) + 1 && forwarded == ingressOpen
      ensures feed == if ingressOpen then old(feed) + [FromFrame(sequence, a.monotonicMs, a.unixMs, a.size, a.frame)]
                      else old(feed)
    {
      sequence := sequence + 1;
      forwarded := ingressOpen;
      if forwarded {
        feed := feed + [FromFrame(sequence, a.monotonicMs, a.unixMs, a.size, a.frame)];
      }
    }

    /** One iteration of the select loop. */
    method OnSelect(s: Select) returns (exit: Option<DriveExit>)
      modifies this
      ensures (View(), exit) == DriveStep(config, old(View()), s)
    {
      exit := None;
      match s {
        case NextCommand(sendOk) =>
          exit := OnCommand(sendOk);
        case SendersGone =>
          exit := Some(ExitCommandsClosed);
        case Message(incoming) =>
          match incoming {
            case Ping(_) =>
            case Skipped =>
            case Malformed =>
            case Valid(a) =>
              var forwarded := OnFrame(a);
              if !forwarded {
                exit := Some(ExitCommandsClosed);
              }
            case _ =>
              exit := Some(ExitDisconnected);
          }
        case Tick(idle, pingOk) =>
          if idle >= 2 * config.readIdle {
            exit := Some(ExitDisconnected);
          } else if idle >= config.readIdle && !pingOk {
            exit := Some(ExitDisconnected);
          }
      }
    }

    /** Every request still pending was written and gets `OutcomeUnknown`, in whatever order. */
    method DrainPending()
      modifies this`pending, this`verdicts, this`answers, this`trace
      ensures Reqs() == Drain(old(Reqs()))
    {
      while pending != {}
        invariant verdicts + Unknowns(pending) == old(verdicts) + Unknowns(old(pending))
        invariant answers + multiset(pending) == old(answers) + multiset(old(pending))
        invariant trace == old(trace)
        decreases |pending|
      {
        var id :| id in pending;
        assert pending == (pending - {id}) + {id};
        assert multiset(pending) == multiset(pending - {id}) + multiset{id};
        assert verdicts[id := OutcomeUnknown] + Unknowns(pending - {id}) == verdicts + Unknowns(pending);
        Respond(id, OutcomeUnknown);
        pending := pending - {id};
      }
      trace := trace + [Lost];
    }

    /** The loop ends and drops whatever is still queued. */
    method StopLoop()
      modifies this
      ensures View() == Stop(old(View()))
    {
      live, up := false, false;
      dropped := dropped + QueuedIds(queue);
      queue := [];
    }

    /** A step of some client, taken between two iterations of the loop. */
    method Elsewhere(a: Action)
      requires !a.Drive? && !a.Connect?
      modifies this
      ensures View() == Step(config, old(View()), a)
    {
      match a {
        case Allocate =>
          issued := issued + {Number(nextId)};
          nextId := nextId + 1;
        case Enqueue(id) =>
          if id in issued {
            issued := issued - {id};
            if live {
              queue := queue + [Request(id)];
            } else {
              dropped := dropped + {id};
            }
          }
        case Send(command) =>
          if live && !command.Request? {
            queue := queue + [command];
          }
        case OpenGate =>
          ready := true;
        case CloseGate =>
          if !live {
            ready := false;
          }
        case CloseIngress =>
          ingressOpen := false;
      }
    }

    /** The way out of `drive`, and what the connection loop makes of it. */
    method LeaveDrive(exit: DriveExit)
      modifies this
      ensures View() == Leave(old(View()), exit)
      ensures !up
    {
      DrainPending();
      if exit.ExitDisconnected? {
        up, ready, attempts := false, false, attempts + 1;
      } else {
        StopLoop();
      }
    }

    /** One select arm, followed by the way out if it ends the connection. */
    method DriveOnce(s: Select)
      requires live && up
      modifies this
      ensures View() == Step(config, old(View()), Drive(s))
      ensures up ==> live
    {
      var exit := OnSelect(s);
      DriveStepStaysUp(config, old(View()), s);
      DriveThenLeave(config, old(View()), s, View(), exit);
      if exit.Some? {
        LeaveDrive(exit.value);
      }
    }

    /**
     Runs one connection over a script of its own select arms and of client steps in between, until
     an arm ends it or the script is over.
     */
    method DriveConnection(script: seq<Action>) returns (done: nat)
      requires live && up && forall a :: a in script ==> !a.Connect?
      modifies this
      ensures done <= |script|
      ensures View() == Run(config, old(View()), script[..done])
      ensures done < |script| ==> !up
    {
      done := 0;
      while done < |script| && up
        invariant done <= |script|
        invariant up ==> live
        invariant View() == Run(config, old(View()), script[..done])
      {
        var a := script[done];
        assert a in script;
        RunSnoc(config, old(View()), script[..done], a);
        assert script[..done + 1] == script[..done] + [a];
        if a.Drive? {
          DriveOnce(a.select);
        } else {
          Elsewhere(a);
        }
        done := done + 1;
      }
    }

    /** While disconnected one command may win over the delay; requests are answered `NotWritten`. */
    method RejectWhileDisconnected()
      modifies this
      ensures View() == RejectHead(old(View()))
      ensures old(queue) != [] && old(queue)[0].Request? ==>
                var id := old(queue)[0].id;
                && id in verdicts && verdicts[id] == NotWritten && answers == old(answers) + multiset{id}
                && queue == old(queue)[1..] && dropped == old(dropped) && trace == old(trace) && live == old(live)
    {
      if queue == [] {
        return;
      }
      var command := queue[0];
      queue := queue[1..];
      match command {
        case Request(id) => Respond(id, NotWritten);
        case Shutdown => StopLoop();
        case _ =>
      }
    }

    /** The read loop of `initialize`; it stops early when the ingress is closed. */
    method ReadHandshake(arrivals: seq<Arrival>)
      modifies this
      ensures View() == NumberAll(old(View()), arrivals)
    {
      var i := 0;
      var forwarded := true;
      while i < |arrivals| && forwarded
        invariant i <= |arrivals|
        invariant NumberAll(old(View()), arrivals) ==
                    if forwarded then NumberAll(View(), arrivals[i..]) else View()
      {
        assert arrivals[i..][1..] == arrivals[i + 1..];
        forwarded := OnFrame(arrivals[i]);
        i := i + 1;
      }
    }

    /** A connection attempt that did not reach `drive`. */
    method BackOff(wait: Wait)
      requires live
      modifies this
      ensures View() == AttemptFailed(config, old(View()), wait)
    {
      attempts := attempts + 1;
      assert View() == Counted(old(View()));
      ServeWait(wait);
      SlowDown();
    }

    method SlowDown()
      modifies this`backoff
      ensures View() == Slower(config, old(View()))
    {
      if live {
        backoff := Min(2 * backoff, config.retryMax);
      }
    }

    method ServeWait(wait: Wait)
      modifies this
      ensures View() == Served(old(View()), wait)
    {
      match wait {
        case Slept =>
        case TookCommand => RejectWhileDisconnected();
        case NoSenders => StopLoop();
      }
    }

    /** One pass of the connection loop up to `drive`. */
    method Establish(attempt: Attempt)
      requires live && !up
      modifies this
      ensures View() == ConnectStep(config, old(View()), attempt)
    {
      match attempt {
        case NoSocket(wait) =>
          BackOff(wait);
        case HandshakeFailed(arrivals, wait) =>
          NumberAllFrame(View(), arrivals);
          ReadHandshake(arrivals);
          BackOff(wait);
        case HandshakeDone(arrivals) =>
          if HandshakeSucceeds(arrivals) && ingressOpen {
            ReadHandshake(arrivals);
            up, ready, backoff := true, false, config.retryInitial;
          }
      }
    }
  }
}
