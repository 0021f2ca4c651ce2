/**
 Fan-out: two lossy broadcast channels, the delta stream that counts what it lost, and the
 lifecycle stream that recovers from the reducer's replay log.

 A broadcast channel is the sequence of everything ever sent; the last `capacity` values are still
 held.  A receiver is a position in that sequence.
 */
module Streaming {
  import opened Protocol
  import R = Reducer

  // ----- Broadcast channels -----

  datatype Polled = Received(event: Event) | Lagged(missed: nat) | Empty

  /** Position of the oldest value a channel still holds. */
  function Oldest(sent: nat, capacity: nat): nat {
    if sent <= capacity then 0 else sent - capacity
  }

  function Poll(history: seq<Event>, capacity: nat, next: nat): Polled {
    var oldest := Oldest(|history|, capacity);
    if next < oldest then Lagged(oldest - next)
    else if next < |history| then Received(history[next])
    else Empty
  }

  /** Where a receiver stands after a poll. */
  function Advanced(history: seq<Event>, capacity: nat, next: nat): nat {
    match Poll(history, capacity, next)
    case Received(_) => next + 1
    case Lagged(missed) => next + missed
    case Empty => next
  }

  class Broadcast {
    const capacity: nat
    var held: seq<Event>
    var sent: nat
    ghost var history: seq<Event>

    ghost predicate Valid()
      reads this
    {
      capacity > 0 && sent == |history| && held == R.LastOf(history, capacity)
    }

    constructor (capacity: nat)
      requires capacity > 0
      ensures Valid() && history == [] && this.capacity == capacity
    {
      this.capacity := capacity;
      held, sent, history := [], 0, [];
    }

    method Send(e: Event)
      requires Valid()
      modifies this
      ensures Valid() && history == old(history) + [e]
    {
      held := held + [e];
      if |held| > capacity {
        held := held[1..];
      }
      sent := sent + 1;
      history := history + [e];
    }

    method Receive(next: nat) returns (polled: Polled, next': nat)
      requires Valid() && next <= sent
      ensures polled == Poll(history, capacity, next)
      ensures next' == Advanced(history, capacity, next) <= sent
    {
      var oldest := sent - |held|;
      if next < oldest {
        return Lagged(oldest - next), oldest;
      }
      if next < sent {
        return Received(held[next - oldest]), next + 1;
      }
      return Empty, next;
    }
  }

  class EventHub {
    const lifecycle: Broadcast
    const delta: Broadcast

    ghost predicate Valid()
      reads this, lifecycle, delta
    {
      lifecycle != delta && lifecycle.Valid() && delta.Valid()
    }

    constructor (lifecycleCapacity: nat, deltaCapacity: nat)
      requires lifecycleCapacity > 0 && deltaCapacity > 0
      ensures Valid() && fresh(lifecycle) && fresh(delta)
      ensures lifecycle.history == [] && delta.history == []
    {
      lifecycle := new Broadcast(lifecycleCapacity);
      delta := new Broadcast(deltaCapacity);
    }

    method Publish(e: Event)
      requires Valid()
      modifies lifecycle, delta
      ensures Valid()
      ensures lifecycle.history == old(lifecycle.history) + (if e.plane.Lifecycle? then [e] else [])
      ensures delta.history == old(delta.history) + (if e.plane.Delta? then [e] else [])
    {
      if e.plane.Lifecycle? {
        lifecycle.Send(e);
      } else {
        delta.Send(e);
      }
    }
  }

  // ----- The delta stream -----

  /** A delta receiver with the positions it delivered. */
  datatype DeltaRx = DeltaRx(start: nat, next: nat, dropped: nat, taken: seq<nat>)

  function DeltaPoll(history: seq<Event>, capacity: nat, rx: DeltaRx): DeltaRx {
    var moved := rx.(next := Advanced(history, capacity, rx.next));
    match Poll(history, capacity, rx.next)
    case Received(_) => moved.(taken := rx.taken + [rx.next])
    case Lagged(missed) => moved.(dropped := rx.dropped + missed)
    case Empty => moved
  }

  /**
   Every delta sent since subscription was delivered, counted as dropped, or is still ahead of the
   receiver; the delivered ones are distinct and in order.
   */
  ghost predicate DeltasConserved(history: seq<Event>, rx: DeltaRx) {
    && rx.start <= rx.next <= |history|
    && |history| - rx.start == |rx.taken| + rx.dropped + (|history| - rx.next)
    && (forall i :: 0 <= i < |rx.taken| ==> rx.start <= rx.taken[i] < rx.next)
    && (forall i, j :: 0 <= i < j < |rx.taken| ==> rx.taken[i] < rx.taken[j])
  }

  lemma DeltaPollConserves(history: seq<Event>, capacity: nat, rx: DeltaRx)
    requires DeltasConserved(history, rx)
    ensures DeltasConserved(history, DeltaPoll(history, capacity, rx))
  {
  }

  datatype DeltaStep = SendDelta(event: Event) | PollDelta

  function DeltaHistory(history: seq<Event>, step: DeltaStep): seq<Event> {
    if step.SendDelta? then history + [step.event] else history
  }

  function DeltaRxStep(history: seq<Event>, capacity: nat, rx: DeltaRx, step: DeltaStep): DeltaRx {
    if step.PollDelta? then DeltaPoll(history, capacity, rx) else rx
  }

  function DeltaRunHistory(history: seq<Event>, steps: seq<DeltaStep>): seq<Event>
    decreases |steps|
  {
    if steps == [] then history else DeltaRunHistory(DeltaHistory(history, steps[0]), steps[1..])
  }

  function DeltaRun(history: seq<Event>, capacity: nat, rx: DeltaRx, steps: seq<DeltaStep>): DeltaRx
    decreases |steps|
  {
    if steps == [] then rx
    else DeltaRun(DeltaHistory(history, steps[0]), capacity, DeltaRxStep(history, capacity, rx, steps[0]), steps[1..])
  }

  /** Conservation over every interleaving of sends and polls. */
  lemma {:induction false} DeltaRunConserves(history: seq<Event>, capacity: nat, rx: DeltaRx, steps: seq<DeltaStep>)
    requires DeltasConserved(history, rx)
    ensures DeltasConserved(DeltaRunHistory(history, steps), DeltaRun(history, capacity, rx, steps))
    decreases |steps|
  {
    if steps != [] {
      DeltaPollConserves(history, capacity, rx);
      DeltaRunConserves(DeltaHistory(history, steps[0]), capacity,
                        DeltaRxStep(history, capacity, rx, steps[0]), steps[1..]);
    }
  }

  class DeltaStream {
    const channel: Broadcast
    var next: nat
    var dropped: nat
    ghost var rx: DeltaRx

    ghost predicate Valid()
      reads this, channel
    {
      && channel.Valid()
      && rx.next == next && rx.dropped == dropped
      && DeltasConserved(channel.history, rx)
    }

    constructor (channel: Broadcast)
      requires channel.Valid()
      ensures Valid() && this.channel == channel && dropped == 0
      ensures rx == DeltaRx(|channel.history|, |channel.history|, 0, [])
    {
      this.channel := channel;
      next, dropped := channel.sent, 0;
      rx := DeltaRx(channel.sent, channel.sent, 0, []);
    }

    /**
     Returns the next delta the channel still holds and counts what it had to skip.  `None` means
     the receiver has caught up.
     */
    method Recv() returns (r: Option<Event>)
      requires Valid()
      modifies this
      ensures Valid() && rx.start == old(rx.start)
      ensures r.None? ==> next == |channel.history| && rx.taken == old(rx.taken)
      ensures r.Some? ==>
                next > 0 && rx.taken == old(rx.taken) + [next - 1] && r.value == channel.history[next - 1]
                && next - 1 == Max(old(next), Oldest(|channel.history|, channel.capacity))
    {
      while true
        invariant Valid() && rx.start == old(rx.start) && rx.taken == old(rx.taken)
        invariant next == old(next) || next == Oldest(|channel.history|, channel.capacity) > old(next)
        decreases |channel.history| - next
      {
        var polled, moved := channel.Receive(next);
        DeltaPollConserves(channel.history, channel.capacity, rx);
        rx := DeltaPoll(channel.history, channel.capacity, rx);
        next := moved;
        match polled {
          case Received(e) =>
            return Some(e);
          case Lagged(missed) =>
            dropped := dropped + missed;
          case Empty =>
            return None;
        }
      }
    }
  }

  // ----- The lifecycle stream -----

  datatype Item =
    | Delivered(event: Event)
    | Replayed(events: seq<Event>)
    | GapTooOld(snapshot: R.State, oldest: Sequence)

  /** The cursor after a replay. */
  function ReplayCursor(events: seq<Event>, cursor: Sequence): Sequence {
    if events == [] then cursor else events[|events| - 1].sequence
  }

  /** Lag recovery: `events_since` at the cursor, and where that leaves the cursor. */
  function Recover(log: seq<Event>, view: R.State, cursor: Sequence): (Item, Sequence) {
    if R.MustGap(log, cursor) then (GapTooOld(view, log[0].sequence), view.atSequence)
    else (Replayed(R.After(log, cursor)), ReplayCursor(R.After(log, cursor), cursor))
  }

  class LifecycleStream {
    const channel: Broadcast
    const reducer: R.Reducer
    var next: nat
    var cursor: Sequence

    ghost predicate Valid()
      reads this, channel, reducer
    {
      channel.Valid() && reducer.Valid() && next <= channel.sent
    }

    constructor (channel: Broadcast, reducer: R.Reducer, after: Sequence)
      requires channel.Valid() && reducer.Valid()
      ensures Valid() && this.channel == channel && this.reducer == reducer
      ensures next == |channel.history| && cursor == after
    {
      this.channel := channel;
      this.reducer := reducer;
      next, cursor := channel.sent, after;
    }

    /** One `recv` with nothing running beside it; `None` means the receiver has caught up. */
    method Recv() returns (item: Option<Item>)
      requires Valid()
      modifies this
      ensures Valid()
      ensures next == Advanced(channel.history, channel.capacity, old(next))
      ensures match Poll(channel.history, channel.capacity, old(next))
              case Received(e) => item == Some(Delivered(e)) && cursor == e.sequence
              case Empty => item == None && cursor == old(cursor)
              case Lagged(_) => (item, cursor) == (Some(Recover(reducer.log, reducer.View(), old(cursor)).0),
                                                   Recover(reducer.log, reducer.View(), old(cursor)).1)
      ensures item.Some? && item.value.Replayed? ==>
                && (forall e :: e in item.value.events <==> e in reducer.log && e.sequence > old(cursor))
                && cursor == if item.value.events == [] then old(cursor)
                             else item.value.events[|item.value.events| - 1].sequence
      ensures item.Some? && item.value.GapTooOld? ==>
                && reducer.log != [] && item.value.oldest == reducer.log[0].sequence
                && item.value.snapshot == reducer.View() && cursor == item.value.snapshot.atSequence
    {
      var polled, moved := channel.Receive(next);
      next := moved;
      match polled {
        case Received(e) =>
          cursor := e.sequence;
          item := Some(Delivered(e));
        case Empty =>
          item := None;
        case Lagged(_) =>
          R.AfterMember(reducer.log, cursor);
          var result := reducer.EventsSince(cursor);
          match result {
            case Replay(events) =>
              if events != [] {
                cursor := events[|events| - 1].sequence;
              }
              item := Some(Replayed(events));
            case TooOld(_, oldest, snapshot) =>
              cursor := snapshot.atSequence;
              item := Some(GapTooOld(snapshot, oldest));
          }
      }
    }
  }

  // ----- Ingress and stream, interleaved -----

  /** Where `process` stands with the event it is working on; each stage is one critical section. */
  datatype Stage = Idle | Applied(event: Event) | Logged(event: Event)

  /** Where `recv` stands. */
  datatype Phase = Polling | Recovering | Snapshotting(oldest: Sequence)

  /**
   The ingress consuming `feed` in order, the reducer and its log, the lifecycle channel, and one
   stream.  `history` is every event ever logged, `published` every event ever sent.  `handled` is
   the position up to which `recv` has answered for the channel: a lag moves `next` ahead of it, and
   the recovery, or the next plain event, brings it back level.
   */
  datatype System = System(
    feed: seq<Event>, logCapacity: nat, ringCapacity: nat,
    pos: nat, stage: Stage, view: R.State, history: seq<Event>, published: seq<Event>,
    start: nat, after: Sequence, next: nat, handled: nat, cursor: Sequence, phase: Phase, items: seq<Item>)

  datatype Action =
    | TakeEvent              // ingress: the reducer's state lock
    | AppendLog              // ingress: the reducer's log lock
    | Publish                // ingress: fan-out
    | Touch(op: R.Op)        // any other reducer operation
    | Subscribe(from: Sequence)
    | PollChannel            // recv: the channel
    | ReadLog                // recv: events_since, log lock
    | ReadSnapshot           // recv: events_since, state lock
    | Abort                  // the caller drops the `recv` future

  function LogOf(s: System): seq<Event> {
    R.LastOf(s.history, s.logCapacity)
  }

  function IfLifecycle(es: seq<Event>, e: Event): seq<Event> {
    if e.plane.Lifecycle? then es + [e] else es
  }

  /** One atomic action; an action that is not enabled leaves the system as it is. */
  function Step(s: System, a: Action): System {
    match a
    case TakeEvent =>
      if s.stage.Idle? && s.pos < |s.feed| then
        s.(pos := s.pos + 1, stage := Applied(s.feed[s.pos]), view := R.Step(s.view, R.ApplyOp(s.feed[s.pos])))
      else s
    case AppendLog =>
      if s.stage.Applied? then
        s.(stage := Logged(s.stage.event), history := IfLifecycle(s.history, s.stage.event))
      else s
    case Publish =>
      if s.stage.Logged? then
        s.(stage := Idle, published := IfLifecycle(s.published, s.stage.event))
      else s
    case Touch(op) =>
      if op.ApplyOp? then s else s.(view := R.Step(s.view, op))
    case Subscribe(from) =>
      s.(start := |s.published|, after := from, next := |s.published|, handled := |s.published|,
         cursor := from, phase := Polling, items := [])
    case PollChannel =>
      if !s.phase.Polling? then s
      else
        var moved := s.(next := Advanced(s.published, s.ringCapacity, s.next));
        (match Poll(s.published, s.ringCapacity, s.next)
         case Received(e) => moved.(handled := moved.next, cursor := e.sequence, items := s.items + [Delivered(e)])
         case Lagged(_) => moved.(phase := Recovering)
         case Empty => moved)
    case ReadLog =>
      if !s.phase.Recovering? then s
      else if R.MustGap(LogOf(s), s.cursor) then s.(phase := Snapshotting(LogOf(s)[0].sequence))
      else
        var events := R.After(LogOf(s), s.cursor);
        s.(phase := Polling, handled := s.next, cursor := ReplayCursor(events, s.cursor),
           items := s.items + [Replayed(events)])
    case ReadSnapshot =>
      if !s.phase.Snapshotting? then s
      else
        s.(phase := Polling, handled := s.next, cursor := s.view.atSequence,
           items := s.items + [GapTooOld(s.view, s.phase.oldest)])
    case Abort => s.(phase := Polling)
  }

  function Run(s: System, actions: seq<Action>): System
    decreases |actions|
  {
    if actions == [] then s else Run(Step(s, actions[0]), actions[1..])
  }

  /** Nothing has happened yet. */
  function Start(feed: seq<Event>, logCapacity: nat, ringCapacity: nat): System {
    System(feed, logCapacity, ringCapacity, 0, Idle, R.INITIAL, [], [], 0, 0, 0, 0, 0, Polling, [])
  }

  // ----- What a consumer has -----

  /**
   A consumer that ignores everything at or below `mark`, the highest sequence it has seen so far.
   `gap` is the highest snapshot a gap came with.
   */
  datatype Consumer = Consumer(mark: Sequence, gap: Sequence, accepted: seq<Event>)

  function Accept(c: Consumer, e: Event): Consumer {
    if e.sequence > c.mark then c.(mark := e.sequence, accepted := c.accepted + [e]) else c
  }

  function AcceptAll(c: Consumer, es: seq<Event>): Consumer
    decreases |es|
  {
    if es == [] then c else AcceptAll(Accept(c, es[0]), es[1..])
  }

  function Offer(c: Consumer, item: Item): Consumer {
    match item
    case Delivered(e) => Accept(c, e)
    case Replayed(es) => AcceptAll(c, es)
    case GapTooOld(snapshot, _) =>
      c.(mark := Max(c.mark, snapshot.atSequence), gap := Max(c.gap, snapshot.atSequence))
  }

  function Consume(after: Sequence, items: seq<Item>): Consumer {
    if items == [] then Consumer(after, 0, [])
    else Offer(Consume(after, items[..|items| - 1]), items[|items| - 1])
  }

  lemma ConsumeOne(after: Sequence, items: seq<Item>, item: Item)
    ensures Consume(after, items + [item]) == Offer(Consume(after, items), item)
  {
    assert (items + [item])[..|items|] == items;
  }

  /** What the consumer accepted is strictly increasing and at most its mark, and so is the gap. */
  ghost predicate Orderly(c: Consumer) {
    R.Increasing(c.accepted) && c.gap <= c.mark && forall e :: e in c.accepted ==> e.sequence <= c.mark
  }

  /** The consumer's mark comes from the subscription, a gap, or the last event it accepted. */
  predicate Witnessed(after: Sequence, c: Consumer) {
    || c.mark <= after
    || c.mark <= c.gap
    || (c.accepted != [] && c.mark <= c.accepted[|c.accepted| - 1].sequence)
  }

  lemma {:induction false} AcceptAllKeeps(c: Consumer, es: seq<Event>)
    requires Orderly(c)
    ensures var d := AcceptAll(c, es);
            && Orderly(d) && d.gap == c.gap && c.mark <= d.mark && c.accepted <= d.accepted
            && (forall e :: e in d.accepted ==> e in c.accepted || e in es)
            && (forall after :: Witnessed(after, c) ==> Witnessed(after, d))
    decreases |es|
  {
    if es != [] {
      AcceptAllKeeps(Accept(c, es[0]), es[1..]);
    }
  }

  /** Offered an increasing list, the consumer takes everything above its mark. */
  lemma {:induction false} AcceptAllTakes(c: Consumer, es: seq<Event>)
    requires R.Increasing(es) && Orderly(c)
    ensures forall e :: e in es && e.sequence > c.mark ==> e in AcceptAll(c, es).accepted
    ensures AcceptAll(c, es).mark == if es == [] then c.mark else Max(c.mark, es[|es| - 1].sequence)
    decreases |es|
  {
    if es != [] {
      var d := Accept(c, es[0]);
      AcceptAllKeeps(d, es[1..]);
      AcceptAllTakes(d, es[1..]);
      forall e | e in es && e.sequence > c.mark
        ensures e in AcceptAll(c, es).accepted
      {
        if e == es[0] {
          assert e == d.accepted[|c.accepted|];
        } else {
          assert e in es[1..];
        }
      }
    }
  }

  /** The consumer has the event, or was told by a gap and its snapshot that it may be missing. */
  predicate Known(after: Sequence, c: Consumer, e: Event) {
    e.sequence <= after || e.sequence <= c.gap || e in c.accepted
  }

  // ----- Invariants -----

  /** The ingress side: what is logged and published is the lifecycle part of what was taken. */
  ghost predicate IngressInv(s: System) {
    && s.logCapacity > 0 && s.ringCapacity > 0
    && Consecutive(s.feed) && s.pos <= |s.feed| <= R.U64_MAX
    && s.view.atSequence == s.pos
    && (!s.stage.Idle? ==> s.pos > 0 && s.stage.event == s.feed[s.pos - 1])
    && s.history == R.Lifecycles(s.feed[..LoggedTo(s)])
    && s.published == R.Lifecycles(s.feed[..PublishedTo(s)])
  }

  function LoggedTo(s: System): nat {
    if s.stage.Applied? && s.pos > 0 then s.pos - 1 else s.pos
  }

  function PublishedTo(s: System): nat {
    if !s.stage.Idle? && s.pos > 0 then s.pos - 1 else s.pos
  }

  /**
   The consumer `c` knows every logged event from `start` on that is before position `handled` or
   at most its mark.
   */
  ghost predicate Informed(history: seq<Event>, start: nat, handled: nat, after: Sequence, c: Consumer) {
    && start <= handled <= |history| && after <= c.mark
    && Orderly(c) && Witnessed(after, c)
    && (forall e :: e in c.accepted ==> e in history)
    && (forall i :: start <= i < |history| && (i < handled || history[i].sequence <= c.mark) ==>
          Known(after, c, history[i]))
  }

  ghost predicate StreamInv(s: System, c: Consumer) {
    && s.handled <= s.next <= |s.published|
    && s.cursor <= c.mark
    && Informed(s.history, s.start, s.handled, s.after, c)
  }

  ghost predicate Inv(s: System) {
    IngressInv(s) && StreamInv(s, Consume(s.after, s.items))
  }

  lemma LifecyclesPrefix(es: seq<Event>, n: nat)
    requires n < |es|
    ensures R.Lifecycles(es[..n + 1]) == IfLifecycle(R.Lifecycles(es[..n]), es[n])
  {
    assert es[..n + 1] == es[..n] + [es[n]];
    R.LifecyclesAppend(es[..n], es[n]);
  }

  /** The log's history is increasing, below the snapshot's sequence, and extends what is published. */
  lemma IngressFacts(s: System)
    requires IngressInv(s)
    ensures R.Increasing(s.history)
    ensures forall e :: e in s.history ==> e.sequence <= LoggedTo(s) <= s.view.atSequence
    ensures forall e :: e in s.history ==> e.sequence <= R.U64_MAX
    ensures s.published <= s.history
  {
    var taken := s.feed[..LoggedTo(s)];
    R.IncreasingLifecycles(taken);
    forall e | e in s.history
      ensures e.sequence <= LoggedTo(s)
    {
      var i :| 0 <= i < |taken| && taken[i] == e;
    }
    if s.stage.Logged? {
      LifecyclesPrefix(s.feed, s.pos - 1);
    }
  }

  lemma TakeKeeps(s: System)
    requires IngressInv(s) && s.stage.Idle? && s.pos < |s.feed|
    ensures IngressInv(Step(s, TakeEvent))
  {
    R.OnlyEventsAdvance(s.view, R.ApplyOp(s.feed[s.pos]));
  }

  lemma LogKeeps(s: System)
    requires IngressInv(s) && s.stage.Applied?
    ensures IngressInv(Step(s, AppendLog))
  {
    LifecyclesPrefix(s.feed, s.pos - 1);
  }

  lemma PublishKeeps(s: System)
    requires IngressInv(s) && s.stage.Logged?
    ensures IngressInv(Step(s, Publish))
  {
    LifecyclesPrefix(s.feed, s.pos - 1);
  }

  lemma ReceiverLeavesIngress(s: System, a: Action)
    requires IngressInv(s) && !(a.TakeEvent? || a.AppendLog? || a.Publish? || a.Touch?)
    ensures IngressInv(Step(s, a))
  {
    var s' := Step(s, a);
    assert s' == s.(start := s'.start, after := s'.after, next := s'.next, handled := s'.handled,
                    cursor := s'.cursor, phase := s'.phase, items := s'.items);
  }

  lemma TouchKeeps(s: System, op: R.Op)
    requires IngressInv(s)
    ensures IngressInv(Step(s, Touch(op)))
  {
    R.OnlyEventsAdvance(s.view, op);
  }

  lemma IngressStep(s: System, a: Action)
    requires IngressInv(s)
    ensures IngressInv(Step(s, a))
  {
    match a
    case AppendLog =>
      if s.stage.Applied? {
        LogKeeps(s);
      }
    case Publish =>
      if s.stage.Logged? {
        PublishKeeps(s);
      }
    case Touch(op) => TouchKeeps(s, op);
    case TakeEvent =>
      if s.stage.Idle? && s.pos < |s.feed| {
        TakeKeeps(s);
      }
    case _ => ReceiverLeavesIngress(s, a);
  }

  /** An event logged now is above everything the consumer accepted. */
  lemma LogInforms(history: seq<Event>, start: nat, handled: nat, after: Sequence, c: Consumer, e: Event)
    requires Informed(history, start, handled, after, c)
    requires forall h :: h in history ==> h.sequence < e.sequence
    ensures Informed(history + [e], start, handled, after, c)
  {
    assert c.accepted != [] ==> c.accepted[|c.accepted| - 1] in history;
  }

  lemma ReceiveInforms(history: seq<Event>, start: nat, next: nat, after: Sequence, c: Consumer)
    requires Informed(history, start, next, after, c) && R.Increasing(history) && next < |history|
    ensures Informed(history, start, next + 1, after, Accept(c, history[next]))
  {
    var e := history[next];
    var c' := Accept(c, e);
    assert e.sequence > c.mark ==> c'.accepted[|c.accepted|] == e;
    forall i | start <= i < |history| && (i < next + 1 || history[i].sequence <= c'.mark)
      ensures Known(after, c', history[i])
    {
      if i != next {
        assert Known(after, c, history[i]);
      }
    }
  }

  lemma {:induction false} AfterIncreasing(es: seq<Event>, sequence: Sequence)
    requires R.Increasing(es)
    ensures R.Increasing(R.After(es, sequence))
  {
    if es != [] {
      var rest := es[1..];
      AfterIncreasing(rest, sequence);
      R.AfterMember(rest, sequence);
      forall e | e in R.After(rest, sequence)
        ensures es[0].sequence < e.sequence
      {
        var i :| 0 <= i < |rest| && rest[i] == e;
        assert es[i + 1] == e;
      }
    }
  }

  lemma ReplayInforms(
    history: seq<Event>, start: nat, handled: nat, next: nat, after: Sequence, c: Consumer, cursor: Sequence)
    requires Informed(history, start, handled, after, c) && R.Increasing(history)
    requires handled <= next <= |history| && cursor <= c.mark
    ensures Informed(history, start, next, after, AcceptAll(c, R.After(history, cursor)))
    ensures ReplayCursor(R.After(history, cursor), cursor) <= AcceptAll(c, R.After(history, cursor)).mark
  {
    var es := R.After(history, cursor);
    R.AfterMember(history, cursor);
    AfterIncreasing(history, cursor);
    AcceptAllKeeps(c, es);
    AcceptAllTakes(c, es);
    var c' := AcceptAll(c, es);
    forall i | start <= i < |history| && (i < next || history[i].sequence <= c'.mark)
      ensures Known(after, c', history[i])
    {
      if history[i].sequence <= c.mark {
        assert Known(after, c, history[i]);
      } else {
        assert history[i] in es;
      }
    }
  }

  lemma SnapshotInforms(
    history: seq<Event>, start: nat, handled: nat, next: nat, after: Sequence, c: Consumer,
    snapshot: R.State, oldest: Sequence)
    requires Informed(history, start, handled, after, c)
    requires handled <= next <= |history|
    requires forall e :: e in history ==> e.sequence <= snapshot.atSequence
    ensures Informed(history, start, next, after, Offer(c, GapTooOld(snapshot, oldest)))
  {
    assert forall i :: 0 <= i < |history| ==> history[i] in history;
  }

  /** Reassembles the invariant when only the receiver's side moved and one item was delivered. */
  lemma Delivers(s: System, s': System, item: Item)
    requires IngressInv(s)
    requires s' == s.(next := s'.next, handled := s'.next, cursor := s'.cursor, phase := Polling, items := s.items + [item])
    requires s'.next <= |s'.published|
    requires Informed(s.history, s.start, s'.next, s.after, Offer(Consume(s.after, s.items), item))
    requires s'.cursor <= Offer(Consume(s.after, s.items), item).mark
    ensures Inv(s')
  {
    ConsumeOne(s.after, s.items, item);
  }

  /**
   The poll receives a plain event although an abandoned recovery has left events behind the receiver
   that are above everything its consumer has seen.
   */
  ghost predicate Forfeit(s: System, a: Action) {
    && a.PollChannel? && s.phase.Polling? && Poll(s.published, s.ringCapacity, s.next).Received?
    && s.handled < s.next && s.published[s.next - 1].sequence > Consume(s.after, s.items).mark
  }

  /** What is left behind but not above the mark is not owed any more. */
  lemma NothingOwed(history: seq<Event>, start: nat, handled: nat, next: nat, after: Sequence, c: Consumer)
    requires Informed(history, start, handled, after, c) && R.Increasing(history) && handled <= next <= |history|
    requires handled < next ==> history[next - 1].sequence <= c.mark
    ensures Informed(history, start, next, after, c)
  {
  }

  lemma PollReady(s: System)
    requires Inv(s) && s.phase.Polling? && Poll(s.published, s.ringCapacity, s.next).Received?
    requires !Forfeit(s, PollChannel)
    ensures s.next < |s.history| && s.history[s.next] == s.published[s.next] && R.Increasing(s.history)
    ensures Informed(s.history, s.start, s.next, s.after, Consume(s.after, s.items))
  {
    IngressFacts(s);
    NothingOwed(s.history, s.start, s.handled, s.next, s.after, Consume(s.after, s.items));
  }

  lemma PollStep(s: System)
    requires Inv(s) && s.phase.Polling? && Poll(s.published, s.ringCapacity, s.next).Received?
    requires !Forfeit(s, PollChannel)
    ensures Inv(Step(s, PollChannel))
  {
    PollReady(s);
    ReceiveInforms(s.history, s.start, s.next, s.after, Consume(s.after, s.items));
    Delivers(s, Step(s, PollChannel), Delivered(s.published[s.next]));
  }

  lemma LagStep(s: System)
    requires Inv(s) && s.phase.Polling? && !Poll(s.published, s.ringCapacity, s.next).Received?
    ensures Inv(Step(s, PollChannel))
  {
  }

  lemma ReplayStep(s: System)
    requires Inv(s) && s.phase.Recovering? && !R.MustGap(LogOf(s), s.cursor)
    ensures Inv(Step(s, ReadLog))
  {
    var c, es := Consume(s.after, s.items), R.After(LogOf(s), s.cursor);
    assert Informed(s.history, s.start, s.next, s.after, AcceptAll(c, es))
           && ReplayCursor(es, s.cursor) <= AcceptAll(c, es).mark by {
      IngressFacts(s);
      R.ReplayComplete(s.history, s.logCapacity, s.cursor);
      ReplayInforms(s.history, s.start, s.handled, s.next, s.after, c, s.cursor);
    }
    Delivers(s, Step(s, ReadLog), Replayed(es));
  }

  lemma ReadSnapshotStep(s: System)
    requires Inv(s) && s.phase.Snapshotting?
    ensures Inv(Step(s, ReadSnapshot))
  {
    IngressFacts(s);
    SnapshotInforms(s.history, s.start, s.handled, s.next, s.after, Consume(s.after, s.items),
                    s.view, s.phase.oldest);
    Delivers(s, Step(s, ReadSnapshot), GapTooOld(s.view, s.phase.oldest));
  }

  lemma IngressKeepsStream(s: System, a: Action)
    requires Inv(s) && (a.TakeEvent? || a.AppendLog? || a.Publish? || a.Touch?)
    ensures Inv(Step(s, a))
  {
    IngressStep(s, a);
    IngressFacts(s);
    if a.AppendLog? && s.stage.Applied? && s.stage.event.plane.Lifecycle? {
      assert s.stage.event.sequence == LoggedTo(s) + 1;
      LogInforms(s.history, s.start, s.handled, s.after, Consume(s.after, s.items), s.stage.event);
    }
  }

  lemma SubscribeStep(s: System, from: Sequence)
    requires Inv(s)
    ensures Inv(Step(s, Subscribe(from)))
  {
    IngressFacts(s);
  }

  lemma GapStep(s: System)
    requires Inv(s) && s.phase.Recovering? && R.MustGap(LogOf(s), s.cursor)
    ensures Inv(Step(s, ReadLog))
  {
  }

  /** Every action but a forfeiting poll keeps the invariant. */
  lemma StepInv(s: System, a: Action)
    requires Inv(s) && !Forfeit(s, a)
    ensures Inv(Step(s, a))
  {
    match a
    case PollChannel =>
      if s.phase.Polling? {
        if Poll(s.published, s.ringCapacity, s.next).Received? {
          PollStep(s);
        } else {
          LagStep(s);
        }
      }
    case ReadLog =>
      if s.phase.Recovering? {
        if R.MustGap(LogOf(s), s.cursor) {
          GapStep(s);
        } else {
          ReplayStep(s);
        }
      }
    case ReadSnapshot =>
      if s.phase.Snapshotting? {
        ReadSnapshotStep(s);
      }
    case Subscribe(from) => SubscribeStep(s, from);
    case Abort =>
    case _ => IngressKeepsStream(s, a);
  }

  /** The run contains a forfeiting poll. */
  ghost predicate Forfeits(s: System, actions: seq<Action>)
    decreases |actions|
  {
    actions != [] && (Forfeit(s, actions[0]) || Forfeits(Step(s, actions[0]), actions[1..]))
  }

  lemma {:induction false} RunInv(s: System, actions: seq<Action>)
    requires Inv(s) && !Forfeits(s, actions)
    ensures Inv(Run(s, actions))
    decreases |actions|
  {
    if actions != [] {
      var s' := Step(s, actions[0]);
      assert Run(s, actions) == Run(s', actions[1..]);
      StepInv(s, actions[0]);
      RunInv(s', actions[1..]);
    }
  }

  /** A `recv` that is never dropped leaves nothing behind. */
  ghost predicate Level(s: System) {
    s.phase.Polling? ==> s.handled == s.next
  }

  /** The run drops a `recv` in the middle of a recovery. */
  ghost predicate DropsInRecovery(s: System, actions: seq<Action>)
    decreases |actions|
  {
    actions != []
    && ((actions[0].Abort? && !s.phase.Polling?) || DropsInRecovery(Step(s, actions[0]), actions[1..]))
  }

  lemma UndroppedStep(s: System, a: Action)
    requires Level(s) && (a.Abort? ==> s.phase.Polling?)
    ensures Level(Step(s, a)) && !Forfeit(s, a)
  {
  }

  lemma {:induction false} UndroppedForfeitsNothing(s: System, actions: seq<Action>)
    requires Level(s) && !DropsInRecovery(s, actions)
    ensures Level(Run(s, actions)) && !Forfeits(s, actions)
    decreases |actions|
  {
    if actions != [] {
      UndroppedStep(s, actions[0]);
      UndroppedForfeitsNothing(Step(s, actions[0]), actions[1..]);
    }
  }

  lemma {:induction false} NoAbortNoDrop(s: System, actions: seq<Action>)
    requires Abort !in actions
    ensures !DropsInRecovery(s, actions)
    decreases |actions|
  {
    if actions != [] {
      NoAbortNoDrop(Step(s, actions[0]), actions[1..]);
    }
  }

  lemma {:induction false} RunFeed(s: System, actions: seq<Action>)
    ensures Run(s, actions).feed == s.feed
    decreases |actions|
  {
    if actions != [] {
      var s' := Step(s, actions[0]);
      assert s'.feed == s.feed;
      RunFeed(s', actions[1..]);
    }
  }

  lemma StartInv(feed: seq<Event>, logCapacity: nat, ringCapacity: nat)
    requires Consecutive(feed) && |feed| <= R.U64_MAX && logCapacity > 0 && ringCapacity > 0
    ensures Inv(Start(feed, logCapacity, ringCapacity))
  {
    assert feed[..0] == [];
  }

  // ----- No silent loss -----

  /** The event came through the stream, alone or inside a replay. */
  predicate CameThrough(items: seq<Item>, e: Event) {
    exists i :: 0 <= i < |items|
                && (items[i] == Delivered(e) || (items[i].Replayed? && e in items[i].events))
  }

  /** A gap was reported whose snapshot already includes the event's sequence. */
  predicate GapCovers(items: seq<Item>, e: Event) {
    exists i :: 0 <= i < |items| && items[i].GapTooOld? && e.sequence <= items[i].snapshot.atSequence
  }

  /** The consumer's knowledge comes from the items and from nothing else. */
  lemma {:induction false} KnowledgeIsFromItems(after: Sequence, items: seq<Item>)
    ensures Orderly(Consume(after, items))
    ensures forall e :: e in Consume(after, items).accepted ==> CameThrough(items, e)
    ensures forall e: Event :: e.sequence <= Consume(after, items).gap ==> e.sequence == 0 || GapCovers(items, e)
  {
    if items != [] {
      var init, last := items[..|items| - 1], items[|items| - 1];
      var c := Consume(after, init);
      KnowledgeIsFromItems(after, init);
      if last.Replayed? {
        AcceptAllKeeps(c, last.events);
      }
      forall e | e in Consume(after, items).accepted
        ensures CameThrough(items, e)
      {
        if CameThrough(init, e) {
          var i :| 0 <= i < |init| && (init[i] == Delivered(e) || (init[i].Replayed? && e in init[i].events));
          assert items[i] == init[i];
        }
      }
      forall e: Event | 0 < e.sequence <= Consume(after, items).gap
        ensures GapCovers(items, e)
      {
        if GapCovers(init, e) {
          var i :| 0 <= i < |init| && init[i].GapTooOld? && e.sequence <= init[i].snapshot.atSequence;
          assert items[i] == init[i];
        }
      }
    }
  }

  lemma {:induction false} AcceptAllReaches(c: Consumer, es: seq<Event>)
    ensures AcceptAll(c, es).mark >= c.mark && AcceptAll(c, es).gap == c.gap
    ensures forall e :: e in es ==> e.sequence <= AcceptAll(c, es).mark
    decreases |es|
  {
    if es != [] {
      AcceptAllReaches(Accept(c, es[0]), es[1..]);
    }
  }

  /** Nothing above the mark came through, and nothing above the gap is covered. */
  lemma {:induction false} ItemsAreBelowMark(after: Sequence, items: seq<Item>)
    ensures forall e :: CameThrough(items, e) ==> e.sequence <= Consume(after, items).mark
    ensures forall e :: GapCovers(items, e) ==> e.sequence <= Consume(after, items).gap
  {
    if items != [] {
      var init, last := items[..|items| - 1], items[|items| - 1];
      var c := Consume(after, init);
      ItemsAreBelowMark(after, init);
      if last.Replayed? {
        AcceptAllReaches(c, last.events);
      }
      forall e | CameThrough(items, e)
        ensures e.sequence <= Consume(after, items).mark
      {
        var i :| 0 <= i < |items| && (items[i] == Delivered(e) || (items[i].Replayed? && e in items[i].events));
        if i < |init| {
          assert init[i] == items[i];
          assert CameThrough(init, e);
        }
      }
      forall e | GapCovers(items, e)
        ensures e.sequence <= Consume(after, items).gap
      {
        var i :| 0 <= i < |items| && items[i].GapTooOld? && e.sequence <= items[i].snapshot.atSequence;
        if i < |init| {
          assert init[i] == items[i];
          assert GapCovers(init, e);
        }
      }
    }
  }

  /** The stream has answered for position `i`, but its event never came through and no gap covers it. */
  ghost predicate Lost(s: System, i: nat) {
    && s.start <= i < s.handled && i < |s.published| && s.published[i].sequence > s.after
    && !CameThrough(s.items, s.published[i]) && !GapCovers(s.items, s.published[i])
  }

  lemma InvLosesNothing(s: System)
    requires Inv(s)
    ensures forall i :: !Lost(s, i)
  {
    KnowledgeIsFromItems(s.after, s.items);
    IngressFacts(s);
    forall i | s.start <= i < s.handled
      ensures Known(s.after, Consume(s.after, s.items), s.published[i])
    {
      assert s.published[i] == s.history[i];
    }
  }

  /**
   No silent loss.  In every interleaving of the ingress, other reducer operations, the stream and
   callers that drop a `recv`, each lifecycle event published since subscription above `after` is
   still ahead of what the receiver has answered for, or came through the stream, or is at or below
   the snapshot of a gap the stream reported - unless a poll forfeits an abandoned recovery.
   */
  lemma NoSilentLoss(feed: seq<Event>, logCapacity: nat, ringCapacity: nat, actions: seq<Action>)
    requires Consecutive(feed) && |feed| <= R.U64_MAX && logCapacity > 0 && ringCapacity > 0
    requires !Forfeits(Start(feed, logCapacity, ringCapacity), actions)
    ensures var s := Run(Start(feed, logCapacity, ringCapacity), actions);
            forall i :: s.start <= i < |s.published| && s.published[i].sequence > s.after ==>
              i >= s.handled || CameThrough(s.items, s.published[i]) || GapCovers(s.items, s.published[i])
  {
    StartInv(feed, logCapacity, ringCapacity);
    RunInv(Start(feed, logCapacity, ringCapacity), actions);
    var s := Run(Start(feed, logCapacity, ringCapacity), actions);
    InvLosesNothing(s);
    forall i | s.start <= i < |s.published| && s.published[i].sequence > s.after
      ensures i >= s.handled || CameThrough(s.items, s.published[i]) || GapCovers(s.items, s.published[i])
    {
      assert !Lost(s, i);
    }
  }

  /**
   Dropping a `recv` that is still waiting for the channel is harmless: when none is dropped in the
   middle of a recovery, nothing is lost, and between two calls everything behind the receiver is
   answered for.
   */
  lemma NoSilentLossUndropped(feed: seq<Event>, logCapacity: nat, ringCapacity: nat, actions: seq<Action>)
    requires Consecutive(feed) && |feed| <= R.U64_MAX && logCapacity > 0 && ringCapacity > 0
    requires !DropsInRecovery(Start(feed, logCapacity, ringCapacity), actions)
    ensures var s := Run(Start(feed, logCapacity, ringCapacity), actions);
            && (s.phase.Polling? ==> s.handled == s.next)
            && forall i :: s.start <= i < |s.published| && s.published[i].sequence > s.after ==>
                 i >= s.handled || CameThrough(s.items, s.published[i]) || GapCovers(s.items, s.published[i])
  {
    UndroppedForfeitsNothing(Start(feed, logCapacity, ringCapacity), actions);
    NoSilentLoss(feed, logCapacity, ringCapacity, actions);
  }

  // ----- Recoveries resume where the stream stood -----

  /** How far the items take a reader: to the last event or snapshot handed over. */
  function ReachedBy(after: Sequence, items: seq<Item>): Sequence {
    if items == [] then after
    else
      match items[|items| - 1]
      case Delivered(e) => e.sequence
      case Replayed(events) =>
        if events != [] then events[|events| - 1].sequence else ReachedBy(after, items[..|items| - 1])
      case GapTooOld(snapshot, _) => snapshot.atSequence
  }

  /** The last sequence an item hands over or stands for; an empty replay has none. */
  predicate EndsAt(item: Item, last: Sequence) {
    || (item.Delivered? && last == item.event.sequence)
    || (item.Replayed? && item.events != [] && last == item.events[|item.events| - 1].sequence)
    || (item.GapTooOld? && last == item.snapshot.atSequence)
  }

  /** A recovery hands over, or stands for, only what is above `reached`. */
  ghost predicate Resumes(reached: Sequence, item: Item) {
    && (item.Replayed? ==> forall e :: e in item.events ==> e.sequence > reached)
    && (item.GapTooOld? ==> R.SaturatingSucc(reached) < item.oldest)
  }

  ghost predicate Resumed(s: System) {
    && s.cursor == ReachedBy(s.after, s.items)
    && (s.phase.Snapshotting? ==> R.SaturatingSucc(s.cursor) < s.phase.oldest)
    && forall i :: 0 <= i < |s.items| ==> Resumes(ReachedBy(s.after, s.items[..i]), s.items[i])
  }

  lemma ResumedByOne(s: System, s': System, item: Item)
    requires Resumed(s) && s'.after == s.after && s'.items == s.items + [item] && s'.phase.Polling?
    requires Resumes(s.cursor, item)
    requires if item == Replayed([]) then s'.cursor == s.cursor else EndsAt(item, s'.cursor)
    ensures Resumed(s')
  {
    assert s'.items[..|s.items|] == s.items;
    forall i | 0 <= i < |s'.items|
      ensures Resumes(ReachedBy(s'.after, s'.items[..i]), s'.items[i])
    {
      if i < |s.items| {
        assert s'.items[..i] == s.items[..i];
      }
    }
  }

  lemma ReadLogResumes(s: System)
    requires Resumed(s) && s.phase.Recovering?
    ensures Resumed(Step(s, ReadLog))
  {
    if !R.MustGap(LogOf(s), s.cursor) {
      var events := R.After(LogOf(s), s.cursor);
      R.AfterMember(LogOf(s), s.cursor);
      ResumedByOne(s, Step(s, ReadLog), Replayed(events));
    }
  }

  lemma StepResumes(s: System, a: Action)
    requires Resumed(s)
    ensures Resumed(Step(s, a))
  {
    match a
    case PollChannel =>
      if s.phase.Polling? && Poll(s.published, s.ringCapacity, s.next).Received? {
        ResumedByOne(s, Step(s, a), Delivered(s.published[s.next]));
      }
    case ReadLog =>
      if s.phase.Recovering? {
        ReadLogResumes(s);
      }
    case ReadSnapshot =>
      if s.phase.Snapshotting? {
        ResumedByOne(s, Step(s, a), GapTooOld(s.view, s.phase.oldest));
      }
    case _ =>
  }

  lemma {:induction false} RunResumes(s: System, actions: seq<Action>)
    requires Resumed(s)
    ensures Resumed(Run(s, actions))
    decreases |actions|
  {
    if actions != [] {
      StepResumes(s, actions[0]);
      RunResumes(Step(s, actions[0]), actions[1..]);
    }
  }

  lemma ReachedFromLast(after: Sequence, items: seq<Item>, item: Item)
    requires items != [] && items[|items| - 1] == item
    ensures forall last: Sequence :: EndsAt(item, last) ==> ReachedBy(after, items) == last
  {
  }

  /** `next` hands over only what is above the end of `item`, or reports a gap that starts above it. */
  ghost predicate NoOverlap(item: Item, next: Item) {
    forall last: Sequence :: EndsAt(item, last) ==>
      && (next.Replayed? ==> forall e :: e in next.events ==> e.sequence > last)
      && (next.GapTooOld? && last < R.U64_MAX ==> next.oldest > last + 1)
  }

  /**
   No recovery repeats what was handed over directly before it.  Over every run, dropped receives
   included: a replay that follows a replay, a gap or a single event contains only events above the
   last one of those, and a gap is reported only if the oldest event left is more than one above it.
   */
  lemma RecoveriesNeverOverlap(feed: seq<Event>, logCapacity: nat, ringCapacity: nat, actions: seq<Action>)
    ensures var items := Run(Start(feed, logCapacity, ringCapacity), actions).items;
            forall i, j :: 0 <= i && j == i + 1 < |items| ==> NoOverlap(items[i], items[j])
  {
    RunResumes(Start(feed, logCapacity, ringCapacity), actions);
    var s := Run(Start(feed, logCapacity, ringCapacity), actions);
    forall i, j | 0 <= i && j == i + 1 < |s.items|
      ensures NoOverlap(s.items[i], s.items[j])
    {
      ReachedFromLast(s.after, s.items[..j], s.items[i]);
      assert Resumes(ReachedBy(s.after, s.items[..j]), s.items[j]);
    }
  }

  // ----- Dropping a `recv` -----

  lemma OneMoreItem(items: seq<Item>, item: Item, e: Event)
    ensures CameThrough(items + [item], e) ==>
              CameThrough(items, e) || item == Delivered(e) || (item.Replayed? && e in item.events)
    ensures GapCovers(items + [item], e) ==>
              GapCovers(items, e) || (item.GapTooOld? && e.sequence <= item.snapshot.atSequence)
  {
    assert forall i :: 0 <= i < |items| ==> (items + [item])[i] == items[i];
  }

  /** A forfeiting poll loses the event just behind the receiver. */
  lemma ForfeitLoses(s: System)
    requires Inv(s) && Forfeit(s, PollChannel)
    ensures Lost(Step(s, PollChannel), s.next - 1)
  {
    IngressFacts(s);
    var s', e, received := Step(s, PollChannel), s.published[s.next - 1], s.published[s.next];
    assert s.history[s.next - 1] == e && s.history[s.next] == received;
    ItemsAreBelowMark(s.after, s.items);
    OneMoreItem(s.items, Delivered(received), e);
  }

  /** At some point of the run an event is lost. */
  ghost predicate EverLost(s: System, actions: seq<Action>)
    decreases |actions|
  {
    (exists i :: Lost(s, i)) || (actions != [] && EverLost(Step(s, actions[0]), actions[1..]))
  }

  lemma {:induction false} EverLostIff(s: System, actions: seq<Action>)
    requires Inv(s)
    ensures EverLost(s, actions) <==> Forfeits(s, actions)
    decreases |actions|
  {
    InvLosesNothing(s);
    if actions != [] {
      if Forfeit(s, actions[0]) {
        ForfeitLoses(s);
      } else {
        StepInv(s, actions[0]);
        EverLostIff(Step(s, actions[0]), actions[1..]);
      }
    }
  }

  /**
   A run loses an event silently exactly when a `recv` was dropped in the middle of a recovery, events
   above the consumer's mark were left behind by it, and the next thing the channel yields is a plain
   event rather than another lag.
   */
  lemma SilentLossIff(feed: seq<Event>, logCapacity: nat, ringCapacity: nat, actions: seq<Action>)
    requires Consecutive(feed) && |feed| <= R.U64_MAX && logCapacity > 0 && ringCapacity > 0
    ensures EverLost(Start(feed, logCapacity, ringCapacity), actions) <==>
            Forfeits(Start(feed, logCapacity, ringCapacity), actions)
  {
    StartInv(feed, logCapacity, ringCapacity);
    EverLostIff(Start(feed, logCapacity, ringCapacity), actions);
  }

  /**
   Re-delivery is real but harmless: a consumer that ignores everything at or below its highest
   sequence accepts each event at most once, in order, and still misses nothing unreported.
   */
  lemma ExactlyOnceAboveTheMark(feed: seq<Event>, logCapacity: nat, ringCapacity: nat, actions: seq<Action>)
    requires Consecutive(feed) && |feed| <= R.U64_MAX && logCapacity > 0 && ringCapacity > 0
    requires !Forfeits(Start(feed, logCapacity, ringCapacity), actions)
    ensures var s := Run(Start(feed, logCapacity, ringCapacity), actions);
            var accepted := Consume(s.after, s.items).accepted;
            && R.Increasing(accepted)
            && s.pos <= |feed| && (forall e :: e in accepted ==> e in R.Lifecycles(feed[..s.pos]))
            && s.handled <= |s.published|
            && (forall i :: s.start <= i < s.handled && s.published[i].sequence > s.after ==>
                  s.published[i] in accepted || GapCovers(s.items, s.published[i]))
  {
    StartInv(feed, logCapacity, ringCapacity);
    RunInv(Start(feed, logCapacity, ringCapacity), actions);
    RunFeed(Start(feed, logCapacity, ringCapacity), actions);
    var s := Run(Start(feed, logCapacity, ringCapacity), actions);
    KnowledgeIsFromItems(s.after, s.items);
    if s.stage.Applied? {
      LifecyclesPrefix(feed, s.pos - 1);
    }
    IngressFacts(s);
    forall i | s.start <= i < s.handled
      ensures Known(s.after, Consume(s.after, s.items), s.published[i])
    {
      assert s.published[i] == s.history[i];
    }
  }

  /**
   A received event is one its consumer already knows of (accepted before, covered by a reported gap,
   or at or below where it subscribed) exactly when it is at or below the consumer's mark.
   */
  lemma RepeatIff(s: System)
    requires Inv(s) && s.phase.Polling?
    requires Poll(s.published, s.ringCapacity, s.next).Received?
    ensures Known(s.after, Consume(s.after, s.items), s.published[s.next]) <==>
            s.published[s.next].sequence <= Consume(s.after, s.items).mark
  {
    IngressFacts(s);
    assert s.history[s.next] == s.published[s.next];
  }

  /** Undisturbed, the three steps of `recv` are one call of `LifecycleStream.Recv`. */
  lemma QuietRecv(s: System)
    requires s.phase.Polling?
    ensures var s' := Step(Step(Step(s, PollChannel), ReadLog), ReadSnapshot);
            && s'.phase.Polling? && s'.next == Advanced(s.published, s.ringCapacity, s.next)
            && match Poll(s.published, s.ringCapacity, s.next)
               case Received(e) => s'.items == s.items + [Delivered(e)] && s'.cursor == e.sequence
               case Empty => s'.items == s.items && s'.cursor == s.cursor
               case Lagged(_) =>
                 s'.items == s.items + [Recover(LogOf(s), s.view, s.cursor).0]
                 && s'.cursor == Recover(LogOf(s), s.view, s.cursor).1
  {
    var s1 := Step(s, PollChannel);
    assert s1.view == s.view && s1.history == s.history && s1.logCapacity == s.logCapacity;
    var s2 := Step(s1, ReadLog);
    assert s2.view == s.view && s2.next == s1.next;
  }

  // ----- Re-delivery happens -----

  /** `k` events go all the way through the ingress. */
  function Through(s: System, k: nat): System {
    if k == 0 then s else Step(Step(Step(Through(s, k - 1), TakeEvent), AppendLog), Publish)
  }

  function ThroughActions(k: nat): seq<Action> {
    if k == 0 then [] else ThroughActions(k - 1) + [TakeEvent, AppendLog, Publish]
  }

  lemma {:induction false} RunConcat(s: System, a: seq<Action>, b: seq<Action>)
    ensures Run(s, a + b) == Run(Run(s, a), b)
    decreases |a|
  {
    if a == [] {
      assert a + b == b;
    } else {
      assert (a + b)[1..] == a[1..] + b;
      RunConcat(Step(s, a[0]), a[1..], b);
    }
  }

  lemma RunThree(s: System, x: Action, y: Action, z: Action)
    ensures Run(s, [x, y, z]) == Step(Step(Step(s, x), y), z)
  {
    assert [x, y, z][1..] == [y, z] && [y, z][1..] == [z] && [z][1..] == [];
    var s1 := Step(s, x);
    var s2 := Step(s1, y);
    assert Run(s2, [z]) == Run(Step(s2, z), []);
    assert Run(s1, [y, z]) == Run(s2, [z]);
  }

  lemma {:induction false} RunThrough(s: System, k: nat)
    ensures Run(s, ThroughActions(k)) == Through(s, k)
  {
    if k > 0 {
      RunThrough(s, k - 1);
      RunConcat(s, ThroughActions(k - 1), [TakeEvent, AppendLog, Publish]);
      RunThree(Through(s, k - 1), TakeEvent, AppendLog, Publish);
    }
  }

  /** All the receiver can see after `k` lifecycle events went through. */
  ghost predicate Caught(s: System, feed: seq<Event>, k: nat) {
    && k <= |feed| && s.feed == feed
    && s.history == s.published == feed[..k] && s.pos == k && s.stage.Idle?
    && s.phase.Polling? && s.start == s.after == s.next == s.handled == s.cursor == 0 && s.items == []
  }

  lemma OneThrough(s: System, feed: seq<Event>, k: nat)
    requires Caught(s, feed, k) && k < |feed| && feed[k].plane.Lifecycle?
    ensures var s' := Step(Step(Step(s, TakeEvent), AppendLog), Publish);
            Caught(s', feed, k + 1) && s'.logCapacity == s.logCapacity && s'.ringCapacity == s.ringCapacity
  {
    var s1 := Step(s, TakeEvent);
    assert s1 == s.(pos := k + 1, stage := Applied(feed[k]), view := s1.view);
    var s2 := Step(s1, AppendLog);
    assert s2 == s1.(stage := Logged(feed[k]), history := s1.history + [feed[k]]);
    assert feed[..k + 1] == feed[..k] + [feed[k]];
  }

  lemma {:induction false} ThroughCaught(feed: seq<Event>, logCapacity: nat, ringCapacity: nat, k: nat)
    requires k <= |feed| && forall e :: e in feed ==> e.plane.Lifecycle?
    ensures var s := Through(Start(feed, logCapacity, ringCapacity), k);
            Caught(s, feed, k) && s.logCapacity == logCapacity && s.ringCapacity == ringCapacity
  {
    if k > 0 {
      ThroughCaught(feed, logCapacity, ringCapacity, k - 1);
      var before := Through(Start(feed, logCapacity, ringCapacity), k - 1);
      assert feed[k - 1].plane.Lifecycle? by {
        assert feed[k - 1] in feed;
      }
      OneThrough(before, feed, k - 1);
    }
  }

  lemma RepeatAfterReplay(s: System, a: Event, b: Event, c: Event)
    requires Caught(s, [a, b, c], 3) && s.logCapacity == 8 && s.ringCapacity == 2
    requires a.sequence == 1 && b.sequence == 2 && c.sequence == 3
    ensures var s' := Step(Step(Step(s, PollChannel), ReadLog), PollChannel);
            s'.items == [Replayed([a, b, c]), Delivered(b)] && s'.cursor == 2
  {
    assert s.history == [a, b, c];
    assert [a, b, c][1..] == [b, c] && [b, c][1..] == [c] && [c][1..] == [];
    assert R.After([c], 0) == [c] && R.After([b, c], 0) == [b, c];
    assert R.After([a, b, c], 0) == [a, b, c];
    var s1 := Step(s, PollChannel);
    assert s1 == s.(next := 1, phase := Recovering);
    var s2 := Step(s1, ReadLog);
    assert s2 == s1.(phase := Polling, handled := 1, cursor := 3, items := [Replayed([a, b, c])]);
  }

  /**
   Exactly-once and a monotone cursor both fail: with room for two of three events, the receiver
   lags, is replayed all three, and then receives the second one again, which moves the cursor
   from 3 back to 2.
   */
  lemma RedeliveryHappens(a: Event, b: Event, c: Event)
    requires a.plane.Lifecycle? && b.plane.Lifecycle? && c.plane.Lifecycle?
    requires a.sequence == 1 && b.sequence == 2 && c.sequence == 3
    ensures var s := Run(Start([a, b, c], 8, 2), ThroughActions(3) + [PollChannel, ReadLog, PollChannel]);
            s.items == [Replayed([a, b, c]), Delivered(b)] && s.cursor == 2
  {
    var s0 := Start([a, b, c], 8, 2);
    RunThrough(s0, 3);
    RunConcat(s0, ThroughActions(3), [PollChannel, ReadLog, PollChannel]);
    ThroughCaught([a, b, c], 8, 2, 3);
    RunThree(Through(s0, 3), PollChannel, ReadLog, PollChannel);
    RepeatAfterReplay(Through(s0, 3), a, b, c);
  }

  lemma LossAfterAbort(s: System, a: Event, b: Event, c: Event)
    requires Caught(s, [a, b, c], 3) && s.logCapacity == 8 && s.ringCapacity == 2
    requires a.sequence == 1 && b.sequence == 2 && c.sequence == 3
    ensures var s' := Step(Step(Step(s, PollChannel), Abort), PollChannel);
            s'.items == [Delivered(b)] && s'.published == [a, b, c] && Lost(s', 0)
  {
    var s1 := Step(s, PollChannel);
    assert s1 == s.(next := 1, phase := Recovering);
    var s2 := Step(s1, Abort);
    assert s2 == s.(next := 1);
  }

  /**
   Dropping a `recv` can lose an event: the receiver lags past the first of three events, the future
   is dropped before it reads the log, and the next call returns the second event as if nothing had
   happened.
   */
  lemma DroppedRecvLoses(a: Event, b: Event, c: Event)
    requires a.plane.Lifecycle? && b.plane.Lifecycle? && c.plane.Lifecycle?
    requires a.sequence == 1 && b.sequence == 2 && c.sequence == 3
    ensures var s := Run(Start([a, b, c], 8, 2), ThroughActions(3) + [PollChannel, Abort, PollChannel]);
            s.items == [Delivered(b)] && s.published == [a, b, c] && Lost(s, 0)
  {
    var s0 := Start([a, b, c], 8, 2);
    RunThrough(s0, 3);
    RunConcat(s0, ThroughActions(3), [PollChannel, Abort, PollChannel]);
    ThroughCaught([a, b, c], 8, 2, 3);
    RunThree(Through(s0, 3), PollChannel, Abort, PollChannel);
    LossAfterAbort(Through(s0, 3), a, b, c);
  }
}
