/**
 Authoritative ingress, and the thread ingestor: one `discover` call, and the bounded paging
 reconciliation that feeds it.
 */
module Ingest {
  import opened Protocol
  import R = Reducer
  import S = Store
  import Streaming
  import Sub = Subscriptions

  // ----- Authoritative ingress -----

  function Deltas(es: seq<Event>): seq<Event> {
    if es == [] then []
    else if es[0].plane.Delta? then [es[0]] + Deltas(es[1..])
    else Deltas(es[1..])
  }

  lemma {:induction false} DeltasAppend(es: seq<Event>, e: Event)
    ensures Deltas(es + [e]) == if e.plane.Delta? then Deltas(es) + [e] else Deltas(es)
  {
    if es == [] {
      assert [e][1..] == [];
    } else {
      assert (es + [e])[1..] == es[1..] + [e];
      DeltasAppend(es[1..], e);
    }
  }

  lemma Extended(before: seq<Event>, feed: seq<Event>, i: nat)
    requires i < |feed|
    ensures before + feed[..i] + [feed[i]] == before + feed[..i + 1]
  {
  }

  class AuthoritativeIngress {
    const reducer: R.Reducer
    const store: S.EventStore
    const hub: Streaming.EventHub

    ghost function Repr(): set<object>
      reads this
    {
      {reducer, store, hub.lifecycle, hub.delta}
    }

    /** Both channels carry exactly what the reducer applied, split by plane. */
    ghost predicate Valid()
      reads this, hub, Repr()
    {
      && reducer.Valid() && store.Valid() && hub.Valid()
      && hub.lifecycle.history == R.Lifecycles(reducer.applied)
      && hub.delta.history == Deltas(reducer.applied)
    }

    constructor (reducer: R.Reducer, store: S.EventStore, hub: Streaming.EventHub)
      requires reducer.Valid() && store.Valid() && hub.Valid()
      requires reducer.applied == [] && hub.lifecycle.history == [] && hub.delta.history == []
      ensures Valid() && this.reducer == reducer && this.store == store && this.hub == hub
    {
      this.reducer, this.store, this.hub := reducer, store, hub;
    }

    /** Every authoritative consumer sees the event before it is published. */
    method Process(e: Event)
      requires Valid()
      modifies Repr()
      ensures Valid()
      ensures reducer.applied == old(reducer.applied) + [e]
      ensures reducer.View() == R.Step(old(reducer.View()), R.ApplyOp(e))
      ensures store.History() == old(store.History()) + [e]
      ensures store.events == S.Retain(store.config, old(store.events) + [e])
    {
      reducer.Apply(e);
      store.Record(e);
      hub.Publish(e);
      R.LifecyclesAppend(old(reducer.applied), e);
      DeltasAppend(old(reducer.applied), e);
    }

    /** Consumes the transport's feed in order. */
    method Drain(feed: seq<Event>)
      requires Valid()
      modifies Repr()
      ensures Valid()
      ensures reducer.applied == old(reducer.applied) + feed
      ensures store.History() == old(store.History()) + feed
      ensures store.events == S.RetainAll(store.config, old(store.events), feed)
    {
      var i := 0;
      while i < |feed|
        invariant i <= |feed| && Valid()
        invariant reducer.applied == old(reducer.applied) + feed[..i]
        invariant store.History() == old(store.History()) + feed[..i]
        invariant store.events == S.RetainAll(store.config, old(store.events), feed[..i])
      {
        assert feed[..i + 1][..i] == feed[..i];
        Process(feed[i]);
        Extended(old(reducer.applied), feed, i);
        Extended(old(store.History()), feed, i);
        i := i + 1;
      }
      assert feed[..i] == feed;
    }
  }

  // ----- Reading threads -----

  function InFlightTurnId(thread: RawThread): Option<TurnId> {
    R.InFlightTurn(thread.turns)
  }

  /** `thread_is_active`: a tagged active status, or any turn that is not terminal. */
  predicate ThreadIsActive(thread: RawThread) {
    thread.status == Tagged("active") || exists turn :: turn in thread.turns && !turn.status.Terminal()
  }

  /** An in-flight turn makes a thread active; an active thread need not have one. */
  lemma {:induction false} InFlightMeansActive(thread: RawThread)
    ensures InFlightTurnId(thread).Some? ==> ThreadIsActive(thread)
    decreases |thread.turns|
  {
    if thread.turns != [] {
      var n := |thread.turns| - 1;
      if thread.turns[n].status.Terminal() {
        var shorter := thread.(turns := thread.turns[..n], status := Missing);
        InFlightMeansActive(shorter);
        if InFlightTurnId(shorter).Some? {
          var turn :| turn in shorter.turns && !turn.status.Terminal();
          assert turn in thread.turns;
        }
      } else {
        assert thread.turns[n] in thread.turns;
      }
    }
  }

  predicate Protected(view: R.State, t: ThreadId) {
    t in view.subscribing || R.EntryOf(view, t).subscribed
  }

  function AfterResume(begun: R.State, t: ThreadId, resumed: bool, read: Option<RawThread>): R.State {
    if !resumed then R.Step(begun, R.Cancel(t))
    else
      var promoted := R.Step(begun, R.Finish(t));
      if read.Some? then R.Step(promoted, R.Reconcile(read.value)) else promoted
  }

  /** What one undisturbed `discover` does to the reducer once it starts resuming. */
  function AfterDiscovery(view: R.State, t: ThreadId, resumed: bool, read: Option<RawThread>): R.State {
    AfterResume(R.Step(view, R.Begin(t)), t, resumed, read)
  }

  /**
   The reducer after `reconcile` has adopted an active thread and called `discover` on it: a call that
   never started leaves the adopted entry as it is, any other protects it or prunes it.
   */
  function AfterAdoption(view: R.State, t: ThreadId, thread: RawThread, outcome: Sub.DiscoveryOutcome,
                         later: Option<RawThread>): R.State
  {
    var adopted := R.Step(view, R.Reconcile(thread));
    if outcome.AlreadyManaged? || outcome.OverCapacity? then adopted
    else AfterDiscovery(adopted, t, outcome.NowSubscribed?, later)
  }

  /** A `discover` that resumes leaves its own thread subscribed or gone, or in flight. */
  lemma DiscoveryRestores(view: R.State, t: ThreadId, resumed: bool, later: Option<RawThread>)
    requires R.Sound(view) && forall u :: u in view.threads && u != t ==> R.RelevantEntry(view, u)
    requires later.Some? ==> later.value.id == Some(t)
    ensures R.Sound(AfterDiscovery(view, t, resumed, later)) && R.Relevant(AfterDiscovery(view, t, resumed, later))
  {
    var begun := R.Step(view, R.Begin(t));
    R.StepSound(view, R.Begin(t));
    assert R.Relevant(begun) by {
      forall u | u in begun.threads
        ensures R.RelevantEntry(begun, u)
      {
        assert u != t ==> R.RelevantEntry(view, u);
      }
    }
    var settled := R.Step(begun, if resumed then R.Finish(t) else R.Cancel(t));
    R.StepSound(begun, if resumed then R.Finish(t) else R.Cancel(t));
    R.StepRelevant(begun, if resumed then R.Finish(t) else R.Cancel(t));
    if resumed && later.Some? {
      R.StepSound(settled, R.Reconcile(later.value));
      R.StepRelevant(settled, R.Reconcile(later.value));
    }
  }

  /**
   Adopting an active thread keeps the reducer relevant exactly when the cap did not turn the thread
   away, or it has an in-flight turn, or it was already protected; "active" by status is not enough.
   */
  lemma AdoptionRelevantIff(view: R.State, t: ThreadId, thread: RawThread, outcome: Sub.DiscoveryOutcome,
                            later: Option<RawThread>)
    requires R.Sound(view) && R.Relevant(view)
    requires thread.id == Some(t) && (later.Some? ==> later.value.id == Some(t))
    requires outcome.AlreadyManaged? ==> R.EntryOf(view, t).subscribed
    ensures R.Sound(AfterAdoption(view, t, thread, outcome, later))
    ensures R.Relevant(AfterAdoption(view, t, thread, outcome, later)) <==>
            !outcome.OverCapacity? || InFlightTurnId(thread).Some? || Protected(view, t)
  {
    var adopted := R.Step(view, R.Reconcile(thread));
    R.StepSound(view, R.Reconcile(thread));
    R.StepRelevant(view, R.Reconcile(thread));
    if !outcome.AlreadyManaged? && !outcome.OverCapacity? {
      forall u | u in adopted.threads && u != t
        ensures R.RelevantEntry(adopted, u)
      {
        assert R.RelevantEntry(view, u);
      }
      DiscoveryRestores(adopted, t, outcome.NowSubscribed?, later);
    }
  }

  // ----- Paging -----

  datatype ListEntry = ListEntry(id: Option<ThreadId>, updated: nat)

  datatype ListReply =
    | ListFailed
    | Malformed
    | Listing(data: seq<ListEntry>, next: Option<string>)

  function WithIds(data: seq<ListEntry>): seq<ListEntry> {
    if data == [] then []
    else if data[0].id.Some? then [data[0]] + WithIds(data[1..])
    else WithIds(data[1..])
  }

  /** The id-bearing entries of at most `bound` pages from page `i` on, in listed order. */
  function Pages(replies: nat -> ListReply, i: nat, bound: nat): seq<ListEntry>
    decreases bound
  {
    if bound == 0 then []
    else match replies(i)
         case Listing(data, next) =>
           WithIds(data) + (if next.None? then [] else Pages(replies, i + 1, bound - 1))
         case _ => []
  }

  predicate AtWatermark(e: ListEntry, previous: nat) {
    previous > 0 && e.updated <= previous
  }

  /** One pass over a flat listing: entries up to the first at the watermark, at most `limit`. */
  function Candidates(entries: seq<ListEntry>, previous: nat, limit: nat): seq<ListEntry> {
    if entries == [] || limit == 0 || AtWatermark(entries[0], previous) then []
    else [entries[0]] + Candidates(entries[1..], previous, limit - 1)
  }

  /** The newest timestamp among the entries that pass looks at, the stopping one included. */
  function Newest(entries: seq<ListEntry>, previous: nat, limit: nat, newest: nat): nat {
    if entries == [] || limit == 0 then newest
    else if AtWatermark(entries[0], previous) then Max(newest, entries[0].updated)
    else Newest(entries[1..], previous, limit - 1, Max(newest, entries[0].updated))
  }

  /** The entries the pass looks at: those it keeps, and the one at the watermark that stops it. */
  predicate LookedAt(entries: seq<ListEntry>, kept: seq<ListEntry>, limit: nat, i: nat) {
    i < |entries| && (i < |kept| || (i == |kept| && |kept| < limit))
  }

  /**
   The pass keeps a prefix, stops only for one of its three reasons, and raises the mark to exactly the
   newest timestamp among the entries it looked at.
   */
  lemma {:induction false} CandidatesMeaning(entries: seq<ListEntry>, previous: nat, limit: nat, newest: nat)
    ensures var c := Candidates(entries, previous, limit);
            && |c| <= limit && c <= entries
            && (forall i :: 0 <= i < |c| ==> previous == 0 || c[i].updated > previous)
            && (|c| == limit || |c| == |entries| || (previous > 0 && entries[|c|].updated <= previous))
    ensures var c, mark := Candidates(entries, previous, limit), Newest(entries, previous, limit, newest);
            && newest <= mark
            && (forall i: nat :: LookedAt(entries, c, limit, i) ==> entries[i].updated <= mark)
            && (mark == newest || exists i: nat :: LookedAt(entries, c, limit, i) && entries[i].updated == mark)
  {
    if entries != [] && limit > 0 {
      var c, mark := Candidates(entries, previous, limit), Newest(entries, previous, limit, newest);
      assert LookedAt(entries, c, limit, 0);
      if !AtWatermark(entries[0], previous) {
        var rest, next := entries[1..], Max(newest, entries[0].updated);
        var d := Candidates(rest, previous, limit - 1);
        CandidatesMeaning(rest, previous, limit - 1, next);
        forall i: nat | LookedAt(entries, c, limit, i) && i > 0
          ensures entries[i].updated <= mark
        {
          assert LookedAt(rest, d, limit - 1, i - 1) && rest[i - 1] == entries[i];
        }
        if i: nat :| LookedAt(rest, d, limit - 1, i) && rest[i].updated == mark {
          assert LookedAt(entries, c, limit, i + 1) && entries[i + 1] == rest[i];
        }
      }
    }
  }

  function IdsOf(entries: seq<ListEntry>): seq<ThreadId>
    requires forall e :: e in entries ==> e.id.Some?
  {
    if entries == [] then [] else [entries[0].id.value] + IdsOf(entries[1..])
  }

  lemma {:induction false} IdsOfAt(entries: seq<ListEntry>)
    requires forall e :: e in entries ==> e.id.Some?
    ensures |IdsOf(entries)| == |entries|
    ensures forall i :: 0 <= i < |entries| ==> entries[i].id == Some(IdsOf(entries)[i])
  {
    if entries != [] {
      IdsOfAt(entries[1..]);
    }
  }

  /** What is still to be scanned gives what is still missing. */
  ghost predicate Refines(
    all: seq<ListEntry>, rest: seq<ListEntry>, previous: nat, limit: nat, taken: seq<ListEntry>, newest: nat)
  {
    && |taken| <= limit
    && Candidates(all, previous, limit) == taken + Candidates(rest, previous, limit - |taken|)
    && Newest(all, previous, limit, previous) == Newest(rest, previous, limit - |taken|, newest)
  }

  lemma ScanEntry(all: seq<ListEntry>, e: ListEntry, rest: seq<ListEntry>, previous: nat, limit: nat,
                  taken: seq<ListEntry>, newest: nat)
    requires |taken| < limit && Refines(all, [e] + rest, previous, limit, taken, newest)
    ensures AtWatermark(e, previous) ==>
              taken == Candidates(all, previous, limit)
              && Max(newest, e.updated) == Newest(all, previous, limit, previous)
    ensures !AtWatermark(e, previous) ==>
              Refines(all, rest, previous, limit, taken + [e], Max(newest, e.updated))
  {
    assert ([e] + rest)[1..] == rest;
    assert taken + [] == taken;
    var more := Candidates(rest, previous, limit - |taken| - 1);
    assert taken + ([e] + more) == (taken + [e]) + more;
  }

  lemma ScanFull(all: seq<ListEntry>, rest: seq<ListEntry>, previous: nat, limit: nat,
                 taken: seq<ListEntry>, newest: nat)
    requires Refines(all, rest, previous, limit, taken, newest) && (|taken| == limit || rest == [])
    ensures taken == Candidates(all, previous, limit) && newest == Newest(all, previous, limit, previous)
  {
    assert taken + [] == taken;
  }

  // ----- The ingestor -----

  /** How the last reply ends a call: only an ephemeral rejection is no failure and no subscription. */
  predicate EndsAs(outcome: Sub.DiscoveryOutcome, states: map<ThreadId, Sub.SubscriptionState>, t: ThreadId,
                   last: Sub.ResumeReply)
  {
    && t in states
    && (last.Resumed? ==> outcome.NowSubscribed? && states[t].Subscribed?)
    && (last.ResumeRejected? && last.ephemeral ==> outcome.EphemeralThread? && states[t].Ephemeral?)
    && (last.ResumeNotWritten? || last.ResumeError? || (last.ResumeRejected? && !last.ephemeral) ==>
          outcome.DiscoveryFailed? && states[t].FailedState?)
  }

  function Threads(outcomes: seq<(ThreadId, Sub.DiscoveryOutcome)>): seq<ThreadId> {
    if outcomes == [] then [] else Threads(outcomes[..|outcomes| - 1]) + [outcomes[|outcomes| - 1].0]
  }

  lemma ThreadsAppend(outcomes: seq<(ThreadId, Sub.DiscoveryOutcome)>, o: (ThreadId, Sub.DiscoveryOutcome))
    ensures Threads(outcomes + [o]) == Threads(outcomes) + [o.0]
  {
    assert (outcomes + [o])[..|outcomes|] == outcomes;
  }

  /** The candidates whose own read succeeded and shows them active, in order. */
  function ActiveOnes(candidates: seq<ThreadId>, read: nat -> Option<RawThread>): seq<ThreadId> {
    if candidates == [] then []
    else
      var i := |candidates| - 1;
      ActiveOnes(candidates[..i], read)
      + if read(i).Some? && ThreadIsActive(read(i).value) then [candidates[i]] else []
  }

  /** The read succeeded and shows an active status or a turn that is not over. */
  ghost predicate ReadsActive(read: Option<RawThread>) {
    read.Some?
    && (read.value.status == Tagged("active")
        || exists k :: 0 <= k < |read.value.turns|
                       && !read.value.turns[k].status.Completed? && !read.value.turns[k].status.Failed?
                       && !read.value.turns[k].status.Interrupted?)
  }

  lemma ActiveMeaning(read: Option<RawThread>)
    ensures ReadsActive(read) <==> read.Some? && ThreadIsActive(read.value)
  {
    if read.Some? {
      assert forall k :: 0 <= k < |read.value.turns| ==> read.value.turns[k] in read.value.turns;
    }
  }

  lemma {:induction false} ActivePositions(candidates: seq<ThreadId>, read: nat -> Option<RawThread>)
    returns (positions: seq<nat>)
    ensures Picks(candidates, positions, ActiveOnes(candidates, read))
    ensures forall i :: 0 <= i < |candidates| ==> (i in positions <==> ReadsActive(read(i)))
  {
    if candidates == [] {
      return [];
    }
    var n := |candidates| - 1;
    ActiveMeaning(read(n));
    positions := ActivePositions(candidates[..n], read);
    assert forall k :: 0 <= k < |positions| ==> positions[k] in positions;
    if ReadsActive(read(n)) {
      positions := positions + [n];
    }
  }

  lemma OneMoreActive(candidates: seq<ThreadId>, i: nat, read: nat -> Option<RawThread>)
    requires i < |candidates|
    ensures var t, before, now := candidates[i], ActiveOnes(candidates[..i], read), ActiveOnes(candidates[..i + 1], read);
            var active := read(i).Some? && ThreadIsActive(read(i).value);
            && now == (if active then before + [t] else before)
            && (forall u :: u in now <==> u in before || (active && u == t))
  {
    assert candidates[..i + 1][..i] == candidates[..i];
  }

  predicate SameState(before: map<ThreadId, Sub.SubscriptionState>, now: map<ThreadId, Sub.SubscriptionState>,
                      t: ThreadId)
  {
    (t in before <==> t in now) && (t in before ==> before[t] == now[t])
  }

  lemma SameStates(first: map<ThreadId, Sub.SubscriptionState>, before: map<ThreadId, Sub.SubscriptionState>,
                   now: map<ThreadId, Sub.SubscriptionState>, touched: seq<ThreadId>, touched': seq<ThreadId>)
    requires forall t :: t !in touched ==> SameState(first, before, t)
    requires forall t :: t !in touched' ==> t !in touched && SameState(before, now, t)
    ensures forall t :: t !in touched' ==> SameState(first, now, t)
  {
  }

  lemma KeepsSubscriptions(view: R.State, thread: RawThread)
    ensures forall u :: R.EntryOf(view, u).subscribed ==> R.EntryOf(R.Step(view, R.Reconcile(thread)), u).subscribed
  {
    forall u | R.EntryOf(view, u).subscribed
      ensures R.EntryOf(R.Step(view, R.Reconcile(thread)), u).subscribed
    {
      Sub.SubscriptionKept(view, R.Reconcile(thread), u);
    }
  }

  /**
   An anchor for the in-flight turn is recorded exactly when there is one and its own `turn/started`
   is not retained; nothing else is recorded.
   */
  ghost predicate Anchored(
    retained: seq<Event>, before: seq<Event>, after: seq<Event>, t: ThreadId, turn: Option<TurnId>,
    sequence: Sequence, elapsedMs: nat, unixMs: nat, size: nat)
  {
    if turn.Some?
       && !exists e :: e in retained && !e.reconstructed && e.name == Some(TurnStarted)
                       && e.threadId == Some(t) && e.turnId == turn
    then
      after == before + [ReconstructedActiveTurn(sequence, elapsedMs, unixMs, size, t, turn.value)]
    else after == before
  }

  lemma LastUpdateWins(before: map<ThreadId, Sub.SubscriptionState>, now: map<ThreadId, Sub.SubscriptionState>,
                       t: ThreadId, st: Sub.SubscriptionState)
    requires t in now && now == before[t := now[t]]
    ensures now[t := st] == before[t := st]
  {
  }

  lemma MarkWithdrawn(view: R.State, t: ThreadId, resumed: bool, read: Option<RawThread>)
    ensures t !in AfterDiscovery(view, t, resumed, read).subscribing
    ensures resumed && read.Some? && read.value.id == Some(t) ==>
              R.EntryOf(AfterDiscovery(view, t, resumed, read), t).raw == read
  {
  }

  lemma AgreementKept(view: R.State, t: ThreadId, resumed: bool, read: Option<RawThread>)
    ensures forall u :: R.EntryOf(view, u).subscribed ==> R.EntryOf(AfterDiscovery(view, t, resumed, read), u).subscribed
    ensures resumed ==> R.EntryOf(AfterDiscovery(view, t, resumed, read), t).subscribed
  {
    var begun := R.Step(view, R.Begin(t));
    var next := if resumed then R.Step(begun, R.Finish(t)) else R.Step(begun, R.Cancel(t));
    assert R.EntryOf(R.Step(begun, R.Finish(t)), t).subscribed;
    forall u | R.EntryOf(view, u).subscribed || (resumed && u == t)
      ensures R.EntryOf(AfterDiscovery(view, t, resumed, read), u).subscribed
    {
      if R.EntryOf(view, u).subscribed {
        Sub.SubscriptionKept(view, R.Begin(t), u);
        Sub.SubscriptionKept(begun, if resumed then R.Finish(t) else R.Cancel(t), u);
      }
      if resumed && read.Some? {
        Sub.SubscriptionKept(next, R.Reconcile(read.value), u);
      }
    }
  }

  class ThreadIngestor {
    const config: Sub.Config
    const pageBound: nat
    const candidateLimit: nat
    const reducer: R.Reducer
    const store: S.EventStore
    var states: map<ThreadId, Sub.SubscriptionState>
    var watermark: nat

    ghost predicate Valid()
      reads this, reducer, store
    {
      && reducer.Valid() && store.Valid()
      && |Sub.RetainedThreads(states)| <= config.cap
      && (forall t :: t in states && Sub.Retained(states[t]) ==> states[t].Subscribed?)
      && (forall t :: t in states && states[t].Subscribed? ==> R.EntryOf(reducer.View(), t).subscribed)
    }

    constructor (config: Sub.Config, pageBound: nat, candidateLimit: nat, reducer: R.Reducer, store: S.EventStore)
      requires reducer.Valid() && store.Valid()
      ensures Valid() && states == map[] && watermark == 0
      ensures this.config == config && this.pageBound == pageBound && this.candidateLimit == candidateLimit
      ensures this.reducer == reducer && this.store == store
    {
      this.config, this.pageBound, this.candidateLimit := config, pageBound, candidateLimit;
      this.reducer, this.store := reducer, store;
      states, watermark := map[], 0;
      new;
      assert Sub.RetainedThreads(states) == {};
    }

    /** Scans one page; says whether it met the previous watermark. */
    method ScanPage(data: seq<ListEntry>, ghost all: seq<ListEntry>, ghost later: seq<ListEntry>,
                    previous: nat, taken: seq<ListEntry>, newest: nat)
      returns (taken': seq<ListEntry>, newest': nat, reached: bool)
      requires |taken| < candidateLimit && (forall e :: e in taken ==> e.id.Some?)
      requires Refines(all, WithIds(data) + later, previous, candidateLimit, taken, newest)
      ensures |taken'| <= candidateLimit && forall e :: e in taken' ==> e.id.Some?
      ensures newest <= newest'
      ensures reached ==> exists e :: e in data && e.id.Some? && previous > 0 && e.updated <= previous
      ensures reached || |taken'| == candidateLimit ==>
                taken' == Candidates(all, previous, candidateLimit)
                && newest' == Newest(all, previous, candidateLimit, previous)
      ensures !reached && |taken'| < candidateLimit ==>
                Refines(all, later, previous, candidateLimit, taken', newest')
    {
      taken', newest', reached := taken, newest, false;
      var i := 0;
      assert data[0..] == data;
      while i < |data|
        invariant i <= |data| && |taken'| < candidateLimit && newest <= newest'
        invariant forall e :: e in taken' ==> e.id.Some?
        invariant Refines(all, WithIds(data[i..]) + later, previous, candidateLimit, taken', newest')
      {
        ghost var rest := WithIds(data[i..]) + later;
        assert data[i..][1..] == data[i + 1..];
        if data[i].id.Some? {
          assert rest == [data[i]] + (WithIds(data[i + 1..]) + later);
          ScanEntry(all, data[i], WithIds(data[i + 1..]) + later, previous, candidateLimit, taken', newest');
          newest' := Max(newest', data[i].updated);
          if previous > 0 && data[i].updated <= previous {
            reached := true;
            return;
          }
          taken' := taken' + [data[i]];
          if |taken'| >= candidateLimit {
            ScanFull(all, WithIds(data[i + 1..]) + later, previous, candidateLimit, taken', newest');
            return;
          }
        }
        i := i + 1;
      }
      assert WithIds(data[i..]) + later == later;
    }

    /**
     The paging half of `reconcile` against a server whose `i`-th answer is `replies(i)`.  On success
     the candidates and the new watermark are those of one pass over the flat listing of at most
     `pageBound` pages; on an error the watermark is unchanged.
     */
    method CollectCandidates(replies: nat -> ListReply) returns (candidates: Option<seq<ThreadId>>, requests: nat)
      modifies this`watermark
      ensures requests <= pageBound
      ensures old(watermark) <= watermark
      ensures forall i :: 0 <= i < requests - 1 ==> replies(i).Listing? && replies(i).next.Some?
      ensures candidates.Some? ==>
                || requests == pageBound || |candidates.value| == candidateLimit
                || (requests > 0 && replies(requests - 1).Listing?
                    && (replies(requests - 1).next.None?
                        || exists e :: e in replies(requests - 1).data && e.id.Some?
                                       && old(watermark) > 0 && e.updated <= old(watermark)))
      ensures candidates.None? ==>
                watermark == old(watermark) && requests > 0 && !replies(requests - 1).Listing?
      ensures candidates.Some? ==>
                && (forall i :: 0 <= i < requests ==> replies(i).Listing?)
                && var found := Candidates(Pages(replies, 0, pageBound), old(watermark), candidateLimit);
                (forall e :: e in found ==> e.id.Some?) && candidates.value == IdsOf(found)
                && |candidates.value| == |found|
                && (forall i :: 0 <= i < |found| ==> found[i].id == Some(candidates.value[i]))
                && watermark == Newest(Pages(replies, 0, pageBound), old(watermark), candidateLimit, old(watermark))
    {
      ghost var all := Pages(replies, 0, pageBound);
      var previous := watermark;
      var newest := previous;
      var taken: seq<ListEntry> := [];
      var finished := false;
      requests := 0;
      while requests < pageBound && !finished && |taken| < candidateLimit
        invariant requests <= pageBound && watermark == previous <= newest
        invariant forall i :: 0 <= i < requests ==> replies(i).Listing?
        invariant forall i :: 0 <= i < requests - 1 ==> replies(i).next.Some?
        invariant requests > 0 && !finished ==> replies(requests - 1).next.Some?
        invariant finished ==>
                    requests > 0
                    && (replies(requests - 1).next.None?
                        || exists e :: e in replies(requests - 1).data && e.id.Some?
                                       && previous > 0 && e.updated <= previous)
        invariant |taken| <= candidateLimit && forall e :: e in taken ==> e.id.Some?
        invariant if finished || |taken| == candidateLimit then
                    taken == Candidates(all, previous, candidateLimit)
                    && newest == Newest(all, previous, candidateLimit, previous)
                  else Refines(all, Pages(replies, requests, pageBound - requests), previous, candidateLimit, taken, newest)
        decreases pageBound - requests
      {
        var reply := replies(requests);
        requests := requests + 1;
        if !reply.Listing? {
          return None, requests;
        }
        ghost var later := if reply.next.None? then [] else Pages(replies, requests, pageBound - requests);
        var reached;
        taken, newest, reached := ScanPage(reply.data, all, later, previous, taken, newest);
        finished := reached || reply.next.None?;
      }
      assert taken + [] == taken;
      watermark := newest;
      IdsOfAt(taken);
      candidates := Some(IdsOf(taken));
    }

    /** The resume loop: records every wait and every new attempt in the state map. */
    method Resume(t: ThreadId, source: Sub.Source, replies: nat -> Sub.ResumeReply)
      returns (reply: Sub.ResumeReply, resumes: nat)
      modifies this`states
      ensures 1 <= resumes <= Max(1, config.resumeLimit) && reply == replies(resumes - 1)
      ensures forall i :: 0 <= i < resumes - 1 ==> Sub.Retryable(replies(i))
      ensures forall i :: 0 <= i < resumes - 1 ==>
                || replies(i).ResumeNotWritten?
                || (replies(i).ResumeRejected? && (replies(i).ephemeral || replies(i).overloaded))
      ensures Sub.Retryable(reply) ==> resumes >= config.resumeLimit
      ensures resumes < config.resumeLimit ==>
                reply.Resumed? || reply.ResumeError?
                || (reply.ResumeRejected? && !reply.ephemeral && !reply.overloaded)
      ensures resumes == 1 ==> states == old(states)
      ensures resumes > 1 ==> states == old(states)[t := Sub.Subscribing(source, resumes)]
    {
      resumes := 1;
      reply := replies(0);
      while Sub.Retryable(reply) && resumes < config.resumeLimit
        invariant 1 <= resumes <= Max(1, config.resumeLimit) && reply == replies(resumes - 1)
        invariant forall i :: 0 <= i < resumes - 1 ==> Sub.Retryable(replies(i))
        invariant states == if resumes == 1 then old(states) else old(states)[t := Sub.Subscribing(source, resumes)]
        decreases config.resumeLimit - resumes
      {
        resumes := resumes + 1;
        states := states[t := Sub.RetryWait(resumes)];
        states := states[t := Sub.Subscribing(source, resumes)];
        reply := replies(resumes - 1);
      }
    }

    /** Adopts what `thread/read` returned, and anchors a turn whose start was missed. */
    method ReadBack(t: ThreadId, read: RawThread, elapsedMs: nat, unixMs: nat, size: nat)
      requires reducer.Valid() && store.Valid()
      modifies reducer, store
      ensures reducer.Valid() && store.Valid() && reducer.applied == old(reducer.applied)
      ensures reducer.View() == R.Step(old(reducer.View()), R.Reconcile(read))
      ensures Anchored(old(store.events), old(store.History()), store.History(), t, InFlightTurnId(read),
                       reducer.atSequence, elapsedMs, unixMs, size)
      ensures forall i: nat :: R.NewestOpen(read.turns, i) ==>
                Anchored(old(store.events), old(store.History()), store.History(), t, read.turns[i].id,
                         reducer.atSequence, elapsedMs, unixMs, size)
      ensures (forall i: nat :: !R.NewestOpen(read.turns, i)) ==> store.History() == old(store.History())
    {
      reducer.ReconcileThread(read);
      var inflight := InFlightTurnId(read);
      R.InFlightMeaning(read.turns);
      if inflight.Some? {
        var recorded := store.RecordReconstructedActiveTurn(
          reducer.atSequence, elapsedMs, unixMs, size, t, inflight.value);
      }
    }

    /** What `discover` does with the last answer to `thread/resume`. */
    method Settle(t: ThreadId, reply: Sub.ResumeReply, read: Option<RawThread>, elapsedMs: nat, unixMs: nat, size: nat)
      returns (outcome: Sub.DiscoveryOutcome)
      requires reducer.Valid() && store.Valid()
      modifies this`states, reducer, store
      ensures reducer.Valid() && store.Valid() && reducer.applied == old(reducer.applied)
      ensures outcome == if reply.Resumed? then Sub.NowSubscribed else Sub.GiveUp(reply).1
      ensures states == old(states)[t := if reply.Resumed? then Sub.Subscribed else Sub.GiveUp(reply).0]
      ensures reducer.View() == AfterResume(old(reducer.View()), t, reply.Resumed?, read)
      ensures Anchored(old(store.events), old(store.History()), store.History(), t,
                       if reply.Resumed? && read.Some? then InFlightTurnId(read.value) else None,
                       reducer.atSequence, elapsedMs, unixMs, size)
    {
      if !reply.Resumed? {
        var (state, failure) := Sub.GiveUp(reply);
        states := states[t := state];
        reducer.CancelSubscription(t);
        return failure;
      }
      reducer.FinishSubscription(t);
      states := states[t := Sub.Subscribed];
      outcome := Sub.NowSubscribed;
      if read.Some? {
        ReadBack(t, read.value, elapsedMs, unixMs, size);
      }
    }

    /** The part of `discover` after the thread has been claimed. */
    method Attempt(t: ThreadId, source: Sub.Source, replies: nat -> Sub.ResumeReply, read: Option<RawThread>,
                   elapsedMs: nat, unixMs: nat, size: nat)
      returns (reply: Sub.ResumeReply, outcome: Sub.DiscoveryOutcome, resumes: nat)
      requires reducer.Valid() && store.Valid()
      modifies this`states, reducer, store
      ensures reducer.Valid() && store.Valid() && reducer.applied == old(reducer.applied)
      ensures 1 <= resumes <= Max(1, config.resumeLimit) && reply == replies(resumes - 1)
      ensures forall i :: 0 <= i < resumes - 1 ==> Sub.Retryable(replies(i))
      ensures Sub.Retryable(reply) ==> resumes >= config.resumeLimit
      ensures outcome == if reply.Resumed? then Sub.NowSubscribed else Sub.GiveUp(reply).1
      ensures states == old(states)[t := if reply.Resumed? then Sub.Subscribed else Sub.GiveUp(reply).0]
      ensures reducer.View() == AfterDiscovery(old(reducer.View()), t, reply.Resumed?, read)
      ensures Anchored(old(store.events), old(store.History()), store.History(), t,
                       if reply.Resumed? && read.Some? then InFlightTurnId(read.value) else None,
                       reducer.atSequence, elapsedMs, unixMs, size)
    {
      states := states[t := Sub.Subscribing(source, 1)];
      reducer.BeginSubscription(t);
      reply, resumes := Resume(t, source, replies);
      LastUpdateWins(old(states), states, t, if reply.Resumed? then Sub.Subscribed else Sub.GiveUp(reply).0);
      outcome := Settle(t, reply, read, elapsedMs, unixMs, size);
    }

    method TurnAway(t: ThreadId)
      requires Valid()
      modifies this`states
      ensures Valid() && states == old(states)[t := Sub.CapacityDegraded]
    {
      Sub.RetainedBound(states, t, Sub.CapacityDegraded, config.cap);
      states := states[t := Sub.CapacityDegraded];
    }

    /**
     One `discover` call with nothing running beside it, against a daemon whose `i`-th answer to
     `thread/resume` is `replies(i)` and whose `thread/read` answer is `read`.
     */
    method Discover(t: ThreadId, source: Sub.Source, replies: nat -> Sub.ResumeReply, read: Option<RawThread>,
                    elapsedMs: nat, unixMs: nat, size: nat)
      returns (outcome: Sub.DiscoveryOutcome, resumes: nat)
      requires Valid()
      modifies this`states, reducer, store
      ensures Valid() && reducer.applied == old(reducer.applied)
      ensures resumes <= Max(1, config.resumeLimit)
      ensures outcome == Sub.AlreadyManaged <==> t in Sub.RetainedThreads(old(states))
      ensures outcome == Sub.AlreadyManaged <==>
                t in old(states)
                && (old(states)[t].Subscribed? || old(states)[t].Subscribing? || old(states)[t].RetryWait?)
      ensures resumes > 0 ==> t !in reducer.subscribing && EndsAs(outcome, states, t, replies(resumes - 1))
      ensures outcome.NowSubscribed? ==> R.EntryOf(reducer.View(), t).subscribed
      ensures outcome.NowSubscribed? && read.Some? && read.value.id == Some(t) ==>
                R.EntryOf(reducer.View(), t).raw == read
      ensures outcome == Sub.OverCapacity <==>
                t !in Sub.RetainedThreads(old(states)) && |Sub.RetainedThreads(old(states))| >= config.cap
      ensures outcome in {Sub.AlreadyManaged, Sub.OverCapacity} ==>
                resumes == 0 && reducer.View() == old(reducer.View()) && store.History() == old(store.History())
                && states == if outcome.AlreadyManaged? then old(states) else old(states)[t := Sub.CapacityDegraded]
      ensures outcome !in {Sub.AlreadyManaged, Sub.OverCapacity} ==>
                && resumes > 0 && (forall i :: 0 <= i < resumes - 1 ==> Sub.Retryable(replies(i)))
                && var last := replies(resumes - 1);
                && (Sub.Retryable(last) ==> resumes >= config.resumeLimit)
                && outcome == (if last.Resumed? then Sub.NowSubscribed else Sub.GiveUp(last).1)
                && states == old(states)[t := if last.Resumed? then Sub.Subscribed else Sub.GiveUp(last).0]
                && reducer.View() == AfterDiscovery(old(reducer.View()), t, last.Resumed?, read)
                && Anchored(old(store.events), old(store.History()), store.History(), t,
                            if last.Resumed? && read.Some? then InFlightTurnId(read.value) else None,
                            reducer.atSequence, elapsedMs, unixMs, size)
    {
      if t in states && Sub.Retained(states[t]) {
        return Sub.AlreadyManaged, 0;
      }
      if |Sub.RetainedThreads(states)| >= config.cap {
        TurnAway(t);
        return Sub.OverCapacity, 0;
      }
      var reply;
      reply, outcome, resumes := Attempt(t, source, replies, read, elapsedMs, unixMs, size);
      Sub.RetainedBound(old(states), t, states[t], config.cap);
      AgreementKept(old(reducer.View()), t, reply.Resumed?, read);
      MarkWithdrawn(old(reducer.View()), t, reply.Resumed?, read);
    }

    /**
     The other half of `reconcile`: reads every candidate and discovers the active ones, in order.
     `now(i)` and `later(i)` are the daemon's answers to the two reads for the `i`-th candidate.
     */
    method AdoptActive(candidates: seq<ThreadId>, now: nat -> Option<RawThread>, later: nat -> Option<RawThread>,
                       replies: (nat, nat) -> Sub.ResumeReply, elapsedMs: nat, unixMs: nat, size: nat)
      returns (outcomes: seq<(ThreadId, Sub.DiscoveryOutcome)>)
      requires Valid()
      modifies this`states, reducer, store
      ensures Valid() && reducer.applied == old(reducer.applied)
      ensures Threads(outcomes) == ActiveOnes(candidates, now)
      ensures exists positions ::
                Picks(candidates, positions, Threads(outcomes))
                && forall i :: 0 <= i < |candidates| ==> (i in positions <==> ReadsActive(now(i)))
      ensures forall t :: t !in ActiveOnes(candidates, now) ==> SameState(old(states), states, t)
    {
      outcomes := [];
      var i := 0;
      while i < |candidates|
        invariant i <= |candidates| && Valid() && reducer.applied == old(reducer.applied)
        invariant Threads(outcomes) == ActiveOnes(candidates[..i], now)
        invariant forall t :: t !in ActiveOnes(candidates[..i], now) ==> SameState(old(states), states, t)
      {
        var t, read := candidates[i], now(i);
        ghost var before := states;
        if read.Some? && ThreadIsActive(read.value) {
          var outcome := AdoptOne(t, read.value, later(i), (n: nat) => replies(i, n), elapsedMs, unixMs, size);
          ThreadsAppend(outcomes, (t, outcome));
          outcomes := outcomes + [(t, outcome)];
        }
        OneMoreActive(candidates, i, now);
        SameStates(old(states), before, states, ActiveOnes(candidates[..i], now), ActiveOnes(candidates[..i + 1], now));
        i := i + 1;
      }
      assert candidates[..i] == candidates;
      ghost var positions := ActivePositions(candidates, now);
    }

    /**
     One active candidate: adopt what was read, then discover.  A relevant reducer stays relevant
     exactly when the cap did not turn the thread away, or it is in flight, or it was protected.
     */
    method AdoptOne(t: ThreadId, thread: RawThread, later: Option<RawThread>, replies: nat -> Sub.ResumeReply,
                    elapsedMs: nat, unixMs: nat, size: nat)
      returns (outcome: Sub.DiscoveryOutcome)
      requires Valid()
      modifies this`states, reducer, store
      ensures Valid() && reducer.applied == old(reducer.applied)
      ensures forall u :: u != t ==> SameState(old(states), states, u)
      ensures reducer.View() == AfterAdoption(old(reducer.View()), t, thread, outcome, later)
      ensures outcome.OverCapacity? <==>
                t !in Sub.RetainedThreads(old(states)) && |Sub.RetainedThreads(old(states))| >= config.cap
      ensures R.Sound(old(reducer.View())) && R.Relevant(old(reducer.View()))
              && thread.id == Some(t) && (later.Some? ==> later.value.id == Some(t)) ==>
                (R.Relevant(reducer.View()) <==>
                   !outcome.OverCapacity? || InFlightTurnId(thread).Some? || Protected(old(reducer.View()), t))
    {
      KeepsSubscriptions(reducer.View(), thread);
      ghost var view := reducer.View();
      reducer.ReconcileThread(thread);
      ghost var resumes;
      outcome, resumes := Discover(t, Sub.FromReconciliation, replies, later, elapsedMs, unixMs, size);
      assert outcome.AlreadyManaged? ==> R.EntryOf(view, t).subscribed;
      if R.Sound(view) && R.Relevant(view) && thread.id == Some(t) && (later.Some? ==> later.value.id == Some(t)) {
        AdoptionRelevantIff(view, t, thread, outcome, later);
      }
    }
  }

  /** An ingestor with room for one thread, which `u` has taken. */
  method FullIngestor(u: ThreadId, reducer: R.Reducer, store: S.EventStore) returns (ingestor: ThreadIngestor)
    requires reducer.Valid() && store.Valid() && reducer.View() == R.INITIAL
    modifies reducer, store
    ensures fresh(ingestor) && ingestor.Valid() && ingestor.reducer == reducer && ingestor.store == store
    ensures ingestor.config.cap == 1 && Sub.RetainedThreads(ingestor.states) == {u}
    ensures reducer.View() == AfterDiscovery(R.INITIAL, u, true, None)
  {
    ingestor := new ThreadIngestor(Sub.Config(1, 1, false), 1, 1, reducer, store);
    assert Sub.RetainedThreads(ingestor.states) == {};
    ghost var resumes;
    var outcome;
    outcome, resumes := ingestor.Discover(u, Sub.FromActivation, _ => Sub.Resumed, None, 0, 0, 0);
    assert Sub.RetainedThreads(ingestor.states) == {u};
  }

  /** A thread whose status reads as active although all its turns are over. */
  function IdleButActive(t: ThreadId): RawThread {
    RawThread(Some(t), Tagged("active"), [RawTurn(Some("u"), Completed)], false)
  }

  lemma IdleButActiveAdopted(t: ThreadId, u: ThreadId)
    requires t != u
    ensures ThreadIsActive(IdleButActive(t)) && InFlightTurnId(IdleButActive(t)).None?
    ensures var view := R.Step(AfterDiscovery(R.INITIAL, u, true, None), R.Reconcile(IdleButActive(t)));
            t in view.threads && !R.RelevantEntry(view, t) && R.EntryOf(view, u).subscribed
  {
    assert IdleButActive(t).turns[..0] == [];
  }

  /**
   With the map full, a reconciled thread that reads as active but has no turn in flight becomes an
   entry that nothing protects: `u` takes the only place, and then `t` is turned away.
   */
  method IdleAdoptionAccumulates(t: ThreadId, u: ThreadId, store: S.EventStore) returns (reducer: R.Reducer)
    requires store.Valid() && t != u
    modifies store
    ensures fresh(reducer) && t in reducer.threads && !R.RelevantEntry(reducer.View(), t)
    ensures R.EntryOf(reducer.View(), u).subscribed
  {
    reducer := new R.Reducer(1);
    var ingestor := FullIngestor(u, reducer, store);
    var thread := IdleButActive(t);
    IdleButActiveAdopted(t, u);
    var outcome := ingestor.AdoptOne(t, thread, None, _ => Sub.ResumeError, 0, 0, 0);
    assert outcome.OverCapacity?;
  }

  // ----- One call against the interleaved system -----

  /** The first `n` answers of a `discover` call, each followed by another attempt. */
  function QuietResumes(id: nat, replies: nat -> Sub.ResumeReply, n: nat): seq<Sub.Action> {
    if n == 0 then []
    else QuietResumes(id, replies, n - 1) + [Sub.Answered(id, replies(n - 1)), Sub.Retry(id)]
  }

  function QuietSettle(id: nat, reply: Sub.ResumeReply, read: Option<RawThread>): seq<Sub.Action> {
    if reply.Resumed? then [Sub.Answered(id, reply), Sub.Promote(id)] + [Sub.Record(id), Sub.ReadBack(id, read)]
    else [Sub.Answered(id, reply), Sub.Unprotect(id)]
  }

  /** All the actions of one `discover` call whose `n`-th answer is the last. */
  function QuietDiscover(id: nat, t: ThreadId, source: Sub.Source, replies: nat -> Sub.ResumeReply, n: nat,
                         read: Option<RawThread>): seq<Sub.Action>
    requires n > 0
  {
    [Sub.Discover(id, t, source), Sub.Protect(id)] + QuietResumes(id, replies, n - 1)
    + QuietSettle(id, replies(n - 1), read)
  }

  /** `s` with the state of one thread, one call and the reducer's view replaced. */
  function At(s: Sub.System, t: ThreadId, st: Sub.SubscriptionState, id: nat, task: Sub.Task, view: R.State): Sub.System {
    s.(states := s.states[t := st], tasks := s.tasks[id := task], view := view)
  }

  lemma AtAt(s: Sub.System, t: ThreadId, id: nat, st: Sub.SubscriptionState, task: Sub.Task, view: R.State,
             st': Sub.SubscriptionState, task': Sub.Task, view': R.State)
    ensures At(At(s, t, st, id, task, view), t, st', id, task', view') == At(s, t, st', id, task', view')
  {
    assert s.states[t := st][t := st'] == s.states[t := st'];
    assert s.tasks[id := task][id := task'] == s.tasks[id := task'];
  }

  /** A call in its `n`-th attempt. */
  function InAttempt(s: Sub.System, id: nat, t: ThreadId, source: Sub.Source, n: nat, view: R.State): Sub.System {
    At(s, t, Sub.Subscribing(source, n), id, Sub.Task(t, source, Sub.Resuming(n), n), view)
  }

  lemma OneRetry(config: Sub.Config, s: Sub.System, id: nat, t: ThreadId, source: Sub.Source,
                 reply: Sub.ResumeReply, n: nat, view: R.State)
    requires Sub.Retryable(reply) && n < config.resumeLimit
    ensures Sub.Run(config, InAttempt(s, id, t, source, n, view), [Sub.Answered(id, reply), Sub.Retry(id)]) ==
            InAttempt(s, id, t, source, n + 1, view)
  {
    var before := InAttempt(s, id, t, source, n, view);
    Sub.RunTwo(config, before, Sub.Answered(id, reply), Sub.Retry(id));
    var waiting := Sub.Step(config, before, Sub.Answered(id, reply));
    var task := Sub.Task(t, source, Sub.Waiting(n + 1), n);
    AtAt(s, t, id, Sub.Subscribing(source, n), before.tasks[id], view, Sub.RetryWait(n + 1), task, view);
    assert waiting == At(s, t, Sub.RetryWait(n + 1), id, task, view);
    AtAt(s, t, id, Sub.RetryWait(n + 1), task, view, Sub.Subscribing(source, n + 1),
         Sub.Task(t, source, Sub.Resuming(n + 1), n + 1), view);
  }

  lemma {:induction false} QuietResumesRun(
    config: Sub.Config, s: Sub.System, id: nat, t: ThreadId, source: Sub.Source, replies: nat -> Sub.ResumeReply,
    n: nat, view: R.State)
    requires n > 0 ==> n < config.resumeLimit
    requires forall i :: 0 <= i < n ==> Sub.Retryable(replies(i))
    ensures Sub.Run(config, InAttempt(s, id, t, source, 1, view), QuietResumes(id, replies, n)) ==
            InAttempt(s, id, t, source, n + 1, view)
  {
    if n > 0 {
      QuietResumesRun(config, s, id, t, source, replies, n - 1, view);
      Sub.RunAppend(config, InAttempt(s, id, t, source, 1, view), QuietResumes(id, replies, n - 1),
                    [Sub.Answered(id, replies(n - 1)), Sub.Retry(id)]);
      OneRetry(config, s, id, t, source, replies(n - 1), n, view);
    }
  }

  lemma ClaimRun(config: Sub.Config, s: Sub.System, id: nat, t: ThreadId, source: Sub.Source)
    requires id !in s.tasks && t !in Sub.RetainedThreads(s.states) && |Sub.RetainedThreads(s.states)| < config.cap
    ensures Sub.Run(config, s, [Sub.Discover(id, t, source), Sub.Protect(id)]) ==
            InAttempt(s, id, t, source, 1, R.Step(s.view, R.Begin(t)))
  {
    Sub.RunTwo(config, s, Sub.Discover(id, t, source), Sub.Protect(id));
  }

  /** How one call ends: its recorded state and its outcome. */
  function Ending(reply: Sub.ResumeReply): (Sub.SubscriptionState, Sub.DiscoveryOutcome) {
    if reply.Resumed? then (Sub.Subscribed, Sub.NowSubscribed) else Sub.GiveUp(reply)
  }

  lemma WonRun(config: Sub.Config, s: Sub.System, id: nat, t: ThreadId, source: Sub.Source,
               st: Sub.SubscriptionState, n: nat, view: R.State, read: Option<RawThread>)
    ensures Sub.Run(config, At(s, t, st, id, Sub.Task(t, source, Sub.Resuming(n), n), view),
                    QuietSettle(id, Sub.Resumed, read)) ==
            At(s, t, Sub.Subscribed, id, Sub.Task(t, source, Sub.Done(Sub.NowSubscribed), n),
               AfterResume(view, t, true, read))
  {
    var before := At(s, t, st, id, Sub.Task(t, source, Sub.Resuming(n), n), view);
    var won, finished := Sub.Task(t, source, Sub.Promoted, n), R.Step(view, R.Finish(t));
    Sub.RunAppend(config, before, [Sub.Answered(id, Sub.Resumed), Sub.Promote(id)],
                  [Sub.Record(id), Sub.ReadBack(id, read)]);
    Sub.RunTwo(config, before, Sub.Answered(id, Sub.Resumed), Sub.Promote(id));
    assert before.tasks[id := Sub.Task(t, source, Sub.Won, n)][id := won] == s.tasks[id := won];
    var promoted := At(s, t, st, id, won, finished);
    assert Sub.Run(config, before, [Sub.Answered(id, Sub.Resumed), Sub.Promote(id)]) == promoted;
    Sub.RunTwo(config, promoted, Sub.Record(id), Sub.ReadBack(id, read));
    var reading := Sub.Step(config, promoted, Sub.Record(id));
    AtAt(s, t, id, st, won, finished, Sub.Subscribed, Sub.Task(t, source, Sub.Reading, n), finished);
    assert reading == At(s, t, Sub.Subscribed, id, Sub.Task(t, source, Sub.Reading, n), finished);
    assert reading.tasks[id := Sub.Task(t, source, Sub.Done(Sub.NowSubscribed), n)]
           == s.tasks[id := Sub.Task(t, source, Sub.Done(Sub.NowSubscribed), n)];
  }

  lemma LostRun(config: Sub.Config, s: Sub.System, id: nat, t: ThreadId, source: Sub.Source,
                st: Sub.SubscriptionState, reply: Sub.ResumeReply, n: nat, view: R.State, read: Option<RawThread>)
    requires !reply.Resumed? && (Sub.Retryable(reply) ==> n >= config.resumeLimit)
    ensures Sub.Run(config, At(s, t, st, id, Sub.Task(t, source, Sub.Resuming(n), n), view),
                    QuietSettle(id, reply, read)) ==
            At(s, t, Sub.GiveUp(reply).0, id, Sub.Task(t, source, Sub.Done(Sub.GiveUp(reply).1), n),
               AfterResume(view, t, false, read))
  {
    var before := At(s, t, st, id, Sub.Task(t, source, Sub.Resuming(n), n), view);
    var given, done := Sub.Task(t, source, Sub.GivenUp(Sub.GiveUp(reply).1), n),
                       Sub.Task(t, source, Sub.Done(Sub.GiveUp(reply).1), n);
    Sub.RunTwo(config, before, Sub.Answered(id, reply), Sub.Unprotect(id));
    AtAt(s, t, id, st, before.tasks[id], view, Sub.GiveUp(reply).0, given, view);
    assert Sub.Step(config, before, Sub.Answered(id, reply)) == At(s, t, Sub.GiveUp(reply).0, id, given, view);
    assert s.tasks[id := given][id := done] == s.tasks[id := done];
  }

  /**
   Undisturbed, the actions of one `discover` call that finds room are one call of
   `ThreadIngestor.Discover`: same state map, same reducer, same outcome, same number of resumes.
   */
  lemma QuietDiscoverRun(config: Sub.Config, s: Sub.System, id: nat, t: ThreadId, source: Sub.Source,
                         replies: nat -> Sub.ResumeReply, n: nat, read: Option<RawThread>)
    requires id !in s.tasks && t !in Sub.RetainedThreads(s.states) && |Sub.RetainedThreads(s.states)| < config.cap
    requires 1 <= n <= Max(1, config.resumeLimit) && forall i :: 0 <= i < n - 1 ==> Sub.Retryable(replies(i))
    requires Sub.Retryable(replies(n - 1)) ==> n >= config.resumeLimit
    ensures var last := replies(n - 1);
            Sub.Run(config, s, QuietDiscover(id, t, source, replies, n, read)) ==
            At(s, t, Ending(last).0, id, Sub.Task(t, source, Sub.Done(Ending(last).1), n),
               AfterDiscovery(s.view, t, last.Resumed?, read))
  {
    var start, resumes := [Sub.Discover(id, t, source), Sub.Protect(id)], QuietResumes(id, replies, n - 1);
    var begun := R.Step(s.view, R.Begin(t));
    Sub.RunAppend(config, s, start + resumes, QuietSettle(id, replies(n - 1), read));
    Sub.RunAppend(config, s, start, resumes);
    ClaimRun(config, s, id, t, source);
    QuietResumesRun(config, s, id, t, source, replies, n - 1, begun);
    if replies(n - 1).Resumed? {
      WonRun(config, s, id, t, source, Sub.Subscribing(source, n), n, begun, read);
    } else {
      LostRun(config, s, id, t, source, Sub.Subscribing(source, n), replies(n - 1), n, begun, read);
    }
  }
}
