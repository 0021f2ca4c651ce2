/**
 The bounded in-memory event store: a deque with three redundant indexes (total bytes, bytes
 per thread, retention gap per thread key) that is pruned by age and by two byte caps.

 A ghost ledger remembers every recorded event, in recorded order, with a flag that says
 whether it is still retained.
 */
module Store {
  import opened Protocol

  datatype Config = Config(retentionMs: nat, perThreadBytes: nat, globalBytes: nat, toleranceMs: nat)

  datatype RetentionGap = RetentionGap(before: Option<Sequence>, deltas: nat, lifecycle: nat)

  datatype QueryResult = QueryResult(events: seq<Event>, gap: Option<RetentionGap>)

  const EMPTY_GAP := RetentionGap(None, 0, 0)

  // ----- Loads and victims -----

  /** The two byte caps range over all events or over the events of one thread. */
  datatype Scope = All | OfThread(thread: ThreadId)

  predicate InScope(e: Event, scope: Scope) {
    scope.All? || e.threadId == Some(scope.thread)
  }

  /** The bytes that `es` charges to `scope`. */
  function Load(es: seq<Event>, scope: Scope): nat {
    if es == [] then 0
    else (if InScope(es[0], scope) then es[0].size else 0) + Load(es[1..], scope)
  }

  /** Over-cap eviction prefers deltas of the scope that is over its cap. */
  predicate Victim(e: Event, scope: Scope) {
    e.plane.Delta? && InScope(e, scope)
  }

  function Without(es: seq<Event>, i: nat): seq<Event>
    requires i < |es|
  {
    es[..i] + es[i + 1..]
  }

  /** Index of the oldest victim, or `|es|` when there is none. */
  function FirstVictim(es: seq<Event>, scope: Scope): (i: nat)
    ensures i <= |es|
    ensures i < |es| ==> Victim(es[i], scope)
    ensures forall j :: 0 <= j < i ==> !Victim(es[j], scope)
  {
    if es == [] || Victim(es[0], scope) then 0 else 1 + FirstVictim(es[1..], scope)
  }

  /** The position one over-cap iteration removes: the oldest victim, else the oldest event. */
  function VictimIndex(es: seq<Event>, scope: Scope): (i: nat)
    requires es != []
    ensures i < |es|
  {
    var i := FirstVictim(es, scope);
    if i == |es| then 0 else i
  }

  lemma {:induction false} LoadConcat(a: seq<Event>, b: seq<Event>, scope: Scope)
    ensures Load(a + b, scope) == Load(a, scope) + Load(b, scope)
  {
    if a == [] {
      assert a + b == b;
    } else {
      assert (a + b)[1..] == a[1..] + b;
      LoadConcat(a[1..], b, scope);
    }
  }

  lemma LoadAppend(es: seq<Event>, e: Event)
    ensures forall scope :: Load(es + [e], scope) == Load(es, scope) + (if InScope(e, scope) then e.size else 0)
  {
    forall scope
      ensures Load(es + [e], scope) == Load(es, scope) + (if InScope(e, scope) then e.size else 0)
    {
      LoadConcat(es, [e], scope);
      assert [e][1..] == [];
    }
  }

  lemma LoadWithout(es: seq<Event>, i: nat, scope: Scope)
    requires i < |es|
    ensures Load(es, scope) == Load(Without(es, i), scope) + (if InScope(es[i], scope) then es[i].size else 0)
  {
    assert es == es[..i] + ([es[i]] + es[i + 1..]);
    LoadConcat(es[..i], [es[i]] + es[i + 1..], scope);
    LoadConcat([es[i]], es[i + 1..], scope);
    LoadConcat(es[..i], es[i + 1..], scope);
    assert Load([es[i]], scope) == if InScope(es[i], scope) then es[i].size else 0;
  }

  // ----- Closed form of eviction -----

  function CountVictims(es: seq<Event>, scope: Scope): (n: nat)
    ensures n <= |es|
  {
    if es == [] then 0
    else (if Victim(es[0], scope) then 1 else 0) + CountVictims(es[1..], scope)
  }

  /** `es` without its `k` oldest victims. */
  function DropVictims(es: seq<Event>, scope: Scope, k: nat): seq<Event> {
    if es == [] || k == 0 then es
    else if Victim(es[0], scope) then DropVictims(es[1..], scope, k - 1)
    else [es[0]] + DropVictims(es[1..], scope, k)
  }

  function NonVictims(es: seq<Event>, scope: Scope): (r: seq<Event>)
    ensures |r| == |es| - CountVictims(es, scope)
    ensures forall e :: e in r ==> !Victim(e, scope)
  {
    if es == [] then []
    else if Victim(es[0], scope) then NonVictims(es[1..], scope)
    else [es[0]] + NonVictims(es[1..], scope)
  }

  /**
   What is left after `k` evictions: the `k` oldest victims are gone, and once all victims are
   gone the remaining evictions took the oldest of the other events.
   */
  function Survivors(es: seq<Event>, scope: Scope, k: nat): (r: seq<Event>)
    requires k <= |es|
  {
    var n := CountVictims(es, scope);
    if k <= n then DropVictims(es, scope, k) else NonVictims(es, scope)[k - n..]
  }

  lemma {:induction false} DropAllVictims(es: seq<Event>, scope: Scope)
    ensures DropVictims(es, scope, CountVictims(es, scope)) == NonVictims(es, scope)
  {
    if es != [] {
      DropAllVictims(es[1..], scope);
      if !Victim(es[0], scope) && CountVictims(es, scope) == 0 {
        assert DropVictims(es[1..], scope, 0) == es[1..];
        assert es == [es[0]] + es[1..];
      }
    }
  }

  /** Removing the oldest victim of what `k` drops left is one more drop. */
  ghost predicate OneMoreDrop(es: seq<Event>, scope: Scope, k: nat) {
    var d := DropVictims(es, scope, k);
    FirstVictim(d, scope) < |d| && Without(d, FirstVictim(d, scope)) == DropVictims(es, scope, k + 1)
  }

  lemma DropFirst(es: seq<Event>, scope: Scope)
    requires es != [] && Victim(es[0], scope)
    ensures OneMoreDrop(es, scope, 0)
  {
    assert DropVictims(es[1..], scope, 0) == es[1..] == Without(es, 0);
  }

  lemma DropSkips(es: seq<Event>, scope: Scope, k: nat)
    requires es != [] && !Victim(es[0], scope)
    ensures DropVictims(es, scope, k) == [es[0]] + DropVictims(es[1..], scope, k)
  {
    if k == 0 {
      assert es == [es[0]] + es[1..];
    }
  }

  lemma WithoutCons(e: Event, es: seq<Event>, i: nat)
    requires i < |es|
    ensures Without([e] + es, i + 1) == [e] + Without(es, i)
  {
    assert ([e] + es)[..i + 1] == [e] + es[..i];
    assert ([e] + es)[i + 2..] == es[i + 1..];
  }

  lemma FirstVictimSkips(e: Event, es: seq<Event>, scope: Scope)
    requires !Victim(e, scope) && FirstVictim(es, scope) < |es|
    ensures FirstVictim([e] + es, scope) == 1 + FirstVictim(es, scope)
    ensures Without([e] + es, 1 + FirstVictim(es, scope)) == [e] + Without(es, FirstVictim(es, scope))
  {
    assert ([e] + es)[1..] == es;
    WithoutCons(e, es, FirstVictim(es, scope));
  }

  lemma DropBehind(es: seq<Event>, scope: Scope, k: nat)
    requires es != [] && !Victim(es[0], scope) && OneMoreDrop(es[1..], scope, k)
    ensures OneMoreDrop(es, scope, k)
  {
    DropSkips(es, scope, k);
    DropSkips(es, scope, k + 1);
    FirstVictimSkips(es[0], DropVictims(es[1..], scope, k), scope);
  }

  lemma {:induction false} DropOneVictim(es: seq<Event>, scope: Scope, k: nat)
    requires k < CountVictims(es, scope)
    ensures OneMoreDrop(es, scope, k)
  {
    if !Victim(es[0], scope) {
      DropOneVictim(es[1..], scope, k);
      DropBehind(es, scope, k);
    } else if k > 0 {
      DropOneVictim(es[1..], scope, k - 1);
    } else {
      DropFirst(es, scope);
    }
  }

  lemma NoVictimsFound(es: seq<Event>, scope: Scope)
    requires forall e :: e in es ==> !Victim(e, scope)
    ensures FirstVictim(es, scope) == |es|
  {
  }

  lemma {:induction false} DropVictimsLength(es: seq<Event>, scope: Scope, k: nat)
    requires k <= CountVictims(es, scope)
    ensures |DropVictims(es, scope, k)| == |es| - k
  {
    if es != [] && k > 0 {
      DropVictimsLength(es[1..], scope, if Victim(es[0], scope) then k - 1 else k);
    }
  }

  lemma SurvivorsLength(es: seq<Event>, scope: Scope, k: nat)
    requires k <= |es|
    ensures |Survivors(es, scope, k)| == |es| - k
  {
    if k <= CountVictims(es, scope) {
      DropVictimsLength(es, scope, k);
    }
  }

  /** One iteration of the over-cap loop takes `Survivors(k)` to `Survivors(k + 1)`. */
  lemma SurvivorsStep(es: seq<Event>, scope: Scope, k: nat)
    requires k < |es|
    ensures |Survivors(es, scope, k)| == |es| - k
    ensures Without(Survivors(es, scope, k), VictimIndex(Survivors(es, scope, k), scope))
            == Survivors(es, scope, k + 1)
  {
    var n := CountVictims(es, scope);
    SurvivorsLength(es, scope, k);
    if k < n {
      DropOneVictim(es, scope, k);
      assert OneMoreDrop(es, scope, k);
    } else {
      var others := NonVictims(es, scope);
      assert Survivors(es, scope, k) == others[k - n..] by {
        DropAllVictims(es, scope);
      }
      NoVictimsFound(others[k - n..], scope);
      assert Without(others[k - n..], 0) == others[k + 1 - n..];
    }
  }

  /** The least number of evictions, from `from` on, that brings `scope` within `cap`. */
  function EvictCount(es: seq<Event>, scope: Scope, cap: nat, from: nat := 0): (k: nat)
    requires from <= |es|
    ensures from <= k <= |es|
    ensures Load(Survivors(es, scope, k), scope) <= cap
    ensures forall j :: from <= j < k ==> Load(Survivors(es, scope, j), scope) > cap
    decreases |es| - from
  {
    SurvivorsLength(es, scope, from);
    if Load(Survivors(es, scope, from), scope) <= cap then from
    else EvictCount(es, scope, cap, from + 1)
  }

  /** The cap phase for one scope: the fewest evictions that fit, oldest victims first. */
  function Evict(es: seq<Event>, scope: Scope, cap: nat): seq<Event> {
    Survivors(es, scope, EvictCount(es, scope, cap))
  }

  /** Drops the longest prefix that is older than `cutoff`. */
  function TimePrune(es: seq<Event>, cutoff: nat): seq<Event> {
    if es == [] || es[0].monotonicMs >= cutoff then es else TimePrune(es[1..], cutoff)
  }

  /** Both cap phases: first the thread that can be over its cap, then the global cap. */
  function CapPrune(config: Config, es: seq<Event>, own: Option<ThreadId>): seq<Event> {
    var fitted := match own
                  case None => es
                  case Some(t) => Evict(es, OfThread(t), config.perThreadBytes);
    Evict(fitted, All, config.globalBytes)
  }

  /**
   What `record` leaves of the deque `es`, whose last element is the new event: age pruning,
   then the new event's thread cap, then the global cap.
   */
  function Retain(config: Config, es: seq<Event>): seq<Event>
    requires es != []
  {
    var newest := es[|es| - 1];
    var aged := TimePrune(es, SaturatingSub(newest.monotonicMs, config.retentionMs));
    CapPrune(config, aged, newest.threadId)
  }

  /** What recording `feed` event by event leaves of the deque `es`. */
  function RetainAll(config: Config, es: seq<Event>, feed: seq<Event>): seq<Event> {
    if feed == [] then es
    else Retain(config, RetainAll(config, es, feed[..|feed| - 1]) + [feed[|feed| - 1]])
  }

  /** `TimePrune` drops a prefix of stale events and stops at the first that is not. */
  lemma {:induction false} TimePruneMeaning(es: seq<Event>, cutoff: nat) returns (k: nat)
    ensures k <= |es| && TimePrune(es, cutoff) == es[k..]
    ensures forall i :: 0 <= i < k ==> es[i].monotonicMs < cutoff
    ensures k < |es| ==> es[k].monotonicMs >= cutoff
  {
    if es == [] || es[0].monotonicMs >= cutoff {
      return 0;
    }
    k := TimePruneMeaning(es[1..], cutoff);
    k := k + 1;
  }

  lemma {:induction false} DropVictimsInOrder(es: seq<Event>, scope: Scope, k: nat)
    ensures InOrder(es, DropVictims(es, scope, k))
  {
    if es == [] || k == 0 {
      SuffixInOrder(es, 0);
      assert es[0..] == es;
    } else {
      var next := if Victim(es[0], scope) then k - 1 else k;
      DropVictimsInOrder(es[1..], scope, next);
      assert [es[0]] + es[1..] == es;
      InOrderBehind(es[0], es[1..], DropVictims(es[1..], scope, next));
    }
  }

  lemma {:induction false} NonVictimsInOrder(es: seq<Event>, scope: Scope)
    ensures InOrder(es, NonVictims(es, scope))
  {
    if es == [] {
      assert Picks<Event>([], [], []);
    } else {
      NonVictimsInOrder(es[1..], scope);
      assert [es[0]] + es[1..] == es;
      InOrderBehind(es[0], es[1..], NonVictims(es[1..], scope));
    }
  }

  lemma EvictInOrder(es: seq<Event>, scope: Scope, cap: nat)
    ensures InOrder(es, Evict(es, scope, cap))
  {
    var k, n := EvictCount(es, scope, cap), CountVictims(es, scope);
    DropVictimsInOrder(es, scope, k);
    if k > n {
      NonVictimsInOrder(es, scope);
      SuffixInOrder(NonVictims(es, scope), k - n);
      InOrderTransitive(es, NonVictims(es, scope), NonVictims(es, scope)[k - n..]);
    }
  }

  lemma CapPruneInOrder(config: Config, es: seq<Event>, own: Option<ThreadId>)
    ensures InOrder(es, CapPrune(config, es, own))
  {
    var fitted := es;
    SuffixInOrder(es, 0);
    assert es[0..] == es;
    if own.Some? {
      fitted := Evict(es, OfThread(own.value), config.perThreadBytes);
      EvictInOrder(es, OfThread(own.value), config.perThreadBytes);
    }
    EvictInOrder(fitted, All, config.globalBytes);
    InOrderTransitive(es, fitted, Evict(fitted, All, config.globalBytes));
  }

  /** Recording never reorders, duplicates or invents. */
  lemma RetainInOrder(config: Config, es: seq<Event>)
    requires es != []
    ensures InOrder(es, Retain(config, es))
  {
    var newest := es[|es| - 1];
    var cutoff := SaturatingSub(newest.monotonicMs, config.retentionMs);
    var k := TimePruneMeaning(es, cutoff);
    SuffixInOrder(es, k);
    CapPruneInOrder(config, es[k..], newest.threadId);
    InOrderTransitive(es, es[k..], Retain(config, es));
  }

  /** The events came in clock order. */
  ghost predicate Chronological(es: seq<Event>) {
    forall i, j :: 0 <= i < j < |es| ==> es[i].monotonicMs <= es[j].monotonicMs
  }

  /** After a record nothing is left that is older than the retention window. */
  lemma RetainFresh(config: Config, es: seq<Event>)
    requires es != [] && Chronological(es)
    ensures Chronological(Retain(config, es))
    ensures forall e :: e in Retain(config, es) ==>
              es[|es| - 1].monotonicMs <= e.monotonicMs + config.retentionMs
  {
    var newest := es[|es| - 1];
    var k := TimePruneMeaning(es, SaturatingSub(newest.monotonicMs, config.retentionMs));
    CapPruneInOrder(config, es[k..], newest.threadId);
    InOrderMember(es[k..], Retain(config, es));
    RetainInOrder(config, es);
  }

  lemma NoneDropped(es: seq<Event>, scope: Scope)
    ensures Survivors(es, scope, 0) == es
  {
  }

  lemma UniqueCount(es: seq<Event>, scope: Scope, cap: nat, k: nat)
    requires k <= |es| && Load(Survivors(es, scope, k), scope) <= cap
    requires forall j :: 0 <= j < k ==> Load(Survivors(es, scope, j), scope) > cap
    ensures EvictCount(es, scope, cap) == k
  {
  }

  lemma EvictNothing(es: seq<Event>, scope: Scope, cap: nat)
    requires Load(es, scope) <= cap
    ensures Evict(es, scope, cap) == es
  {
    NoneDropped(es, scope);
    UniqueCount(es, scope, cap, 0);
  }

  /** Nothing goes without need: neither an event inside the window nor, while all caps hold, any other. */
  lemma RetainNeedless(config: Config, es: seq<Event>)
    requires es != []
    requires forall e :: e in es ==> es[|es| - 1].monotonicMs <= e.monotonicMs + config.retentionMs
    requires Load(es, All) <= config.globalBytes
    requires forall t :: Load(es, OfThread(t)) <= config.perThreadBytes
    ensures Retain(config, es) == es
  {
    var newest := es[|es| - 1];
    var k := TimePruneMeaning(es, SaturatingSub(newest.monotonicMs, config.retentionMs));
    assert forall i :: 0 <= i < |es| ==> es[i] in es;
    if newest.threadId.Some? {
      EvictNothing(es, OfThread(newest.threadId.value), config.perThreadBytes);
    }
    EvictNothing(es, All, config.globalBytes);
  }

  // ----- The ledger -----

  datatype Entry = Entry(event: Event, kept: bool)

  function Events(l: seq<Entry>): (r: seq<Event>)
    ensures |r| == |l|
  {
    if l == [] then [] else [l[0].event] + Events(l[1..])
  }

  function Kept(l: seq<Entry>): seq<Event> {
    if l == [] then []
    else if l[0].kept then [l[0].event] + Kept(l[1..])
    else Kept(l[1..])
  }

  /** Marks the `i`-th retained entry as evicted. */
  function Mark(l: seq<Entry>, i: nat): seq<Entry> {
    if l == [] then []
    else if !l[0].kept then [l[0]] + Mark(l[1..], i)
    else if i == 0 then [l[0].(kept := false)] + l[1..]
    else [l[0]] + Mark(l[1..], i - 1)
  }

  function AddToGap(gap: RetentionGap, e: Event): RetentionGap {
    RetentionGap(
      Some(match gap.before case None => e.sequence case Some(s) => Max(s, e.sequence)),
      if e.plane.Delta? then gap.deltas + 1 else gap.deltas,
      if e.plane.Delta? then gap.lifecycle else gap.lifecycle + 1)
  }

  /** The gap that the evicted entries of one thread key add up to. */
  function GapOf(l: seq<Entry>, key: Option<ThreadId>): RetentionGap {
    if l == [] then EMPTY_GAP
    else
      var gap := GapOf(l[1..], key);
      if !l[0].kept && l[0].event.threadId == key then AddToGap(gap, l[0].event) else gap
  }

  function GapAt(gaps: map<Option<ThreadId>, RetentionGap>, key: Option<ThreadId>): RetentionGap {
    if key in gaps then gaps[key] else EMPTY_GAP
  }

  function BytesAt(bytes: map<ThreadId, nat>, t: ThreadId): nat {
    if t in bytes then bytes[t] else 0
  }

  lemma {:induction false} MarkLemma(l: seq<Entry>, i: nat)
    requires i < |Kept(l)|
    ensures Events(Mark(l, i)) == Events(l)
    ensures Kept(Mark(l, i)) == Without(Kept(l), i)
    ensures forall key :: GapOf(Mark(l, i), key) ==
                          if Kept(l)[i].threadId == key then AddToGap(GapOf(l, key), Kept(l)[i]) else GapOf(l, key)
  {
    var m := Mark(l, i);
    if !l[0].kept {
      MarkLemma(l[1..], i);
      assert m[1..] == Mark(l[1..], i);
    } else if i == 0 {
      assert m[1..] == l[1..];
      assert Without(Kept(l), 0) == Kept(l[1..]);
    } else {
      MarkLemma(l[1..], i - 1);
      assert m[1..] == Mark(l[1..], i - 1);
      assert Without(Kept(l), i) == [l[0].event] + Without(Kept(l[1..]), i - 1);
    }
  }

  lemma {:induction false} AppendLemma(l: seq<Entry>, e: Event)
    ensures Events(l + [Entry(e, true)]) == Events(l) + [e]
    ensures Kept(l + [Entry(e, true)]) == Kept(l) + [e]
    ensures forall key :: GapOf(l + [Entry(e, true)], key) == GapOf(l, key)
  {
    var m := l + [Entry(e, true)];
    if l != [] {
      assert m[1..] == l[1..] + [Entry(e, true)];
      AppendLemma(l[1..], e);
    }
  }

  // ----- Queries -----

  /** `query_sequence` and `query_time`: both may be restricted to one thread. */
  datatype Query =
    | BySequence(thread: Option<ThreadId>, after: Sequence, through: Option<Sequence>)
    | ByTime(thread: Option<ThreadId>, startMs: nat, endMs: nat, toleranceMs: nat)

  function Timestamp(e: Event): nat {
    if e.emittedAtMs.Some? then e.emittedAtMs.value else e.unixReceiptMs
  }

  predicate Matches(e: Event, q: Query) {
    && (q.thread.None? || e.threadId == q.thread)
    && match q
       case BySequence(_, after, through) =>
         e.sequence > after && (through.None? || e.sequence <= through.value)
       case ByTime(_, startMs, endMs, toleranceMs) =>
         Timestamp(e) + toleranceMs >= startMs && Timestamp(e) <= endMs + toleranceMs
  }

  function Select(es: seq<Event>, q: Query): seq<Event> {
    if es == [] then []
    else if Matches(es[0], q) then [es[0]] + Select(es[1..], q)
    else Select(es[1..], q)
  }

  /** The answer keeps exactly the matching events, in recorded order. */
  lemma {:induction false} SelectFilters(es: seq<Event>, q: Query)
    ensures IsFilter(es, (e: Event) => Matches(e, q), Select(es, q))
  {
    var wanted := (e: Event) => Matches(e, q);
    if es == [] {
      FilterNothing(wanted);
    } else {
      SelectFilters(es[1..], q);
      FilterSame(es[1..], (e: Event) => Matches(e, q), wanted, Select(es[1..], q));
      FilterBehind(es[0], es[1..], wanted, Select(es[1..], q));
      assert [es[0]] + es[1..] == es;
      FilterSame(es, wanted, (e: Event) => Matches(e, q), Select(es, q));
    }
  }

  /** What is retained is a sublist of what was recorded. */
  lemma {:induction false} KeptInOrder(l: seq<Entry>)
    ensures InOrder(Events(l), Kept(l))
  {
    if l == [] {
      assert Picks<Event>([], [], []);
    } else {
      KeptInOrder(l[1..]);
      InOrderBehind(l[0].event, Events(l[1..]), Kept(l[1..]));
    }
  }

  lemma AnswerInOrder(l: seq<Entry>, q: Query)
    ensures InOrder(Events(l), Select(Kept(l), q))
  {
    KeptInOrder(l);
    SelectFilters(Kept(l), q);
    FilterInOrder(Kept(l), (e: Event) => Matches(e, q), Select(Kept(l), q));
    InOrderTransitive(Events(l), Kept(l), Select(Kept(l), q));
  }

  /** The gap handed back with a query result claims a loss after `after`. */
  predicate Flags(gap: Option<RetentionGap>, after: Sequence) {
    gap.Some? && gap.value.before.Some? && gap.value.before.value > after
  }

  /** Counts the events of one thread key on one plane. */
  function CountOf(es: seq<Event>, key: Option<ThreadId>, plane: Plane): nat {
    if es == [] then 0
    else (if es[0].threadId == key && es[0].plane == plane then 1 else 0) + CountOf(es[1..], key, plane)
  }

  /** Conservation: recorded = retained + reported in the gap, separately on each plane. */
  lemma {:induction false} Conservation(l: seq<Entry>, key: Option<ThreadId>)
    ensures CountOf(Events(l), key, Delta) == CountOf(Kept(l), key, Delta) + GapOf(l, key).deltas
    ensures CountOf(Events(l), key, Lifecycle) == CountOf(Kept(l), key, Lifecycle) + GapOf(l, key).lifecycle
  {
    if l != [] {
      Conservation(l[1..], key);
    }
  }

  /** The gap's sequence is exactly the largest evicted sequence of its key. */
  lemma {:induction false} GapIsLargestEvicted(l: seq<Entry>, key: Option<ThreadId>)
    ensures forall i :: 0 <= i < |l| && !l[i].kept && l[i].event.threadId == key ==>
              GapOf(l, key).before.Some? && l[i].event.sequence <= GapOf(l, key).before.value
    ensures GapOf(l, key).before.Some? ==>
              exists i :: 0 <= i < |l| && !l[i].kept && l[i].event.threadId == key
                          && l[i].event.sequence == GapOf(l, key).before.value
  {
    if l != [] {
      var rest := l[1..];
      GapIsLargestEvicted(rest, key);
      forall i | 0 <= i < |l| && !l[i].kept && l[i].event.threadId == key
        ensures GapOf(l, key).before.Some? && l[i].event.sequence <= GapOf(l, key).before.value
      {
        if i > 0 {
          assert rest[i - 1] == l[i];
        }
      }
      if GapOf(l, key).before.Some? {
        if !l[0].kept && l[0].event.threadId == key && l[0].event.sequence == GapOf(l, key).before.value {
        } else {
          var j :| 0 <= j < |rest| && !rest[j].kept && rest[j].event.threadId == key
                   && rest[j].event.sequence == GapOf(rest, key).before.value;
          assert l[j + 1] == rest[j];
        }
      }
    }
  }

  lemma {:induction false} SelectMissesNothing(l: seq<Entry>, q: Query)
    requires forall i :: 0 <= i < |l| && !l[i].kept ==> !Matches(l[i].event, q)
    ensures Select(Kept(l), q) == Select(Events(l), q)
  {
    if l != [] {
      assert forall i :: 0 <= i < |l| - 1 ==> l[1..][i] == l[i + 1];
      SelectMissesNothing(l[1..], q);
    }
  }

  lemma {:induction false} SelectNotLonger(l: seq<Entry>, q: Query)
    ensures |Select(Kept(l), q)| <= |Select(Events(l), q)|
  {
    if l != [] {
      SelectNotLonger(l[1..], q);
    }
  }

  /** If a matching event was evicted, the answer is shorter than the recorded truth. */
  lemma {:induction false} SelectShorter(l: seq<Entry>, i: nat, q: Query)
    requires i < |l| && !l[i].kept && Matches(l[i].event, q)
    ensures |Select(Kept(l), q)| < |Select(Events(l), q)|
  {
    SelectNotLonger(l[1..], q);
    if i > 0 {
      assert l[1..][i - 1] == l[i];
      SelectShorter(l[1..], i - 1, q);
    }
  }

  /**
   A query for one thread that is not flagged returns every event ever recorded in its range,
   in recorded order.
   */
  lemma ThreadQueryComplete(l: seq<Entry>, t: ThreadId, after: Sequence, through: Option<Sequence>)
    requires !Flags(Some(GapOf(l, Some(t))), after)
    ensures Select(Kept(l), BySequence(Some(t), after, through)) == Select(Events(l), BySequence(Some(t), after, through))
  {
    GapIsLargestEvicted(l, Some(t));
    SelectMissesNothing(l, BySequence(Some(t), after, through));
  }

  /** The cross-thread query answers with the gap of the events that carry no thread. */
  ghost predicate CrossThreadHonest(l: seq<Entry>) {
    forall after, through ::
      Flags(Some(GapOf(l, None)), after)
      || Select(Kept(l), BySequence(None, after, through)) == Select(Events(l), BySequence(None, after, through))
  }

  /**
   A cross-thread query is honest for every range exactly when no thread has lost anything newer
   than the newest thread-less loss.  (An event with sequence 0 is never in range.)
   */
  lemma CrossThreadQueryHonestIff(l: seq<Entry>)
    ensures CrossThreadHonest(l) <==>
            forall t :: GapOf(l, Some(t)).before.Some? && GapOf(l, Some(t)).before.value > 0 ==>
                          GapOf(l, None).before.Some?
                          && GapOf(l, Some(t)).before.value <= GapOf(l, None).before.value
  {
    forall t | CrossThreadHonest(l) && GapOf(l, Some(t)).before.Some? && GapOf(l, Some(t)).before.value > 0
      ensures GapOf(l, None).before.Some?
              && GapOf(l, Some(t)).before.value <= GapOf(l, None).before.value
    {
      var b := GapOf(l, Some(t)).before.value;
      GapIsLargestEvicted(l, Some(t));
      var i :| 0 <= i < |l| && !l[i].kept && l[i].event.threadId == Some(t) && l[i].event.sequence == b;
      SelectShorter(l, i, BySequence(None, b - 1, None));
      assert Flags(Some(GapOf(l, None)), b - 1);
    }
    if forall t :: GapOf(l, Some(t)).before.Some? && GapOf(l, Some(t)).before.value > 0 ==>
                     GapOf(l, None).before.Some?
                     && GapOf(l, Some(t)).before.value <= GapOf(l, None).before.value
    {
      forall after, through | !Flags(Some(GapOf(l, None)), after)
        ensures Select(Kept(l), BySequence(None, after, through)) == Select(Events(l), BySequence(None, after, through))
      {
        forall i | 0 <= i < |l| && !l[i].kept
          ensures !Matches(l[i].event, BySequence(None, after, through))
        {
          GapIsLargestEvicted(l, l[i].event.threadId);
          GapIsLargestEvicted(l, None);
        }
        SelectMissesNothing(l, BySequence(None, after, through));
      }
    }
  }

  lemma NothingLostAfter(l: seq<Entry>, after: Sequence, through: Option<Sequence>)
    requires forall key :: !Flags(Some(GapOf(l, key)), after)
    ensures Select(Kept(l), BySequence(None, after, through)) == Select(Events(l), BySequence(None, after, through))
  {
    forall i | 0 <= i < |l| && !l[i].kept
      ensures !Matches(l[i].event, BySequence(None, after, through))
    {
      GapIsLargestEvicted(l, l[i].event.threadId);
    }
    SelectMissesNothing(l, BySequence(None, after, through));
  }

  /** One cross-thread query that is open to the right misses nothing exactly when no key lost anything after it. */
  lemma CrossThreadRangeIff(l: seq<Entry>, after: Sequence)
    ensures Select(Kept(l), BySequence(None, after, None)) == Select(Events(l), BySequence(None, after, None)) <==>
            forall key :: !Flags(Some(GapOf(l, key)), after)
  {
    var q := BySequence(None, after, None);
    if key :| Flags(Some(GapOf(l, key)), after) {
      GapIsLargestEvicted(l, key);
      var i :| 0 <= i < |l| && !l[i].kept && l[i].event.threadId == key
               && l[i].event.sequence == GapOf(l, key).before.value;
      SelectShorter(l, i, q);
    } else {
      NothingLostAfter(l, after, None);
    }
  }

  /** A cross-thread time query is flagged by the gap of the events that carry no thread, or misses nothing. */
  ghost predicate CrossThreadTimeHonest(l: seq<Entry>, toleranceMs: nat) {
    forall startMs, endMs ::
      GapOf(l, None).before.Some?
      || Select(Kept(l), ByTime(None, startMs, endMs, toleranceMs))
         == Select(Events(l), ByTime(None, startMs, endMs, toleranceMs))
  }

  lemma NothingEvicted(l: seq<Entry>, q: Query)
    requires forall key :: GapOf(l, key).before.None?
    ensures Select(Kept(l), q) == Select(Events(l), q)
  {
    forall i | 0 <= i < |l| && !l[i].kept
      ensures false
    {
      GapIsLargestEvicted(l, l[i].event.threadId);
    }
    SelectMissesNothing(l, q);
  }

  /** Cross-thread time queries are honest for every window exactly when only thread-less events were lost, or some were. */
  lemma CrossThreadTimeHonestIff(l: seq<Entry>, toleranceMs: nat)
    ensures CrossThreadTimeHonest(l, toleranceMs) <==>
            GapOf(l, None).before.Some? || forall t :: GapOf(l, Some(t)).before.None?
  {
    if GapOf(l, None).before.None? {
      forall t | CrossThreadTimeHonest(l, toleranceMs) && GapOf(l, Some(t)).before.Some?
        ensures false
      {
        GapIsLargestEvicted(l, Some(t));
        var i :| 0 <= i < |l| && !l[i].kept && l[i].event.threadId == Some(t);
        var at := Timestamp(l[i].event);
        SelectShorter(l, i, ByTime(None, at, at, toleranceMs));
      }
      if forall t :: GapOf(l, Some(t)).before.None? {
        forall key
          ensures GapOf(l, key).before.None?
        {
          assert key.Some? ==> key == Some(key.value);
        }
        forall startMs, endMs
          ensures Select(Kept(l), ByTime(None, startMs, endMs, toleranceMs))
                  == Select(Events(l), ByTime(None, startMs, endMs, toleranceMs))
        {
          NothingEvicted(l, ByTime(None, startMs, endMs, toleranceMs));
        }
      }
    }
  }

  // ----- Progress of the over-cap loop -----

  function Cap(config: Config, scope: Scope): nat {
    if scope.All? then config.globalBytes else config.perThreadBytes
  }

  /** What is left when the newest event's own thread has given up `k` events. */
  ghost function Fitted(aged: seq<Event>, own: Option<ThreadId>, k: nat): seq<Event>
    requires k <= |aged|
  {
    match own
    case None => aged
    case Some(t) => Survivors(aged, OfThread(t), k)
  }

  /** How far the loop is: removals for the newest event's thread, removals for the global cap. */
  datatype Done = Done(own: nat, global: nat)

  ghost predicate NonePremature(es: seq<Event>, scope: Scope, cap: nat, k: nat)
    requires k <= |es|
  {
    forall j :: 0 <= j < k ==> Load(Survivors(es, scope, j), scope) > cap
  }

  /** The loop has made the removals `d` counts, none of them premature. */
  ghost predicate CapProgress(config: Config, aged: seq<Event>, own: Option<ThreadId>, d: Done, events: seq<Event>) {
    && d.own <= |aged|
    && (own.None? ==> d.own == 0)
    && (own.Some? ==> NonePremature(aged, OfThread(own.value), config.perThreadBytes, d.own))
    && var fitted := Fitted(aged, own, d.own);
    && d.global <= |fitted|
    && events == Survivors(fitted, All, d.global)
    && NonePremature(fitted, All, config.globalBytes, d.global)
    && (d.global > 0 && own.Some? ==> Load(fitted, OfThread(own.value)) <= config.perThreadBytes)
    && (forall t :: Load(events, OfThread(t)) > config.perThreadBytes ==> own == Some(t) && d.global == 0)
  }

  lemma LoadsShrink(es: seq<Event>, i: nat)
    requires i < |es|
    ensures forall scope :: Load(Without(es, i), scope) <= Load(es, scope)
  {
    forall scope
      ensures Load(Without(es, i), scope) <= Load(es, scope)
    {
      LoadWithout(es, i, scope);
    }
  }

  lemma CapProgressStart(config: Config, es: seq<Event>, own: Option<ThreadId>) returns (d: Done)
    requires forall t :: Load(es, OfThread(t)) > config.perThreadBytes ==> own == Some(t)
    ensures CapProgress(config, es, own, d, es)
  {
    d := Done(0, 0);
    NoneDropped(es, All);
    if own.Some? {
      NoneDropped(es, OfThread(own.value));
    }
  }

  lemma OneMore(es: seq<Event>, scope: Scope, cap: nat, k: nat)
    requires k <= |es| && NonePremature(es, scope, cap, k)
    requires Load(Survivors(es, scope, k), scope) > cap
    ensures k < |es|
    ensures NonePremature(es, scope, cap, k + 1)
    ensures Survivors(es, scope, k) != []
    ensures Survivors(es, scope, k + 1)
            == Without(Survivors(es, scope, k), VictimIndex(Survivors(es, scope, k), scope))
  {
    SurvivorsLength(es, scope, k);
    assert Survivors(es, scope, k) != [];
    SurvivorsStep(es, scope, k);
  }

  lemma CapProgressStep(
    config: Config, aged: seq<Event>, own: Option<ThreadId>, d: Done, events: seq<Event>, scope: Scope)
    returns (d': Done)
    requires CapProgress(config, aged, own, d, events)
    requires Load(events, scope) > Cap(config, scope)
    requires scope.All? ==> forall t :: Load(events, OfThread(t)) <= config.perThreadBytes
    ensures events != []
    ensures CapProgress(config, aged, own, d', Without(events, VictimIndex(events, scope)))
  {
    var fitted := Fitted(aged, own, d.own);
    NoneDropped(fitted, All);
    if scope.All? {
      OneMore(fitted, All, config.globalBytes, d.global);
      d' := d.(global := d.global + 1);
    } else {
      assert own == Some(scope.thread) && d.global == 0 && events == fitted;
      OneMore(aged, scope, config.perThreadBytes, d.own);
      d' := Done(d.own + 1, 0);
      NoneDropped(Fitted(aged, own, d'.own), All);
    }
    LoadsShrink(events, VictimIndex(events, scope));
  }

  lemma CapProgressDone(config: Config, aged: seq<Event>, own: Option<ThreadId>, d: Done, events: seq<Event>)
    requires CapProgress(config, aged, own, d, events)
    requires Load(events, All) <= config.globalBytes
    requires forall t :: Load(events, OfThread(t)) <= config.perThreadBytes
    ensures events == CapPrune(config, aged, own)
  {
    var fitted := Fitted(aged, own, d.own);
    NoneDropped(fitted, All);
    if own.Some? {
      UniqueCount(aged, OfThread(own.value), config.perThreadBytes, d.own);
    }
    UniqueCount(fitted, All, config.globalBytes, d.global);
  }

  // ----- The store -----

  predicate GenuineStart(e: Event, threadId: ThreadId, turnId: TurnId) {
    && !e.reconstructed
    && e.name == Some(TurnStarted)
    && e.threadId == Some(threadId)
    && e.turnId == Some(turnId)
  }

  predicate Idle(e: Event, idle: set<ThreadId>) {
    e.plane.Delta? && e.threadId.Some? && e.threadId.value in idle
  }

  function DropIdle(es: seq<Event>, idle: set<ThreadId>): seq<Event> {
    if es == [] then []
    else if Idle(es[0], idle) then DropIdle(es[1..], idle)
    else [es[0]] + DropIdle(es[1..], idle)
  }

  function Busy(idle: set<ThreadId>): Event -> bool {
    (e: Event) => !Idle(e, idle)
  }

  lemma {:induction false} DropIdleFilters(es: seq<Event>, idle: set<ThreadId>)
    ensures IsFilter(es, Busy(idle), DropIdle(es, idle))
  {
    if es == [] {
      FilterNothing(Busy(idle));
    } else {
      DropIdleFilters(es[1..], idle);
      FilterBehind(es[0], es[1..], Busy(idle), DropIdle(es[1..], idle));
      assert [es[0]] + es[1..] == es;
    }
  }

  class EventStore {
    const config: Config
    var events: seq<Event>
    var bytes: nat
    var threadBytes: map<ThreadId, nat>
    var gaps: map<Option<ThreadId>, RetentionGap>
    ghost var ledger: seq<Entry>

    /** The three indexes say exactly what the deque and the ledger say. */
    ghost predicate Accounted()
      reads this
    {
      && events == Kept(ledger)
      && bytes == Load(events, All)
      && (forall t :: BytesAt(threadBytes, t) == Load(events, OfThread(t)))
      && (forall key :: GapAt(gaps, key) == GapOf(ledger, key))
      && (forall key :: key in gaps ==> gaps[key].before.Some?)
    }

    ghost predicate CapsHold()
      reads this
    {
      && Load(events, All) <= config.globalBytes
      && (forall t :: Load(events, OfThread(t)) <= config.perThreadBytes)
    }

    ghost predicate Valid()
      reads this
    {
      Accounted() && CapsHold()
    }

    /** Everything ever recorded, in recorded order. */
    ghost function History(): seq<Event>
      reads this
    {
      Events(ledger)
    }

    constructor (config: Config)
      ensures Valid() && this.config == config && events == [] && History() == [] && gaps == map[]
    {
      this.config := config;
      events, bytes, threadBytes, gaps := [], 0, map[], map[];
      ledger := [];
    }

    /** Removes one event from the deque and charges it to its gap; out of range it does nothing. */
    method RemoveAt(position: nat)
      requires Accounted()
      modifies this
      ensures Accounted() && History() == old(History())
      ensures position < |old(events)| ==>
                events == Without(old(events), position) && ledger == Mark(old(ledger), position)
      ensures position >= |old(events)| ==> events == old(events) && ledger == old(ledger) && gaps == old(gaps)
    {
      if position >= |events| {
        return;
      }
      var event := events[position];
      MarkLemma(ledger, position);
      forall scope {
        LoadWithout(events, position, scope);
      }
      assert Load(events, All) == Load(Without(events, position), All) + event.size;
      events := Without(events, position);
      bytes := SaturatingSub(bytes, event.size);
      if event.threadId.Some? {
        var t := event.threadId.value;
        threadBytes := threadBytes[t := SaturatingSub(BytesAt(threadBytes, t), event.size)];
      }
      gaps := gaps[event.threadId := AddToGap(GapAt(gaps, event.threadId), event)];
      ledger := Mark(ledger, position);
    }

    /** Only the thread of the newest event can be over its cap when pruning starts. */
    ghost predicate OnlyNewestOver()
      reads this
    {
      events != []
      && forall t :: Load(events, OfThread(t)) > config.perThreadBytes ==> events[|events| - 1].threadId == Some(t)
    }

    /** The age loop of `prune_locked`. */
    method PruneByAge(cutoff: nat)
      requires Accounted() && OnlyNewestOver()
      requires events[|events| - 1].monotonicMs >= cutoff
      modifies this
      ensures Accounted() && OnlyNewestOver() && History() == old(History())
      ensures events == TimePrune(old(events), cutoff)
      ensures events[|events| - 1] == old(events[|events| - 1])
    {
      while events != [] && events[0].monotonicMs < cutoff
        invariant Accounted() && OnlyNewestOver() && History() == old(History())
        invariant events[|events| - 1] == old(events[|events| - 1])
        invariant TimePrune(events, cutoff) == TimePrune(old(events), cutoff)
        decreases |events|
      {
        LoadsShrink(events, 0);
        assert Without(events, 0) == events[1..];
        RemoveAt(0);
      }
    }

    /** The scope one iteration of the cap loop works on, if any cap is exceeded. */
    method OverCap() returns (scope: Option<Scope>)
      requires Accounted()
      ensures scope.None? ==> CapsHold()
      ensures scope.Some? ==> Load(events, scope.value) > Cap(config, scope.value)
      ensures scope == Some(All) ==> forall t :: Load(events, OfThread(t)) <= config.perThreadBytes
    {
      var overGlobal := bytes > config.globalBytes;
      var overThreads := set t | t in threadBytes && threadBytes[t] > config.perThreadBytes;
      forall t
        ensures t in overThreads <==> Load(events, OfThread(t)) > config.perThreadBytes
      {
        assert BytesAt(threadBytes, t) == Load(events, OfThread(t));
      }
      if overThreads != {} {
        var t :| t in overThreads;
        scope := Some(OfThread(t));
      } else if overGlobal {
        scope := Some(All);
      } else {
        scope := None;
      }
    }

    /** One iteration of the cap loop. */
    method EvictOnce(scope: Scope)
      requires Accounted() && events != []
      modifies this
      ensures Accounted() && History() == old(History())
      ensures events == Without(old(events), VictimIndex(old(events), scope))
    {
      var position := FirstVictim(events, scope);
      if position == |events| {
        position := 0;
      }
      RemoveAt(position);
    }

    /** The cap loop of `prune_locked`. */
    method PruneByCaps(ghost own: Option<ThreadId>)
      requires Accounted()
      requires forall t :: Load(events, OfThread(t)) > config.perThreadBytes ==> own == Some(t)
      modifies this
      ensures Valid() && History() == old(History())
      ensures events == CapPrune(config, old(events), own)
    {
      ghost var aged := events;
      ghost var done := CapProgressStart(config, aged, own);
      var scope := OverCap();
      while scope.Some?
        invariant Accounted() && History() == old(History())
        invariant CapProgress(config, aged, own, done, events)
        invariant scope.None? ==> CapsHold()
        invariant scope.Some? ==> Load(events, scope.value) > Cap(config, scope.value)
        invariant scope == Some(All) ==> forall t :: Load(events, OfThread(t)) <= config.perThreadBytes
        decreases |events|
      {
        done := CapProgressStep(config, aged, own, done, events, scope.value);
        EvictOnce(scope.value);
        scope := OverCap();
      }
      CapProgressDone(config, aged, own, done, events);
    }

    method PruneLocked()
      requires Accounted() && OnlyNewestOver()
      modifies this
      ensures Valid() && History() == old(History())
      ensures events == Retain(config, old(events))
    {
      var newest := events[|events| - 1];
      PruneByAge(SaturatingSub(newest.monotonicMs, config.retentionMs));
      PruneByCaps(newest.threadId);
    }

    method RecordLocked(event: Event)
      requires Valid()
      modifies this
      ensures Valid() && History() == old(History()) + [event]
      ensures events == Retain(config, old(events) + [event])
      ensures InOrder(old(events) + [event], events)
      ensures Chronological(old(events) + [event]) ==>
                Chronological(events)
                && forall e :: e in events ==> event.monotonicMs <= e.monotonicMs + config.retentionMs
      ensures (forall e :: e in old(events) ==> event.monotonicMs <= e.monotonicMs + config.retentionMs)
              && Load(old(events) + [event], All) <= config.globalBytes
              && (forall t :: Load(old(events) + [event], OfThread(t)) <= config.perThreadBytes) ==>
                events == old(events) + [event]
    {
      LoadAppend(events, event);
      AppendLemma(ledger, event);
      bytes := bytes + event.size;
      if event.threadId.Some? {
        var t := event.threadId.value;
        threadBytes := threadBytes[t := BytesAt(threadBytes, t) + event.size];
      }
      events := events + [event];
      ledger := ledger + [Entry(event, true)];
      ghost var all := events;
      PruneLocked();
      RetainInOrder(config, all);
      if Chronological(all) {
        RetainFresh(config, all);
      }
      if (forall e :: e in all ==> event.monotonicMs <= e.monotonicMs + config.retentionMs)
         && Load(all, All) <= config.globalBytes
         && (forall t :: Load(all, OfThread(t)) <= config.perThreadBytes)
      {
        RetainNeedless(config, all);
      }
    }

    method Record(event: Event)
      requires Valid()
      modifies this
      ensures Valid() && History() == old(History()) + [event]
      ensures events == Retain(config, old(events) + [event])
      ensures InOrder(old(events) + [event], events)
      ensures Chronological(old(events) + [event]) ==>
                Chronological(events)
                && forall e :: e in events ==> event.monotonicMs <= e.monotonicMs + config.retentionMs
      ensures (forall e :: e in old(events) ==> event.monotonicMs <= e.monotonicMs + config.retentionMs)
              && Load(old(events) + [event], All) <= config.globalBytes
              && (forall t :: Load(old(events) + [event], OfThread(t)) <= config.perThreadBytes) ==>
                events == old(events) + [event]
    {
      RecordLocked(event);
    }

    /** The turn's own `turn/started` is retained. */
    method StartRetained(threadId: ThreadId, turnId: TurnId) returns (found: bool)
      ensures found <==> exists e :: e in events && !e.reconstructed && e.name == Some(TurnStarted)
                                     && e.threadId == Some(threadId) && e.turnId == Some(turnId)
    {
      var i := 0;
      while i < |events|
        invariant i <= |events|
        invariant forall j :: 0 <= j < i ==> !GenuineStart(events[j], threadId, turnId)
      {
        if GenuineStart(events[i], threadId, turnId) {
          assert events[i] in events;
          return true;
        }
        i := i + 1;
      }
      return false;
    }

    /** Records a subscribe-boundary anchor unless the turn's own `turn/started` is retained. */
    method RecordReconstructedActiveTurn(
      sequence: Sequence, elapsedMs: nat, unixMs: nat, size: nat, threadId: ThreadId, turnId: TurnId)
      returns (recorded: bool)
      requires Valid()
      modifies this
      ensures Valid()
      ensures recorded <==>
                !exists e :: e in old(events) && !e.reconstructed && e.name == Some(TurnStarted)
                             && e.threadId == Some(threadId) && e.turnId == Some(turnId)
      ensures !recorded ==> events == old(events) && ledger == old(ledger) && gaps == old(gaps)
      ensures recorded ==>
                var anchor := ReconstructedActiveTurn(sequence, elapsedMs, unixMs, size, threadId, turnId);
                && History() == old(History()) + [anchor] && events == Retain(config, old(events) + [anchor])
                && anchor.reconstructed && anchor.plane.Lifecycle? && anchor.name == Some(TurnStarted)
                && anchor.threadId == Some(threadId) && anchor.turnId == Some(turnId)
                && anchor.sequence == sequence && anchor.monotonicMs == elapsedMs
    {
      var found := StartRetained(threadId, turnId);
      if found {
        return false;
      }
      RecordLocked(ReconstructedActiveTurn(sequence, elapsedMs, unixMs, size, threadId, turnId));
      return true;
    }

    /**
     The retained events in range, in recorded order.  For one thread the answer is either every
     event ever recorded in range, or its gap says that something newer than `after` was lost.
     Across threads that holds exactly when no key at all has lost anything newer than `after`.
     */
    method QuerySequence(thread: Option<ThreadId>, after: Sequence, through: Option<Sequence>)
      returns (r: QueryResult)
      requires Valid()
      ensures IsFilter(events, (e: Event) => e.sequence > after && (through.None? || e.sequence <= through.value)
                                             && (thread.None? || e.threadId == thread), r.events)
      ensures InOrder(History(), r.events)
      ensures r.events == Select(events, BySequence(thread, after, through))
      ensures r.gap == if thread in gaps then Some(gaps[thread]) else None
      ensures thread.Some? && !Flags(r.gap, after) ==>
                r.events == Select(History(), BySequence(thread, after, through))
      ensures thread.None? && NoKeyFlags(after) ==> r.events == Select(History(), BySequence(None, after, through))
      ensures thread.None? && through.None? ==>
                (r.events == Select(History(), BySequence(None, after, None)) <==> NoKeyFlags(after))
    {
      ghost var q := BySequence(thread, after, through);
      r := QueryResult(Select(events, BySequence(thread, after, through)),
                       if thread in gaps then Some(gaps[thread]) else None);
      SelectFilters(events, q);
      FilterSame(events, (e: Event) => Matches(e, q),
                 (e: Event) => e.sequence > after && (through.None? || e.sequence <= through.value)
                               && (thread.None? || e.threadId == thread), r.events);
      AnswerInOrder(ledger, q);
      assert GapAt(gaps, thread) == GapOf(ledger, thread);
      if thread.None? {
        KeysFlag(after);
        CrossThreadRangeIff(ledger, after);
        if NoKeyFlags(after) {
          NothingLostAfter(ledger, after, through);
        }
      }
      if thread.Some? && !Flags(r.gap, after) {
        ThreadQueryComplete(ledger, thread.value, after, through);
      }
    }

    /**
     The retained events in a wall-clock window.  For one thread the answer misses nothing that
     was ever recorded in the window unless it carries a gap; across threads, unless any key has one.
     */
    method QueryTime(thread: Option<ThreadId>, startMs: nat, endMs: nat) returns (r: QueryResult)
      requires Valid()
      ensures var tolerance := config.toleranceMs;
              IsFilter(events, (e: Event) =>
                         var at := if e.emittedAtMs.Some? then e.emittedAtMs.value else e.unixReceiptMs;
                         at + tolerance >= startMs && at <= endMs + tolerance
                         && (thread.None? || e.threadId == thread), r.events)
      ensures InOrder(History(), r.events)
      ensures r.events == Select(events, ByTime(thread, startMs, endMs, config.toleranceMs))
      ensures r.gap == if thread in gaps then Some(gaps[thread]) else None
      ensures thread.Some? && r.gap.None? ==>
                r.events == Select(History(), ByTime(thread, startMs, endMs, config.toleranceMs))
      ensures thread.None? && gaps == map[] ==>
                r.events == Select(History(), ByTime(None, startMs, endMs, config.toleranceMs))
    {
      var q := ByTime(thread, startMs, endMs, config.toleranceMs);
      r := QueryResult(Select(events, q), if thread in gaps then Some(gaps[thread]) else None);
      SelectFilters(events, q);
      ghost var tolerance := config.toleranceMs;
      FilterSame(events, (e: Event) => Matches(e, q),
                 (e: Event) =>
                   var at := if e.emittedAtMs.Some? then e.emittedAtMs.value else e.unixReceiptMs;
                   at + tolerance >= startMs && at <= endMs + tolerance
                   && (thread.None? || e.threadId == thread), r.events);
      AnswerInOrder(ledger, q);
      assert GapAt(gaps, thread) == GapOf(ledger, thread);
      if thread.Some? && r.gap.None? {
        GapIsLargestEvicted(ledger, thread);
        SelectMissesNothing(ledger, q);
      }
      if gaps == map[] {
        assert forall key :: GapAt(gaps, key) == GapOf(ledger, key);
        NothingEvicted(ledger, q);
      }
    }

    /** No retention gap at all claims a loss after `after`. */
    ghost predicate NoKeyFlags(after: Sequence)
      reads this
    {
      forall key :: key in gaps ==> !Flags(Some(gaps[key]), after)
    }

    lemma KeysFlag(after: Sequence)
      requires Accounted()
      ensures NoKeyFlags(after) <==> forall key :: !Flags(Some(GapOf(ledger, key)), after)
    {
      if key :| key in gaps && Flags(Some(gaps[key]), after) {
        assert GapAt(gaps, key) == GapOf(ledger, key);
      }
      if key :| Flags(Some(GapOf(ledger, key)), after) {
        assert GapAt(gaps, key) == GapOf(ledger, key);
      }
    }

    /** Removes the deltas of the idle threads and nothing else. */
    method EvictIdleContent(idle: set<ThreadId>)
      requires Valid()
      modifies this
      ensures Valid() && History() == old(History())
      ensures IsFilter(old(events), (e: Event) =>
                         !(e.plane.Delta? && e.threadId.Some? && e.threadId.value in idle), events)
      ensures events == DropIdle(old(events), idle)
    {
      var position: nat := |events|;
      while position > 0
        invariant Valid() && History() == old(History())
        invariant position <= |old(events)| && position <= |events|
        invariant events == old(events)[..position] + DropIdle(old(events)[position..], idle)
      {
        position := position - 1;
        ghost var rest := old(events)[position..];
        assert rest[1..] == old(events)[position + 1..];
        assert events[position] == old(events)[..position + 1][position] == rest[0];
        if Idle(events[position], idle) {
          LoadsShrink(events, position);
          assert Without(events, position) == old(events)[..position] + DropIdle(rest[1..], idle);
          RemoveAt(position);
        } else {
          assert events == old(events)[..position] + ([rest[0]] + DropIdle(rest[1..], idle));
        }
      }
      assert old(events)[0..] == old(events) && old(events)[..position] == [];
      assert events == DropIdle(old(events), idle);
      DropIdleFilters(old(events), idle);
      FilterSame(old(events), Busy(idle), (e: Event) =>
                   !(e.plane.Delta? && e.threadId.Some? && e.threadId.value in idle), events);
    }
  }

  // ----- What the cap phases promise -----

  function Victims(es: seq<Event>, scope: Scope): (r: seq<Event>)
    ensures |r| == CountVictims(es, scope)
    ensures forall e :: e in r ==> Victim(e, scope)
  {
    if es == [] then []
    else if Victim(es[0], scope) then [es[0]] + Victims(es[1..], scope)
    else Victims(es[1..], scope)
  }

  lemma {:induction false} DropVictimsParts(es: seq<Event>, scope: Scope, k: nat)
    requires k <= CountVictims(es, scope)
    ensures Victims(DropVictims(es, scope, k), scope) == Victims(es, scope)[k..]
    ensures NonVictims(DropVictims(es, scope, k), scope) == NonVictims(es, scope)
  {
    if es != [] && k > 0 {
      if Victim(es[0], scope) {
        DropVictimsParts(es[1..], scope, k - 1);
      } else {
        DropVictimsParts(es[1..], scope, k);
      }
    }
  }

  lemma {:induction false} AllNonVictims(es: seq<Event>, scope: Scope)
    requires forall e :: e in es ==> !Victim(e, scope)
    ensures NonVictims(es, scope) == es && Victims(es, scope) == []
  {
    if es != [] {
      AllNonVictims(es[1..], scope);
    }
  }

  lemma SurvivorsPastVictims(es: seq<Event>, scope: Scope, n: nat)
    requires CountVictims(es, scope) < n <= |es|
    ensures var left := NonVictims(es, scope)[n - CountVictims(es, scope)..];
            Victims(Survivors(es, scope, n), scope) == [] && NonVictims(Survivors(es, scope, n), scope) == left
  {
    AllNonVictims(NonVictims(es, scope)[n - CountVictims(es, scope)..], scope);
  }

  lemma SurvivorsParts(es: seq<Event>, scope: Scope, n: nat)
    requires n <= |es|
    ensures var v := CountVictims(es, scope);
            var k, m := if n <= v then n else v, if n <= v then 0 else n - v;
            Victims(Survivors(es, scope, n), scope) == Victims(es, scope)[k..]
            && NonVictims(Survivors(es, scope, n), scope) == NonVictims(es, scope)[m..]
  {
    if n <= CountVictims(es, scope) {
      DropVictimsParts(es, scope, n);
    } else {
      SurvivorsPastVictims(es, scope, n);
    }
  }

  /**
   A cap phase takes the oldest `k` victims and the oldest `m` others; it touches the others only
   when every victim is gone; and one eviction fewer would have left the scope over its cap.
   */
  lemma EvictClosedForm(es: seq<Event>, scope: Scope, cap: nat) returns (k: nat, m: nat)
    ensures k <= |Victims(es, scope)| && m <= |NonVictims(es, scope)|
    ensures Victims(Evict(es, scope, cap), scope) == Victims(es, scope)[k..]
    ensures NonVictims(Evict(es, scope, cap), scope) == NonVictims(es, scope)[m..]
    ensures m > 0 ==> k == |Victims(es, scope)|
    ensures Load(Evict(es, scope, cap), scope) <= cap
    ensures k + m > 0 ==> Load(Survivors(es, scope, k + m - 1), scope) > cap
    ensures k + m == EvictCount(es, scope, cap)
  {
    var n := EvictCount(es, scope, cap);
    var v := CountVictims(es, scope);
    k, m := if n <= v then n else v, if n <= v then 0 else n - v;
    SurvivorsParts(es, scope, n);
  }

  lemma {:induction false} SurvivorsLighter(es: seq<Event>, scope: Scope, j: nat, k: nat)
    requires j <= k <= |es|
    ensures Load(Survivors(es, scope, k), scope) <= Load(Survivors(es, scope, j), scope)
    decreases k - j
  {
    if j < k {
      SurvivorsLighter(es, scope, j + 1, k);
      SurvivorsLength(es, scope, j);
      SurvivorsStep(es, scope, j);
      LoadWithout(Survivors(es, scope, j), VictimIndex(Survivors(es, scope, j), scope), scope);
    }
  }

  /** The victims alone suffice exactly when the scope's lifecycle bytes fit under its cap. */
  lemma VictimsSufficeIff(es: seq<Event>, scope: Scope, cap: nat)
    ensures EvictCount(es, scope, cap) <= CountVictims(es, scope) <==> Load(NonVictims(es, scope), scope) <= cap
  {
    var v := CountVictims(es, scope);
    DropAllVictims(es, scope);
    assert Survivors(es, scope, v) == NonVictims(es, scope);
    if EvictCount(es, scope, cap) <= v {
      SurvivorsLighter(es, scope, EvictCount(es, scope, cap), v);
    }
  }

  function Foreign(es: seq<Event>, t: ThreadId): (r: seq<Event>)
    ensures |r| <= |es|
    ensures |r| == 0 <==> forall e :: e in es ==> e.threadId == Some(t)
  {
    if es == [] then []
    else if es[0].threadId == Some(t) then Foreign(es[1..], t)
    else [es[0]] + Foreign(es[1..], t)
  }

  lemma {:induction false} ForeignConcat(a: seq<Event>, b: seq<Event>, t: ThreadId)
    ensures Foreign(a + b, t) == Foreign(a, t) + Foreign(b, t)
  {
    if a == [] {
      assert a + b == b;
    } else {
      assert (a + b)[1..] == a[1..] + b;
      ForeignConcat(a[1..], b, t);
    }
  }

  lemma {:induction false} ForeignOfParts(es: seq<Event>, t: ThreadId, k: nat)
    ensures Foreign(DropVictims(es, OfThread(t), k), t) == Foreign(es, t)
    ensures Foreign(NonVictims(es, OfThread(t)), t) == Foreign(es, t)
  {
    if es != [] {
      if Victim(es[0], OfThread(t)) {
        ForeignOfParts(es[1..], t, if k > 0 then k - 1 else 0);
      } else {
        ForeignOfParts(es[1..], t, k);
        var d := DropVictims(es[1..], OfThread(t), k);
        assert ([es[0]] + d)[1..] == d;
      }
    }
  }

  /** How many events that are no victims a cap phase takes, once every victim is gone. */
  function Cut(es: seq<Event>, scope: Scope, cap: nat): (c: nat)
    ensures c <= |NonVictims(es, scope)|
  {
    var n, v := EvictCount(es, scope, cap), CountVictims(es, scope);
    if n <= v then 0 else n - v
  }

  lemma PastVictims(es: seq<Event>, scope: Scope, m: nat)
    requires m <= |NonVictims(es, scope)|
    ensures Survivors(es, scope, CountVictims(es, scope) + m) == NonVictims(es, scope)[m..]
  {
    var n := CountVictims(es, scope);
    var others := NonVictims(es, scope);
    if m == 0 {
      assert Survivors(es, scope, n) == others[0..] by {
        DropAllVictims(es, scope);
      }
    } else {
      assert n + m > n && n + m - n == m;
    }
  }

  lemma CutFits(es: seq<Event>, scope: Scope, cap: nat)
    ensures Load(NonVictims(es, scope)[Cut(es, scope, cap)..], scope) <= cap
  {
    VictimsSufficeIff(es, scope, cap);
    assert NonVictims(es, scope)[0..] == NonVictims(es, scope);
    PastVictims(es, scope, Cut(es, scope, cap));
  }

  /** Taking at most the oldest `m` non-victims suffices exactly when the bytes behind them fit. */
  lemma CutIff(es: seq<Event>, scope: Scope, cap: nat, m: nat)
    requires m <= |NonVictims(es, scope)|
    ensures Cut(es, scope, cap) <= m <==> Load(NonVictims(es, scope)[m..], scope) <= cap
  {
    var others, c := NonVictims(es, scope), Cut(es, scope, cap);
    if c <= m {
      CutFits(es, scope, cap);
      assert others[c..] == others[c..m] + others[m..];
      LoadConcat(others[c..m], others[m..], scope);
    } else {
      PastVictims(es, scope, m);
    }
  }

  /** The bytes of the lifecycle records of thread `t`. */
  function LifecycleBytes(es: seq<Event>, t: ThreadId): nat {
    if es == [] then 0
    else (if es[0].plane.Lifecycle? && es[0].threadId == Some(t) then es[0].size else 0) + LifecycleBytes(es[1..], t)
  }

  lemma {:induction false} LifecycleBytesLoad(es: seq<Event>, t: ThreadId)
    ensures LifecycleBytes(es, t) == Load(NonVictims(es, OfThread(t)), OfThread(t))
  {
    if es != [] {
      LifecycleBytesLoad(es[1..], t);
    }
  }

  lemma {:induction false} NonVictimsConcat(a: seq<Event>, b: seq<Event>, scope: Scope)
    ensures NonVictims(a + b, scope) == NonVictims(a, scope) + NonVictims(b, scope)
  {
    if a == [] {
      assert a + b == b;
    } else {
      assert (a + b)[1..] == a[1..] + b;
      NonVictimsConcat(a[1..], b, scope);
    }
  }

  /** Where the event at position `p` is among the non-victims. */
  function Rank(es: seq<Event>, scope: Scope, p: nat): nat
    requires p <= |es|
  {
    |NonVictims(es[..p], scope)|
  }

  /** A cap phase for `t` spares another thread's event exactly when `t`'s lifecycle bytes from there on fit. */
  lemma SparedIff(es: seq<Event>, t: ThreadId, cap: nat, p: nat)
    requires p < |es| && !Victim(es[p], OfThread(t))
    ensures var others := NonVictims(es, OfThread(t));
            Rank(es, OfThread(t), p) < |others| && others[Rank(es, OfThread(t), p)] == es[p]
    ensures Cut(es, OfThread(t), cap) <= Rank(es, OfThread(t), p) <==> LifecycleBytes(es[p..], t) <= cap
  {
    var scope, r := OfThread(t), Rank(es, OfThread(t), p);
    assert es == es[..p] + es[p..];
    NonVictimsConcat(es[..p], es[p..], scope);
    assert NonVictims(es, scope)[r..] == NonVictims(es[p..], scope);
    LifecycleBytesLoad(es[p..], t);
    CutIff(es, scope, cap, r);
  }

  /** Every non-victim has its position. */
  lemma {:induction false} PositionOf(es: seq<Event>, scope: Scope, i: nat) returns (p: nat)
    requires i < |NonVictims(es, scope)|
    ensures p < |es| && !Victim(es[p], scope) && Rank(es, scope, p) == i && es[p] == NonVictims(es, scope)[i]
  {
    if !Victim(es[0], scope) && i == 0 {
      return 0;
    }
    p := PositionOf(es[1..], scope, if Victim(es[0], scope) then i else i - 1);
    assert es[..p + 1][1..] == es[1..][..p];
    p := p + 1;
  }

  /** Dropping the first `m` events drops nothing foreign exactly when they all belong to `t`. */
  lemma ForeignPrefixIff(es: seq<Event>, t: ThreadId, m: nat)
    requires m <= |es|
    ensures Foreign(es[m..], t) == Foreign(es, t) <==> forall i :: 0 <= i < m ==> es[i].threadId == Some(t)
  {
    var lost := es[..m];
    assert es == lost + es[m..];
    ForeignConcat(lost, es[m..], t);
    if forall i :: 0 <= i < m ==> es[i].threadId == Some(t) {
      assert Foreign(lost, t) == [];
    } else {
      var i :| 0 <= i < m && es[i].threadId != Some(t);
      assert lost[i] in lost;
      assert |Foreign(es, t)| > |Foreign(es[m..], t)|;
    }
  }

  lemma EvictForeign(es: seq<Event>, t: ThreadId, n: nat)
    requires n <= |es|
    ensures var v := CountVictims(es, OfThread(t));
            Foreign(Survivors(es, OfThread(t), n), t) == Foreign(es, t) <==>
            (n <= v || forall i :: 0 <= i < n - v ==> NonVictims(es, OfThread(t))[i].threadId == Some(t))
  {
    ForeignOfParts(es, t, n);
    var v := CountVictims(es, OfThread(t));
    if n > v {
      ForeignPrefixIff(NonVictims(es, OfThread(t)), t, n - v);
    }
  }

  /**
   Bringing thread `t` under its own cap leaves every other thread's events alone exactly when no
   event of another thread is followed by more lifecycle bytes of `t` than the cap.
   */
  lemma ThreadCapIsolationIff(es: seq<Event>, t: ThreadId, cap: nat)
    ensures Foreign(Evict(es, OfThread(t), cap), t) == Foreign(es, t) <==>
            forall p :: 0 <= p < |es| && es[p].threadId != Some(t) ==> LifecycleBytes(es[p..], t) <= cap
  {
    var scope, c, others := OfThread(t), Cut(es, OfThread(t), cap), NonVictims(es, OfThread(t));
    EvictForeign(es, t, EvictCount(es, scope, cap));
    forall p | 0 <= p < |es| && es[p].threadId != Some(t)
      ensures LifecycleBytes(es[p..], t) <= cap <==> c <= Rank(es, scope, p)
      ensures Rank(es, scope, p) < |others| && others[Rank(es, scope, p)] == es[p]
    {
      SparedIff(es, t, cap, p);
    }
    forall i | 0 <= i < c && others[i].threadId != Some(t)
      ensures exists p :: 0 <= p < |es| && es[p].threadId != Some(t) && LifecycleBytes(es[p..], t) > cap
    {
      var p := PositionOf(es, scope, i);
    }
  }

  function OnPlane(es: seq<Event>, plane: Plane): (r: seq<Event>)
    ensures r == [] <==> forall e :: e in es ==> e.plane != plane
  {
    if es == [] then []
    else if es[0].plane == plane then [es[0]] + OnPlane(es[1..], plane)
    else OnPlane(es[1..], plane)
  }

  /** Deltas go first: no lifecycle record is evicted while any delta stays. */
  predicate DeltaFirst(es: seq<Event>, kept: seq<Event>) {
    OnPlane(kept, Lifecycle) == OnPlane(es, Lifecycle) || OnPlane(kept, Delta) == []
  }

  lemma {:induction false} OnPlaneConcat(a: seq<Event>, b: seq<Event>, plane: Plane)
    ensures OnPlane(a + b, plane) == OnPlane(a, plane) + OnPlane(b, plane)
  {
    if a == [] {
      assert a + b == b;
    } else {
      assert (a + b)[1..] == a[1..] + b;
      OnPlaneConcat(a[1..], b, plane);
    }
  }

  lemma {:induction false} DropKeepsLifecycle(es: seq<Event>, scope: Scope, k: nat)
    ensures OnPlane(DropVictims(es, scope, k), Lifecycle) == OnPlane(es, Lifecycle)
    ensures OnPlane(NonVictims(es, scope), Lifecycle) == OnPlane(es, Lifecycle)
  {
    if es != [] {
      if Victim(es[0], scope) {
        DropKeepsLifecycle(es[1..], scope, if k > 0 then k - 1 else 0);
      } else {
        DropKeepsLifecycle(es[1..], scope, k);
        var d := DropVictims(es[1..], scope, k);
        assert ([es[0]] + d)[1..] == d;
      }
    }
  }

  lemma {:induction false} LoadedHasLifecycle(es: seq<Event>, scope: Scope)
    requires Load(es, scope) > 0 && forall e :: e in es ==> !Victim(e, scope)
    ensures OnPlane(es, Lifecycle) != []
  {
    assert es[0] in es;
    if Load(es[1..], scope) > 0 {
      LoadedHasLifecycle(es[1..], scope);
      var e :| e in es[1..] && e.plane.Lifecycle?;
      assert e in es;
    }
  }

  /** Past the victims, a cap phase always costs a lifecycle record. */
  lemma CutCostsLifecycle(es: seq<Event>, scope: Scope, cap: nat)
    requires Cut(es, scope, cap) > 0
    ensures OnPlane(Evict(es, scope, cap), Lifecycle) != OnPlane(es, Lifecycle)
    ensures Evict(es, scope, cap) == NonVictims(es, scope)[Cut(es, scope, cap)..]
  {
    var others, c := NonVictims(es, scope), Cut(es, scope, cap);
    CutIff(es, scope, cap, 0);
    CutIff(es, scope, cap, c);
    assert others[0..] == others == others[..c] + others[c..];
    LoadConcat(others[..c], others[c..], scope);
    LoadedHasLifecycle(others[..c], scope);
    OnPlaneConcat(others[..c], others[c..], Lifecycle);
    DropKeepsLifecycle(es, scope, 0);
  }

  lemma GlobalCutTakesDeltas(es: seq<Event>, cap: nat)
    requires Cut(es, All, cap) > 0
    ensures OnPlane(Evict(es, All, cap), Delta) == []
  {
    CutCostsLifecycle(es, All, cap);
    forall e | e in Evict(es, All, cap)
      ensures !e.plane.Delta?
    {
      assert e in NonVictims(es, All) && !Victim(e, All);
    }
  }

  /** The global cap always takes deltas first. */
  lemma GlobalCapDeltaFirst(es: seq<Event>, cap: nat)
    ensures DeltaFirst(es, Evict(es, All, cap))
  {
    if Cut(es, All, cap) > 0 {
      GlobalCutTakesDeltas(es, cap);
    } else {
      DropKeepsLifecycle(es, All, EvictCount(es, All, cap));
    }
  }

  /** Another thread's delta that is followed by no more lifecycle bytes of `t` than the cap. */
  predicate SparedDelta(es: seq<Event>, t: ThreadId, cap: nat, p: nat) {
    p < |es| && es[p].plane.Delta? && es[p].threadId != Some(t) && LifecycleBytes(es[p..], t) <= cap
  }

  lemma SuffixHas(es: seq<Event>, c: nat, r: nat)
    requires c <= r < |es|
    ensures es[r] in es[c..]
  {
    assert es[c..][r - c] == es[r];
  }

  lemma SparedStays(es: seq<Event>, t: ThreadId, cap: nat, p: nat)
    requires SparedDelta(es, t, cap, p)
    ensures es[p] in NonVictims(es, OfThread(t))[Cut(es, OfThread(t), cap)..]
  {
    var others, c, r := NonVictims(es, OfThread(t)), Cut(es, OfThread(t), cap), Rank(es, OfThread(t), p);
    assert c <= r < |others| && others[r] == es[p] by {
      SparedIff(es, t, cap, p);
    }
    SuffixHas(others, c, r);
  }

  lemma StayingPosition(es: seq<Event>, t: ThreadId, cap: nat, e: Event) returns (p: nat)
    requires e in NonVictims(es, OfThread(t))[Cut(es, OfThread(t), cap)..]
    ensures p < |es| && es[p] == e && LifecycleBytes(es[p..], t) <= cap && !Victim(e, OfThread(t))
  {
    var c, others := Cut(es, OfThread(t), cap), NonVictims(es, OfThread(t));
    var i :| c <= i < |others| && others[i] == e;
    p := PositionOf(es, OfThread(t), i);
    SparedIff(es, t, cap, p);
  }

  lemma ForeignDeltaStays(es: seq<Event>, t: ThreadId, cap: nat)
    ensures var kept := NonVictims(es, OfThread(t))[Cut(es, OfThread(t), cap)..];
            OnPlane(kept, Delta) != [] <==> exists p :: SparedDelta(es, t, cap, p)
  {
    var kept := NonVictims(es, OfThread(t))[Cut(es, OfThread(t), cap)..];
    if OnPlane(kept, Delta) != [] {
      var e :| e in kept && e.plane.Delta?;
      var p := StayingPosition(es, t, cap, e);
      assert SparedDelta(es, t, cap, p);
    }
    if p: nat :| SparedDelta(es, t, cap, p) {
      SparedStays(es, t, cap, p);
    }
  }

  /**
   A thread's cap breaks the documented order (deltas before lifecycle records) exactly when the
   thread's lifecycle bytes exceed the cap and another thread's delta is retained that is followed
   by no more of them than fit.
   */
  lemma DeltaFirstFailsIff(es: seq<Event>, t: ThreadId, cap: nat)
    ensures !DeltaFirst(es, Evict(es, OfThread(t), cap)) <==>
            LifecycleBytes(es, t) > cap && exists p :: SparedDelta(es, t, cap, p)
  {
    var scope, c, others := OfThread(t), Cut(es, OfThread(t), cap), NonVictims(es, OfThread(t));
    LifecycleBytesLoad(es, t);
    CutIff(es, scope, cap, 0);
    assert others[0..] == others;
    if c == 0 {
      DropKeepsLifecycle(es, scope, EvictCount(es, scope, cap));
    } else {
      CutCostsLifecycle(es, scope, cap);
      ForeignDeltaStays(es, t, cap);
    }
  }

  lemma {:induction false} DropVictimsMember(es: seq<Event>, scope: Scope, k: nat)
    ensures forall e :: e in DropVictims(es, scope, k) ==> e in es
  {
    if es != [] && k > 0 {
      DropVictimsMember(es[1..], scope, if Victim(es[0], scope) then k - 1 else k);
    }
  }

  /** While a delta is left, the global cap has taken nothing but deltas. */
  lemma DeltasLeft(es: seq<Event>, cap: nat)
    requires OnPlane(Evict(es, All, cap), Delta) != []
    ensures OnPlane(Evict(es, All, cap), Lifecycle) == OnPlane(es, Lifecycle) && OnPlane(es, Delta) != []
  {
    if Cut(es, All, cap) > 0 {
      GlobalCutTakesDeltas(es, cap);
      assert false;
    }
    var n := EvictCount(es, All, cap);
    assert Evict(es, All, cap) == DropVictims(es, All, n);
    DropKeepsLifecycle(es, All, n);
    var e :| e in DropVictims(es, All, n) && e.plane.Delta?;
    DropVictimsMember(es, All, n);
    assert e in es;
  }

  /**
   Both cap phases of a record together break the order exactly when the newest event's own thread
   breaks it and the global cap leaves some delta in place.
   */
  lemma CapPruneDeltaFirstFailsIff(config: Config, es: seq<Event>, own: Option<ThreadId>)
    ensures !DeltaFirst(es, CapPrune(config, es, own)) <==>
            && own.Some? && !DeltaFirst(es, Evict(es, OfThread(own.value), config.perThreadBytes))
            && OnPlane(CapPrune(config, es, own), Delta) != []
  {
    var fitted := match own
                  case None => es
                  case Some(t) => Evict(es, OfThread(t), config.perThreadBytes);
    var kept := Evict(fitted, All, config.globalBytes);
    if OnPlane(kept, Delta) != [] {
      DeltasLeft(fitted, config.globalBytes);
    }
  }

  /** A received notification of `n` bytes about thread `t`. */
  function Sample(plane: Plane, t: ThreadId, sequence: Sequence, n: nat): Event {
    FromFrame(sequence, 0, 0, n,
              Notification(Body(OtherMethod("m"), plane, Some(t), None, Missing, None, NoStatus, None)))
  }

  lemma FirstLostLaterKept(a: Event, b: Event, c: Event)
    requires a.plane.Lifecycle? && b.plane.Delta?
    ensures !DeltaFirst([a, b, c], [b, c])
  {
    assert b in [b, c] && a in [a];
    assert [a, b, c] == [a] + [b, c];
    OnPlaneConcat([a], [b, c], Lifecycle);
  }

  lemma LoadOne(e: Event, scope: Scope)
    ensures Load([e], scope) == if InScope(e, scope) then e.size else 0
  {
    assert [e][1..] == [];
  }

  lemma LoadThree(a: Event, b: Event, c: Event, scope: Scope)
    ensures Load([a], scope) == Load([a, b], scope) - Load([b], scope)
    ensures Load([a, b, c], scope) == Load([a], scope) + Load([b, c], scope)
    ensures Load([b, c], scope) == Load([b], scope) + Load([c], scope)
    ensures forall e :: Load([e], scope) == if InScope(e, scope) then e.size else 0
  {
    assert [a, b] == [a] + [b] && [b, c] == [b] + [c] && [a, b, c] == [a] + [b, c];
    LoadConcat([a], [b], scope);
    LoadConcat([b], [c], scope);
    LoadConcat([a], [b, c], scope);
    forall e
      ensures Load([e], scope) == if InScope(e, scope) then e.size else 0
    {
      LoadOne(e, scope);
    }
  }

  lemma NothingToPrune(config: Config, es: seq<Event>)
    requires es != [] && es[|es| - 1].monotonicMs == 0
    requires es[|es| - 1].threadId.Some? ==> Load(es, OfThread(es[|es| - 1].threadId.value)) <= config.perThreadBytes
    requires Load(es, All) <= config.globalBytes
    ensures Retain(config, es) == es
  {
    var newest := es[|es| - 1];
    if newest.threadId.Some? {
      EvictNothing(es, OfThread(newest.threadId.value), config.perThreadBytes);
    }
    EvictNothing(es, All, config.globalBytes);
  }

  lemma FirstTwoStay(config: Config, a: Event, b: Event)
    requires a.size == b.size == config.perThreadBytes && config.globalBytes == 2 * config.perThreadBytes
    requires a.monotonicMs == b.monotonicMs == 0
    requires a.threadId.Some? && b.threadId.Some? && a.threadId != b.threadId
    ensures RetainAll(config, [], [a, b]) == [a, b]
  {
    LoadThree(a, b, b, OfThread(a.threadId.value));
    LoadThree(a, b, b, OfThread(b.threadId.value));
    LoadThree(a, b, b, All);
    assert [a, b][..1] == [a] && [a][..0] == [] && [] + [a] == [a] && [a] + [b] == [a, b];
    NothingToPrune(config, [a]);
    assert RetainAll(config, [], [a]) == [a];
    NothingToPrune(config, [a, b]);
  }

  lemma SecondEvictsFirst(t: ThreadId, x: ThreadId, n: nat)
    requires t != x && n > 0
    ensures var a, b, c := Sample(Lifecycle, t, 1, n), Sample(Delta, x, 2, n), Sample(Lifecycle, t, 3, n);
            Evict([a, b, c], OfThread(t), n) == [b, c]
  {
    var a, b, c := Sample(Lifecycle, t, 1, n), Sample(Delta, x, 2, n), Sample(Lifecycle, t, 3, n);
    var es, scope := [a, b, c], OfThread(t);
    assert !InScope(b, scope);
    AllNonVictims(es, scope);
    LoadThree(a, b, c, scope);
    NoneDropped(es, scope);
    assert Survivors(es, scope, 1) == NonVictims(es, scope)[1..] == [b, c];
    UniqueCount(es, scope, n, 1);
  }

  /**
   The documented order fails on a run: with room for one event of `n` bytes per thread, recording a
   second lifecycle event of `t` evicts the first one although a delta of `x` stays.
   */
  lemma DeltaFirstFailsAcrossThreads(t: ThreadId, x: ThreadId, n: nat)
    requires t != x && n > 0
    ensures var a, b, c := Sample(Lifecycle, t, 1, n), Sample(Delta, x, 2, n), Sample(Lifecycle, t, 3, n);
            RetainAll(Config(0, n, 2 * n, 0), [], [a, b, c]) == [b, c] && !DeltaFirst([a, b, c], [b, c])
  {
    var a, b, c := Sample(Lifecycle, t, 1, n), Sample(Delta, x, 2, n), Sample(Lifecycle, t, 3, n);
    var config := Config(0, n, 2 * n, 0);
    FirstTwoStay(config, a, b);
    assert [a, b, c][..2] == [a, b] && [a, b] + [c] == [a, b, c];
    assert Retain(config, [a, b, c]) == [b, c] by {
      SecondEvictsFirst(t, x, n);
      LoadThree(a, b, c, All);
      EvictNothing([b, c], All, 2 * n);
    }
    FirstLostLaterKept(a, b, c);
  }

  lemma OneEntryGap(l: seq<Entry>, e: Event)
    requires Events(l) == [e] && e.threadId.Some?
    ensures GapOf(l, None) == EMPTY_GAP
  {
    assert |l| == 1 && l[1..] == [];
    assert Events(l)[0] == l[0].event;
  }

  lemma {:induction false} LastNonVictimStays(es: seq<Event>, scope: Scope, k: nat)
    requires es != [] && !Victim(es[|es| - 1], scope)
    ensures k <= CountVictims(es, scope) ==>
              DropVictims(es, scope, k) != []
              && DropVictims(es, scope, k)[|DropVictims(es, scope, k)| - 1] == es[|es| - 1]
    ensures NonVictims(es, scope) != []
            && NonVictims(es, scope)[|NonVictims(es, scope)| - 1] == es[|es| - 1]
  {
    if |es| > 1 {
      LastNonVictimStays(es[1..], scope, if k > 0 && Victim(es[0], scope) then k - 1 else k);
    }
  }

  lemma LastLoads(es: seq<Event>, scope: Scope)
    requires es != [] && InScope(es[|es| - 1], scope)
    ensures Load(es, scope) >= es[|es| - 1].size
  {
    var n := |es| - 1;
    assert es == es[..n] + [es[n]];
    LoadConcat(es[..n], [es[n]], scope);
  }

  lemma {:induction false} TimePruneKeepsLast(es: seq<Event>, cutoff: nat)
    requires es != [] && es[|es| - 1].monotonicMs >= cutoff
    ensures TimePrune(es, cutoff) != []
    ensures TimePrune(es, cutoff)[|TimePrune(es, cutoff)| - 1] == es[|es| - 1]
  {
    if es[0].monotonicMs < cutoff {
      TimePruneKeepsLast(es[1..], cutoff);
    }
  }

  /**
   One lifecycle event larger than the per-thread cap empties the whole store, other threads and
   the event itself included: it is the newest event, so the fallback to the oldest event reaches
   it last.
   */
  lemma OversizedLifecycleFlushes(config: Config, es: seq<Event>, e: Event)
    requires e.plane.Lifecycle? && e.threadId.Some? && e.size > config.perThreadBytes
    ensures Retain(config, es + [e]) == []
  {
    var all := es + [e];
    var aged := TimePrune(all, SaturatingSub(e.monotonicMs, config.retentionMs));
    TimePruneKeepsLast(all, SaturatingSub(e.monotonicMs, config.retentionMs));
    var scope := OfThread(e.threadId.value);
    var n := EvictCount(aged, scope, config.perThreadBytes);
    SurvivorsLength(aged, scope, n);
    if n < |aged| {
      LastNonVictimStays(aged, scope, n);
      LastLoads(Survivors(aged, scope, n), scope);
      assert false;
    }
    assert Evict(aged, scope, config.perThreadBytes) == [];
  }

  lemma SelectOne(e: Event, q: Query)
    requires Matches(e, q)
    ensures Select([e], q) == [e]
  {
    assert [e][1..] == [];
  }

  /**
   A cross-thread query that hides a loss: a thread's only event is larger than its cap, so the
   store is empty, but neither cross-thread query reports a gap.
   */
  method CrossThreadLossUnreported(config: Config, e: Event)
    returns (store: EventStore, bySequence: QueryResult, byTime: QueryResult)
    requires e.plane.Lifecycle? && e.threadId.Some? && e.size > config.perThreadBytes && e.sequence > 0
    ensures fresh(store) && store.Valid() && store.config == config && store.History() == [e]
    ensures bySequence == byTime == QueryResult([], None)
    ensures Select(store.History(), BySequence(None, 0, None)) == [e]
    ensures Select(store.History(), ByTime(None, Timestamp(e), Timestamp(e), config.toleranceMs)) == [e]
  {
    store := new EventStore(config);
    store.Record(e);
    assert store.events == [] by {
      OversizedLifecycleFlushes(config, [], e);
    }
    assert None !in store.gaps by {
      OneEntryGap(store.ledger, e);
      assert GapAt(store.gaps, None) == GapOf(store.ledger, None);
    }
    bySequence := store.QuerySequence(None, 0, None);
    byTime := store.QueryTime(None, Timestamp(e), Timestamp(e));
    SelectOne(e, BySequence(None, 0, None));
    SelectOne(e, ByTime(None, Timestamp(e), Timestamp(e), config.toleranceMs));
  }
}
