/**
 The vocabulary every component shares: sequenced events, the JSON shapes the reducer
 looks at, and the raw frames the transport numbers.

 JSON values are reduced to the fields the code reads.  The encoded size of an event is an
 arbitrary natural number fixed per event, and receipt sequences are unbounded naturals.
 */
module Protocol {

  datatype Option<+T> = None | Some(value: T)

  type Sequence = nat
  type ThreadId = string
  type TurnId = string

  datatype Plane = Lifecycle | Delta

  /** The method names the core branches on; everything else is `OtherMethod`. */
  datatype Method =
    | ThreadStarted
    | ThreadStatusChanged
    | TurnStarted
    | TurnCompleted
    | OtherMethod(text: string)

  /** A JSON `status` member: an object with a string `type`, a plain string, or neither. */
  datatype Status = Missing | Tagged(tag: string) | Plain(text: string)
  {
    function Text(): Option<string> {
      match this
      case Missing => None
      case Tagged(tag) => Some(tag)
      case Plain(text) => Some(text)
    }
  }

  datatype TurnStatus = Completed | Failed | Interrupted | OtherStatus(text: string) | NoStatus
  {
    predicate Terminal() {
      Completed? || Failed? || Interrupted?
    }
  }

  datatype RawTurn = RawTurn(id: Option<TurnId>, status: TurnStatus)

  datatype RawThread = RawThread(
    id: Option<ThreadId>,
    status: Status,
    turns: seq<RawTurn>,
    ephemeral: bool)

  datatype Event = Event(
    sequence: Sequence,
    monotonicMs: nat,
    unixReceiptMs: nat,
    emittedAtMs: Option<nat>,
    plane: Plane,
    threadId: Option<ThreadId>,
    turnId: Option<TurnId>,
    name: Option<Method>,
    status: Status,
    thread: Option<RawThread>,
    turnStatus: TurnStatus,
    size: nat,
    reconstructed: bool)

  datatype RpcId = Number(n: nat) | Text(s: string)

  /** What a method-bearing frame contributes to its event. */
  datatype Body = Body(
    name: Method,
    plane: Plane,
    threadId: Option<ThreadId>,
    turnId: Option<TurnId>,
    status: Status,
    thread: Option<RawThread>,
    turnStatus: TurnStatus,
    emittedAtMs: Option<nat>)

  datatype Frame =
    | Response(id: RpcId, hasError: bool)
    | Notification(body: Body)
    | ServerRequest(id: RpcId, body: Body)

  /** `SequencedEvent::from_frame`.  A response has no method, so it lands on the lifecycle plane. */
  function FromFrame(sequence: Sequence, monotonicMs: nat, unixMs: nat, size: nat, frame: Frame): Event {
    match frame
    case Response(_, _) =>
      Event(sequence, monotonicMs, unixMs, None, Lifecycle, None, None, None, Missing, None, NoStatus, size, false)
    case Notification(b) =>
      Event(sequence, monotonicMs, unixMs, b.emittedAtMs, b.plane, b.threadId, b.turnId,
            Some(b.name), b.status, b.thread, b.turnStatus, size, false)
    case ServerRequest(_, b) =>
      Event(sequence, monotonicMs, unixMs, b.emittedAtMs, b.plane, b.threadId, b.turnId,
            Some(b.name), b.status, b.thread, b.turnStatus, size, false)
  }

  /** `SequencedEvent::reconstructed_active_turn`. */
  function ReconstructedActiveTurn(
    sequence: Sequence, monotonicMs: nat, unixMs: nat, size: nat, threadId: ThreadId, turnId: TurnId): Event
  {
    Event(sequence, monotonicMs, unixMs, None, Lifecycle, Some(threadId), Some(turnId),
          Some(TurnStarted), Missing, None, NoStatus, size, true)
  }

  /** Frames numbered 1, 2, 3, ... */
  ghost predicate Consecutive(feed: seq<Event>) {
    forall i :: 0 <= i < |feed| ==> feed[i].sequence == i + 1
  }

  function SaturatingSub(a: nat, b: nat): nat {
    if a < b then 0 else a - b
  }

  function Max(a: nat, b: nat): nat {
    if a < b then b else a
  }

  // ----- Sublists -----

  /** `picked` lists the elements of `from` at the given positions, which increase. */
  ghost predicate Picks<T>(from: seq<T>, positions: seq<nat>, picked: seq<T>) {
    && |positions| == |picked|
    && (forall k :: 0 <= k < |positions| ==> positions[k] < |from| && picked[k] == from[positions[k]])
    && (forall k, l :: 0 <= k < l < |positions| ==> positions[k] < positions[l])
  }

  /** `picked` is a sublist of `from`, in the same order. */
  ghost predicate InOrder<T(!new)>(from: seq<T>, picked: seq<T>) {
    exists positions :: Picks(from, positions, picked)
  }

  /** The positions are those of the wanted elements. */
  ghost predicate Marks<T>(from: seq<T>, wanted: T -> bool, positions: seq<nat>) {
    forall i :: 0 <= i < |from| ==> (i in positions <==> wanted(from[i]))
  }

  /** `picked` is `from` without the unwanted elements, in the same order. */
  ghost predicate IsFilter<T(!new)>(from: seq<T>, wanted: T -> bool, picked: seq<T>) {
    exists positions :: Picks(from, positions, picked) && Marks(from, wanted, positions)
  }

  function Shifted(positions: seq<nat>): (r: seq<nat>)
    ensures |r| == |positions| && forall k :: 0 <= k < |r| ==> r[k] == positions[k] + 1
  {
    seq(|positions|, k requires 0 <= k < |positions| => positions[k] + 1)
  }

  lemma InShifted(positions: seq<nat>, i: nat)
    ensures 0 !in Shifted(positions) && (i + 1 in Shifted(positions) <==> i in positions)
  {
    if i in positions {
      var k :| 0 <= k < |positions| && positions[k] == i;
      assert Shifted(positions)[k] == i + 1;
    }
  }

  lemma PicksBehind<T>(x: T, from: seq<T>, positions: seq<nat>, picked: seq<T>)
    requires Picks(from, positions, picked)
    ensures Picks([x] + from, Shifted(positions), picked)
    ensures Picks([x] + from, [0] + Shifted(positions), [x] + picked)
  {
  }

  lemma InOrderBehind<T(!new)>(x: T, from: seq<T>, picked: seq<T>)
    requires InOrder(from, picked)
    ensures InOrder([x] + from, picked) && InOrder([x] + from, [x] + picked)
  {
    var positions :| Picks(from, positions, picked);
    PicksBehind(x, from, positions, picked);
  }

  lemma InOrderTransitive<T(!new)>(a: seq<T>, b: seq<T>, c: seq<T>)
    requires InOrder(a, b) && InOrder(b, c)
    ensures InOrder(a, c)
  {
    var p :| Picks(a, p, b);
    var q :| Picks(b, q, c);
    var r := seq(|q|, k requires 0 <= k < |q| => p[q[k]]);
    assert Picks(a, r, c);
  }

  lemma SuffixInOrder<T(!new)>(from: seq<T>, k: nat)
    requires k <= |from|
    ensures InOrder(from, from[k..])
  {
    assert Picks(from, seq(|from| - k, i requires 0 <= i < |from| - k => k + i), from[k..]);
  }

  lemma MarksBehind<T>(x: T, from: seq<T>, wanted: T -> bool, positions: seq<nat>)
    requires Marks(from, wanted, positions)
    ensures wanted(x) ==> Marks([x] + from, wanted, [0] + Shifted(positions))
    ensures !wanted(x) ==> Marks([x] + from, wanted, Shifted(positions))
  {
    forall i | 0 <= i < |from| + 1
      ensures i in Shifted(positions) <==> i > 0 && wanted(([x] + from)[i])
    {
      if i > 0 {
        InShifted(positions, i - 1);
        assert ([x] + from)[i] == from[i - 1];
      } else {
        InShifted(positions, 0);
      }
    }
  }

  lemma FilterBehind<T(!new)>(x: T, from: seq<T>, wanted: T -> bool, picked: seq<T>)
    requires IsFilter(from, wanted, picked)
    ensures IsFilter([x] + from, wanted, if wanted(x) then [x] + picked else picked)
  {
    var positions :| Picks(from, positions, picked) && Marks(from, wanted, positions);
    PicksBehind(x, from, positions, picked);
    MarksBehind(x, from, wanted, positions);
  }

  lemma FilterNothing<T(!new)>(wanted: T -> bool)
    ensures IsFilter([], wanted, [])
  {
    assert Picks<T>([], [], []);
  }

  lemma FilterInOrder<T(!new)>(from: seq<T>, wanted: T -> bool, picked: seq<T>)
    requires IsFilter(from, wanted, picked)
    ensures InOrder(from, picked)
  {
  }

  lemma FilterSame<T(!new)>(from: seq<T>, wanted: T -> bool, wanted': T -> bool, picked: seq<T>)
    requires IsFilter(from, wanted, picked) && forall x :: wanted(x) == wanted'(x)
    ensures IsFilter(from, wanted', picked)
  {
    var positions :| Picks(from, positions, picked) && Marks(from, wanted, positions);
    assert Marks(from, wanted', positions);
  }

  /** Every element of a sublist is an element of the list. */
  lemma InOrderMember<T(!new)>(from: seq<T>, picked: seq<T>)
    requires InOrder(from, picked)
    ensures forall x :: x in picked ==> x in from
  {
  }
}
