/**
 The components put together: the order the replay log and the stream rely on is the numbering the
 transport produces, across every reconnect.
 */
module Pipeline {
  import opened Protocol
  import R = Reducer
  import T = Transport
  import Streaming

  lemma NumberedIsIncreasing(feed: seq<Event>)
    requires Consecutive(feed)
    ensures R.Increasing(feed)
    ensures forall e :: e in feed ==> 1 <= e.sequence <= |feed|
  {
    forall e | e in feed
      ensures 1 <= e.sequence <= |feed|
    {
      var i :| 0 <= i < |feed| && feed[i] == e;
    }
  }

  lemma {:induction false} LifecyclesMember(es: seq<Event>)
    ensures forall e :: e in R.Lifecycles(es) <==> e in es && e.plane.Lifecycle?
  {
    if es != [] {
      LifecyclesMember(es[1..]);
      assert es == [es[0]] + es[1..];
    }
  }

  /**
   Whatever the connections did, a replay of what the transport fed to the reducer is exactly every
   lifecycle event after the requested sequence, in order.
   */
  lemma ReplayOfTransportFeed(config: T.Config, actions: seq<T.Action>, capacity: nat, sequence: Sequence)
    requires capacity > 0
    ensures var feed := T.Run(config, T.Initial(config), actions).feed;
            var history := R.Lifecycles(feed);
            |feed| <= R.U64_MAX && !R.MustGap(R.LastOf(history, capacity), sequence) ==>
              R.After(R.LastOf(history, capacity), sequence) == R.After(history, sequence)
              && forall e :: e in R.After(history, sequence) <==>
                   e in feed && e.plane.Lifecycle? && e.sequence > sequence
  {
    T.FeedConsecutive(config, actions);
    var feed := T.Run(config, T.Initial(config), actions).feed;
    var history := R.Lifecycles(feed);
    NumberedIsIncreasing(feed);
    R.IncreasingLifecycles(feed);
    R.AfterMember(history, sequence);
    LifecyclesMember(feed);
    if |feed| <= R.U64_MAX && !R.MustGap(R.LastOf(history, capacity), sequence) {
      R.ReplayComplete(history, capacity, sequence);
    }
  }

  /**
   No silent loss from the socket to the consumer: over every run of the transport and every
   interleaving of ingress, reducer, stream and dropped receives on its feed, an event is lost exactly
   when a poll forfeits an abandoned recovery.
   */
  lemma NoSilentLossEndToEnd(
    config: T.Config, connections: seq<T.Action>,
    logCapacity: nat, ringCapacity: nat, actions: seq<Streaming.Action>)
    requires logCapacity > 0 && ringCapacity > 0
    ensures var feed := T.Run(config, T.Initial(config), connections).feed;
            var start := Streaming.Start(feed, logCapacity, ringCapacity);
            |feed| <= R.U64_MAX ==>
              && (Streaming.EverLost(start, actions) <==> Streaming.Forfeits(start, actions))
              && (Streaming.Forfeits(start, actions) ==> Streaming.DropsInRecovery(start, actions))
              && (Streaming.DropsInRecovery(start, actions) ==> Streaming.Abort in actions)
              && var s := Streaming.Run(start, actions);
              !Streaming.Forfeits(start, actions) ==>
                forall i :: s.start <= i < |s.published| && s.published[i].sequence > s.after ==>
                  || i >= s.handled
                  || Streaming.CameThrough(s.items, s.published[i])
                  || Streaming.GapCovers(s.items, s.published[i])
  {
    T.FeedConsecutive(config, connections);
    var feed := T.Run(config, T.Initial(config), connections).feed;
    var start := Streaming.Start(feed, logCapacity, ringCapacity);
    if |feed| <= R.U64_MAX {
      Streaming.SilentLossIff(feed, logCapacity, ringCapacity, actions);
      if !Streaming.DropsInRecovery(start, actions) {
        Streaming.UndroppedForfeitsNothing(start, actions);
      }
      if Streaming.Abort !in actions {
        Streaming.NoAbortNoDrop(start, actions);
      }
      if !Streaming.Forfeits(start, actions) {
        Streaming.NoSilentLoss(feed, logCapacity, ringCapacity, actions);
      }
    }
  }
}
