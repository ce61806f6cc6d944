/**
  What the queue of one subscriber is offered, from its registration on: the message-center fan-out
  seen from below. `before` is the run up to the registration and `after` the run that follows it.
*/
module SubscriberDelivery {
  import opened Sequences
  import FanOut
  import opened MessageProtocol
  import opened MessageSafety
  import opened MessageDelivery

  function Since(before: seq<Action>, after: seq<Action>): Center {
    Run(Initial(), before + [Subscribe] + after)
  }

  /** The queue the registration creates. */
  function QueueOf(before: seq<Action>): nat {
    Run(Initial(), before).hub.next
  }

  /** The fan-out under way at the registration, if any, still goes on. */
  predicate StillInFanOut(before: seq<Action>, after: seq<Action>)
    decreases |after|
  {
    Since(before, after).reader.FanningOut? && (after == [] || StillInFanOut(before, after[..|after| - 1]))
  }

  /** How much had been fanned out at the registration or, if that came within a fan-out, at the end of that one. */
  function Start(before: seq<Action>, after: seq<Action>): nat
    decreases |after|
  {
    if after == [] || StillInFanOut(before, after[..|after| - 1]) then |Since(before, after).fanned|
    else Start(before, after[..|after| - 1])
  }

  /** How much has been fanned out and is not still on its way to the queue. */
  function Reached(s: Center, q: nat): nat {
    if s.reader.FanningOut? && q in s.reader.targets && s.fanned != [] then |s.fanned| - 1 else |s.fanned|
  }

  /** A step after which the current message will not come to a queue that waits for it. */
  predicate Misses(s: Center, a: Action, q: nat) {
    && s.reader.FanningOut? && q in s.reader.targets
    && match a
       case Offer(o) => o.OfferRaised? || (o.LoopClosed? && q == s.reader.targets[0])
       case Die => true
       case _ => false
  }

  function MissCount(before: seq<Action>, after: seq<Action>): nat
    decreases |after|
  {
    if after == [] then 0 else
    var front := after[..|after| - 1];
    MissCount(before, front) +
    if Misses(Since(before, front), after[|after| - 1], QueueOf(before)) then 1 else 0
  }

  // ---------------------------------------------------------------- one step

  /** The current message is on its way to queues of the snapshot, and a queue yet to be created is not in that. */
  ghost predicate SnapshotIsOld(s: Center) {
    s.reader.FanningOut? ==>
      && (forall q :: q in s.reader.targets ==> q in s.reader.snapshot)
      && (forall q :: q in s.reader.snapshot ==> q < s.hub.next)
  }

  /** It is the last one fanned out, and on its way to each queue once. */
  ghost predicate Aimed(s: Center) {
    && SnapshotIsOld(s)
    && (s.reader.FanningOut? ==> NoDuplicates(s.reader.targets))
    && (s.reader.FanningOut? && s.reader.targets != [] ==>
          s.fanned != [] && s.fanned[|s.fanned| - 1] == s.reader.current)
  }

  predicate Live(h: FanOut.State<nat>, q: nat) {
    q in h.channels && h.channels[q].live
  }

  /** All of `all` but `k` messages. */
  predicate AllBut(offered: seq<nat>, all: seq<nat>, k: nat) {
    |offered| + k == |all| && (k == 0 ==> offered == all)
  }

  /** With `n` the start and `k` the misses so far, the queue was offered all from `n` on except `k` messages;
      `early` says that the fan-out of its registration still goes on, which leaves it out. */
  ghost predicate Watched(s: Center, q: nat, n: nat, k: nat, early: bool) {
    && Live(s.hub, q) && n <= Reached(s, q)
    && (early ==> s.reader.FanningOut? && q !in s.reader.snapshot && n == |s.fanned|)
    && (!early && s.reader.FanningOut? ==> q in s.reader.snapshot)
    && AllBut(s.hub.channels[q].offered, s.fanned[n..Reached(s, q)], k)
  }

  ghost predicate WatchedNext(s: Center, a: Action, q: nat, n: nat, k: nat, early: bool) {
    var t := Apply(s, a);
    Watched(t, q, if early then |t.fanned| else n, if Misses(s, a, q) then k + 1 else k, early && t.reader.FanningOut?)
  }

  lemma OneMore(fanned: seq<nat>, n: nat)
    requires n < |fanned|
    ensures fanned[n..|fanned|] == fanned[n..|fanned| - 1] + [fanned[|fanned| - 1]]
  {
  }

  lemma OfferKeepsWatched(s: Center, o: OfferOutcome, q: nat, n: nat, k: nat, early: bool)
    requires Aimed(s) && Watched(s, q, n, k, early) && s.reader.FanningOut? && s.reader.targets != []
    ensures WatchedNext(s, Offer(o), q, n, k, early)
  {
    assert s.reader.targets == [s.reader.targets[0]] + s.reader.targets[1..];
    if q in s.reader.targets {
      OneMore(s.fanned, n);
    }
  }

  lemma NextKeepsWatched(s: Center, q: nat, n: nat, k: nat, early: bool)
    requires Watched(s, q, n, k, early) && s.reader.FanningOut? && s.reader.targets == []
    ensures WatchedNext(s, NextMessage, q, n, k, early)
  {
    var t := Apply(s, NextMessage);
    if s.reader.messages != [] && !early {
      assert t.fanned[n..|s.fanned|] == s.fanned[n..|s.fanned|];
    }
  }

  lemma HubKeepsWatched(s: Center, a: FanOut.Action<nat>, q: nat, n: nat, k: nat, early: bool)
    requires Watched(s, q, n, k, early) && q < s.hub.next && !a.Schedule? && !a.Restart?
    requires Live(FanOut.Apply(s.hub, a), q)
    ensures Watched(s.(hub := FanOut.Apply(s.hub, a)), q, n, k, early)
  {
    HubKeepsOffers(s.hub, a);
  }

  /** The reader's other actions neither enter nor leave a fan-out. */
  lemma OtherKeepsWatched(s: Center, a: Action, q: nat, n: nat, k: nat, early: bool)
    requires Watched(s, q, n, k, early)
    requires a.Append? || a.EnsureStarted? || a.Init? || a.Read? || a.Process? || a.Persist?
    ensures WatchedNext(s, a, q, n, k, early)
  {
    var t := Apply(s, a);
    assert t.fanned == s.fanned && t.hub == s.hub;
    assert t.reader == s.reader || (!t.reader.FanningOut? && !s.reader.FanningOut?);
  }

  /** A live queue is in the list, so a snapshot holds it. */
  lemma SnapshotKeepsWatched(s: Center, q: nat, n: nat, k: nat, early: bool)
    requires FanOut.RegisteredOnce(s.hub) && Watched(s, q, n, k, early)
    ensures WatchedNext(s, Snapshot, q, n, k, early)
  {
  }

  lemma DieKeepsWatched(s: Center, q: nat, n: nat, k: nat, early: bool)
    requires Aimed(s) && Watched(s, q, n, k, early)
    ensures WatchedNext(s, Die, q, n, k, early)
  {
    if s.reader.FanningOut? && q in s.reader.targets {
      OneMore(s.fanned, n);
    }
  }

  lemma KeepsWatched(s: Center, a: Action, q: nat, n: nat, k: nat, early: bool)
    requires FanOut.RegisteredOnce(s.hub) && Aimed(s) && Watched(s, q, n, k, early) && q < s.hub.next
    requires Live(Apply(s, a).hub, q)
    ensures WatchedNext(s, a, q, n, k, early)
  {
    match a
    case Offer(o) => if s.reader.FanningOut? && s.reader.targets != [] { OfferKeepsWatched(s, o, q, n, k, early); }
    case NextMessage =>
      if s.reader.FanningOut? && s.reader.targets == [] { NextKeepsWatched(s, q, n, k, early); }
    case Snapshot => SnapshotKeepsWatched(s, q, n, k, early);
    case Subscribe => HubKeepsWatched(s, FanOut.Register(FanOut.MESSAGE_QUEUE_SIZE), q, n, k, early);
    case Disconnect(x) => HubKeepsWatched(s, FanOut.Unregister(x), q, n, k, early);
    case RunCallback => HubKeepsWatched(s, FanOut.RunCallback, q, n, k, early);
    case Drain(x) => HubKeepsWatched(s, FanOut.Get(x, true), q, n, k, early);
    case Die => DieKeepsWatched(s, q, n, k, early);
    case Crash =>
    case _ => OtherKeepsWatched(s, a, q, n, k, early);
  }

  // ---------------------------------------------------------------- a whole run

  lemma KeepsSnapshotOld(s: Center, a: Action)
    requires FanOut.Inv(s.hub) && SnapshotIsOld(s)
    ensures SnapshotIsOld(Apply(s, a)) && s.hub.next <= Apply(s, a).hub.next
  {
  }

  /** A live queue was live before, or is the one a registration creates. */
  lemma LiveBefore(s: Center, a: Action, q: nat)
    requires Live(Apply(s, a).hub, q)
    ensures Live(s.hub, q) || (a == Subscribe && q == s.hub.next)
  {
  }

  lemma {:induction false} EveryRunAims(actions: seq<Action>)
    ensures var s := Run(Initial(), actions); FanOut.RegisteredOnce(s.hub) && Aimed(s)
    decreases |actions|
  {
    EveryRunKeepsInv(actions);
    if actions != [] {
      var front := actions[..|actions| - 1];
      EveryRunAims(front);
      EveryRunKeepsInv(front);
      KeepsSnapshotOld(Run(Initial(), front), actions[|actions| - 1]);
    }
  }

  lemma SinceNext(before: seq<Action>, after: seq<Action>)
    requires after != []
    ensures Since(before, after) == Apply(Since(before, after[..|after| - 1]), after[|after| - 1])
  {
    var all := before + [Subscribe] + after;
    assert all[..|all| - 1] == before + [Subscribe] + after[..|after| - 1];
  }

  lemma Registered(before: seq<Action>)
    ensures var s, q := Since(before, []), QueueOf(before);
      q < s.hub.next && Watched(s, q, Start(before, []), 0, StillInFanOut(before, []))
  {
    EveryRunAims(before);
    assert (before + [Subscribe] + [])[..|before|] == before;
  }

  lemma {:induction false} QueueExists(before: seq<Action>, after: seq<Action>)
    ensures QueueOf(before) < Since(before, after).hub.next
    decreases |after|
  {
    if after == [] {
      Registered(before);
    } else {
      var front := after[..|after| - 1];
      QueueExists(before, front);
      EveryRunAims(before + [Subscribe] + front);
      EveryRunKeepsInv(before + [Subscribe] + front);
      KeepsSnapshotOld(Since(before, front), after[|after| - 1]);
      SinceNext(before, after);
    }
  }

  lemma {:induction false} EveryRunWatched(before: seq<Action>, after: seq<Action>)
    requires Live(Since(before, after).hub, QueueOf(before))
    ensures Watched(Since(before, after), QueueOf(before), Start(before, after), MissCount(before, after),
      StillInFanOut(before, after))
    decreases |after|
  {
    if after == [] {
      Registered(before);
    } else {
      var front, a, q := after[..|after| - 1], after[|after| - 1], QueueOf(before);
      var s := Since(before, front);
      SinceNext(before, after);
      QueueExists(before, front);
      LiveBefore(s, a, q);
      EveryRunWatched(before, front);
      EveryRunAims(before + [Subscribe] + front);
      KeepsWatched(s, a, q, Start(before, front), MissCount(before, front), StillInFanOut(before, front));
    }
  }

  /** After any run, a live subscriber's queue was offered the messages fanned out from its start on, up to one
      that is still on its way to it, less one for each step that kept one from it: so it was offered exactly
      these, each once and in order, exactly when there was no such step. */
  lemma SubscriberMissesNothingIff(before: seq<Action>, after: seq<Action>)
    requires Live(Since(before, after).hub, QueueOf(before))
    ensures var s, q, n := Since(before, after), QueueOf(before), Start(before, after);
      var offered := s.hub.channels[q].offered;
      && n <= Reached(s, q) && |offered| + MissCount(before, after) == Reached(s, q) - n
      && (offered == s.fanned[n..Reached(s, q)] <==> MissCount(before, after) == 0)
  {
    EveryRunWatched(before, after);
  }

  /** Every live queue of any run was created by one of its registrations. */
  lemma {:induction false} EveryQueueWasRegistered(actions: seq<Action>, q: nat)
    returns (before: seq<Action>, after: seq<Action>)
    requires Live(Run(Initial(), actions).hub, q)
    ensures actions == before + [Subscribe] + after && QueueOf(before) == q
    decreases |actions|
  {
    var n := |actions| - 1;
    var s := Run(Initial(), actions[..n]);
    LiveBefore(s, actions[n], q);
    assert actions == actions[..n] + [actions[n]];
    if Live(s.hub, q) {
      before, after := EveryQueueWasRegistered(actions[..n], q);
      after := after + [actions[n]];
    } else {
      before, after := actions[..n], [];
    }
  }

  // ---------------------------------------------------------------- what a caller can check

  /** Every offer reaches its queue, and the thread does not end in the middle of a message. */
  predicate Reaching(s: Center, a: Action) {
    match a
    case Offer(o) => o.Scheduled?
    case Die => !(s.reader.FanningOut? && s.reader.targets != [])
    case _ => true
  }

  predicate ReachingRun(actions: seq<Action>)
    decreases |actions|
  {
    actions == [] ||
    (ReachingRun(actions[..|actions| - 1]) &&
     Reaching(Run(Initial(), actions[..|actions| - 1]), actions[|actions| - 1]))
  }

  lemma {:induction false} ReachingMissesNothing(before: seq<Action>, after: seq<Action>)
    requires ReachingRun(before + [Subscribe] + after)
    ensures MissCount(before, after) == 0
    decreases |after|
  {
    if after != [] {
      var all := before + [Subscribe] + after;
      assert all[..|all| - 1] == before + [Subscribe] + after[..|after| - 1];
      ReachingMissesNothing(before, after[..|after| - 1]);
    }
  }

  /** If every offer reaches its queue, a live subscriber has been offered every message fanned out from its start
      on, whatever else failed or restarted; outside a fan-out the start is where the registration found it. */
  lemma SubscriberMissesNothing(before: seq<Action>, after: seq<Action>)
    requires ReachingRun(before + [Subscribe] + after)
    requires Live(Since(before, after).hub, QueueOf(before))
    ensures var s, q, n := Since(before, after), QueueOf(before), Start(before, after);
      && n <= Reached(s, q) && s.hub.channels[q].offered == s.fanned[n..Reached(s, q)]
      && (!Run(Initial(), before).reader.FanningOut? ==> n == |Run(Initial(), before).fanned|)
  {
    ReachingMissesNothing(before, after);
    SubscriberMissesNothingIff(before, after);
    if !Run(Initial(), before).reader.FanningOut? {
      StartsAtOnce(before, after);
    }
  }

  lemma {:induction false} StartsAtOnce(before: seq<Action>, after: seq<Action>)
    requires !Run(Initial(), before).reader.FanningOut?
    ensures Start(before, after) == |Run(Initial(), before).fanned| && !StillInFanOut(before, after)
    decreases |after|
  {
    if after == [] {
      assert (before + [Subscribe] + [])[..|before|] == before;
    } else {
      StartsAtOnce(before, after[..|after| - 1]);
    }
  }

  // ---------------------------------------------------------------- from the stream to the client

  /** Every message can be encoded, and every queue has room for 100. */
  ghost predicate AllSent(h: FanOut.State<nat>) {
    forall q :: q in h.channels ==> h.channels[q].sent == h.channels[q].received && h.channels[q].maxSize == 100
  }

  lemma KeepsAllSent(s: Center, a: Action)
    requires AllSent(s.hub)
    ensures AllSent(Apply(s, a).hub)
  {
  }

  /** Whatever a subscriber takes from its queue of 100 is sent to the client. */
  lemma {:induction false} AllReceivedIsSent(actions: seq<Action>)
    ensures AllSent(Run(Initial(), actions).hub)
    decreases |actions|
  {
    if actions != [] {
      AllReceivedIsSent(actions[..|actions| - 1]);
      KeepsAllSent(Run(Initial(), actions[..|actions| - 1]), actions[|actions| - 1]);
    }
  }

  /** In a run that loses nothing on the way to the fan-out, and between two batches, what was sent to a live
      subscriber, followed by what waits in its queue and on the event loop, is every event of the stream up to
      the persisted cursor from its start on, exactly when no step kept a message from it and its queue was
      never too full. */
  lemma EveryEventArrivesIff(before: seq<Action>, after: seq<Action>)
    requires LosslessRun(before + [Subscribe] + after)
    requires var s := Since(before, after);
      Live(s.hub, QueueOf(before)) && !s.reader.FanningOut? && !s.reader.Persisted?
    ensures var s, n := Since(before, after), Start(before, after);
      var c, events := s.hub.channels[QueueOf(before)], EventsUpTo(s.stream, s.cursor);
      && n <= |events|
      && (c.sent + c.items + FanOut.PendingFor(s.hub.pending, QueueOf(before)) == events[n..] <==>
          MissCount(before, after) == 0 && c.dropped == 0)
  {
    var s, q, n := Since(before, after), QueueOf(before), Start(before, after);
    var c, waiting := s.hub.channels[q], FanOut.PendingFor(s.hub.pending, q);
    EveryRunKeepsInv(before + [Subscribe] + after);
    FanOutIsExactIff(before + [Subscribe] + after);
    assert s.fanned + [] == s.fanned;
    SubscriberMissesNothingIff(before, after);
    AllReceivedIsSent(before + [Subscribe] + after);
    FanOut.NothingLostIffNothingDropped(c);
    assert FanOut.ChannelInv(s.hub, q);
    assert |c.received + c.items + waiting| + c.dropped == |c.offered|;
  }
}
