/**
  The broadcast pattern of the two server-sent-event routes. A thread takes a snapshot of the
  registered queues and schedules one drop-oldest put per queue on the event loop; the loop runs
  those callbacks in order; each subscriber drains its own queue and leaves the list when its
  connection ends. Every action is atomic and they interleave in any order.
*/
module FanOut {
  import opened Sequences

  const MESSAGE_QUEUE_SIZE: nat := 100

  /** One subscriber's queue. `offered`, `put`, `received`, `sent` and `dropped` are its history:
      scheduled puts, puts done, items taken out, items written to the client, items pushed out.
      `live` says that the client is still connected. */
  datatype Channel<M> = Channel(maxSize: nat, live: bool, items: seq<M>, offered: seq<M>, put: seq<M>,
                                received: seq<M>, sent: seq<M>, dropped: nat)

  /** `subscribers` is the shared list. `channels` holds every queue created since the process
      started, `past` those of earlier processes. `pending` is the event loop's callback queue. */
  datatype State<M> = State(subscribers: seq<nat>, channels: map<nat, Channel<M>>,
                            past: seq<Channel<M>>, next: nat, pending: seq<(nat, M)>)

  datatype Action<M> =
    | Register(maxSize: nat)
    | Unregister(q: nat)
    | Schedule(q: nat, message: M)
    | RunCallback
    | Get(q: nat, encodable: bool)
    | Restart

  function Initial<M>(): State<M> {
    State([], map[], [], 0, [])
  }

  function NewChannel<M>(maxSize: nat): Channel<M> {
    Channel(maxSize, true, [], [], [], [], [], 0)
  }

  /** Drop the oldest item when the queue is full, then append. */
  function PutDropOldest<M>(c: Channel<M>, m: M): Channel<M> {
    if |c.items| >= c.maxSize && c.items != [] then
      c.(items := c.items[1..] + [m], put := c.put + [m], dropped := c.dropped + 1)
    else
      c.(items := c.items + [m], put := c.put + [m])
  }

  /** The client takes the oldest item; an item that cannot be encoded is not written out. */
  function Take<M>(c: Channel<M>, encodable: bool): Channel<M>
    requires c.items != []
  {
    var m := c.items[0];
    c.(items := c.items[1..], received := c.received + [m], sent := if encodable then c.sent + [m] else c.sent)
  }

  function Without(s: seq<nat>, q: nat): seq<nat> {
    if s == [] then [] else if s[0] == q then s[1..] else [s[0]] + Without(s[1..], q)
  }

  function Apply<M>(s: State<M>, a: Action<M>): State<M> {
    match a
    case Register(maxSize) =>
      if maxSize == 0 then s else
      s.(subscribers := s.subscribers + [s.next],
      channels := s.channels[s.next := NewChannel(maxSize)],
      next := s.next + 1)
    case Unregister(q) =>
      if q !in s.channels then s else
      s.(subscribers := Without(s.subscribers, q), channels := s.channels[q := s.channels[q].(live := false)])
    case Schedule(q, m) =>
      if q !in s.channels then s else
      s.(channels := s.channels[q := s.channels[q].(offered := s.channels[q].offered + [m])],
      pending := s.pending + [(q, m)])
    case RunCallback =>
      if s.pending == [] || s.pending[0].0 !in s.channels then s else
      var (q, m) := s.pending[0];
      s.(channels := s.channels[q := PutDropOldest(s.channels[q], m)], pending := s.pending[1..])
    case Get(q, encodable) =>
      if q !in s.channels || !s.channels[q].live || s.channels[q].items == [] then s else
      s.(channels := s.channels[q := Take(s.channels[q], encodable)])
    case Restart =>
      State([], map[], s.past + Values(s.channels, s.next), s.next, [])
  }

  /** The channels with ids below `n`, in order. */
  function Values<M>(m: map<nat, Channel<M>>, n: nat): seq<Channel<M>> {
    if n == 0 then []
    else Values(m, n - 1) + (if n - 1 in m then [m[n - 1]] else [])
  }

  function Run<M>(s: State<M>, actions: seq<Action<M>>): State<M>
    decreases |actions|
  {
    if actions == [] then s
    else Apply(Run(s, actions[..|actions| - 1]), actions[|actions| - 1])
  }

  function PendingFor<M>(pending: seq<(nat, M)>, q: nat): seq<M> {
    if pending == [] then []
    else (if pending[0].0 == q then [pending[0].1] else []) + PendingFor(pending[1..], q)
  }

  /** The queue is bounded and holds the newest part of what was put, and every put is accounted for. */
  predicate Stored<M(==)>(c: Channel<M>) {
    && |c.items| <= c.maxSize
    && Suffix(c.items, c.put)
    && c.put <= c.offered
    && |c.received| + |c.items| + c.dropped == |c.put|
  }

  /** What was put and is no longer in the queue. */
  function Gone<M>(c: Channel<M>): seq<M>
    requires |c.items| <= |c.put|
  {
    c.put[..|c.put| - |c.items|]
  }

  /** What the client received was put before what still waits, in the same order. */
  predicate Seen<M(==)>(c: Channel<M>)
    requires |c.items| <= |c.put|
  {
    Subsequence(c.received, Gone(c)) && Subsequence(c.sent, c.received)
  }

  /** What the queue of one subscriber guarantees, whatever the interleaving was. */
  predicate ChannelOk<M(==)>(c: Channel<M>) {
    0 < c.maxSize && Stored(c) && Seen(c)
  }

  /** A channel and the callbacks still scheduled for it. */
  ghost predicate ChannelInv<M>(s: State<M>, q: nat)
    requires q in s.channels
  {
    && ChannelOk(s.channels[q])
    && s.channels[q].offered == s.channels[q].put + PendingFor(s.pending, q)
  }

  /** Every live subscriber is in the list exactly once, and nothing else is. */
  ghost predicate RegisteredOnce<M>(s: State<M>) {
    && NoDuplicates(s.subscribers)
    && (forall q :: q in s.subscribers <==> q in s.channels && s.channels[q].live)
  }

  ghost predicate Inv<M>(s: State<M>) {
    && RegisteredOnce(s)
    && (forall q :: q in s.channels ==> q < s.next && ChannelInv(s, q))
    && (forall i :: 0 <= i < |s.pending| ==> s.pending[i].0 in s.channels)
    && (forall c :: c in s.past ==> ChannelOk(c))
  }

  lemma {:induction false} PendingForAppend<M>(pending: seq<(nat, M)>, q: nat, x: nat, m: M)
    ensures PendingFor(pending + [(x, m)], q) == PendingFor(pending, q) + (if x == q then [m] else [])
  {
    if pending == [] {
      assert pending + [(x, m)] == [(x, m)];
    } else {
      PendingForAppend(pending[1..], q, x, m);
      assert pending + [(x, m)] == [pending[0]] + (pending[1..] + [(x, m)]);
    }
  }

  lemma {:induction false} PendingForNone<M>(pending: seq<(nat, M)>, q: nat)
    requires forall i :: 0 <= i < |pending| ==> pending[i].0 != q
    ensures PendingFor(pending, q) == []
  {
    if pending != [] {
      PendingForNone(pending[1..], q);
    }
  }

  /** Leaving the list takes out exactly the queue that leaves. */
  lemma {:induction false} WithoutRemoves(s: seq<nat>, q: nat)
    requires NoDuplicates(s)
    ensures NoDuplicates(Without(s, q))
    ensures forall x :: x in Without(s, q) <==> x in s && x != q
  {
    if s != [] && s[0] != q {
      var rest := s[1..];
      WithoutRemoves(rest, q);
      assert s == [s[0]] + rest;
      forall x
        ensures x in Without(s, q) <==> x in s && x != q
      {
        assert x in s <==> x == s[0] || x in rest;
      }
      forall i, j | 0 <= i < j < |Without(s, q)|
        ensures Without(s, q)[i] != Without(s, q)[j]
      {
        if i == 0 {
          assert Without(s, q)[j] in Without(rest, q);
        }
      }
    } else if s != [] {
      assert s == [s[0]] + s[1..];
    }
  }

  lemma PutKeepsStored<M>(c: Channel<M>, m: M, rest: seq<M>)
    requires 0 < c.maxSize && Stored(c) && c.offered == c.put + [m] + rest
    ensures Stored(PutDropOldest(c, m))
    ensures Gone(PutDropOldest(c, m)) == Gone(c) ||
            exists x :: Gone(PutDropOldest(c, m)) == Gone(c) + [x]
    ensures PutDropOldest(c, m).offered == PutDropOldest(c, m).put + rest
  {
    var d := PutDropOldest(c, m);
    var k := |c.put| - |c.items|;
    if |c.items| >= c.maxSize {
      assert Gone(d) == Gone(c) + [c.put[k]];
    } else {
      assert Gone(d) == Gone(c);
    }
  }

  lemma PutKeepsChannel<M>(c: Channel<M>, m: M, rest: seq<M>)
    requires ChannelOk(c) && c.offered == c.put + [m] + rest
    ensures ChannelOk(PutDropOldest(c, m))
    ensures PutDropOldest(c, m).offered == PutDropOldest(c, m).put + rest
  {
    PutKeepsStored(c, m, rest);
    var d := PutDropOldest(c, m);
    if Gone(d) != Gone(c) {
      var x :| Gone(d) == Gone(c) + [x];
      SubsequenceSkip(c.received, Gone(c), x);
    }
  }

  /** The head is taken, and sent if it can be encoded. */
  lemma TakesHead<M>(c: Channel<M>, encodable: bool)
    requires c.items != []
    ensures var d, m := Take(c, encodable), c.items[0];
      && c.items == [m] + d.items && d.received == c.received + [m]
      && d.sent == c.sent + (if encodable then [m] else [])
  {
    assert c.sent + [] == c.sent;
  }

  lemma TakeKeepsStored<M>(c: Channel<M>, encodable: bool)
    requires Stored(c) && c.items != []
    ensures Stored(Take(c, encodable)) && Gone(Take(c, encodable)) == Gone(c) + [c.items[0]]
  {
  }

  lemma TakeKeepsChannel<M>(c: Channel<M>, encodable: bool)
    requires ChannelOk(c) && c.items != []
    ensures ChannelOk(Take(c, encodable))
  {
    TakeKeepsStored(c, encodable);
    SubsequenceTake(c.received, Gone(c), c.items[0]);
    if encodable {
      SubsequenceTake(c.sent, c.received, c.items[0]);
    } else {
      SubsequenceSkip(c.sent, c.received, c.items[0]);
    }
  }

  lemma {:induction false} ValuesOk<M>(m: map<nat, Channel<M>>, n: nat)
    requires forall q :: q in m ==> ChannelOk(m[q])
    ensures forall c :: c in Values(m, n) ==> ChannelOk(c)
  {
    if n > 0 {
      ValuesOk(m, n - 1);
    }
  }

  lemma RegisterKeepsInv<M>(s: State<M>, maxSize: nat)
    requires Inv(s) && 0 < maxSize
    ensures Inv(Apply(s, Register(maxSize)))
  {
    PendingForNone(s.pending, s.next);
    assert s.next !in s.subscribers;
    var t := Apply(s, Register(maxSize));
    forall q | q in t.channels
      ensures q < t.next && ChannelInv(t, q)
    {
      assert q != s.next ==> ChannelInv(s, q);
    }
    assert RegisteredOnce(t);
  }

  lemma UnregisterKeepsInv<M>(s: State<M>, q: nat)
    requires Inv(s)
    ensures Inv(Apply(s, Unregister(q)))
  {
    if q in s.channels {
      WithoutRemoves(s.subscribers, q);
      var t := Apply(s, Unregister(q));
      assert forall x :: x in s.channels ==> ChannelInv(s, x);
      assert forall x :: x in t.channels ==> ChannelInv(t, x);
    }
  }

  lemma ScheduleKeepsInv<M>(s: State<M>, q: nat, m: M)
    requires Inv(s)
    ensures Inv(Apply(s, Schedule(q, m)))
  {
    if q in s.channels {
      var t := Apply(s, Schedule(q, m));
      forall x | x in t.channels
        ensures ChannelInv(t, x)
      {
        ScheduleKeepsChannel(s, q, m, x);
      }
    }
  }

  lemma ScheduleKeepsChannel<M>(s: State<M>, q: nat, m: M, x: nat)
    requires q in s.channels && x in s.channels && ChannelInv(s, x)
    ensures ChannelInv(Apply(s, Schedule(q, m)), x)
  {
    PendingForAppend(s.pending, x, q, m);
  }

  lemma CallbackKeepsChannels<M>(s: State<M>, x: nat)
    requires Inv(s) && s.pending != [] && x in s.channels
    ensures var t := Apply(s, RunCallback); x in t.channels && ChannelInv(t, x)
  {
    var (q, m) := s.pending[0];
    assert q in s.channels;
    assert ChannelInv(s, x);
    if x == q {
      HeadKeepsChannel(s.channels[q], m, PendingFor(s.pending[1..], q));
    }
  }

  lemma HeadKeepsChannel<M>(c: Channel<M>, m: M, rest: seq<M>)
    requires ChannelOk(c) && c.offered == c.put + ([m] + rest)
    ensures ChannelOk(PutDropOldest(c, m))
    ensures PutDropOldest(c, m).offered == PutDropOldest(c, m).put + rest
  {
    Regroup(c.put, m, rest);
    PutKeepsChannel(c, m, rest);
  }

  lemma Regroup<M>(put: seq<M>, m: M, rest: seq<M>)
    ensures put + ([m] + rest) == put + [m] + rest
  {
  }

  lemma CallbackKeepsInv<M>(s: State<M>)
    requires Inv(s)
    ensures Inv(Apply(s, RunCallback))
  {
    if s.pending != [] {
      var t := Apply(s, RunCallback);
      assert s.pending[0].0 in s.channels;
      forall x | x in s.channels
        ensures x in t.channels && ChannelInv(t, x)
      {
        CallbackKeepsChannels(s, x);
      }
      assert t.channels.Keys == s.channels.Keys;
      assert forall q :: q in s.channels ==> t.channels[q].live == s.channels[q].live;
    }
  }

  lemma GetKeepsInv<M>(s: State<M>, q: nat, encodable: bool)
    requires Inv(s)
    ensures Inv(Apply(s, Get(q, encodable)))
  {
    if q in s.channels && s.channels[q].live && s.channels[q].items != [] {
      var t := Apply(s, Get(q, encodable));
      assert ChannelInv(s, q);
      TakeKeepsChannel(s.channels[q], encodable);
      forall x | x in t.channels
        ensures ChannelInv(t, x)
      {
        assert ChannelInv(s, x);
      }
    }
  }

  lemma RestartKeepsInv<M>(s: State<M>)
    requires Inv(s)
    ensures Inv(Apply(s, Restart))
  {
    assert forall q :: q in s.channels ==> ChannelInv(s, q);
    ValuesOk(s.channels, s.next);
  }

  /** Each action keeps the invariant. */
  lemma ApplyKeepsInv<M>(s: State<M>, a: Action<M>)
    requires Inv(s)
    ensures Inv(Apply(s, a))
  {
    match a
    case Register(maxSize) => if maxSize > 0 { RegisterKeepsInv(s, maxSize); }
    case Unregister(q) => UnregisterKeepsInv(s, q);
    case Schedule(q, m) => ScheduleKeepsInv(s, q, m);
    case RunCallback => CallbackKeepsInv(s);
    case Get(q, encodable) => GetKeepsInv(s, q, encodable);
    case Restart => RestartKeepsInv(s);
  }

  /** Every interleaving of registrations, broadcasts, callbacks, reads, disconnects and process
      restarts keeps every queue's guarantee. */
  lemma {:induction false} EveryRunKeepsQueues<M>(actions: seq<Action<M>>)
    ensures Inv(Run(Initial(), actions))
    decreases |actions|
  {
    if actions != [] {
      EveryRunKeepsQueues(actions[..|actions| - 1]);
      ApplyKeepsInv(Run(Initial<M>(), actions[..|actions| - 1]), actions[|actions| - 1]);
    }
  }

  /** A subscriber sees an in-order part of what it was offered. */
  lemma ReceivedIsInOrder<M>(c: Channel<M>)
    requires ChannelOk(c)
    ensures Subsequence(c.received, c.offered) && Subsequence(c.sent, c.offered)
  {
    SubsequencePrefix(Gone(c), c.offered);
    SubsequenceTransitive(c.received, Gone(c), c.offered);
    SubsequenceTransitive(c.sent, c.received, c.offered);
  }

  /** Nothing is lost exactly when nothing was pushed out: then what was received, followed by
      what still waits, is everything put. */
  lemma NothingLostIffNothingDropped<M>(c: Channel<M>)
    requires ChannelOk(c)
    ensures c.dropped == 0 <==> c.received + c.items == c.put
  {
    assert c.put == Gone(c) + c.items;
    if c.dropped == 0 {
      SubsequenceSameLength(c.received, Gone(c));
    }
    if c.received + c.items == c.put {
      assert |c.received| + |c.items| == |c.put|;
    }
  }

  // ---------------------------------------------------------------- what is sent to the client

  /** The client takes an item from queue `q` that cannot be encoded. */
  predicate Skips<M>(s: State<M>, a: Action<M>, q: nat) {
    a == Get(q, false) && q in s.channels && s.channels[q].live && s.channels[q].items != []
  }

  function SkipCount<M>(actions: seq<Action<M>>, q: nat): nat
    decreases |actions|
  {
    if actions == [] then 0 else
    var front := actions[..|actions| - 1];
    SkipCount(front, q) + if Skips(Run(Initial<M>(), front), actions[|actions| - 1], q) then 1 else 0
  }

  /** A queue that does not exist yet has skipped nothing. */
  lemma {:induction false} NothingSkippedBefore<M>(actions: seq<Action<M>>, q: nat)
    requires Run(Initial<M>(), actions).next <= q
    ensures SkipCount(actions, q) == 0
    decreases |actions|
  {
    if actions != [] {
      var front := actions[..|actions| - 1];
      EveryRunKeepsQueues(front);
      NothingSkippedBefore(front, q);
    }
  }

  lemma SentStep<M>(s: State<M>, a: Action<M>, q: nat)
    requires q in Apply(s, a).channels && forall x :: x in s.channels ==> x < s.next
    ensures var c := Apply(s, a).channels[q];
      if q in s.channels
      then |c.received| - |c.sent| ==
           |s.channels[q].received| - |s.channels[q].sent| + if Skips(s, a, q) then 1 else 0
      else q == s.next && c.received == [] && c.sent == [] && !Skips(s, a, q)
  {
  }

  lemma {:induction false} SentCount<M>(actions: seq<Action<M>>, q: nat)
    requires q in Run(Initial<M>(), actions).channels
    ensures var c := Run(Initial<M>(), actions).channels[q]; |c.received| == |c.sent| + SkipCount(actions, q)
    decreases |actions|
  {
    var front, a := actions[..|actions| - 1], actions[|actions| - 1];
    var s := Run(Initial<M>(), front);
    EveryRunKeepsQueues(front);
    SentStep(s, a, q);
    if q in s.channels {
      SentCount(front, q);
    } else {
      NothingSkippedBefore(front, q);
    }
  }

  /** What was received and not sent are the items that could not be encoded, one for each such step: so all that
      a client received was sent to it exactly when there was none. */
  lemma AllIsSentIff<M>(actions: seq<Action<M>>, q: nat)
    requires q in Run(Initial<M>(), actions).channels
    ensures var c := Run(Initial<M>(), actions).channels[q];
      && Subsequence(c.sent, c.received) && |c.received| == |c.sent| + SkipCount(actions, q)
      && (c.sent == c.received <==> SkipCount(actions, q) == 0)
  {
    EveryRunKeepsQueues(actions);
    SentCount(actions, q);
    assert ChannelInv(Run(Initial<M>(), actions), q);
    var c := Run(Initial<M>(), actions).channels[q];
    if |c.sent| == |c.received| {
      SubsequenceSameLength(c.sent, c.received);
    }
  }
}
