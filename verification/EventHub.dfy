/** The shared queue list of a server-sent-event route and the calls that change it. */
module EventHub {
  import opened Sequences
  import opened FanOut

  /** The model state after one callback is scheduled for each queue of a snapshot. */
  function ScheduleAll<M>(s: State<M>, queues: seq<nat>, m: M): State<M> {
    if queues == [] then s
    else Apply(ScheduleAll(s, queues[..|queues| - 1], m), Schedule(queues[|queues| - 1], m))
  }

  lemma ScheduleAllNext<M>(s: State<M>, queues: seq<nat>, i: nat, m: M)
    requires i < |queues|
    ensures ScheduleAll(s, queues[..i + 1], m) == Apply(ScheduleAll(s, queues[..i], m), Schedule(queues[i], m))
  {
    assert queues[..i + 1][..i] == queues[..i];
  }

  function Addressed<M>(queues: seq<nat>, m: M): seq<(nat, M)> {
    seq(|queues|, i requires 0 <= i < |queues| => (queues[i], m))
  }

  /** A broadcast reaches each registered queue exactly once, in list order, and no other queue. */
  lemma {:induction false} ScheduleAllOnce<M>(s: State<M>, queues: seq<nat>, m: M)
    requires NoDuplicates(queues) && (forall q :: q in queues ==> q in s.channels)
    ensures var t := ScheduleAll(s, queues, m);
            && t.pending == s.pending + Addressed(queues, m)
            && t == s.(pending := t.pending, channels := t.channels) && t.channels.Keys == s.channels.Keys
            && forall q :: q in s.channels ==>
                 t.channels[q] == if q in queues then s.channels[q].(offered := s.channels[q].offered + [m])
                                  else s.channels[q]
  {
    if queues != [] {
      var n := |queues| - 1;
      var q := queues[n];
      assert queues == queues[..n] + [q];
      ScheduleAllOnce(s, queues[..n], m);
      assert q in s.channels && q !in queues[..n];
      assert Addressed(queues, m) == Addressed(queues[..n], m) + [(q, m)];
    }
  }

  class Hub<M> {
    var subscribers: seq<nat>
    var channels: map<nat, Channel<M>>
    var pending: seq<(nat, M)>
    var next: nat
    ghost var past: seq<Channel<M>>

    ghost function Model(): State<M>
      reads this
    {
      State(subscribers, channels, past, next, pending)
    }

    ghost predicate Valid()
      reads this
    {
      Inv(Model())
    }

    constructor ()
      ensures Valid() && Model() == Initial<M>()
    {
      subscribers, channels, pending, next := [], map[], [], 0;
      past := [];
    }

    /** A new connection: its queue is appended to the list. */
    method Register(maxSize: nat) returns (q: nat)
      requires Valid() && 0 < maxSize
      modifies this
      ensures Valid() && Model() == Apply(old(Model()), Action.Register(maxSize))
      ensures q == old(next) && subscribers == old(subscribers) + [q]
    {
      ApplyKeepsInv(Model(), Action.Register(maxSize));
      q := next;
      subscribers, channels, next := subscribers + [q], channels[q := NewChannel(maxSize)], next + 1;
    }

    /** The end of a connection: its queue leaves the list, if it is still there. */
    method Unregister(q: nat)
      requires Valid() && q in channels
      modifies this
      ensures Valid() && Model() == Apply(old(Model()), Action.Unregister(q))
      ensures q !in subscribers && (forall x :: x != q ==> (x in subscribers <==> x in old(subscribers)))
      ensures channels == old(channels)[q := old(channels[q]).(live := false)]
    {
      ApplyKeepsInv(Model(), Action.Unregister(q));
      WithoutRemoves(subscribers, q);
      if q in subscribers {
        subscribers := Without(subscribers, q);
      } else {
        WithoutAbsent(subscribers, q);
      }
      channels := channels[q := channels[q].(live := false)];
    }

    method ScheduleCallback(q: nat, m: M)
      requires Valid() && q in channels
      modifies this
      ensures Valid() && Model() == Apply(old(Model()), Schedule(q, m))
    {
      ApplyKeepsInv(Model(), Schedule(q, m));
      channels := channels[q := channels[q].(offered := channels[q].offered + [m])];
      pending := pending + [(q, m)];
    }

    /** The event loop runs its oldest callback. */
    method RunCallback()
      requires Valid()
      modifies this
      ensures Valid() && Model() == Apply(old(Model()), Action.RunCallback)
      ensures old(pending) != [] ==>
                var (q, m) := old(pending)[0];
                var c, items := old(channels)[q], old(channels)[q].items;
                && channels.Keys == old(channels).Keys
                && (forall x :: x in channels && x != q ==> channels[x] == old(channels)[x])
                && channels[q].items == (if |items| < c.maxSize then items else items[1..]) + [m]
                && channels[q].dropped == (if |items| < c.maxSize then c.dropped else c.dropped + 1)
    {
      ApplyKeepsInv(Model(), Action.RunCallback);
      if pending != [] {
        var (q, m) := pending[0];
        assert pending[0].0 in channels;
        channels, pending := channels[q := PutDropOldest(channels[q], m)], pending[1..];
      }
    }

    /** One turn of the subscriber's loop; no item means the wait timed out. */
    method Get(q: nat, encodable: bool) returns (m: Option<M>)
      requires Valid() && q in channels && channels[q].live
      modifies this
      ensures Valid() && Model() == Apply(old(Model()), Action.Get(q, encodable))
      ensures m == if old(channels)[q].items == [] then None else Some(old(channels)[q].items[0])
      ensures m.None? ==> channels == old(channels)
      ensures m.Some? ==>
                && channels == old(channels)[q := channels[q]]
                && Served(old(channels)[q], channels[q], m.value, encodable)
    {
      ApplyKeepsInv(Model(), Action.Get(q, encodable));
      if channels[q].items == [] {
        return None;
      }
      m := Some(channels[q].items[0]);
      TakesHead(channels[q], encodable);
      assert Served(channels[q], Take(channels[q], encodable), m.value, encodable);
      channels := channels[q := Take(channels[q], encodable)];
    }

    /** One quote goes to every queue registered when the snapshot is taken; without an event loop
        nothing happens. */
    method Broadcast(m: M, loopKnown: bool)
      requires Valid()
      modifies this
      ensures Valid()
      ensures Model() == if loopKnown then ScheduleAll(old(Model()), old(subscribers), m) else old(Model())
      ensures loopKnown ==> pending == old(pending) + Addressed(old(subscribers), m)
    {
      if !loopKnown {
        return;
      }
      ScheduleAllOnce(Model(), subscribers, m);
      BroadcastTo(subscribers, m);
    }

    /** The loop over a snapshot of the list. */
    method BroadcastTo(queues: seq<nat>, m: M)
      requires Valid() && forall q :: q in queues ==> q in channels
      modifies this
      ensures Valid() && Model() == ScheduleAll(old(Model()), queues, m)
    {
      var i := 0;
      while i < |queues|
        invariant 0 <= i <= |queues| && Valid()
        invariant Model() == ScheduleAll(old(Model()), queues[..i], m)
        invariant channels.Keys == old(channels.Keys)
      {
        ScheduleAllNext(old(Model()), queues, i, m);
        assert queues[i] in queues;
        ScheduleCallback(queues[i], m);
        i := i + 1;
      }
      assert queues[..i] == queues;
    }

    /** A new process starts without queues; queue ids are not used again. */
    method Restart()
      requires Valid()
      modifies this
      ensures Valid() && Model() == Apply(old(Model()), Action.Restart)
    {
      ApplyKeepsInv(Model(), Action.Restart);
      past := past + Values(channels, next);
      subscribers, channels, pending := [], map[], [];
    }
  }

  /** Queue `d` is `c` without its head, which was received, and sent if it can be encoded. */
  ghost predicate Served<M>(c: Channel<M>, d: Channel<M>, m: M, encodable: bool) {
    && c.items == [m] + d.items && d.received == c.received + [m]
    && d.sent == c.sent + (if encodable then [m] else [])
  }

  lemma {:induction false} WithoutAbsent(s: seq<nat>, q: nat)
    requires q !in s
    ensures Without(s, q) == s
  {
    if s != [] {
      WithoutAbsent(s[1..], q);
    }
  }
}
