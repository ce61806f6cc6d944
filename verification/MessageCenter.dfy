/** The reader thread's loop and the stream route, proved to be a run of the protocol. */
module MessageCenter {
  import FanOut
  import EventHub
  import opened MessageProtocol
  import MessageSafety

  /** How the calls of one loop pass end: per entry, for the cursor write, per scheduled put. */
  datatype World = World(entry: nat -> EntryOutcome, persist: PersistOutcome, offer: (nat, nat) -> OfferOutcome)

  /** The reader's next action inside a pass. */
  function NextAction(r: Reader, w: World): Action
    requires r.Working? || r.Persisted? || r.FanningOut?
  {
    match r
    case Working(_, _, todo, _) => if todo == [] then Persist(w.persist) else Process(w.entry(todo[0].id))
    case Persisted(_, _) => Snapshot
    case FanningOut(_, _, _, current, targets) =>
      if targets == [] then NextMessage else Offer(w.offer(targets[0], current))
  }

  function Phase(r: Reader): nat {
    if r.Working? then 3 else if r.Persisted? then 2 else if r.FanningOut? then 1 else 0
  }

  function Batch(r: Reader): nat {
    if r.FanningOut? then |r.messages| else 0
  }

  function Left(r: Reader): nat {
    if r.Working? then |r.todo| else if r.FanningOut? then |r.targets| else 0
  }

  /** The rest of a pass: the reader's own actions until it is ready to read again. */
  function Finish(s: Center, w: World): Center
    decreases Phase(s.reader), Batch(s.reader), Left(s.reader)
  {
    if Phase(s.reader) == 0 then s else Finish(Apply(s, NextAction(s.reader, w)), w)
  }

  function PassActions(s: Center, w: World): seq<Action>
    decreases Phase(s.reader), Batch(s.reader), Left(s.reader)
  {
    if Phase(s.reader) == 0 then []
    else [NextAction(s.reader, w)] + PassActions(Apply(s, NextAction(s.reader, w)), w)
  }

  /** A pass of the loop is a run of the protocol, so what every run keeps holds of the loop. */
  lemma {:induction false} PassIsARun(s: Center, w: World)
    ensures Finish(s, w) == Run(s, PassActions(s, w))
    decreases Phase(s.reader), Batch(s.reader), Left(s.reader)
  {
    if Phase(s.reader) != 0 {
      var a := NextAction(s.reader, w);
      var t := Apply(s, a);
      PassIsARun(t, w);
      MessageSafety.RunFirst(s, a, PassActions(t, w), t);
    }
  }

  lemma StepKeepsInv(s: Center, a: Action)
    requires Inv(s)
    ensures Inv(Apply(s, a))
  {
    MessageSafety.KeepsCursors(s, a);
    MessageSafety.KeepsOffers(s, a);
  }

  lemma AfterStep(s: Center, a: Action, t: Center)
    requires Inv(s) && t == Apply(s, a)
    ensures Inv(t)
  {
    StepKeepsInv(s, a);
  }

  /** Each action inside a pass brings the pass closer to its end. */
  lemma Progress(s: Center, w: World)
    requires Phase(s.reader) != 0
    ensures var r, t := s.reader, Apply(s, NextAction(s.reader, w)).reader;
            || Phase(t) < Phase(r)
            || (Phase(t) == Phase(r) && Batch(t) < Batch(r))
            || (Phase(t) == Phase(r) && Batch(t) == Batch(r) && Left(t) < Left(r))
  {
  }

  /** The invariant of every run also holds after a pass. */
  lemma {:induction false} FinishKeepsInv(s: Center, w: World)
    requires Inv(s)
    ensures Inv(Finish(s, w)) && Phase(Finish(s, w).reader) == 0
    decreases Phase(s.reader), Batch(s.reader), Left(s.reader)
  {
    if Phase(s.reader) != 0 {
      var t := Apply(s, NextAction(s.reader, w));
      StepKeepsInv(s, NextAction(s.reader, w));
      Progress(s, w);
      assert Finish(s, w) == Finish(t, w);
      FinishKeepsInv(t, w);
    }
  }

  /** The effect of one offer. */
  lemma OfferStep(s: Center, o: OfferOutcome)
    requires s.reader.FanningOut? && s.reader.targets != []
    ensures var r := s.reader;
            Apply(s, Offer(o)) ==
            match o
            case Scheduled => s.(hub := FanOut.Apply(s.hub, FanOut.Schedule(r.targets[0], r.current)),
                                 reader := r.(targets := r.targets[1..]))
            case LoopClosed => s.(reader := r.(targets := r.targets[1..]))
            case OfferRaised => s.(reader := Idle(r.last))
  {
  }

  class MessageCenter {
    // In Redis.
    var stream: seq<Entry>
    var cursor: nat
    var materialized: set<nat>
    // In the process.
    var threadAlive: bool
    var lastId: nat
    const hub: EventHub.Hub<nat>
    ghost var fanned: seq<nat>

    ghost function Model(): Center
      reads this, hub
    {
      Center(stream, cursor, if threadAlive then Idle(lastId) else Dead, materialized, fanned, hub.Model())
    }

    ghost predicate Valid()
      reads this, hub
    {
      Inv(Model())
    }

    constructor ()
      ensures Valid() && Model() == Initial()
    {
      stream, cursor, materialized := [], 0, {};
      threadAlive, lastId := false, 0;
      hub := new EventHub.Hub<nat>();
      fanned := [];
      new;
      MessageSafety.EveryRunKeepsInv([]);
    }

    /** A request starts the reader unless one is alive; the new thread begins at the persisted cursor. */
    method EnsureReaderStarted(initOk: bool)
      requires Valid()
      modifies this
      ensures Valid()
      ensures Model() == if old(threadAlive) then old(Model())
                         else Apply(Apply(old(Model()), EnsureStarted), Init(initOk))
    {
      if threadAlive {
        return;
      }
      ghost var s := Model();
      StepKeepsInv(s, EnsureStarted);
      StepKeepsInv(Apply(s, EnsureStarted), Init(initOk));
      if initOk {
        threadAlive, lastId := true, cursor;
      }
    }

    /** A new subscriber of the stream route. */
    method StreamSystemMessages(initOk: bool) returns (q: nat)
      requires Valid()
      modifies this, hub
      ensures Valid() && q == old(hub.next)
      ensures Model() == Apply(if old(threadAlive) then old(Model())
                               else Apply(Apply(old(Model()), EnsureStarted), Init(initOk)), Subscribe)
    {
      EnsureReaderStarted(initOk);
      q := RegisterQueue();
    }

    method RegisterQueue() returns (q: nat)
      requires Valid()
      modifies hub
      ensures Valid() && q == old(hub.next) && Model() == Apply(old(Model()), Subscribe)
    {
      ghost var s := Model();
      q := hub.Register(FanOut.MESSAGE_QUEUE_SIZE);
      assert Model() == s.(hub := hub.Model());
    }

    /** One pass of the reader's endless loop. */
    method LoopPass(w: World)
      requires Valid() && threadAlive
      modifies this, hub
      ensures Valid() && threadAlive
      ensures Model() == Finish(Apply(old(Model()), Read(100)), w)
      ensures stream == old(stream) && hub.subscribers == old(hub.subscribers)
    {
      ghost var s := Apply(Model(), Read(READ_LIMIT));
      StepKeepsInv(Model(), Read(READ_LIMIT));
      FinishKeepsInv(s, w);
      var entries := Segment(stream, lastId, READ_LIMIT);
      if entries == [] {
        return;
      }
      var messages, raised := Materialize(entries, w, s);
      if raised {
        return;
      }
      Advance(entries[|entries| - 1].id, messages, w);
    }

    /** What follows the loop over the entries: the local cursor, the persisted one, then the subscribers. */
    method Advance(newest: nat, messages: seq<nat>, w: World)
      requires threadAlive && hub.Valid()
      modifies this`lastId, this`cursor, this`fanned, hub
      ensures hub.Valid() && hub.subscribers == old(hub.subscribers)
      ensures Model() == Finish(old(Model()).(reader := Working(old(lastId), newest, [], messages)), w)
    {
      lastId := newest;
      if w.persist != RaisedUnwritten {
        cursor := lastId;
      }
      if w.persist != Written || messages == [] {
        return;
      }
      FanOutMessages(messages, w, Model().(reader := Persisted(lastId, messages)));
    }

    /** The loop over the entries of one read. An exception leaves the local cursor where it was. */
    method Materialize(entries: seq<Entry>, w: World, ghost start: Center)
      returns (messages: seq<nat>, raised: bool)
      requires threadAlive && entries != []
      requires start == Model().(reader := Working(lastId, lastId, entries, []))
      modifies this`materialized
      ensures Model() == old(Model()).(materialized := materialized)
      ensures raised ==> Finish(start, w) == Model()
      ensures !raised ==>
                Finish(start, w) ==
                Finish(Model().(reader := Working(lastId, entries[|entries| - 1].id, [], messages)), w)
    {
      ghost var s := start;
      messages := [];
      var newest := lastId;
      var i := 0;
      while i < |entries|
        invariant 0 <= i <= |entries|
        invariant newest == if i == 0 then lastId else entries[i - 1].id
        invariant Model() == old(Model()).(materialized := materialized)
        invariant s == Model().(reader := Working(lastId, newest, entries[i..], messages))
        invariant Finish(s, w) == Finish(start, w)
      {
        var e := entries[i];
        s := Apply(s, NextAction(s.reader, w));
        if w.entry(e.id).Raises? {
          return messages, true;
        }
        newest := e.id;
        if e.isEvent {
          materialized := materialized + {e.id};
          if w.entry(e.id).body {
            messages := messages + [e.id];
          }
        }
        i := i + 1;
      }
      assert entries[i..] == [];
      raised := false;
    }

    /** The loop over messages, each offered to the same snapshot of queues. */
    method FanOutMessages(messages: seq<nat>, w: World, ghost start: Center)
      requires threadAlive && hub.Valid()
      requires start == Model().(reader := Persisted(lastId, messages))
      modifies this`fanned, hub
      ensures hub.Valid() && hub.subscribers == old(hub.subscribers)
      ensures Model() == old(Model()).(fanned := fanned, hub := hub.Model())
      ensures Model() == Finish(start, w)
    {
      var queues := hub.subscribers;
      ghost var s := start.(reader := FanningOut(lastId, messages, queues, 0, []));
      ghost var current := 0;
      var i := 0;
      while i < |messages|
        invariant 0 <= i <= |messages| && hub.Valid() && hub.subscribers == queues
        invariant Model() == old(Model()).(fanned := fanned, hub := hub.Model())
        invariant s == Model().(reader := FanningOut(lastId, messages[i..], queues, current, []))
        invariant Finish(s, w) == Finish(start, w)
      {
        current := messages[i];
        fanned := fanned + [current];
        assert messages[i..][1..] == messages[i + 1..];
        s := Model().(reader := FanningOut(lastId, messages[i + 1..], queues, current, queues));
        var raised := OfferToAll(messages[i], messages[i + 1..], queues, w, s);
        if raised {
          return;
        }
        s := Model().(reader := FanningOut(lastId, messages[i + 1..], queues, current, []));
        i := i + 1;
      }
      assert messages[i..] == [];
    }

    /** The loop over the snapshot for one message. */
    method OfferToAll(m: nat, ghost rest: seq<nat>, queues: seq<nat>, w: World, ghost start: Center)
      returns (raised: bool)
      requires threadAlive && hub.Valid() && hub.subscribers == queues
      requires start == Model().(reader := FanningOut(lastId, rest, queues, m, queues))
      modifies hub
      ensures hub.Valid() && hub.subscribers == queues
      ensures Model() == old(Model()).(hub := hub.Model())
      ensures raised ==> Finish(start, w) == Model()
      ensures !raised ==>
                Finish(start, w) == Finish(Model().(reader := FanningOut(lastId, rest, queues, m, [])), w)
    {
      ghost var s := start;
      var j := 0;
      while j < |queues|
        invariant 0 <= j <= |queues| && hub.Valid() && hub.subscribers == queues
        invariant Model() == old(Model()).(hub := hub.Model())
        invariant s == Model().(reader := FanningOut(lastId, rest, queues, m, queues[j..]))
        invariant Finish(s, w) == Finish(start, w)
      {
        OfferStep(s, w.offer(queues[j], m));
        s := Apply(s, NextAction(s.reader, w));
        match w.offer(queues[j], m) {
          case Scheduled => ScheduleOne(queues[j], m);
          case LoopClosed =>
          case OfferRaised => return true;
        }
        assert queues[j..][1..] == queues[j + 1..];
        j := j + 1;
      }
      assert queues[j..] == [];
      raised := false;
    }

    method ScheduleOne(q: nat, m: nat)
      requires hub.Valid() && q in hub.subscribers
      modifies hub
      ensures hub.Valid() && hub.subscribers == old(hub.subscribers)
      ensures Model() == old(Model()).(hub := FanOut.Apply(old(hub.Model()), FanOut.Schedule(q, m)))
    {
      hub.ScheduleCallback(q, m);
    }

    /** The thread ends, whatever it was doing; the queues and their subscribers stay. */
    method ReaderEnds()
      requires Valid()
      modifies this`threadAlive
      ensures Valid() && Model() == Apply(old(Model()), Die)
    {
      threadAlive := false;
      AfterStep(old(Model()), Die, Model());
    }

    /** The process ends and starts again: Redis keeps its part, everything else is gone. */
    method Restart()
      requires Valid()
      modifies this, hub
      ensures Valid() && Model() == Apply(old(Model()), Crash)
    {
      threadAlive := false;
      hub.Restart();
      AfterStep(old(Model()), Crash, Model());
    }
  }
}
