/** Which entries can still be fanned out, and which runs lose nothing. */
module MessageDelivery {
  import opened Sequences
  import FanOut
  import opened MessageProtocol
  import opened MessageSafety
  import Loop = MessageCenter

  // ---------------------------------------------------------------- the fate of an entry

  /** Behind the persisted cursor, and neither fanned out nor left in the batch. */
  ghost predicate Lost(s: Center, id: nat) {
    id <= s.cursor && id !in s.fanned + Remaining(s.reader)
  }

  lemma LostStep(s: Center, a: Action, id: nat)
    requires CursorInv(s) && Lost(s, id)
    ensures Lost(Apply(s, a), id)
  {
    if a.Persist? && s.reader.Working? {
      assert Above(s.reader.messages, s.reader.last);
    }
  }

  lemma {:induction false} LostStays(s: Center, more: seq<Action>, id: nat)
    requires CursorInv(s) && Lost(s, id)
    ensures CursorInv(Run(s, more)) && Lost(Run(s, more), id)
    decreases |more|
  {
    if more != [] {
      var front := more[..|more| - 1];
      LostStays(s, front, id);
      KeepsCursors(Run(s, front), more[|more| - 1]);
      LostStep(Run(s, front), more[|more| - 1], id);
    }
  }

  /** What is behind the persisted cursor of any run, and neither fanned out nor left in the batch, is fanned
      out in no continuation. */
  lemma LostForGood(actions: seq<Action>, more: seq<Action>, id: nat)
    requires Lost(Run(Initial(), actions), id)
    ensures id !in Run(Run(Initial(), actions), more).fanned
  {
    EveryRunKeepsInv(actions);
    LostStays(Run(Initial(), actions), more, id);
  }

  // ---------------------------------------------------------------- passes that succeed

  function AllWell(): Loop.World {
    Loop.World(_ => Yields(true), Written, (_, _) => Scheduled)
  }

  function EventIds(entries: seq<Entry>): seq<nat> {
    if entries == [] then [] else (if entries[0].isEvent then [entries[0].id] else []) + EventIds(entries[1..])
  }

  lemma {:induction false} EventIdsHold(entries: seq<Entry>, e: Entry)
    requires e in entries && e.isEvent
    ensures e.id in EventIds(entries)
  {
    if entries[0] != e {
      assert entries == [entries[0]] + entries[1..];
      EventIdsHold(entries[1..], e);
    }
  }

  /** What a pass that succeeds from here on fans out. */
  function Due(r: Reader): seq<nat> {
    if r.Working? then r.messages + EventIds(r.todo) else Remaining(r)
  }

  function CursorThen(s: Center): nat {
    if !s.reader.Working? then s.cursor
    else if s.reader.todo == [] then s.reader.newest else s.reader.todo[|s.reader.todo| - 1].id
  }

  lemma DueStep(s: Center)
    requires Loop.Phase(s.reader) != 0
    ensures var t := Apply(s, Loop.NextAction(s.reader, AllWell()));
      t.fanned + Due(t.reader) == s.fanned + Due(s.reader) && t.stream == s.stream && CursorThen(t) == CursorThen(s)
  {
    var r, t := s.reader, Apply(s, Loop.NextAction(s.reader, AllWell()));
    match r
    case Working(_, _, todo, messages) =>
      if todo != [] && todo[0].isEvent {
        assert messages + EventIds(todo) == (messages + [todo[0].id]) + EventIds(todo[1..]);
      } else if todo != [] {
        assert EventIds(todo) == EventIds(todo[1..]);
      } else {
        assert messages + [] == messages;
      }
    case FanningOut(_, messages, _, _, targets) =>
      if targets == [] && messages != [] {
        assert s.fanned + messages == (s.fanned + [messages[0]]) + messages[1..];
      }
    case _ =>
  }

  lemma {:induction false} FinishFansOut(s: Center)
    ensures var t := Loop.Finish(s, AllWell());
      t.fanned == s.fanned + Due(s.reader) && t.stream == s.stream && t.cursor == CursorThen(s)
    decreases Loop.Phase(s.reader), Loop.Batch(s.reader), Loop.Left(s.reader)
  {
    if Loop.Phase(s.reader) == 0 {
      assert s.fanned + [] == s.fanned;
    } else {
      DueStep(s);
      Loop.Progress(s, AllWell());
      FinishFansOut(Apply(s, Loop.NextAction(s.reader, AllWell())));
    }
  }

  lemma {:induction false} RunKeepsCursors(s: Center, actions: seq<Action>)
    requires CursorInv(s)
    ensures CursorInv(Run(s, actions))
    decreases |actions|
  {
    if actions != [] {
      RunKeepsCursors(s, actions[..|actions| - 1]);
      KeepsCursors(Run(s, actions[..|actions| - 1]), actions[|actions| - 1]);
    }
  }

  /** The thread ends, a new one starts at the persisted cursor and reads. */
  function Reread(): seq<Action> {
    [Die, EnsureStarted, Init(true), Read(READ_LIMIT)]
  }

  lemma RereadSteps(s: Center)
    requires After(s.stream, s.cursor) != []
    ensures Apply(Apply(Apply(Apply(s, Die), EnsureStarted), Init(true)), Read(READ_LIMIT)) ==
      s.(reader := Working(s.cursor, s.cursor, Segment(s.stream, s.cursor, READ_LIMIT), []))
  {
  }

  lemma RereadEnds(s: Center)
    requires After(s.stream, s.cursor) != []
    ensures Run(s, Reread()) ==
      s.(reader := Working(s.cursor, s.cursor, Segment(s.stream, s.cursor, READ_LIMIT), []))
  {
    RereadSteps(s);
    FourSteps(s, Die, EnsureStarted, Init(true), Read(READ_LIMIT));
  }

  lemma RunNext(s: Center, actions: seq<Action>, a: Action)
    ensures Run(s, actions + [a]) == Apply(Run(s, actions), a)
  {
    assert (actions + [a])[..|actions|] == actions;
  }

  lemma FourSteps(s: Center, a: Action, b: Action, c: Action, d: Action)
    ensures Run(s, [a, b, c, d]) == Apply(Apply(Apply(Apply(s, a), b), c), d)
  {
    RunNext(s, [a, b, c], d);
    RunNext(s, [a, b], c);
    RunNext(s, [a], b);
    RunNext(s, [], a);
    assert [a, b, c] + [d] == [a, b, c, d] && [a, b] + [c] == [a, b, c] && [a] + [b] == [a, b] && [] + [a] == [a];
  }

  /** One segment after the persisted cursor, read and fanned out by a new reader. */
  lemma OneMorePass(s: Center) returns (more: seq<Action>)
    requires After(s.stream, s.cursor) != []
    ensures var t, segment := Run(s, more), Segment(s.stream, s.cursor, READ_LIMIT);
      && t.stream == s.stream && t.cursor == segment[|segment| - 1].id
      && t.fanned == s.fanned + EventIds(segment)
  {
    RereadEnds(s);
    var u := Run(s, Reread());
    FinishFansOut(u);
    Loop.PassIsARun(u, AllWell());
    more := Reread() + Loop.PassActions(u, AllWell());
    RunSplit(s, Reread(), Loop.PassActions(u, AllWell()));
    assert [] + EventIds(u.reader.todo) == EventIds(u.reader.todo);
  }

  /** Beyond a segment lie the entries after its last one. */
  lemma SegmentReaches(stream: seq<Entry>, id: nat, e: Entry)
    requires Sorted(stream) && e in stream && id < e.id
    ensures var segment := Segment(stream, id, READ_LIMIT);
      segment != [] && id < segment[|segment| - 1].id && (e in segment || segment[|segment| - 1].id < e.id)
  {
    AfterHead(stream, id);
    var rest, segment := After(stream, id), Segment(stream, id, READ_LIMIT);
    assert e in rest;
    var i :| 0 <= i < |rest| && rest[i] == e;
    assert segment[|segment| - 1] == rest[|segment| - 1] && rest[|segment| - 1] in rest;
    if i < |segment| {
      assert segment[i] == e;
    }
  }

  /** An event entry beyond the persisted cursor can still be fanned out. */
  lemma {:induction false} CanStillArrive(s: Center, e: Entry) returns (more: seq<Action>)
    requires CursorInv(s) && e in s.stream && e.isEvent && s.cursor < e.id
    ensures e.id in Run(s, more).fanned
    decreases e.id - s.cursor
  {
    AfterHead(s.stream, s.cursor);
    SegmentReaches(s.stream, s.cursor, e);
    more := OneMorePass(s);
    var t := Run(s, more);
    if e in Segment(s.stream, s.cursor, READ_LIMIT) {
      EventIdsHold(Segment(s.stream, s.cursor, READ_LIMIT), e);
    } else {
      RunKeepsCursors(s, more);
      var rest := CanStillArrive(t, e);
      RunSplit(s, more, rest);
      more := more + rest;
    }
  }

  /** After any run, an event entry is fanned out in some continuation exactly when it lies beyond the persisted
      cursor, or was fanned out, or is left in the current batch. */
  lemma ArrivesIff(actions: seq<Action>, e: Entry)
    requires e in Run(Initial(), actions).stream && e.isEvent
    ensures var s := Run(Initial(), actions);
      (exists more :: e.id in Run(s, more).fanned) <==> s.cursor < e.id || e.id in s.fanned + Remaining(s.reader)
  {
    var s := Run(Initial(), actions);
    EveryRunKeepsInv(actions);
    if Lost(s, e.id) {
      forall more
        ensures e.id !in Run(s, more).fanned
      {
        LostForGood(actions, more, e.id);
      }
    } else if s.cursor < e.id {
      var more := CanStillArrive(s, e);
    } else {
      FinishFansOut(s);
      Loop.PassIsARun(s, AllWell());
      var more := Loop.PassActions(s, AllWell());
      assert e.id in Run(s, more).fanned;
    }
  }

  // ---------------------------------------------------------------- runs that lose nothing

  /** The ids of the event entries up to `id`, in stream order. */
  function EventsUpTo(stream: seq<Entry>, id: nat): seq<nat> {
    if stream == [] then []
    else (if stream[0].isEvent && stream[0].id <= id then [stream[0].id] else []) + EventsUpTo(stream[1..], id)
  }

  lemma {:induction false} EventsUpToHold(stream: seq<Entry>, id: nat)
    requires Sorted(stream)
    ensures forall m: nat :: m in EventsUpTo(stream, id) <==> m <= id && Entry(m, true) in stream
    ensures StrictlyIncreasing(EventsUpTo(stream, id))
  {
    if stream != [] {
      EventsUpToHold(stream[1..], id);
      assert stream == [stream[0]] + stream[1..];
      var rest := EventsUpTo(stream[1..], id);
      forall i | 0 <= i < |rest|
        ensures stream[0].id < rest[i]
      {
        assert rest[i] in rest;
        var k :| 0 <= k < |stream[1..]| && stream[1..][k] == Entry(rest[i], true);
      }
    }
  }

  lemma {:induction false} SameElements(a: seq<nat>, b: seq<nat>)
    requires StrictlyIncreasing(a) && StrictlyIncreasing(b) && forall m: nat :: m in a <==> m in b
    ensures a == b
  {
    assert a != [] ==> a[0] in a && a[0] in b;
    assert b != [] ==> b[0] in b && b[0] in a;
    if a != [] && b != [] {
      assert a == [a[0]] + a[1..] && b == [b[0]] + b[1..];
      assert forall i :: 0 <= i < |a[1..]| ==> a[1..][i] > a[0];
      assert forall i :: 0 <= i < |b[1..]| ==> b[1..][i] > b[0];
      forall m: nat
        ensures m in a[1..] <==> m in b[1..]
      {
        assert m in a <==> m in b;
      }
      SameElements(a[1..], b[1..]);
    }
  }

  /** Messages name event entries of the stream. */
  ghost predicate EventsInv(s: Center) {
    && (forall m :: m in s.fanned ==> Entry(m, true) in s.stream)
    && (forall m :: m in Remaining(s.reader) ==> Entry(m, true) in s.stream)
    && (s.reader.Working? ==> forall m :: m in s.reader.messages ==> Entry(m, true) in s.stream)
  }

  lemma ProcessKeepsEvents(s: Center, o: EntryOutcome)
    requires CursorInv(s) && EventsInv(s)
    ensures EventsInv(Apply(s, Process(o)))
  {
    if s.reader.Working? && s.reader.todo != [] {
      AfterHead(s.stream, s.reader.newest);
      var e := s.reader.todo[0];
      assert e == After(s.stream, s.reader.newest)[0];
      assert e.isEvent ==> e == Entry(e.id, true);
    }
  }

  lemma NextKeepsEvents(s: Center)
    requires EventsInv(s)
    ensures EventsInv(Apply(s, NextMessage))
  {
    if s.reader.FanningOut? && s.reader.messages != [] {
      assert s.reader.messages[0] in s.reader.messages;
    }
  }

  lemma OthersKeepEvents(s: Center, a: Action)
    requires EventsInv(s) && !a.Process? && !a.NextMessage?
    ensures EventsInv(Apply(s, a))
  {
    var t := Apply(s, a);
    assert s.stream <= t.stream && t.fanned == s.fanned;
    assert Remaining(t.reader) == Remaining(s.reader) || Remaining(t.reader) == []
           || (s.reader.Working? && Remaining(t.reader) == s.reader.messages);
  }

  lemma KeepsEvents(s: Center, a: Action)
    requires CursorInv(s) && EventsInv(s)
    ensures EventsInv(Apply(s, a))
  {
    match a
    case Process(o) => ProcessKeepsEvents(s, o);
    case NextMessage => NextKeepsEvents(s);
    case _ => OthersKeepEvents(s, a);
  }

  lemma {:induction false} EveryRunKeepsEvents(actions: seq<Action>)
    ensures EventsInv(Run(Initial(), actions))
    decreases |actions|
  {
    if actions != [] {
      EveryRunKeepsEvents(actions[..|actions| - 1]);
      EveryRunKeepsInv(actions[..|actions| - 1]);
      KeepsEvents(Run(Initial(), actions[..|actions| - 1]), actions[|actions| - 1]);
    }
  }

  ghost predicate NothingLost(s: Center) {
    forall e :: e in s.stream && e.isEvent && e.id <= s.cursor ==> e.id in s.fanned + Remaining(s.reader)
  }

  /** A cursor write loses nothing when the batch goes on and holds every event the write covers. An exception
      in the fan-out loses nothing at the last message, and the end of the thread or of the process nothing
      while no batch is left to fan out. Everything else is harmless. */
  ghost predicate Lossless(s: Center, a: Action) {
    var r := s.reader;
    match a
    case Persist(o) =>
      r.Working? && r.todo == [] && !o.RaisedUnwritten? ==>
        forall e :: e in s.stream && e.isEvent && s.cursor < e.id <= r.newest ==> o.Written? && e.id in r.messages
    case Offer(o) => r.FanningOut? && r.targets != [] && o.OfferRaised? ==> r.messages == []
    case Die => Remaining(r) == []
    case Crash => Remaining(r) == []
    case _ => true
  }

  ghost predicate LosslessRun(actions: seq<Action>)
    decreases |actions|
  {
    actions == [] ||
    (LosslessRun(actions[..|actions| - 1]) &&
     Lossless(Run(Initial(), actions[..|actions| - 1]), actions[|actions| - 1]))
  }

  lemma AppendLosesNothing(s: Center, e: Entry)
    requires CursorInv(s) && NothingLost(s)
    ensures NothingLost(Apply(s, Append(e)))
  {
    if Apply(s, Append(e)) != s {
      assert forall x :: x in s.stream ==> x.id < e.id;
    }
  }

  lemma PersistLosesIff(s: Center, o: PersistOutcome)
    requires CursorInv(s) && NothingLost(s)
    ensures NothingLost(Apply(s, Persist(o))) <==> Lossless(s, Persist(o))
  {
    var r, t := s.reader, Apply(s, Persist(o));
    if r.Working? && r.todo == [] && !o.RaisedUnwritten? {
      ShorterKeeps(s.fanned, [], s.cursor);
      assert s.fanned + [] == s.fanned;
      forall e | e in s.stream && e.isEvent && s.cursor < e.id
        ensures e.id in t.fanned + Remaining(t.reader) <==> o.Written? && e.id in r.messages
      {
        assert e.id !in s.fanned;
      }
    }
  }

  /** Giving up a batch loses its first message. */
  lemma GivingUpLoses(s: Center, t: Center)
    requires CursorInv(s) && EventsInv(s) && Remaining(s.reader) != []
    requires t.stream == s.stream && t.cursor == s.cursor && t.fanned == s.fanned && Remaining(t.reader) == []
    ensures !NothingLost(t)
  {
    var m := Remaining(s.reader)[0];
    var all := s.fanned + Remaining(s.reader);
    assert all[|s.fanned|] == m;
    assert m in Remaining(s.reader) && m in all;
    assert Entry(m, true) in t.stream && m <= t.cursor;
    forall i | 0 <= i < |s.fanned|
      ensures s.fanned[i] != m
    {
      assert all[i] == s.fanned[i];
    }
    assert t.fanned + [] == s.fanned;
  }

  lemma NextLosesNothing(s: Center)
    requires NothingLost(s)
    ensures NothingLost(Apply(s, NextMessage))
  {
    var r := s.reader;
    if r.FanningOut? && r.targets == [] && r.messages != [] {
      assert s.fanned + r.messages == (s.fanned + [r.messages[0]]) + r.messages[1..];
    }
  }

  /** Reading, processing, subscribing and draining change neither the fan-out nor what is left of it. */
  lemma OthersLoseNothing(s: Center, a: Action)
    requires NothingLost(s)
    requires !a.Append? && !a.Persist? && !a.NextMessage? && !a.Offer? && !a.Die? && !a.Crash?
    ensures NothingLost(Apply(s, a))
  {
    var t := Apply(s, a);
    assert t.stream == s.stream && t.cursor == s.cursor && t.fanned == s.fanned;
    assert Remaining(t.reader) == Remaining(s.reader);
  }

  lemma OfferLosesIff(s: Center, o: OfferOutcome)
    requires CursorInv(s) && EventsInv(s) && NothingLost(s)
    ensures NothingLost(Apply(s, Offer(o))) <==> Lossless(s, Offer(o))
  {
    if s.reader.FanningOut? && s.reader.targets != [] && o.OfferRaised? && s.reader.messages != [] {
      GivingUpLoses(s, Apply(s, Offer(o)));
    }
  }

  lemma EndLosesIff(s: Center, a: Action)
    requires CursorInv(s) && EventsInv(s) && NothingLost(s) && (a.Die? || a.Crash?)
    ensures NothingLost(Apply(s, a)) <==> Lossless(s, a)
  {
    if Remaining(s.reader) != [] {
      GivingUpLoses(s, Apply(s, a));
    }
  }

  lemma LosesIff(s: Center, a: Action)
    requires CursorInv(s) && EventsInv(s) && NothingLost(s)
    ensures NothingLost(Apply(s, a)) <==> Lossless(s, a)
  {
    match a
    case Append(e) => AppendLosesNothing(s, e);
    case Persist(o) => PersistLosesIff(s, o);
    case NextMessage => NextLosesNothing(s);
    case Offer(o) => OfferLosesIff(s, o);
    case Die => EndLosesIff(s, a);
    case Crash => EndLosesIff(s, a);
    case _ => OthersLoseNothing(s, a);
  }

  lemma LossStays(s: Center, a: Action)
    requires CursorInv(s) && !NothingLost(s)
    ensures !NothingLost(Apply(s, a))
  {
    var e :| e in s.stream && e.isEvent && e.id <= s.cursor && e.id !in s.fanned + Remaining(s.reader);
    LostStep(s, a, e.id);
    assert e in Apply(s, a).stream;
  }

  lemma {:induction false} NothingLostIff(actions: seq<Action>)
    ensures NothingLost(Run(Initial(), actions)) <==> LosslessRun(actions)
    decreases |actions|
  {
    if actions != [] {
      var front := actions[..|actions| - 1];
      NothingLostIff(front);
      EveryRunKeepsInv(front);
      EveryRunKeepsEvents(front);
      if NothingLost(Run(Initial(), front)) {
        LosesIff(Run(Initial(), front), actions[|actions| - 1]);
      } else {
        LossStays(Run(Initial(), front), actions[|actions| - 1]);
      }
    }
  }

  /** The fan-out sequence, with what is left of the current batch, is exactly the events up to the persisted
      cursor, each one once and in stream order, exactly when no step of the run was one that loses. */
  lemma FanOutIsExactIff(actions: seq<Action>)
    ensures var s := Run(Initial(), actions);
      s.fanned + Remaining(s.reader) == EventsUpTo(s.stream, s.cursor) <==> LosslessRun(actions)
  {
    var s := Run(Initial(), actions);
    EveryRunKeepsInv(actions);
    EveryRunKeepsEvents(actions);
    NothingLostIff(actions);
    EventsUpToHold(s.stream, s.cursor);
    if NothingLost(s) {
      forall m: nat
        ensures m in s.fanned + Remaining(s.reader) <==> m in EventsUpTo(s.stream, s.cursor)
      {
        assert Entry(m, true).isEvent;
      }
      SameElements(s.fanned + Remaining(s.reader), EventsUpTo(s.stream, s.cursor));
    } else {
      var e :| e in s.stream && e.isEvent && e.id <= s.cursor && e.id !in s.fanned + Remaining(s.reader);
      assert e == Entry(e.id, true);
    }
  }

  // ---------------------------------------------------------------- a fault that loses

  function StartUp(): seq<Action> {
    [Append(Entry(1, true)), EnsureStarted, Init(true)]
  }

  /** Entry 1 is read and materialized, but the cursor write raises. */
  function FailedBatch(): seq<Action> {
    [Read(READ_LIMIT), Process(Yields(true)), Persist(RaisedUnwritten)]
  }

  /** Entry 2 arrives, is read, materialized and covered by the cursor, and is then fanned out. */
  function NextBatch(): seq<Action> {
    [Append(Entry(2, true)), Read(READ_LIMIT), Process(Yields(true)), Persist(Written)]
  }

  function FanOutOne(): seq<Action> {
    [Snapshot, NextMessage, NextMessage]
  }

  lemma ProcessFirst(s: Center, e: Entry)
    requires e == Entry(1, true) && s.reader == Working(0, 0, [e], []) && s.materialized == {}
    ensures Apply(s, Process(Yields(true))) == s.(reader := Working(0, 1, [], [1]), materialized := {1})
  {
    assert s.materialized + {1} == {1} && [e][1..] == [] && s.reader.messages + [1] == [1];
  }

  lemma StartUpEnds()
    ensures Run(Initial(), StartUp()) == Initial().(stream := [Entry(1, true)], reader := Idle(0))
  {
    var a := StartUp();
    var s1 := Initial().(stream := [Entry(1, true)]);
    RunFirst(Initial(), a[0], a[1..], s1);
    RunFirst(s1, a[1], a[2..], Apply(s1, EnsureStarted));
    RunFirst(Apply(s1, EnsureStarted), a[2], [], s1.(reader := Idle(0)));
    assert a == [a[0]] + a[1..] && a[1..] == [a[1]] + a[2..] && a[2..] == [a[2]] + [];
  }

  lemma FailedBatchEnds(s3: Center)
    requires s3 == Initial().(stream := [Entry(1, true)], reader := Idle(0))
    ensures Run(s3, FailedBatch()) == Center([Entry(1, true)], 0, Idle(1), {1}, [], FanOut.Initial())
  {
    var a := FailedBatch();
    var e := Entry(1, true);
    var s4 := s3.(reader := Working(0, 0, [e], []));
    var s5 := s3.(reader := Working(0, 1, [], [1]), materialized := {1});
    ProcessFirst(s4, e);
    RunFirst(s3, a[0], a[1..], s4);
    RunFirst(s4, a[1], a[2..], s5);
    RunFirst(s5, a[2], [], s5.(reader := Idle(1)));
    assert a == [a[0]] + a[1..] && a[1..] == [a[1]] + a[2..] && a[2..] == [a[2]] + [];
  }

  lemma ReadSecond(s: Center, e: Entry, f: Entry)
    requires s.stream == [e, f] && e.id <= 1 < f.id && s.reader == Idle(1)
    ensures Apply(s, Read(READ_LIMIT)) == s.(reader := Working(1, 1, [f], []))
  {
    assert s.stream[1..] == [f];
    assert After(s.stream, 1) == After([f], 1) == [f];
    assert Segment(s.stream, 1, READ_LIMIT) == [f];
  }

  lemma ProcessSecond(s: Center, f: Entry)
    requires f == Entry(2, true) && s.reader == Working(1, 1, [f], []) && s.materialized == {1}
    ensures Apply(s, Process(Yields(true)))
            == s.(reader := Working(1, 2, [], [2]), materialized := {1, 2})
  {
    assert s.materialized + {2} == {1, 2} && [f][1..] == [] && s.reader.messages + [2] == [2];
  }

  lemma NextBatchEnds(s0: Center)
    requires s0 == Center([Entry(1, true)], 0, Idle(1), {1}, [], FanOut.Initial())
    ensures Run(s0, NextBatch())
            == Center([Entry(1, true), Entry(2, true)], 2, Persisted(2, [2]), {1, 2}, [], FanOut.Initial())
  {
    var a := NextBatch();
    var e, f := Entry(1, true), Entry(2, true);
    var s1 := s0.(stream := [e, f]);
    var s2 := s1.(reader := Working(1, 1, [f], []));
    var s3 := s1.(reader := Working(1, 2, [], [2]), materialized := {1, 2});
    ReadSecond(s1, e, f);
    ProcessSecond(s2, f);
    RunFirst(s0, a[0], a[1..], s1);
    RunFirst(s1, a[1], a[2..], s2);
    RunFirst(s2, a[2], a[3..], s3);
    RunFirst(s3, a[3], [], s3.(reader := Persisted(2, [2]), cursor := 2));
    assert a == [a[0]] + a[1..] && a[1..] == [a[1]] + a[2..];
    assert a[2..] == [a[2]] + a[3..] && a[3..] == [a[3]] + [];
  }

  lemma FanOutOneEnds(s0: Center)
    requires s0.reader == Persisted(2, [2]) && s0.fanned == [] && s0.hub == FanOut.Initial()
    ensures Run(s0, FanOutOne()) == s0.(reader := Idle(2), fanned := [2])
  {
    var a := FanOutOne();
    var s1 := s0.(reader := FanningOut(2, [2], [], 0, []));
    var s2 := s0.(reader := FanningOut(2, [], [], 2, []), fanned := [2]);
    var s3 := s2.(reader := Idle(2));
    RunFirst(s0, a[0], a[1..], s1);
    RunFirst(s1, a[1], a[2..], s2);
    RunFirst(s2, a[2], [], s3);
    assert a == [a[0]] + a[1..] && a[1..] == [a[1]] + a[2..] && a[2..] == [a[2]] + [];
  }

  function LosingRun(): seq<Action> {
    StartUp() + FailedBatch() + NextBatch() + FanOutOne()
  }

  /** Fan-out is at most once, not at least once: after one failed cursor write the cursor covers
      entry 1 and entry 1 is materialized, but it is not fanned out, and no continuation fans it out. */
  lemma FailedCursorWriteLosesBatch(more: seq<Action>)
    ensures var s := Run(Initial(), LosingRun());
            && s.cursor == 2 && 1 in s.materialized && s.fanned == [2] && s.reader == Idle(2)
            && 1 !in Run(s, more).fanned
  {
    RunSplit(Initial(), StartUp() + FailedBatch() + NextBatch(), FanOutOne());
    RunSplit(Initial(), StartUp() + FailedBatch(), NextBatch());
    RunSplit(Initial(), StartUp(), FailedBatch());
    StartUpEnds();
    FailedBatchEnds(Run(Initial(), StartUp()));
    NextBatchEnds(Run(Initial(), StartUp() + FailedBatch()));
    FanOutOneEnds(Run(Initial(), StartUp() + FailedBatch() + NextBatch()));
    LostForGood(LosingRun(), more, 1);
  }
}
