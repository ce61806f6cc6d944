/** What every run of the message center keeps. */
module MessageSafety {
  import opened Sequences
  import FanOut
  import opened MessageProtocol

  // ---------------------------------------------------------------- the stream

  /** The entry at the head of `After` is the next one: no entry lies between. */
  lemma {:induction false} AfterHead(stream: seq<Entry>, id: nat)
    requires Sorted(stream)
    ensures forall e :: e in After(stream, id) ==> e in stream && id < e.id
    ensures forall e :: e in stream && id < e.id ==> e in After(stream, id)
    ensures Sorted(After(stream, id))
  {
    if stream != [] {
      assert stream == [stream[0]] + stream[1..];
      if stream[0].id <= id {
        AfterHead(stream[1..], id);
      } else {
        assert forall e :: e in stream ==> exists i :: 0 <= i < |stream| && stream[i] == e;
      }
    }
  }

  /** Moving past the head leaves the rest. */
  lemma {:induction false} AfterStep(stream: seq<Entry>, id: nat)
    requires Sorted(stream) && After(stream, id) != []
    ensures After(stream, After(stream, id)[0].id) == After(stream, id)[1..]
  {
    if stream[0].id <= id {
      AfterHead(stream[1..], id);
      assert After(stream, id)[0] in After(stream[1..], id);
      AfterStep(stream[1..], id);
    } else if |stream| > 1 {
      assert stream[1..][0] == stream[1];
    }
  }

  lemma {:induction false} AfterAppend(stream: seq<Entry>, id: nat, e: Entry)
    requires id < e.id
    ensures After(stream + [e], id) == After(stream, id) + [e]
  {
    if stream == [] {
      assert stream + [e] == [e];
    } else {
      assert (stream + [e])[1..] == stream[1..] + [e];
      AfterAppend(stream[1..], id, e);
    }
  }

  lemma CoveredStep(s: Center, newest: nat, materialized: set<nat>)
    requires Sorted(s.stream) && After(s.stream, newest) != []
    requires Covered(s.stream, s.materialized, newest) && s.materialized <= materialized
    requires After(s.stream, newest)[0].isEvent ==> After(s.stream, newest)[0].id in materialized
    ensures Covered(s.stream, materialized, After(s.stream, newest)[0].id)
  {
    var next := After(s.stream, newest)[0];
    AfterHead(s.stream, newest);
    forall e | e in s.stream && e.isEvent && e.id <= next.id
      ensures e.id in materialized
    {
      if newest < e.id {
        assert e in After(s.stream, newest);
        var i :| 0 <= i < |After(s.stream, newest)| && After(s.stream, newest)[i] == e;
      }
    }
  }

  // ---------------------------------------------------------------- cursors

  lemma AppendKeepsCursors(s: Center, e: Entry)
    requires CursorInv(s)
    ensures CursorInv(Apply(s, Append(e)))
  {
    var t := Apply(s, Append(e));
    if t != s {
      assert forall x :: x in s.stream ==> x.id < e.id;
      if s.reader.Working? {
        AfterAppend(s.stream, s.reader.newest, e);
      }
    }
  }

  lemma ReadKeepsCursors(s: Center, count: nat)
    requires CursorInv(s)
    ensures CursorInv(Apply(s, Read(count)))
  {
  }

  lemma ExtendMessages(messages: seq<nat>, newest: nat, next: nat)
    requires StrictlyIncreasing(messages) && UpTo(messages, newest) && newest < next
    ensures StrictlyIncreasing(messages + [next]) && UpTo(messages + [next], next)
  {
    assert forall i :: 0 <= i < |messages| ==> messages[i] in messages;
  }

  /** The next entry of a segment is the next entry of the stream, and the rest of the segment follows it. */
  lemma SegmentStep(s: Center, newest: nat, todo: seq<Entry>, materialized: set<nat>)
    requires Sorted(s.stream) && todo != [] && todo <= After(s.stream, newest)
    requires Covered(s.stream, s.materialized, newest) && s.materialized <= materialized
    requires todo[0].isEvent ==> todo[0].id in materialized
    ensures newest < todo[0].id && Within(s.stream, todo[0].id)
    ensures todo[1..] <= After(s.stream, todo[0].id)
    ensures Covered(s.stream, materialized, todo[0].id)
  {
    AfterHead(s.stream, newest);
    assert After(s.stream, newest)[0] == todo[0];
    assert todo[0] in After(s.stream, newest);
    CoveredStep(s, newest, materialized);
    AfterStep(s.stream, newest);
  }

  lemma ProcessKeepsCursors(s: Center, o: EntryOutcome)
    requires CursorInv(s) && s.reader.Working? && s.reader.todo != []
    ensures CursorInv(Apply(s, Process(o)))
  {
    assert Apply(s, Process(o)) == AfterProcess(s, s.reader, o);
    assert s.fanned + [] == s.fanned;
    if o.Yields? {
      var r := s.reader;
      SegmentStep(s, r.newest, r.todo, AfterProcess(s, r, o).materialized);
      ExtendMessages(r.messages, r.newest, r.todo[0].id);
      CoveredMore(s.stream, s.materialized, AfterProcess(s, r, o).materialized, s.cursor);
    }
  }

  lemma CoveredMore(stream: seq<Entry>, m: set<nat>, m': set<nat>, id: nat)
    requires Covered(stream, m, id) && m <= m'
    ensures Covered(stream, m', id)
  {
  }

  lemma PersistKeepsCursors(s: Center, o: PersistOutcome)
    requires CursorInv(s)
    ensures CursorInv(Apply(s, Persist(o)))
  {
    var t := Apply(s, Persist(o));
    if s.reader.Working? && s.reader.todo == [] && t.reader.Persisted? {
      var m := s.reader.messages;
      assert t.fanned + Remaining(t.reader) == s.fanned + m;
      assert s.fanned + Remaining(s.reader) == s.fanned;
      assert forall i :: 0 <= i < |m| ==> m[i] in m;
      assert forall i :: 0 <= i < |s.fanned| ==> s.fanned[i] in s.fanned;
    }
  }

  lemma NextKeepsCursors(s: Center)
    requires CursorInv(s)
    ensures CursorInv(Apply(s, NextMessage))
  {
    var t := Apply(s, NextMessage);
    if s.reader.FanningOut? && s.reader.targets == [] {
      assert t.fanned + Remaining(t.reader) == s.fanned + Remaining(s.reader);
    }
  }

  lemma ShorterKeeps(a: seq<nat>, b: seq<nat>, id: nat)
    requires StrictlyIncreasing(a + b) && UpTo(a + b, id)
    ensures StrictlyIncreasing(a) && UpTo(a, id)
  {
    forall i, j | 0 <= i < j < |a|
      ensures a[i] < a[j]
    {
      assert (a + b)[i] == a[i] && (a + b)[j] == a[j];
    }
    forall m | m in a
      ensures m <= id
    {
      assert m in a + b;
    }
  }

  lemma OtherStepsKeepCursors(s: Center, a: Action)
    requires CursorInv(s)
    requires !a.Append? && !a.Read? && !a.Process? && !a.Persist? && !a.NextMessage?
    ensures CursorInv(Apply(s, a))
  {
    var t := Apply(s, a);
    ShorterKeeps(s.fanned, Remaining(s.reader), s.cursor);
    assert s.fanned + [] == s.fanned;
    if a.Snapshot? || a.Offer? {
      assert Remaining(t.reader) == Remaining(s.reader) || Remaining(t.reader) == [];
    }
  }

  lemma KeepsCursors(s: Center, a: Action)
    requires CursorInv(s)
    ensures CursorInv(Apply(s, a))
  {
    match a
    case Append(e) => AppendKeepsCursors(s, e);
    case Read(count) => ReadKeepsCursors(s, count);
    case Process(o) => if s.reader.Working? && s.reader.todo != [] { ProcessKeepsCursors(s, o); }
    case Persist(o) => PersistKeepsCursors(s, o);
    case NextMessage => NextKeepsCursors(s);
    case _ => OtherStepsKeepCursors(s, a);
  }

  // ---------------------------------------------------------------- offers

  /** Hub actions other than a scheduled put leave every queue's offers as they were. */
  lemma HubKeepsOffers(h: FanOut.State<nat>, a: FanOut.Action<nat>)
    requires !a.Schedule? && !a.Restart?
    ensures var t := FanOut.Apply(h, a);
            && t.past == h.past
            && (forall q :: q in t.channels ==>
                  t.channels[q].offered == if q in h.channels && !(a.Register? && 0 < a.maxSize && q == h.next)
                                           then h.channels[q].offered else [])
  {
  }

  lemma HubStepKeepsOffers(s: Center, a: FanOut.Action<nat>)
    requires OffersInv(s) && !a.Schedule? && !a.Restart?
    ensures OffersInv(s.(hub := FanOut.Apply(s.hub, a)))
  {
    FanOut.ApplyKeepsInv(s.hub, a);
    HubKeepsOffers(s.hub, a);
    var t := FanOut.Apply(s.hub, a);
    forall q | q in t.channels
      ensures Subsequence(t.channels[q].offered, s.fanned)
    {
      if t.channels[q].offered != [] {
        assert q in s.hub.channels;
      }
    }
    assert OfferedInOrder(t, s.fanned);
    assert TargetsWait(s.reader, t, s.fanned);
  }

  lemma {:induction false} ValuesFrom(m: map<nat, FanOut.Channel<nat>>, n: nat)
    ensures forall c :: c in FanOut.Values(m, n) ==> exists q :: q in m && m[q] == c
  {
    if n > 0 {
      ValuesFrom(m, n - 1);
    }
  }

  lemma CrashKeepsOffers(s: Center)
    requires OffersInv(s)
    ensures OffersInv(Apply(s, Crash))
  {
    FanOut.ApplyKeepsInv(s.hub, FanOut.Restart);
    ValuesFrom(s.hub.channels, s.hub.next);
  }

  lemma ScheduleKeepsOffers(h: FanOut.State<nat>, q: nat, m: nat, targets: seq<nat>, fanned: seq<nat>)
    requires OfferedInOrder(h, fanned) && NoDuplicates(targets) && targets != [] && targets[0] == q
    requires fanned != [] && fanned[|fanned| - 1] == m
    requires forall x :: x in targets && x in h.channels ==>
               Subsequence(h.channels[x].offered, fanned[..|fanned| - 1])
    ensures var t := FanOut.Apply(h, FanOut.Schedule(q, m));
            && OfferedInOrder(t, fanned)
            && (forall x :: x in targets[1..] && x in t.channels ==>
                  Subsequence(t.channels[x].offered, fanned[..|fanned| - 1]))
  {
  }

  lemma OfferKeepsOffers(s: Center, o: OfferOutcome)
    requires OffersInv(s) && s.reader.FanningOut? && s.reader.targets != []
    ensures OffersInv(Apply(s, Offer(o)))
  {
    if o.Scheduled? {
      var q, m := s.reader.targets[0], s.reader.current;
      FanOut.ApplyKeepsInv(s.hub, FanOut.Schedule(q, m));
      ScheduleKeepsOffers(s.hub, q, m, s.reader.targets, s.fanned);
    }
  }

  lemma NextKeepsOffers(s: Center)
    requires OffersInv(s)
    ensures OffersInv(Apply(s, NextMessage))
  {
    if s.reader.FanningOut? && s.reader.targets == [] && s.reader.messages != [] {
      var m := s.reader.messages[0];
      assert (s.fanned + [m])[..|s.fanned|] == s.fanned;
      forall q | q in s.hub.channels
        ensures Subsequence(s.hub.channels[q].offered, s.fanned + [m])
      {
        SubsequenceSkip(s.hub.channels[q].offered, s.fanned, m);
      }
      forall c | c in s.hub.past
        ensures Subsequence(c.offered, s.fanned + [m])
      {
        SubsequenceSkip(c.offered, s.fanned, m);
      }
    }
  }

  lemma KeepsOffers(s: Center, a: Action)
    requires OffersInv(s)
    ensures OffersInv(Apply(s, a))
  {
    match a
    case Offer(o) => if s.reader.FanningOut? && s.reader.targets != [] { OfferKeepsOffers(s, o); }
    case NextMessage => NextKeepsOffers(s);
    case Subscribe => HubStepKeepsOffers(s, FanOut.Register(FanOut.MESSAGE_QUEUE_SIZE));
    case Disconnect(q) => HubStepKeepsOffers(s, FanOut.Unregister(q));
    case RunCallback => HubStepKeepsOffers(s, FanOut.RunCallback);
    case Drain(q) => HubStepKeepsOffers(s, FanOut.Get(q, true));
    case Crash => CrashKeepsOffers(s);
    case _ => ReaderKeepsOffers(s, a);
  }

  /** The reader's actions outside the fan-out touch neither the queues nor the fan-out sequence. */
  lemma ReaderKeepsOffers(s: Center, a: Action)
    requires OffersInv(s)
    requires a.Append? || a.EnsureStarted? || a.Init? || a.Read? || a.Process? || a.Persist? || a.Snapshot? || a.Die?
    ensures OffersInv(Apply(s, a))
  {
    var t := Apply(s, a);
    assert t.hub == s.hub && t.fanned == s.fanned;
    assert t.reader == s.reader || !t.reader.FanningOut? || (a.Snapshot? && t.reader.targets == []);
  }

  // ---------------------------------------------------------------- every run

  lemma {:induction false} RunSplit(s: Center, a: seq<Action>, b: seq<Action>)
    ensures Run(s, a + b) == Run(Run(s, a), b)
    decreases |b|
  {
    if b == [] {
      assert a + b == a;
    } else {
      assert (a + b)[..|a + b| - 1] == a + b[..|b| - 1];
      RunSplit(s, a, b[..|b| - 1]);
    }
  }

  lemma RunFirst(s: Center, a: Action, rest: seq<Action>, t: Center)
    requires Apply(s, a) == t
    ensures Run(s, [a] + rest) == Run(t, rest)
  {
    RunSplit(s, [a], rest);
    assert [a][..0] == [];
    assert Run(s, [a]) == Apply(Run(s, []), a);
  }

  lemma {:induction false} EveryRunKeepsInv(actions: seq<Action>)
    ensures Inv(Run(Initial(), actions))
    decreases |actions|
  {
    if actions != [] {
      var s := Run(Initial(), actions[..|actions| - 1]);
      EveryRunKeepsInv(actions[..|actions| - 1]);
      KeepsCursors(s, actions[|actions| - 1]);
      KeepsOffers(s, actions[|actions| - 1]);
    }
  }

  /** The local cursor of a reader that has one. */
  function LocalCursor(s: Center): nat {
    match s.reader
    case Idle(last) => last
    case Working(last, _, _, _) => last
    case Persisted(last, _) => last
    case FanningOut(last, _, _, _, _) => last
    case _ => s.cursor
  }

  /** Whatever failed or restarted, messages are fanned out in stream order and never twice, and only
      once the persisted cursor covers them. */
  lemma FanOutIsIncreasing(actions: seq<Action>)
    ensures var s := Run(Initial(), actions);
            StrictlyIncreasing(s.fanned) && UpTo(s.fanned, s.cursor) && s.cursor <= LocalCursor(s)
  {
    EveryRunKeepsInv(actions);
    var s := Run(Initial(), actions);
    ShorterKeeps(s.fanned, Remaining(s.reader), s.cursor);
  }

  /** Every event entry at or below the persisted cursor has been materialized. */
  lemma MaterializedUpToCursor(actions: seq<Action>, e: Entry)
    requires var s := Run(Initial(), actions); e in s.stream && e.isEvent && e.id <= s.cursor
    ensures e.id in Run(Initial(), actions).materialized
  {
    EveryRunKeepsInv(actions);
  }

  lemma ChannelInOrder(c: FanOut.Channel<nat>, fanned: seq<nat>)
    requires FanOut.ChannelOk(c) && Subsequence(c.offered, fanned) && StrictlyIncreasing(fanned)
    ensures StrictlyIncreasing(c.received) && StrictlyIncreasing(c.offered)
    ensures Subsequence(c.received, fanned)
  {
    FanOut.ReceivedIsInOrder(c);
    SubsequenceTransitive(c.received, c.offered, fanned);
    SubsequenceIncreasing(c.offered, fanned);
    SubsequenceIncreasing(c.received, fanned);
  }

  /** No subscriber, of this process or an earlier one, receives a message twice or out of order. */
  lemma NoSubscriberSeesTwice(actions: seq<Action>, c: FanOut.Channel<nat>)
    requires var h := Run(Initial(), actions).hub; c in h.channels.Values || c in h.past
    ensures StrictlyIncreasing(c.received) && StrictlyIncreasing(c.offered)
    ensures |c.items| <= c.maxSize
    ensures Subsequence(c.received, Run(Initial(), actions).fanned)
  {
    EveryRunKeepsInv(actions);
    FanOutIsIncreasing(actions);
    var s := Run(Initial(), actions);
    if c in s.hub.channels.Values {
      var q :| q in s.hub.channels && s.hub.channels[q] == c;
      assert FanOut.ChannelInv(s.hub, q);
    }
    ChannelInOrder(c, s.fanned);
  }

  // ---------------------------------------------------------------- only messages with a body

  /** The step materializes the next entry of the batch and gets a body for its event. */
  predicate YieldsBody(s: Center, a: Action) {
    a == Process(Yields(true)) && s.reader.Working? && s.reader.todo != [] && s.reader.todo[0].isEvent
  }

  /** The ids for which the run got a body. */
  function Bodies(actions: seq<Action>): set<nat>
    decreases |actions|
  {
    if actions == [] then {} else
    var front, a := actions[..|actions| - 1], actions[|actions| - 1];
    var s := Run(Initial(), front);
    Bodies(front) + if YieldsBody(s, a) then {s.reader.todo[0].id} else {}
  }

  /** The messages of the batch that have not begun their fan-out. */
  function Pending(r: Reader): seq<nat> {
    if r.Working? || r.Persisted? || r.FanningOut? then r.messages else []
  }

  ghost predicate AllHave(bodies: set<nat>, s: Center) {
    forall m :: m in s.fanned || m in Pending(s.reader) ==> m in bodies
  }

  lemma KeepsBodies(s: Center, a: Action, bodies: set<nat>)
    requires AllHave(bodies, s)
    ensures AllHave(bodies + if YieldsBody(s, a) then {s.reader.todo[0].id} else {}, Apply(s, a))
  {
  }

  /** Only messages for which materializing yielded a body are fanned out. */
  lemma {:induction false} OnlyBodiesAreFannedOut(actions: seq<Action>)
    ensures AllHave(Bodies(actions), Run(Initial(), actions))
    ensures forall m :: m in Run(Initial(), actions).fanned ==> m in Bodies(actions)
    decreases |actions|
  {
    if actions != [] {
      var front := actions[..|actions| - 1];
      OnlyBodiesAreFannedOut(front);
      KeepsBodies(Run(Initial(), front), actions[|actions| - 1], Bodies(front));
    }
  }
}
