/**
  The message center as a protocol. One reader thread consumes an append-only stream, materializes
  each entry, advances its local cursor, persists that cursor and only then offers the batch to a
  snapshot of the subscriber queues. Any of these calls can raise, and the thread or the whole
  process can end between any two actions.
*/
module MessageProtocol {
  import opened Sequences
  import FanOut

  const READ_LIMIT: nat := 100

  /** A stream entry; `isEvent` says whether its fields parse to a system message event. */
  datatype Entry = Entry(id: nat, isEvent: bool)

  /** Where the reader thread stands. `last` is its local cursor. */
  datatype Reader =
    | Dead
    | Starting
    | Idle(last: nat)
    | Working(last: nat, newest: nat, todo: seq<Entry>, messages: seq<nat>)
    | Persisted(last: nat, messages: seq<nat>)
    | FanningOut(last: nat, messages: seq<nat>, snapshot: seq<nat>, current: nat, targets: seq<nat>)

  /** `stream`, `cursor` and `materialized` live in Redis and survive a restart. A message is named by
      its stream id. `fanned` is history: the messages whose fan-out began. */
  datatype Center = Center(stream: seq<Entry>, cursor: nat, reader: Reader, materialized: set<nat>,
                           fanned: seq<nat>, hub: FanOut.State<nat>)

  datatype EntryOutcome = Raises | Yields(body: bool)
  datatype PersistOutcome = Written | RaisedUnwritten | RaisedWritten
  datatype OfferOutcome = Scheduled | LoopClosed | OfferRaised

  datatype Action =
    | Append(entry: Entry)
    | EnsureStarted
    | Init(ok: bool)
    | Read(count: nat)
    | Process(entryOutcome: EntryOutcome)
    | Persist(persistOutcome: PersistOutcome)
    | Snapshot
    | NextMessage
    | Offer(offerOutcome: OfferOutcome)
    | Subscribe
    | Disconnect(q: nat)
    | RunCallback
    | Drain(q: nat)
    | Die
    | Crash

  function Initial(): Center {
    Center([], 0, Dead, {}, [], FanOut.Initial())
  }

  function After(stream: seq<Entry>, id: nat): seq<Entry> {
    if stream == [] then [] else if stream[0].id <= id then After(stream[1..], id) else stream
  }

  /** The next segment of the stream after `id`, at most `count` entries. */
  function Segment(stream: seq<Entry>, id: nat, count: nat): seq<Entry> {
    var rest := After(stream, id);
    if count <= |rest| then rest[..count] else rest
  }

  function AfterPersist(s: Center, r: Reader, o: PersistOutcome): Center
    requires r.Working?
  {
    match o
    case Written => s.(cursor := r.newest,
                    reader := if r.messages == [] then Idle(r.newest) else Persisted(r.newest, r.messages))
    case RaisedUnwritten => s.(reader := Idle(r.newest))
    case RaisedWritten => s.(cursor := r.newest, reader := Idle(r.newest))
  }

  function AfterProcess(s: Center, r: Reader, o: EntryOutcome): Center
    requires r.Working? && r.todo != []
  {
    var e := r.todo[0];
    match o
    case Raises => s.(reader := Idle(r.last))
    case Yields(body) =>
      if !e.isEvent then
        s.(reader := r.(newest := e.id, todo := r.todo[1..]))
      else
        s.(materialized := s.materialized + {e.id},
        reader := r.(newest := e.id, todo := r.todo[1..],
        messages := if body then r.messages + [e.id] else r.messages))
  }

  function AfterOffer(s: Center, r: Reader, o: OfferOutcome): Center
    requires r.FanningOut? && r.targets != []
  {
    match o
    case Scheduled => s.(hub := FanOut.Apply(s.hub, FanOut.Schedule(r.targets[0], r.current)),
                      reader := r.(targets := r.targets[1..]))
    case LoopClosed => s.(reader := r.(targets := r.targets[1..]))
    case OfferRaised => s.(reader := Idle(r.last))
  }

  function AfterNext(s: Center, r: Reader): Center
    requires r.FanningOut? && r.targets == []
  {
    if r.messages == [] then s.(reader := Idle(r.last))
    else s.(fanned := s.fanned + [r.messages[0]],
         reader := r.(messages := r.messages[1..], current := r.messages[0], targets := r.snapshot))
  }

  /** One action; an action that is not enabled changes nothing. The thread can end and leave the queues
      as they are, or the whole process can. */
  function Apply(s: Center, a: Action): Center {
    var r := s.reader;
    match a
    case Append(e) =>
      if e.id == 0 || (s.stream != [] && e.id <= s.stream[|s.stream| - 1].id) then s
      else s.(stream := s.stream + [e])
    case EnsureStarted => if r.Dead? then s.(reader := Starting) else s
    case Init(ok) => if r.Starting? then s.(reader := if ok then Idle(s.cursor) else Dead) else s
    case Read(count) =>
      if !r.Idle? || Segment(s.stream, r.last, count) == [] then s
      else s.(reader := Working(r.last, r.last, Segment(s.stream, r.last, count), []))
    case Process(o) => if r.Working? && r.todo != [] then AfterProcess(s, r, o) else s
    case Persist(o) => if r.Working? && r.todo == [] then AfterPersist(s, r, o) else s
    case Snapshot =>
      if r.Persisted? then s.(reader := FanningOut(r.last, r.messages, s.hub.subscribers, 0, [])) else s
    case NextMessage => if r.FanningOut? && r.targets == [] then AfterNext(s, r) else s
    case Offer(o) => if r.FanningOut? && r.targets != [] then AfterOffer(s, r, o) else s
    case Subscribe => s.(hub := FanOut.Apply(s.hub, FanOut.Register(FanOut.MESSAGE_QUEUE_SIZE)))
    case Disconnect(q) => s.(hub := FanOut.Apply(s.hub, FanOut.Unregister(q)))
    case RunCallback => s.(hub := FanOut.Apply(s.hub, FanOut.RunCallback))
    case Drain(q) => s.(hub := FanOut.Apply(s.hub, FanOut.Get(q, true)))
    case Die => s.(reader := Dead)
    case Crash => s.(reader := Dead, hub := FanOut.Apply(s.hub, FanOut.Restart))
  }

  function Run(s: Center, actions: seq<Action>): Center
    decreases |actions|
  {
    if actions == [] then s
    else Apply(Run(s, actions[..|actions| - 1]), actions[|actions| - 1])
  }

  // ---------------------------------------------------------------- invariants

  ghost predicate Sorted(stream: seq<Entry>) {
    && (forall e :: e in stream ==> 0 < e.id)
    && (forall i, j :: 0 <= i < j < |stream| ==> stream[i].id < stream[j].id)
  }

  /** Every event entry with an id up to `id` has been through a completed materialize call. */
  ghost predicate Covered(stream: seq<Entry>, materialized: set<nat>, id: nat) {
    forall e :: e in stream && e.isEvent && e.id <= id ==> e.id in materialized
  }

  /** The cursor `id` does not run ahead of the stream. */
  ghost predicate Within(stream: seq<Entry>, id: nat) {
    id == 0 || (stream != [] && id <= stream[|stream| - 1].id)
  }

  ghost predicate Above(messages: seq<nat>, id: nat) {
    forall m :: m in messages ==> id < m
  }

  ghost predicate UpTo(messages: seq<nat>, id: nat) {
    forall m :: m in messages ==> m <= id
  }

  /** The messages of the current batch that are still to be fanned out. */
  function Remaining(r: Reader): seq<nat> {
    if r.Persisted? || r.FanningOut? then r.messages else []
  }

  ghost predicate ReaderInv(s: Center) {
    match s.reader
    case Dead => true
    case Starting => true
    case Idle(last) => s.cursor <= last && Within(s.stream, last) && Covered(s.stream, s.materialized, last)
    case Working(last, newest, todo, messages) =>
      && s.cursor <= last <= newest && Within(s.stream, newest) && Covered(s.stream, s.materialized, newest)
      && todo <= After(s.stream, newest)
      && StrictlyIncreasing(messages) && Above(messages, last) && UpTo(messages, newest)
      && (todo == [] ==> last < newest)
    case Persisted(last, messages) =>
      s.cursor == last && Covered(s.stream, s.materialized, last)
    case FanningOut(last, messages, snapshot, current, targets) =>
      s.cursor == last && Covered(s.stream, s.materialized, last)
  }

  ghost predicate CursorInv(s: Center) {
    && Sorted(s.stream)
    && StrictlyIncreasing(s.fanned + Remaining(s.reader)) && UpTo(s.fanned + Remaining(s.reader), s.cursor)
    && Within(s.stream, s.cursor) && Covered(s.stream, s.materialized, s.cursor)
    && ReaderInv(s)
  }

  /** Each queue was offered an in-order part of the fan-out sequence. */
  ghost predicate OfferedInOrder(h: FanOut.State<nat>, fanned: seq<nat>) {
    && (forall q :: q in h.channels ==> Subsequence(h.channels[q].offered, fanned))
    && (forall c :: c in h.past ==> Subsequence(c.offered, fanned))
  }

  /** A queue that still waits for the current message was offered part of what came before it. */
  ghost predicate TargetsWait(r: Reader, h: FanOut.State<nat>, fanned: seq<nat>) {
    r.FanningOut? ==>
      && NoDuplicates(r.snapshot) && NoDuplicates(r.targets)
      && (r.targets != [] ==> fanned != [] && fanned[|fanned| - 1] == r.current)
      && (forall q :: q in r.targets && q in h.channels ==>
            fanned != [] && Subsequence(h.channels[q].offered, fanned[..|fanned| - 1]))
  }

  ghost predicate OffersInv(s: Center) {
    && FanOut.Inv(s.hub)
    && OfferedInOrder(s.hub, s.fanned)
    && TargetsWait(s.reader, s.hub, s.fanned)
  }

  ghost predicate Inv(s: Center) {
    CursorInv(s) && OffersInv(s)
  }
}
