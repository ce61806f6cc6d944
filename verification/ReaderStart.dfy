/** Requests that race to start the reader thread: each takes the lock, looks whether a reader is alive, starts
    one if not, and gives the lock back. Threads end at any point. */
module ReaderStart {
  import opened Sequences

  datatype Phase = Waiting | Holding | MustStart | Served

  /** `thread` is the thread the application remembers; a thread is named by a number that is not used again. */
  datatype State = State(
    lock: Option<nat>, requests: map<nat, Phase>, thread: Option<nat>, alive: set<nat>, next: nat)

  datatype Action = Arrive(r: nat) | Acquire(r: nat) | Check(r: nat) | Start(r: nat) | End(t: nat)

  function Initial(): State {
    State(None, map[], None, {}, 0)
  }

  predicate In(s: State, r: nat, p: Phase) {
    r in s.requests && s.requests[r] == p
  }

  /** `locking` says whether the lock excludes anybody. */
  function Apply(s: State, a: Action, locking: bool): State {
    match a
    case Arrive(r) => if r in s.requests then s else s.(requests := s.requests[r := Waiting])
    case Acquire(r) =>
      if In(s, r, Waiting) && (s.lock.None? || !locking)
      then s.(lock := Some(r), requests := s.requests[r := Holding]) else s
    case Check(r) =>
      if !In(s, r, Holding) then s
      else if s.thread.Some? && s.thread.value in s.alive then s.(lock := None, requests := s.requests[r := Served])
      else s.(requests := s.requests[r := MustStart])
    case Start(r) =>
      if !In(s, r, MustStart) then s
      else State(None, s.requests[r := Served], Some(s.next), s.alive + {s.next}, s.next + 1)
    case End(t) => s.(alive := s.alive - {t})
  }

  function Run(s: State, actions: seq<Action>, locking: bool): State
    decreases |actions|
  {
    if actions == [] then s
    else Apply(Run(s, actions[..|actions| - 1], locking), actions[|actions| - 1], locking)
  }

  /** Whoever is between lock and release has the lock, and nobody is alive when a thread must be started. */
  ghost predicate Inv(s: State) {
    && (forall t :: t in s.alive ==> s.thread == Some(t))
    && (forall r: nat :: In(s, r, Holding) || In(s, r, MustStart) ==> s.lock == Some(r))
    && (forall r: nat :: In(s, r, MustStart) ==> s.alive == {})
  }

  lemma KeepsInv(s: State, a: Action)
    requires Inv(s)
    ensures Inv(Apply(s, a, true))
  {
    var t := Apply(s, a, true);
    forall r: nat | In(t, r, Holding) || In(t, r, MustStart)
      ensures t.lock == Some(r) && (In(t, r, MustStart) ==> t.alive == {})
    {
      assert In(s, r, Holding) || In(s, r, MustStart) || a == Acquire(r);
    }
  }

  /** Under the lock at most one reader is alive, however requests and thread ends interleave. */
  lemma {:induction false} AtMostOneReader(actions: seq<Action>)
    ensures var s := Run(Initial(), actions, true);
      Inv(s) && forall t, u :: t in s.alive && u in s.alive ==> t == u
    decreases |actions|
  {
    if actions != [] {
      AtMostOneReader(actions[..|actions| - 1]);
      KeepsInv(Run(Initial(), actions[..|actions| - 1], true), actions[|actions| - 1]);
    }
  }

  function RacingRequests(): seq<Action> {
    [Arrive(0), Arrive(1), Acquire(0), Acquire(1), Check(0), Check(1), Start(0), Start(1)]
  }

  lemma RunNext(s: State, actions: seq<Action>, i: nat, locking: bool)
    requires i < |actions|
    ensures Run(s, actions[..i + 1], locking) == Apply(Run(s, actions[..i], locking), actions[i], locking)
  {
    assert actions[..i + 1][..i] == actions[..i];
  }

  lemma BothMustStart()
    ensures Run(Initial(), RacingRequests()[..6], false) ==
      State(Some(1), map[0 := MustStart, 1 := MustStart], None, {}, 0)
  {
    var a, s := RacingRequests(), Initial();
    assert a[..0] == [];
    RunNext(s, a, 0, false);
    RunNext(s, a, 1, false);
    assert Run(s, a[..2], false).requests == map[0 := Waiting, 1 := Waiting];
    RunNext(s, a, 2, false);
    RunNext(s, a, 3, false);
    assert Run(s, a[..4], false).requests == map[0 := Holding, 1 := Holding];
    RunNext(s, a, 4, false);
    RunNext(s, a, 5, false);
  }

  /** Without it two requests can start a reader each. */
  lemma LockIsNeeded()
    ensures Run(Initial(), RacingRequests(), false).alive == {0, 1}
  {
    var a, s := RacingRequests(), Initial();
    assert a[..8] == a;
    BothMustStart();
    RunNext(s, a, 6, false);
    assert Run(s, a[..7], false) == State(None, map[0 := Served, 1 := MustStart], Some(0), {0}, 1);
    RunNext(s, a, 7, false);
  }
}
