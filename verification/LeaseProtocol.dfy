/**
  One service row under sweeps. A sweep reads the process state, the lease and the health hash in
  separate calls, any of which may fail, then decides by the clock and deletes the lease fields.
  Any number of requests sweep at once. Heartbeats, control writes, process changes and the expiry of
  the hash happen at any point between.
*/
module LeaseProtocol {
  import opened Sequences
  import Text
  import opened IngestHealth

  /** Where a sweep stands; `at` is the control time it read and `readTime` when it read it. */
  datatype Sweep =
    | Off
    | HaveActive(active: string)
    | HaveEnv(active: string)
    | HaveAt(active: string, at: Option<real>, readTime: real)
    | HaveLive(active: string, at: Option<real>, readTime: real, live: bool)
    | Clearing(active: string, at: Option<real>, readTime: real, decideTime: real)

  /** The sweeps of the requests by number. `lastWrite` is history: the time of the last control write, kept when
      the lease is cleared and forgotten when the hash expires. */
  datatype Row = Row(
    sid: string, now: real, active: string, hash: Hash, sweeps: map<nat, Sweep>, lastWrite: Option<real>)

  datatype SweepStep =
    | Begin(ok: bool)
    | ReadEnv(ok: bool)
    | ReadAt(ok: bool)
    | ReadLive(ok: bool)
    | Decide
    | Clear(ok: bool)

  datatype Action =
    | Tick(seconds: real)
    | Heartbeat(truthy: set<string>, profile: Option<string>)
    | ControlWrite(env: string, host: string)
    | SetActive(active: string)
    | Expire
    | Step(w: nat, step: SweepStep)

  function Initial(sid: string): Row {
    Row(sid, 0.0, "inactive", NO_HASH, map[], None)
  }

  function SweepOf(s: Row, w: nat): Sweep {
    if w in s.sweeps then s.sweeps[w] else Off
  }

  function Decided(x: Sweep, now: real): Sweep
    requires x.HaveLive?
  {
    if !x.live && !RecentControlWrite(x.at, now) && !CountsAsRunning(x.active)
    then Clearing(x.active, x.at, x.readTime, now) else Off
  }

  /** A failed read of the process state is "unknown", of the lease "none", of the health "not live". */
  function Next(s: Row, x: Sweep, step: SweepStep): Sweep {
    match step
    case Begin(ok) => if x == Off then HaveActive(if ok then s.active else "unknown") else x
    case ReadEnv(ok) =>
      if !x.HaveActive? then x
      else if ok && HeldEnv(s.hash).Some? && s.sid != "trading_engine" then HaveEnv(x.active) else Off
    case ReadAt(ok) => if x.HaveEnv? then HaveAt(x.active, if ok then s.hash.controlAt else None, s.now) else x
    case ReadLive(ok) =>
      if x.HaveAt? then HaveLive(x.active, x.at, x.readTime, ok && LooksLive(s.hash, s.now, s.sid)) else x
    case Decide => if x.HaveLive? then Decided(x, s.now) else x
    case Clear(ok) => if x.Clearing? then Off else x
  }

  function Apply(s: Row, a: Action): Row {
    match a
    case Tick(seconds) => if seconds < 0.0 then s else s.(now := s.now + seconds)
    case Heartbeat(truthy, profile) => s.(hash := s.hash.(updatedAt := s.now, truthy := truthy, profile := profile))
    case ControlWrite(env, host) =>
      if NormalizeProfile(Some(env)).None? then s
      else s.(hash := s.hash.(controlEnv := Some(env), controlHost := Some(host), controlAt := Some(s.now)),
           lastWrite := Some(s.now))
    case SetActive(active) => s.(active := active)
    case Expire => s.(hash := NO_HASH, lastWrite := None)
    case Step(w, step) =>
      s.(hash := if SweepOf(s, w).Clearing? && step == Clear(true) then Cleared(s.hash) else s.hash,
      sweeps := s.sweeps[w := Next(s, SweepOf(s, w), step)])
  }

  function Run(s: Row, actions: seq<Action>): Row
    decreases |actions|
  {
    if actions == [] then s
    else Apply(Run(s, actions[..|actions| - 1]), actions[|actions| - 1])
  }

  lemma RunNext(s: Row, actions: seq<Action>, a: Action)
    ensures Run(s, actions + [a]) == Apply(Run(s, actions), a)
  {
    assert (actions + [a])[..|actions|] == actions;
  }

  // ---------------------------------------------------------------- an atomic sweep

  /** A sweep whose calls all succeed and that nothing comes between. */
  function AtomicSteps(w: nat): seq<Action> {
    [Step(w, Begin(true)), Step(w, ReadEnv(true)), Step(w, ReadAt(true)), Step(w, ReadLive(true)), Step(w, Decide),
     Step(w, Clear(true))]
  }

  function AtomicSweep(s: Row, w: nat): Row {
    Run(s, AtomicSteps(w))
  }

  /** A lease nobody stands behind any more. */
  predicate Orphaned(s: Row) {
    && s.sid != "trading_engine"
    && HeldEnv(s.hash).Some?
    && !LooksLive(s.hash, s.now, s.sid)
    && !RecentControlWrite(s.hash.controlAt, s.now)
    && !CountsAsRunning(s.active)
  }

  lemma RunUpTo(s: Row, actions: seq<Action>, i: nat)
    requires i < |actions|
    ensures Run(s, actions[..i + 1]) == Apply(Run(s, actions[..i]), actions[i])
  {
    assert actions[..i + 1][..i] == actions[..i];
  }

  /** Only the sweep that takes a step moves. */
  function With(s: Row, w: nat, x: Sweep): Row {
    s.(sweeps := s.sweeps[w := x])
  }

  lemma StepTo(s: Row, w: nat, x: Sweep, step: SweepStep)
    ensures Apply(With(s, w, x), Step(w, step)) ==
      With(if x.Clearing? && step == Clear(true) then s.(hash := Cleared(s.hash)) else s, w, Next(s, x, step))
  {
    var t := With(s, w, x);
    assert t.sweeps[w := Next(s, x, step)] == s.sweeps[w := Next(s, x, step)];
  }

  /** One more step of a run in which only the sweep moves. */
  lemma SweepRun(start: Row, actions: seq<Action>, i: nat, s: Row, w: nat, x: Sweep, step: SweepStep, y: Sweep)
    requires i < |actions| && actions[i] == Step(w, step) && !x.Clearing?
    requires Run(start, actions[..i]) == With(s, w, x) && y == Next(s, x, step)
    ensures Run(start, actions[..i + 1]) == With(s, w, y)
  {
    RunUpTo(start, actions, i);
    StepTo(s, w, x, step);
  }

  function AfterReads(s: Row): Sweep {
    if HeldEnv(s.hash).Some? && s.sid != "trading_engine"
    then HaveLive(s.active, s.hash.controlAt, s.now, LooksLive(s.hash, s.now, s.sid)) else Off
  }

  lemma AtomicSweepReads(s: Row, w: nat)
    requires SweepOf(s, w) == Off
    ensures Run(s, AtomicSteps(w)[..4]) == With(s, w, AfterReads(s))
  {
    var a := AtomicSteps(w);
    var x, z := HaveActive(s.active), AfterReads(s);
    AtomicSweepBegins(s, w);
    if z == Off {
      SweepRun(s, a, 1, s, w, x, ReadEnv(true), Off);
      SweepRun(s, a, 2, s, w, Off, ReadAt(true), Off);
      SweepRun(s, a, 3, s, w, Off, ReadLive(true), Off);
    } else {
      var y := HaveAt(s.active, s.hash.controlAt, s.now);
      SweepRun(s, a, 1, s, w, x, ReadEnv(true), HaveEnv(s.active));
      SweepRun(s, a, 2, s, w, HaveEnv(s.active), ReadAt(true), y);
      SweepRun(s, a, 3, s, w, y, ReadLive(true), z);
    }
  }

  lemma AtomicSweepBegins(s: Row, w: nat)
    requires SweepOf(s, w) == Off
    ensures Run(s, AtomicSteps(w)[..1]) == With(s, w, HaveActive(s.active))
  {
    var a := AtomicSteps(w);
    assert a[..0] == [];
    RunUpTo(s, a, 0);
  }

  /** An atomic sweep clears exactly the orphaned lease, and touches nothing else, health included. */
  lemma AtomicSweepClearsOrphans(s: Row, w: nat)
    requires SweepOf(s, w) == Off
    ensures AtomicSweep(s, w) == With(if Orphaned(s) then s.(hash := Cleared(s.hash)) else s, w, Off)
  {
    var a := AtomicSteps(w);
    AtomicSweepReads(s, w);
    var y := Next(s, AfterReads(s), Decide);
    SweepRun(s, a, 4, s, w, AfterReads(s), Decide, y);
    RunUpTo(s, a, 5);
    assert a[..6] == a;
    StepTo(s, w, y, Clear(true));
  }

  // ---------------------------------------------------------------- invariants of every run

  /** The time the sweep read its control time. */
  function ReadTime(x: Sweep): Option<real> {
    match x
    case HaveAt(_, _, t) => Some(t)
    case HaveLive(_, _, t, _) => Some(t)
    case Clearing(_, _, t, _) => Some(t)
    case _ => None
  }

  /** The control time the sweep read. */
  function AtOf(x: Sweep): Option<Option<real>> {
    match x
    case HaveAt(_, at, _) => Some(at)
    case HaveLive(_, at, _, _) => Some(at)
    case Clearing(_, at, _, _) => Some(at)
    case _ => None
  }

  ghost predicate LeaseInv(s: Row) {
    && (s.hash.controlAt.Some? ==> s.hash.controlAt.value <= s.now && s.lastWrite == s.hash.controlAt)
    && (s.lastWrite.Some? ==> s.lastWrite.value <= s.now)
    && (s.hash.controlEnv.Some? <==> s.hash.controlAt.Some?)
    && (s.hash.controlEnv.Some? ==> HeldEnv(s.hash).Some?)
  }

  /** What a sweep carries is older than now, and what it read precedes the last write. */
  ghost predicate SweepInv(s: Row, x: Sweep) {
    && (ReadTime(x).Some? ==> ReadTime(x).value <= s.now)
    && (AtOf(x).Some? && AtOf(x).value.Some? ==>
          AtOf(x).value.value <= s.now && (s.lastWrite.Some? ==> AtOf(x).value.value <= s.lastWrite.value))
    && (x.Clearing? ==> x.decideTime <= s.now && !RecentControlWrite(x.at, x.decideTime) && !CountsAsRunning(x.active))
    && (x.HaveEnv? || x.HaveAt? || x.HaveLive? || x.Clearing? ==> s.sid != "trading_engine")
  }

  ghost predicate Inv(s: Row) {
    LeaseInv(s) && forall w: nat :: SweepInv(s, SweepOf(s, w))
  }

  lemma OutsideKeepsInv(s: Row, a: Action)
    requires Inv(s) && !a.Step?
    ensures Inv(Apply(s, a))
  {
    var t := Apply(s, a);
    forall w: nat
      ensures SweepInv(t, SweepOf(t, w))
    {
      assert SweepOf(t, w) == SweepOf(s, w);
    }
  }

  lemma NextKeepsSweep(s: Row, x: Sweep, step: SweepStep)
    requires LeaseInv(s) && SweepInv(s, x)
    ensures SweepInv(s, Next(s, x, step))
  {
  }

  lemma StepKeepsInv(s: Row, w: nat, step: SweepStep)
    requires Inv(s)
    ensures Inv(Apply(s, Step(w, step)))
  {
    var t := Apply(s, Step(w, step));
    forall v: nat
      ensures SweepInv(t, SweepOf(t, v))
    {
      NextKeepsSweep(s, SweepOf(s, v), step);
    }
  }

  lemma {:induction false} EveryRunKeepsInv(sid: string, actions: seq<Action>)
    ensures Inv(Run(Initial(sid), actions)) && Run(Initial(sid), actions).sid == sid
    decreases |actions|
  {
    if actions != [] {
      var front, a := actions[..|actions| - 1], actions[|actions| - 1];
      EveryRunKeepsInv(sid, front);
      if a.Step? {
        StepKeepsInv(Run(Initial(sid), front), a.w, a.step);
      } else {
        OutsideKeepsInv(Run(Initial(sid), front), a);
      }
    }
  }

  // ---------------------------------------------------------------- an attended lease

  /** No expiry, and every read of the control time succeeds. */
  predicate Harmless(a: Action) {
    !a.Expire? && a != Step(if a.Step? then a.w else 0, ReadAt(false))
  }

  /** The lease is never older than `period`, and a sweep decides within `delay` of reading its age. */
  ghost predicate Timely(s: Row, period: real, delay: real) {
    && (s.lastWrite.Some? ==> s.now - s.lastWrite.value <= period)
    && (forall w: nat :: SweepOf(s, w).HaveAt? || SweepOf(s, w).HaveLive? ==> s.now - SweepOf(s, w).readTime <= delay)
  }

  ghost predicate Attended(sid: string, actions: seq<Action>, period: real, delay: real)
    decreases |actions|
  {
    && Timely(Run(Initial(sid), actions), period, delay)
    && (actions != [] ==>
          Harmless(actions[|actions| - 1]) && Attended(sid, actions[..|actions| - 1], period, delay))
  }

  /** The last control write is still there. */
  ghost predicate Kept(s: Row) {
    s.hash.controlAt == s.lastWrite && (s.lastWrite.Some? ==> HeldEnv(s.hash).Some?)
  }

  ghost predicate SafeSweep(s: Row, x: Sweep, period: real) {
    && (x.HaveEnv? ==> s.lastWrite.Some?)
    && (x.HaveAt? || x.HaveLive? ==> x.at.Some? && x.readTime - x.at.value <= period)
    && !x.Clearing?
  }

  ghost predicate Safe(s: Row, period: real) {
    s.lastWrite == s.hash.controlAt && forall w: nat :: SafeSweep(s, SweepOf(s, w), period)
  }

  lemma OutsideIsSafe(s: Row, a: Action, period: real)
    requires Safe(s, period) && !a.Step? && !a.Expire?
    ensures Safe(Apply(s, a), period)
  {
    var t := Apply(s, a);
    forall w: nat
      ensures SafeSweep(t, SweepOf(t, w), period)
    {
      assert SafeSweep(s, SweepOf(s, w), period);
    }
  }

  lemma StepIsSafe(s: Row, w: nat, step: SweepStep, period: real, delay: real)
    requires Inv(s) && Safe(s, period) && Timely(s, period, delay) && step != ReadAt(false)
    requires period + delay <= CONTROL_WRITE_GRACE || s.sid == "trading_engine"
    ensures Safe(Apply(s, Step(w, step)), period)
  {
    var t := Apply(s, Step(w, step));
    assert SafeSweep(s, SweepOf(s, w), period);
    assert t.hash == s.hash;
    forall v: nat
      ensures SafeSweep(t, SweepOf(t, v), period)
    {
      assert SafeSweep(s, SweepOf(s, v), period);
    }
  }

  /** With a rewrite at least every `period` seconds and sweeps that decide within `delay` seconds of reading the
      age, both together no more than the grace, the last control write is always still there; the daemon's is
      whatever the two are. */
  lemma {:induction false} AttendedLeaseIsKept(sid: string, actions: seq<Action>, period: real, delay: real)
    requires Attended(sid, actions, period, delay)
    requires period + delay <= CONTROL_WRITE_GRACE || sid == "trading_engine"
    ensures Kept(Run(Initial(sid), actions)) && Safe(Run(Initial(sid), actions), period)
    decreases |actions|
  {
    EveryRunKeepsInv(sid, actions);
    if actions != [] {
      var front, a := actions[..|actions| - 1], actions[|actions| - 1];
      AttendedLeaseIsKept(sid, front, period, delay);
      EveryRunKeepsInv(sid, front);
      if a.Step? {
        StepIsSafe(Run(Initial(sid), front), a.w, a.step, period, delay);
      } else {
        OutsideIsSafe(Run(Initial(sid), front), a, period);
      }
    }
  }

  // ---------------------------------------------------------------- an attended lease that is lost

  /** A lease written at `at` on a row without health or a running process, and one sweep. */
  function HeldSince(sid: string, at: real, now: real, x: Sweep): Row {
    Row(sid, now, "inactive", NO_HASH.(controlEnv := Some("dev"), controlHost := Some("h"), controlAt := Some(at)),
        map[0 := x], Some(at))
  }

  lemma DevIsProfile()
    ensures NormalizeProfile(Some("dev")) == Some("dev")
  {
    Text.StripIdentity("dev");
    assert Lower("dev") == "dev";
  }

  lemma InactiveIsNotRunning()
    ensures !CountsAsRunning("inactive")
  {
  }

  /** An attended run with one action more. */
  lemma Attend(sid: string, actions: seq<Action>, a: Action, t: Row, period: real, delay: real)
    returns (more: seq<Action>)
    requires Attended(sid, actions, period, delay) && Harmless(a)
    requires Apply(Run(Initial(sid), actions), a) == t && Timely(t, period, delay)
    ensures Attended(sid, more, period, delay) && Run(Initial(sid), more) == t
  {
    more := actions + [a];
    RunNext(Initial(sid), actions, a);
    assert more[..|actions|] == actions;
  }

  /** A sweep step on such a row. */
  lemma HeldStep(sid: string, at: real, now: real, x: Sweep, step: SweepStep)
    requires !x.Clearing?
    ensures Apply(HeldSince(sid, at, now, x), Step(0, step)) ==
      HeldSince(sid, at, now, Next(HeldSince(sid, at, now, Off), x, step))
  {
    assert map[0 := x][0 := Next(HeldSince(sid, at, now, Off), x, step)] ==
      map[0 := Next(HeldSince(sid, at, now, Off), x, step)];
  }

  lemma HeldIsHeld(sid: string, at: real, now: real)
    ensures var s := HeldSince(sid, at, now, Off);
      HeldEnv(s.hash).Some? && !LooksLive(s.hash, now, sid)
  {
    DevIsProfile();
  }

  lemma HeldReadsDead(sid: string, at: real, now: real, was: Option<real>, readTime: real)
    ensures Next(HeldSince(sid, at, now, Off), HaveAt("inactive", was, readTime), ReadLive(true)) ==
      HaveLive("inactive", was, readTime, false)
  {
    HeldIsHeld(sid, at, now);
  }

  lemma AttendStep(
    sid: string, actions: seq<Action>, at: real, now: real, x: Sweep, step: SweepStep, y: Sweep,
    period: real, delay: real) returns (more: seq<Action>)
    requires Attended(sid, actions, period, delay) && Run(Initial(sid), actions) == HeldSince(sid, at, now, x)
    requires !x.Clearing? && step != ReadAt(false) && y == Next(HeldSince(sid, at, now, Off), x, step)
    requires now - at <= period && (y.HaveAt? || y.HaveLive? ==> now - y.readTime <= delay)
    ensures Attended(sid, more, period, delay) && Run(Initial(sid), more) == HeldSince(sid, at, now, y)
  {
    HeldStep(sid, at, now, x, step);
    more := Attend(sid, actions, Step(0, step), HeldSince(sid, at, now, y), period, delay);
  }

  /** A control write and a wait. */
  lemma AttendWait(
    sid: string, actions: seq<Action>, at: real, now: real, x: Sweep, wait: real, period: real, delay: real)
    returns (more: seq<Action>)
    requires Attended(sid, actions, period, delay) && Run(Initial(sid), actions) == HeldSince(sid, at, now, x)
    requires 0.0 <= wait <= period && (x.HaveAt? || x.HaveLive? ==> now + wait - x.readTime <= delay)
    ensures Attended(sid, more, period, delay)
    ensures Run(Initial(sid), more) == HeldSince(sid, now, now + wait, x)
  {
    DevIsProfile();
    var written := HeldSince(sid, now, now, x);
    assert Apply(HeldSince(sid, at, now, x), ControlWrite("dev", "h")) == written;
    more := Attend(sid, actions, ControlWrite("dev", "h"), written, period, delay);
    assert Apply(written, Tick(wait)) == HeldSince(sid, now, now + wait, x);
    more := Attend(sid, more, Tick(wait), HeldSince(sid, now, now + wait, x), period, delay);
  }

  function Waits(n: nat, wait: real): real {
    if n == 0 then 0.0 else Waits(n - 1, wait) + wait
  }

  lemma {:induction false} WaitsAdd(n: nat, wait: real)
    ensures Waits(n, wait) == n as real * wait
    ensures wait >= 0.0 ==> Waits(n, wait) >= 0.0
  {
    if n > 0 {
      WaitsAdd(n - 1, wait);
      assert n as real == (n - 1) as real + 1.0;
    }
  }

  /** Waiting `n` times, each time after a rewrite. */
  lemma {:induction false} AttendWaits(
    sid: string, actions: seq<Action>, at: real, now: real, x: Sweep, wait: real, n: nat, period: real, delay: real)
    returns (more: seq<Action>, lastWrite: real)
    requires Attended(sid, actions, period, delay) && Run(Initial(sid), actions) == HeldSince(sid, at, now, x)
    requires 0.0 <= wait <= period && (x.HaveAt? || x.HaveLive? ==> now + Waits(n, wait) - x.readTime <= delay)
    requires now - at <= period
    ensures Attended(sid, more, period, delay) && now + Waits(n, wait) - lastWrite <= period
    ensures Run(Initial(sid), more) == HeldSince(sid, lastWrite, now + Waits(n, wait), x)
  {
    if n == 0 {
      more, lastWrite := actions, at;
    } else {
      more, lastWrite := AttendWaits(sid, actions, at, now, x, wait, n - 1, period, delay);
      var soon := now + Waits(n - 1, wait);
      more := AttendWait(sid, more, lastWrite, soon, x, wait, period, delay);
      lastWrite := soon;
    }
  }

  /** Each wait is no longer than the period, and together they are the delay. */
  lemma Shares(period: real, delay: real) returns (n: nat, wait: real)
    requires period > 0.0 && delay >= 0.0
    ensures 0.0 <= wait <= period && Waits(n, wait) == delay
  {
    var q := delay / period;
    assert q * period == delay;
    n := q.Floor + 1;
    wait := Share(n as real, q, period, delay);
    WaitsAdd(n, wait);
  }

  lemma Share(m: real, q: real, period: real, delay: real) returns (wait: real)
    requires period > 0.0 && delay >= 0.0 && q * period == delay && m > q >= 0.0
    ensures 0.0 <= wait <= period && m * wait == delay
  {
    wait := delay / m;
    assert m * wait == delay;
    assert (m - q) * period == m * period - delay;
    assert (m - q) * period >= 0.0;
    assert (period - wait) * m == m * period - delay;
  }

  /** A lease written at time 0 and left for a period. */
  lemma OldLease(sid: string, period: real, delay: real) returns (actions: seq<Action>)
    requires period > 0.0 && delay >= 0.0
    ensures Attended(sid, actions, period, delay)
    ensures Run(Initial(sid), actions) == HeldSince(sid, 0.0, period, Off)
  {
    DevIsProfile();
    var begun := Initial(sid).(sweeps := map[0 := Off]);
    assert Apply(Initial(sid), Step(0, Decide)) == begun;
    assert Timely(Initial(sid), period, delay) && Timely(begun, period, delay);
    actions := Attend(sid, [], Step(0, Decide), begun, period, delay);
    assert Apply(begun, ControlWrite("dev", "h")) == HeldSince(sid, 0.0, 0.0, Off);
    actions := Attend(sid, actions, ControlWrite("dev", "h"), HeldSince(sid, 0.0, 0.0, Off), period, delay);
    actions := AttendWait(sid, actions, 0.0, 0.0, Off, period, period, delay);
  }

  /** Such a lease whose age a sweep has read. */
  lemma OldReading(sid: string, period: real, delay: real) returns (actions: seq<Action>)
    requires period > 0.0 && delay >= 0.0 && sid != "trading_engine"
    ensures Attended(sid, actions, period, delay)
    ensures Run(Initial(sid), actions) ==
      HeldSince(sid, 0.0, period, HaveLive("inactive", Some(0.0), period, false))
  {
    actions := OldLease(sid, period, delay);
    HeldIsHeld(sid, 0.0, period);
    actions := AttendStep(sid, actions, 0.0, period, Off, Begin(true), HaveActive("inactive"), period, delay);
    actions := AttendStep(
      sid, actions, 0.0, period, HaveActive("inactive"), ReadEnv(true), HaveEnv("inactive"), period, delay);
    var x := HaveAt("inactive", Some(0.0), period);
    actions := AttendStep(sid, actions, 0.0, period, HaveEnv("inactive"), ReadAt(true), x, period, delay);
    var y := HaveLive("inactive", Some(0.0), period, false);
    actions := AttendStep(sid, actions, 0.0, period, x, ReadLive(true), y, period, delay);
  }

  lemma AttendClear(sid: string, actions: seq<Action>, at: real, now: real, x: Sweep, period: real, delay: real)
    returns (more: seq<Action>)
    requires Attended(sid, actions, period, delay) && Run(Initial(sid), actions) == HeldSince(sid, at, now, x)
    requires x.Clearing? && now - at <= period
    ensures Attended(sid, more, period, delay) && !Kept(Run(Initial(sid), more))
  {
    var s := HeldSince(sid, at, now, x);
    var t := s.(hash := Cleared(s.hash), sweeps := map[0 := Off]);
    assert Apply(s, Step(0, Clear(true))) == t;
    assert Timely(t, period, delay);
    more := Attend(sid, actions, Step(0, Clear(true)), t, period, delay);
  }

  /** Where the two together are more than the grace, some attended run loses a lease that was just rewritten. */
  lemma AttendedLeaseIsLost(sid: string, period: real, delay: real) returns (actions: seq<Action>)
    requires period > 0.0 && delay >= 0.0 && period + delay > CONTROL_WRITE_GRACE && sid != "trading_engine"
    ensures Attended(sid, actions, period, delay) && !Kept(Run(Initial(sid), actions))
  {
    actions := OldReading(sid, period, delay);
    var x := HaveLive("inactive", Some(0.0), period, false);
    var n, wait := Shares(period, delay);
    var lastWrite;
    actions, lastWrite := AttendWaits(sid, actions, 0.0, period, x, wait, n, period, delay);
    InactiveIsNotRunning();
    var now := period + delay;
    var y := Clearing("inactive", Some(0.0), period, now);
    actions := AttendStep(sid, actions, lastWrite, now, x, Decide, y, period, delay);
    actions := AttendClear(sid, actions, lastWrite, now, y, period, delay);
  }

  /** A lease rewritten at least every `period` seconds, under sweeps that decide within `delay` seconds of reading
      its age, is kept in every run exactly when both together are no more than the grace, or the row is the
      daemon's. */
  lemma AttendedLeaseIsKeptIff(sid: string, period: real, delay: real)
    requires period > 0.0 && delay >= 0.0
    ensures (forall actions :: Attended(sid, actions, period, delay) ==> Kept(Run(Initial(sid), actions)))
      <==> period + delay <= 120.0 || sid == "trading_engine"
  {
    if period + delay <= CONTROL_WRITE_GRACE || sid == "trading_engine" {
      forall actions | Attended(sid, actions, period, delay)
        ensures Kept(Run(Initial(sid), actions))
      {
        AttendedLeaseIsKept(sid, actions, period, delay);
      }
    } else {
      var actions := AttendedLeaseIsLost(sid, period, delay);
    }
  }

  // ---------------------------------------------------------------- what a clear has behind it

  /** Whatever fails and whatever comes between, a sweep about to clear a lease written within the grace
      read no control time at all, or read one from before the lease was rewritten. */
  lemma FreshLossNeedsStaleRead(sid: string, actions: seq<Action>, w: nat)
    requires var s := Run(Initial(sid), actions);
             SweepOf(s, w).Clearing? && RecentControlWrite(s.hash.controlAt, s.now)
    ensures var s := Run(Initial(sid), actions);
            && sid != "trading_engine"
            && (SweepOf(s, w).at.None? || SweepOf(s, w).at.value < s.hash.controlAt.value)
  {
    EveryRunKeepsInv(sid, actions);
    var s := Run(Initial(sid), actions);
    assert SweepInv(s, SweepOf(s, w));
  }

  /** A sweep that has read everything clears a fresh lease by its own last steps exactly when it saw neither a
      running process nor a live service, and the age it read is missing, or past the grace by now and so not
      the lease's own any more. */
  lemma FreshLossIff(sid: string, actions: seq<Action>, w: nat)
    requires var s := Run(Initial(sid), actions);
             SweepOf(s, w).HaveLive? && RecentControlWrite(s.hash.controlAt, s.now)
    ensures var s := Run(Initial(sid), actions);
      var x, t := SweepOf(s, w), Apply(Apply(s, Step(w, Decide)), Step(w, Clear(true)));
      t.hash.controlAt != s.hash.controlAt <==>
      && !x.live && !CountsAsRunning(x.active)
      && (x.at.None? || (x.at.value < s.hash.controlAt.value && s.now - x.at.value > CONTROL_WRITE_GRACE))
  {
    EveryRunKeepsInv(sid, actions);
    var s := Run(Initial(sid), actions);
    assert SweepInv(s, SweepOf(s, w));
  }

  /** An action takes a fresh lease away exactly if it is the hash's expiry, or the delete of a sweep that has
      decided; and that sweep read no age, or one from before the lease was rewritten. */
  lemma FreshLossByIff(sid: string, actions: seq<Action>, a: Action)
    requires var s := Run(Initial(sid), actions); RecentControlWrite(s.hash.controlAt, s.now)
    ensures var s := Run(Initial(sid), actions);
      var stale := (x: Sweep) => x.Clearing? && (x.at.None? || x.at.value < s.hash.controlAt.value);
      Apply(s, a).hash.controlAt.None? <==>
      a == Expire || (a.Step? && a.step == Clear(true) && stale(SweepOf(s, a.w)))
  {
    var s := Run(Initial(sid), actions);
    if a.Step? && SweepOf(s, a.w).Clearing? {
      FreshLossNeedsStaleRead(sid, actions, a.w);
    }
  }

  /** The reads of one sweep succeed; the other sweeps' may fail. */
  predicate ReadsSucceed(actions: seq<Action>, w: nat) {
    forall i :: 0 <= i < |actions| ==>
      && actions[i] != Step(w, Begin(false)) && actions[i] != Step(w, ReadAt(false))
      && actions[i] != Step(w, ReadLive(false))
  }

  function ActiveOf(x: Sweep): Option<string> {
    if x == Off then None else Some(x.active)
  }

  predicate FoundDead(x: Sweep) {
    (x.HaveLive? && !x.live) || x.Clearing?
  }

  lemma {:induction false} ActiveWasSeen(sid: string, actions: seq<Action>, w: nat) returns (i: nat)
    requires ReadsSucceed(actions, w) && ActiveOf(SweepOf(Run(Initial(sid), actions), w)).Some?
    ensures i <= |actions|
    ensures Some(Run(Initial(sid), actions[..i]).active) == ActiveOf(SweepOf(Run(Initial(sid), actions), w))
    decreases |actions|
  {
    var n := |actions| - 1;
    if actions[n] == Step(w, Begin(true)) && SweepOf(Run(Initial(sid), actions[..n]), w) == Off {
      i := n;
    } else {
      i := ActiveWasSeen(sid, actions[..n], w);
      assert actions[..n][..i] == actions[..i];
    }
  }

  lemma {:induction false} AtWasRead(sid: string, actions: seq<Action>, w: nat) returns (i: nat)
    requires ReadsSucceed(actions, w) && AtOf(SweepOf(Run(Initial(sid), actions), w)).Some?
    ensures i <= |actions|
    ensures Some(Run(Initial(sid), actions[..i]).hash.controlAt) == AtOf(SweepOf(Run(Initial(sid), actions), w))
    decreases |actions|
  {
    var n := |actions| - 1;
    if actions[n] == Step(w, ReadAt(true)) && SweepOf(Run(Initial(sid), actions[..n]), w).HaveEnv? {
      i := n;
    } else {
      i := AtWasRead(sid, actions[..n], w);
      assert actions[..n][..i] == actions[..i];
    }
  }

  lemma {:induction false} DeadWasSeen(sid: string, actions: seq<Action>, w: nat) returns (i: nat)
    requires ReadsSucceed(actions, w) && FoundDead(SweepOf(Run(Initial(sid), actions), w))
    ensures i <= |actions|
    ensures var s := Run(Initial(sid), actions[..i]); !LooksLive(s.hash, s.now, sid)
    decreases |actions|
  {
    var n := |actions| - 1;
    EveryRunKeepsInv(sid, actions[..n]);
    if actions[n] == Step(w, ReadLive(true)) && SweepOf(Run(Initial(sid), actions[..n]), w).HaveAt? {
      i := n;
    } else {
      i := DeadWasSeen(sid, actions[..n], w);
      assert actions[..n][..i] == actions[..i];
    }
  }

  /** When its reads succeed, a sweep clears a lease only after the process was seen not running, the
      hash was seen not live, and a control time was read that is absent or past the grace by the time
      of the decision; and never on the trading engine. */
  lemma ClearHasCause(sid: string, actions: seq<Action>, w: nat) returns (i: nat, j: nat, k: nat)
    requires ReadsSucceed(actions, w) && SweepOf(Run(Initial(sid), actions), w).Clearing?
    ensures i <= |actions| && j <= |actions| && k <= |actions| && sid != "trading_engine"
    ensures !CountsAsRunning(Run(Initial(sid), actions[..i]).active)
    ensures !RecentControlWrite(Run(Initial(sid), actions[..j]).hash.controlAt, Run(Initial(sid), actions).now)
    ensures var s := Run(Initial(sid), actions[..k]); !LooksLive(s.hash, s.now, sid)
  {
    EveryRunKeepsInv(sid, actions);
    assert SweepInv(Run(Initial(sid), actions), SweepOf(Run(Initial(sid), actions), w));
    i := ActiveWasSeen(sid, actions, w);
    j := AtWasRead(sid, actions, w);
    k := DeadWasSeen(sid, actions, w);
  }

  // ---------------------------------------------------------------- how a fresh lease can be lost

  /** A lease written this second, the sweep's read of its time fails. */
  function FailedReadRun(): seq<Action> {
    [ControlWrite("dev", "h"), Step(0, Begin(true)), Step(0, ReadEnv(true)), Step(0, ReadAt(false)),
     Step(0, ReadLive(true)), Step(0, Decide)]
  }

  /** An old lease, rewritten between the decision and the delete. */
  function RacingRun(): seq<Action> {
    [ControlWrite("dev", "h"), Step(0, Decide), Tick(121.0), Step(0, Begin(true)), Step(0, ReadEnv(true)),
     Step(0, ReadAt(true)), Step(0, ReadLive(true)), Step(0, Decide), ControlWrite("dev", "h")]
  }

  lemma HeldRun(sid: string, actions: seq<Action>, i: nat, at: real, now: real, x: Sweep, step: SweepStep, y: Sweep)
    requires i < |actions| && actions[i] == Step(0, step) && !x.Clearing?
    requires Run(Initial(sid), actions[..i]) == HeldSince(sid, at, now, x)
    requires y == Next(HeldSince(sid, at, now, Off), x, step)
    ensures Run(Initial(sid), actions[..i + 1]) == HeldSince(sid, at, now, y)
  {
    RunUpTo(Initial(sid), actions, i);
    HeldStep(sid, at, now, x, step);
  }

  lemma FirstWrite(sid: string, actions: seq<Action>, step: SweepStep, y: Sweep)
    requires |actions| >= 2 && actions[0] == ControlWrite("dev", "h") && actions[1] == Step(0, step)
    requires y == Next(HeldSince(sid, 0.0, 0.0, Off), Off, step)
    ensures Run(Initial(sid), actions[..2]) == HeldSince(sid, 0.0, 0.0, y)
  {
    DevIsProfile();
    RunUpTo(Initial(sid), actions, 0);
    RunUpTo(Initial(sid), actions, 1);
    assert actions[..0] == [];
    var written := HeldSince(sid, 0.0, 0.0, Off).(sweeps := map[]);
    assert Apply(Initial(sid), actions[0]) == written;
    assert map[][0 := y] == map[0 := y];
  }

  lemma FreshLeaseIsFound()
    ensures Run(Initial("ib_operator"), FailedReadRun()[..3]) ==
      HeldSince("ib_operator", 0.0, 0.0, HaveEnv("inactive"))
  {
    var sid, a := "ib_operator", FailedReadRun();
    HeldIsHeld(sid, 0.0, 0.0);
    FirstWrite(sid, a, Begin(true), HaveActive("inactive"));
    HeldRun(sid, a, 2, 0.0, 0.0, HaveActive("inactive"), ReadEnv(true), HaveEnv("inactive"));
  }

  /** The sweep that failed to read the time of a lease written this second. */
  lemma FailedReads()
    ensures Run(Initial("ib_operator"), FailedReadRun()[..5]) ==
      HeldSince("ib_operator", 0.0, 0.0, HaveLive("inactive", None, 0.0, false))
  {
    var sid, a := "ib_operator", FailedReadRun();
    HeldReadsDead(sid, 0.0, 0.0, None, 0.0);
    FreshLeaseIsFound();
    var x, y := HaveAt("inactive", None, 0.0), HaveLive("inactive", None, 0.0, false);
    HeldRun(sid, a, 3, 0.0, 0.0, HaveEnv("inactive"), ReadAt(false), x);
    HeldRun(sid, a, 4, 0.0, 0.0, x, ReadLive(true), y);
  }

  /** One failed read is enough to lose a lease of age zero. */
  lemma FailedReadLosesFreshLease()
    ensures var s := Run(Initial("ib_operator"), FailedReadRun());
            && s.hash.controlAt == Some(0.0) && s.now == 0.0
            && Apply(s, Step(0, Clear(true))).hash.controlAt == None
  {
    var sid, a := "ib_operator", FailedReadRun();
    InactiveIsNotRunning();
    FailedReads();
    HeldRun(sid, a, 5, 0.0, 0.0, HaveLive("inactive", None, 0.0, false), Decide, Clearing("inactive", None, 0.0, 0.0));
    assert a[..6] == a;
  }

  /** So is a rewrite that comes between the sweep's decision and its delete. */
  lemma RaceLosesFreshLease()
    ensures var s := Run(Initial("ib_operator"), RacingRun());
            && s.hash.controlAt == Some(s.now)
            && Apply(s, Step(0, Clear(true))).hash.controlAt == None
  {
    var sid, a := "ib_operator", RacingRun();
    InactiveIsNotRunning();
    RaceReads();
    HeldRun(sid, a, 7, 0.0, 121.0, HaveLive("inactive", Some(0.0), 121.0, false), Decide,
      Clearing("inactive", Some(0.0), 121.0, 121.0));
    DevIsProfile();
    RunUpTo(Initial(sid), a, 8);
    assert a[..9] == a;
  }

  lemma RaceBegins()
    ensures Run(Initial("ib_operator"), RacingRun()[..3]) == HeldSince("ib_operator", 0.0, 121.0, Off)
  {
    FirstWrite("ib_operator", RacingRun(), Decide, Off);
    RunUpTo(Initial("ib_operator"), RacingRun(), 2);
  }

  lemma RaceFindsLease()
    ensures Run(Initial("ib_operator"), RacingRun()[..5]) ==
      HeldSince("ib_operator", 0.0, 121.0, HaveEnv("inactive"))
  {
    var sid, a := "ib_operator", RacingRun();
    HeldIsHeld(sid, 0.0, 121.0);
    RaceBegins();
    HeldRun(sid, a, 3, 0.0, 121.0, Off, Begin(true), HaveActive("inactive"));
    HeldRun(sid, a, 4, 0.0, 121.0, HaveActive("inactive"), ReadEnv(true), HaveEnv("inactive"));
  }

  /** The sweep of the race has read a lease past the grace. */
  lemma RaceReads()
    ensures Run(Initial("ib_operator"), RacingRun()[..7]) ==
      HeldSince("ib_operator", 0.0, 121.0, HaveLive("inactive", Some(0.0), 121.0, false))
  {
    var sid, a := "ib_operator", RacingRun();
    HeldReadsDead(sid, 0.0, 121.0, Some(0.0), 121.0);
    RaceFindsLease();
    var x, y := HaveAt("inactive", Some(0.0), 121.0), HaveLive("inactive", Some(0.0), 121.0, false);
    HeldRun(sid, a, 5, 0.0, 121.0, HaveEnv("inactive"), ReadAt(true), x);
    HeldRun(sid, a, 6, 0.0, 121.0, x, ReadLive(true), y);
  }

  // ---------------------------------------------------------------- health

  /** Sweeps, finished or not, never touch the health fields. */
  lemma {:induction false} SweepsTouchNoHealth(s: Row, actions: seq<Action>)
    requires forall i :: 0 <= i < |actions| ==> actions[i].Step?
    ensures var h := Run(s, actions).hash;
            h.updatedAt == s.hash.updatedAt && h.truthy == s.hash.truthy && h.profile == s.hash.profile
    decreases |actions|
  {
    if actions != [] {
      SweepsTouchNoHealth(s, actions[..|actions| - 1]);
    }
  }
}
