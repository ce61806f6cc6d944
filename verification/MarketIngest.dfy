/** One request for the services table: every row's lease swept, then the row that is shown. */
module MarketIngest {
  import opened Sequences
  import Text
  import opened IngestHealth
  import L = LeaseProtocol

  /** A registry row and the process state that was read for it. */
  datatype ServiceRow = ServiceRow(id: string, metaKey: string, active: string)

  datatype Item = Item(
    id: string, controlEnv: Option<string>, controlHost: Option<string>, controlAt: Option<real>, managed: bool)

  function KeyOf(row: ServiceRow): string {
    Text.Strip(row.metaKey)
  }

  function At(hashes: map<string, Hash>, key: string): Hash {
    if key in hashes then hashes[key] else NO_HASH
  }

  function HostOf(h: Hash): Option<string> {
    if h.controlHost.Some? && Text.Strip(h.controlHost.value) != "" then Some(Text.Strip(h.controlHost.value)) else None
  }

  /** The row as one sweep sees it. */
  function Seen(h: Hash, row: ServiceRow, now: real): L.Row {
    L.Row(Text.Strip(row.id), now, row.active, h, map[], None)
  }

  predicate Orphaned(hashes: map<string, Hash>, row: ServiceRow, now: real) {
    KeyOf(row) != "" && L.Orphaned(Seen(At(hashes, KeyOf(row)), row, now))
  }

  function SweptOne(hashes: map<string, Hash>, row: ServiceRow, now: real): map<string, Hash> {
    if Orphaned(hashes, row, now) then hashes[KeyOf(row) := Cleared(At(hashes, KeyOf(row)))] else hashes
  }

  function Swept(hashes: map<string, Hash>, rows: seq<ServiceRow>, now: real): map<string, Hash> {
    if rows == [] then hashes else SweptOne(Swept(hashes, rows[..|rows| - 1], now), rows[|rows| - 1], now)
  }

  /** The stack the writer names, else the configured one. */
  function StackOf(h: Hash, configured: Option<string>): Option<string> {
    if h.profile.Some? then h.profile else configured
  }

  /** The process is not ours, but its health says that a stack runs it. */
  predicate Managed(h: Hash, row: ServiceRow, now: real, configured: Option<string>) {
    && KeyOf(row) != "" && !CountsAsRunning(row.active)
    && StackOf(h, configured).Some?
    && (LooksLive(h, now, Text.Strip(row.id)) || (StackOf(h, configured) == Some("stg") && WriterRecent(h, now)))
  }

  /** The row shown for a hash that has been swept. */
  function ItemOf(hashes: map<string, Hash>, row: ServiceRow, now: real, configured: Option<string>): Item {
    var h := if KeyOf(row) == "" then NO_HASH else At(hashes, KeyOf(row));
    var host := HostOf(h);
    if Managed(h, row, now, configured) then
      Item(row.id, StackOf(h, configured), if host.None? then Some("k8s") else host,
           if h.controlAt.None? then Some(now) else h.controlAt, true)
    else Item(row.id, HeldEnv(h), host, h.controlAt, false)
  }

  /** Every row is shown as it stands right after its own sweep. */
  function ItemsOf(hashes: map<string, Hash>, rows: seq<ServiceRow>, now: real, configured: Option<string>): seq<Item> {
    if rows == [] then [] else
    ItemsOf(hashes, rows[..|rows| - 1], now, configured)
    + [ItemOf(Swept(hashes, rows, now), rows[|rows| - 1], now, configured)]
  }

  class Services {
    /** What Redis holds by key, and the profile of the configuration. */
    var hashes: map<string, Hash>
    const configured: Option<string>

    constructor (hashes: map<string, Hash>, profile: Option<string>)
      ensures this.hashes == hashes && configured == NormalizeProfile(profile)
    {
      this.hashes := hashes;
      configured := NormalizeProfile(profile);
    }

    method ClearControlEnv(key: string)
      modifies this`hashes
      ensures hashes == old(hashes)[key := Cleared(At(old(hashes), key))]
    {
      hashes := hashes[key := Cleared(At(hashes, key))];
    }

    method ServeRow(row: ServiceRow, now: real) returns (item: Item)
      modifies this`hashes
      ensures hashes == SweptOne(old(hashes), row, now)
      ensures item == ItemOf(hashes, row, now, configured)
    {
      var key, sid := KeyOf(row), Text.Strip(row.id);
      var env: Option<string>, host: Option<string>, at: Option<real> := None, None, None;
      if key != "" {
        var h := At(hashes, key);
        env, host, at := HeldEnv(h), HostOf(h), h.controlAt;
        if env.Some? && sid != "trading_engine" {
          var live, recentWrite := LooksLive(h, now, sid), RecentControlWrite(at, now);
          if !live && !recentWrite && !CountsAsRunning(row.active) {
            ClearControlEnv(key);
            env, host, at := None, None, None;
          }
        }
      }
      var managed := false;
      if key != "" && !CountsAsRunning(row.active) {
        var h := At(hashes, key);
        var live, recent := LooksLive(h, now, sid), WriterRecent(h, now);
        var stack := h.profile;
        if stack.None? {
          stack := configured;
        }
        if (live || (stack == Some("stg") && recent)) && stack.Some? {
          managed := true;
          env := stack;
          if host.None? {
            host := Some("k8s");
          }
          if at.None? {
            at := Some(now);
          }
        }
      }
      item := Item(row.id, env, host, at, managed);
    }

    method Serve(rows: seq<ServiceRow>, now: real) returns (items: seq<Item>)
      modifies this`hashes
      ensures hashes == Swept(old(hashes), rows, now)
      ensures items == ItemsOf(old(hashes), rows, now, configured)
    {
      items := [];
      for i := 0 to |rows|
        invariant hashes == Swept(old(hashes), rows[..i], now)
        invariant items == ItemsOf(old(hashes), rows[..i], now, configured)
      {
        assert rows[..i + 1][..i] == rows[..i];
        var item := ServeRow(rows[i], now);
        items := items + [item];
      }
      assert rows[..|rows|] == rows;
    }
  }

  // ---------------------------------------------------------------- what a request leaves behind

  /** A row's part of the request is a sweep that nothing comes between. */
  lemma SweepsAtomically(hashes: map<string, Hash>, row: ServiceRow, now: real)
    requires KeyOf(row) != ""
    ensures At(SweptOne(hashes, row, now), KeyOf(row)) == L.AtomicSweep(Seen(At(hashes, KeyOf(row)), row, now), 0).hash
  {
    L.AtomicSweepClearsOrphans(Seen(At(hashes, KeyOf(row)), row, now), 0);
  }

  predicate SameHealth(a: Hash, b: Hash) {
    a.updatedAt == b.updatedAt && a.truthy == b.truthy && a.profile == b.profile
  }

  lemma StaysSettled(hashes: map<string, Hash>, row: ServiceRow, other: ServiceRow, now: real)
    requires !Orphaned(hashes, other, now)
    ensures !Orphaned(SweptOne(hashes, row, now), other, now)
  {
  }

  /** After a request no row of it is orphaned, whatever rows share a key; health fields and other keys keep
      their values, and a key changes only by losing its lease. */
  lemma {:induction false} RequestClearsAllOrphans(hashes: map<string, Hash>, rows: seq<ServiceRow>, now: real)
    ensures var after := Swept(hashes, rows, now);
      && (forall row :: row in rows ==> !Orphaned(after, row, now))
      && (forall key :: SameHealth(At(after, key), At(hashes, key)))
      && (forall key :: At(after, key) == At(hashes, key) || At(after, key) == Cleared(At(hashes, key)))
      && (forall key :: At(after, key) != At(hashes, key) ==>
            exists row :: row in rows && Orphaned(hashes, row, now) && KeyOf(row) == key)
  {
    if rows != [] {
      var front, last := rows[..|rows| - 1], rows[|rows| - 1];
      assert rows == front + [last];
      RequestClearsAllOrphans(hashes, front, now);
      var before := Swept(hashes, front, now);
      forall row | row in front
        ensures !Orphaned(SweptOne(before, last, now), row, now)
      {
        StaysSettled(before, last, row, now);
      }
      assert last in rows;
    }
  }

  /** A second request at the same time finds nothing left to clear. */
  lemma {:induction false} SecondRequestChangesNothing(hashes: map<string, Hash>, rows: seq<ServiceRow>, now: real)
    requires forall row :: row in rows ==> !Orphaned(hashes, row, now)
    ensures Swept(hashes, rows, now) == hashes
  {
    if rows != [] {
      SecondRequestChangesNothing(hashes, rows[..|rows| - 1], now);
      assert rows[|rows| - 1] in rows;
    }
  }

  /** A row whose lease this request cleared is shown as managed exactly when its stack is staging and its
      writer is recent, though not connected; it then shows staging, no host of its own and the current time. */
  lemma ClearedButManaged(hashes: map<string, Hash>, row: ServiceRow, now: real, configured: Option<string>)
    requires Orphaned(hashes, row, now)
    ensures var after := SweptOne(hashes, row, now);
      var h, item := At(hashes, KeyOf(row)), ItemOf(after, row, now, configured);
      && (item.managed <==> StackOf(h, configured) == Some("stg") && WriterRecent(h, now))
      && !LooksLive(h, now, Text.Strip(row.id))
      && item == (if item.managed then Item(row.id, Some("stg"), Some("k8s"), Some(now), true)
                  else Item(row.id, None, None, None, false))
  {
  }

  /** The daemon's lease outlives any number of requests. */
  lemma {:induction false} DaemonLeaseIsKept(hashes: map<string, Hash>, rows: seq<ServiceRow>, now: real, key: string)
    requires forall row :: row in rows && KeyOf(row) == key ==> Text.Strip(row.id) == "trading_engine"
    ensures At(Swept(hashes, rows, now), key) == At(hashes, key)
  {
    if rows != [] {
      var last := rows[|rows| - 1];
      assert rows == rows[..|rows| - 1] + [last];
      assert last in rows;
      DaemonLeaseIsKept(hashes, rows[..|rows| - 1], now, key);
    }
  }

  /** The stack of a row: what the hash names, else the configuration. */
  predicate HasStack(h: Hash, configured: Option<string>, stack: string) {
    h.profile == Some(stack) || (h.profile.None? && configured == Some(stack))
  }

  /** A row is shown as managed exactly when it has a key, its process is not running, and its stack either has a
      live service or is staging with a heartbeat of the last 90 seconds. */
  lemma ShownAsManagedIff(hashes: map<string, Hash>, row: ServiceRow, now: real, configured: Option<string>)
    ensures var h, key := At(hashes, Text.Strip(row.metaKey)), Text.Strip(row.metaKey);
      ItemOf(hashes, row, now, configured).managed <==>
      && key != "" && Text.Strip(Lower(row.active)) !in {"active", "activating"}
      && exists stack :: HasStack(h, configured, stack) &&
           (LooksLive(h, now, Text.Strip(row.id)) ||
            (stack == "stg" && 0.0 < h.updatedAt && now - h.updatedAt <= 90.0))
  {
    var h := At(hashes, Text.Strip(row.metaKey));
    assert StackOf(h, configured).Some? ==> HasStack(h, configured, StackOf(h, configured).value);
  }

  /** What the row then shows: the stack, or the lease that is held; the host on record, or "k8s" where a managed row
      has none; the time of the control write, or now where a managed row has none. */
  lemma ShownFigures(hashes: map<string, Hash>, row: ServiceRow, now: real, configured: Option<string>)
    requires Text.Strip(row.metaKey) != ""
    ensures var h, item := At(hashes, Text.Strip(row.metaKey)), ItemOf(hashes, row, now, configured);
      && item.id == row.id
      && (item.managed ==> item.controlEnv.Some? && HasStack(h, configured, item.controlEnv.value))
      && (!item.managed ==> item.controlEnv == NormalizeProfile(h.controlEnv))
      && (if h.controlHost.Some? && Text.Strip(h.controlHost.value) != ""
          then item.controlHost == Some(Text.Strip(h.controlHost.value))
          else item.controlHost == if item.managed then Some("k8s") else None)
      && item.controlAt == (if h.controlAt.None? && item.managed then Some(now) else h.controlAt)
  {
  }

  /** A row without a key shows nothing. */
  lemma KeylessRowShowsNothing(hashes: map<string, Hash>, row: ServiceRow, now: real, configured: Option<string>)
    requires Text.Strip(row.metaKey) == ""
    ensures ItemOf(hashes, row, now, configured) == Item(row.id, None, None, None, false)
  {
  }

  /** One row's sweep takes a lease away exactly when the row has a key and is not the daemon's, a profile holds the
      lease, and neither the service is live, nor the last control write at most 120 seconds old, nor the process
      running; it leaves every other key alone. */
  lemma SweepTakesLeaseIff(hashes: map<string, Hash>, row: ServiceRow, now: real)
    ensures var key, after := Text.Strip(row.metaKey), SweptOne(hashes, row, now);
      var h := At(hashes, key);
      && (forall other :: other != key ==> At(after, other) == At(hashes, other))
      && (At(after, key) != h <==>
            && key != "" && Text.Strip(row.id) != "trading_engine" && NormalizeProfile(h.controlEnv).Some?
            && !LooksLive(h, now, Text.Strip(row.id))
            && !(h.controlAt.Some? && now - h.controlAt.value <= 120.0)
            && Text.Strip(Lower(row.active)) !in {"active", "activating"})
      && (At(after, key) != h ==> At(after, key) == h.(controlEnv := None, controlHost := None, controlAt := None))
  {
  }
}
