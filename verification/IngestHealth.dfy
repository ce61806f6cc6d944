/** The health hash of an ingest service, the control lease stored on it, and what a reading says. */
module IngestHealth {
  import opened Sequences
  import opened Text

  /** How long a heartbeat counts as recent, and a control write as just made, in seconds. */
  const HEALTH_RECENT_MAX: real := 90.0
  const CONTROL_WRITE_GRACE: real := 120.0

  /** `updatedAt` is 0 when the heartbeat field is missing or no number; `truthy` names the flag fields
      that are set; `profile` is the stack read off the configuration file, if it names one. The last
      three fields are the lease. */
  datatype Hash = Hash(updatedAt: real, truthy: set<string>, profile: Option<string>,
                       controlEnv: Option<string>, controlHost: Option<string>, controlAt: Option<real>)

  /** A key that does not exist reads as an empty hash. */
  const NO_HASH := Hash(0.0, {}, None, None, None, None)

  function NormalizeProfile(raw: Option<string>): Option<string> {
    match raw
    case None => None
    case Some(text) =>
      var s := Lower(Strip(text));
      if s == "dev" || s == "prod" || s == "stg" then Some(s) else None
  }

  function Lower(s: string): string {
    seq(|s|, i requires 0 <= i < |s| => if 'A' <= s[i] <= 'Z' then (s[i] as int + 32) as char else s[i])
  }

  /** Which flag says that the service behind the hash is connected. */
  predicate LooksConnected(h: Hash, sid: string) {
    if sid == "ib_ingestor" || sid == "ib_market" then "connected" in h.truthy
    else if sid == "ib_operator" then
      "host_connected" in h.truthy || "operator_connected" in h.truthy || "connected" in h.truthy
    else if sid == "ib_account_agent" then "host_connected" in h.truthy || "connected" in h.truthy
    else if sid == "trading_engine" then "engine_ops_active" in h.truthy
    else false
  }

  predicate WriterRecent(h: Hash, now: real) {
    0.0 < h.updatedAt && now - h.updatedAt <= HEALTH_RECENT_MAX
  }

  predicate LooksLive(h: Hash, now: real, sid: string) {
    WriterRecent(h, now) && LooksConnected(h, sid)
  }

  predicate CountsAsRunning(active: string) {
    var a := Strip(Lower(active));
    a == "active" || a == "activating"
  }

  /** A control write at `at` is recent at `now`; no time on record is not recent. */
  predicate RecentControlWrite(at: Option<real>, now: real) {
    at.Some? && now - at.value <= CONTROL_WRITE_GRACE
  }

  function Cleared(h: Hash): Hash {
    h.(controlEnv := None, controlHost := None, controlAt := None)
  }

  function HeldEnv(h: Hash): Option<string> {
    NormalizeProfile(h.controlEnv)
  }

  /** Which flags say of a service that it is connected. */
  const FLAGS: set<(string, string)> := {
    ("ib_ingestor", "connected"), ("ib_market", "connected"),
    ("ib_operator", "host_connected"), ("ib_operator", "operator_connected"), ("ib_operator", "connected"),
    ("ib_account_agent", "host_connected"), ("ib_account_agent", "connected"),
    ("trading_engine", "engine_ops_active")}

  /** A service is live exactly when its heartbeat is at most 90 seconds old and one of its own flags is set. */
  lemma LiveIff(h: Hash, now: real, sid: string)
    ensures LooksLive(h, now, sid) <==>
      0.0 < h.updatedAt && now - h.updatedAt <= 90.0 && exists flag :: flag in h.truthy && (sid, flag) in FLAGS
  {
    assert ("ib_ingestor", "connected") in FLAGS && ("ib_market", "connected") in FLAGS;
    assert ("ib_operator", "host_connected") in FLAGS && ("ib_operator", "operator_connected") in FLAGS;
    assert ("ib_operator", "connected") in FLAGS && ("ib_account_agent", "connected") in FLAGS;
    assert ("ib_account_agent", "host_connected") in FLAGS && ("trading_engine", "engine_ops_active") in FLAGS;
  }

  /** A profile is one of three words, in any case and between blanks. */
  lemma ProfileIff(raw: Option<string>, p: string)
    ensures NormalizeProfile(raw) == Some(p) <==>
      raw.Some? && Lower(Strip(raw.value)) == p && p in {"dev", "prod", "stg"}
  {
  }

  lemma RunningIff(active: string)
    ensures CountsAsRunning(active) <==> Strip(Lower(active)) in {"active", "activating"}
  {
  }

  /** Capital letters gain 32, everything else stays. */
  lemma LowerLetters(s: string, i: nat)
    requires i < |s|
    ensures Lower(s)[i] as int == (if 'A' <= s[i] <= 'Z' then s[i] as int + 32 else s[i] as int)
  {
  }
}
