/** The service rows of the ingest registry, read from configuration and brought into one normal form. */
module ServiceRows {
  import opened Sequences
  import opened Text
  import opened Collecting

  datatype FieldName = Id | RowLabel | SystemdUnit | RedisMetaKey | K8sNamespace | K8sDeployment

  /** An entry of the configured list: something else than a row, or the texts of a row's fields. */
  datatype RawRow = NotARow | RawRow(fields: map<FieldName, string>)

  datatype Workload = Workload(namespace: string, deployment: string)

  datatype Service = Service(
    id: string, title: string, metaKey: string, unit: Option<string>, workload: Option<Workload>)

  /** The health keys by service, and the older keys each of them replaced. */
  datatype Keys = Keys(current: map<string, string>, legacy: map<string, set<string>>)

  const GATEWAY_IDS: seq<string> := ["ib_operator", "ib_ingestor", "ib_account_agent"]
  const DAEMON: string := "trading_engine"
  const RETIRED: string := "account_sync_daemon"
  const GATEWAY: Workload := Workload("data", "ib-gateway")
  const UNIT_SUFFIX: string := ".service"

  /** The four services with a key of their own have one, and it is a stripped text. */
  predicate ValidKeys(keys: Keys) {
    && (forall sid :: sid in GATEWAY_IDS + [DAEMON] ==>
          sid in keys.current && keys.current[sid] != "" && Stripped(keys.current[sid]))
    && (forall sid :: sid in keys.legacy ==> sid in GATEWAY_IDS + [DAEMON])
  }

  function Field(fields: map<FieldName, string>, name: FieldName): string {
    if name in fields then fields[name] else ""
  }

  function Canonical(serviceId: string): string {
    var sid := Strip(serviceId);
    if sid == "ib_market" then "ib_ingestor" else sid
  }

  function UnitName(unit: string): Option<string> {
    if unit == "" then None
    else if HasSuffix(unit) then Some(unit) else Some(unit + UNIT_SUFFIX)
  }

  predicate HasSuffix(unit: string) {
    |unit| >= |UNIT_SUFFIX| && unit[|unit| - |UNIT_SUFFIX|..] == UNIT_SUFFIX
  }

  predicate IsLegacy(sid: string, meta: string, keys: Keys) {
    sid in keys.legacy && meta in keys.legacy[sid]
  }

  /** An older key gives way to the current one; the daemon always has a key. */
  function MetaKey(sid: string, meta: string, keys: Keys): string {
    if (IsLegacy(sid, meta, keys) || (sid == DAEMON && meta == "")) && sid in keys.current
    then keys.current[sid] else meta
  }

  function WorkloadOf(sid: string, namespace: string, deployment: string): Option<Workload> {
    if sid in GATEWAY_IDS then Some(GATEWAY)
    else if deployment == "" then None
    else Some(Workload(if namespace == "" then GATEWAY.namespace else namespace, deployment))
  }

  /** A row from its stripped texts, or none where it names no service, no workload or a retired service. */
  function Build(
    sid: string, title: string, meta: string, unit: string, namespace: string, deployment: string, keys: Keys
  ): Option<Service> {
    var ownUnit := if sid in GATEWAY_IDS then "" else unit;
    var workload := WorkloadOf(sid, namespace, deployment);
    if sid == "" || (ownUnit == "" && workload.None?) || sid == RETIRED then None
    else Some(Service(
      sid, if title == "" then sid else title, MetaKey(sid, meta, keys), UnitName(ownUnit), workload))
  }

  function Normalise(fields: map<FieldName, string>, keys: Keys): Option<Service> {
    var sid := Canonical(Strip(Field(fields, Id)));
    var title := if Field(fields, RowLabel) == "" then sid else Field(fields, RowLabel);
    Build(
      sid, Strip(title), Strip(Field(fields, RedisMetaKey)), Strip(Field(fields, SystemdUnit)),
      Strip(Field(fields, K8sNamespace)), Strip(Field(fields, K8sDeployment)), keys)
  }

  function Normaliser(keys: Keys): RawRow -> Option<Service> {
    (row: RawRow) => if row.NotARow? then None else Normalise(row.fields, keys)
  }

  /** The rows that are kept, in order. */
  function NormaliseAll(rows: seq<RawRow>, keys: Keys): seq<Service> {
    Collect(rows, Normaliser(keys))
  }

  function GatewayServices(keys: Keys): seq<Service>
    requires ValidKeys(keys)
  {
    [Service("ib_operator", "Platform IB Gateway · Operator RPC", keys.current["ib_operator"], None, Some(GATEWAY)),
     Service("ib_ingestor", "Platform IB Gateway · Market ingest", keys.current["ib_ingestor"], None, Some(GATEWAY)),
     Service("ib_account_agent", "Platform IB Gateway · Account agent", keys.current["ib_account_agent"], None,
             Some(GATEWAY))]
  }

  function DefaultServices(keys: Keys): seq<Service>
    requires ValidKeys(keys)
  {
    GatewayServices(keys) +
    [Service(DAEMON, "Strategy Trading Daemon", keys.current[DAEMON], Some("bifrost-engine.service"), None)]
  }

  predicate DaemonOnly(services: seq<Service>) {
    forall i :: 0 <= i < |services| ==> services[i].id == DAEMON
  }

  /** A list that only names the daemon gets the gateway's rows in front. */
  function WithGateway(services: seq<Service>, keys: Keys): seq<Service>
    requires ValidKeys(keys)
  {
    if services != [] && DaemonOnly(services) then GatewayServices(keys) + services else services
  }

  /** `rows` is absent when the configuration holds no list. */
  function ServicesFrom(rows: Option<seq<RawRow>>, keys: Keys): seq<Service>
    requires ValidKeys(keys)
  {
    if rows.None? || NormaliseAll(rows.value, keys) == [] then DefaultServices(keys)
    else WithGateway(NormaliseAll(rows.value, keys), keys)
  }

  method MarketIngestServices(rows: Option<seq<RawRow>>, keys: Keys) returns (services: seq<Service>)
    requires ValidKeys(keys)
    ensures services == ServicesFrom(rows, keys)
  {
    if rows.None? || rows.value == [] {
      return DefaultServices(keys);
    }
    services := [];
    for i := 0 to |rows.value|
      invariant services == NormaliseAll(rows.value[..i], keys)
    {
      CollectNext(rows.value, Normaliser(keys), i);
      if rows.value[i].NotARow? {
        continue;
      }
      var service := Normalise(rows.value[i].fields, keys);
      if service.None? {
        continue;
      }
      services := services + [service.value];
    }
    assert rows.value[..|rows.value|] == rows.value;
    if services == [] {
      return DefaultServices(keys);
    }
    services := WithGateway(services, keys);
  }

  // ---------------------------------------------------------------- the normal form

  /** What a reader of a row may rely on. */
  predicate NormalRow(s: Service, keys: Keys) {
    && s.id != "" && Stripped(s.id) && s.id != "ib_market" && s.id != RETIRED
    && s.title != "" && Stripped(s.title)
    && Stripped(s.metaKey)
    && (IsLegacy(s.id, s.metaKey, keys) ==> s.id in keys.current && s.metaKey == keys.current[s.id])
    && (s.id == DAEMON ==> s.metaKey != "")
    && (s.unit.Some? ==> Stripped(s.unit.value) && HasSuffix(s.unit.value))
    && (s.workload.Some? ==>
          && s.workload.value.namespace != "" && Stripped(s.workload.value.namespace)
          && s.workload.value.deployment != "" && Stripped(s.workload.value.deployment))
    && (s.unit.Some? || s.workload.Some?)
    && (s.id in GATEWAY_IDS ==> s.unit.None? && s.workload == Some(GATEWAY))
  }

  predicate NormalList(services: seq<Service>, keys: Keys) {
    && services != [] && !DaemonOnly(services)
    && forall i :: 0 <= i < |services| ==> NormalRow(services[i], keys)
  }

  /** A row as the configuration would hold it. */
  function FieldsOf(s: Service): map<FieldName, string> {
    map[Id := s.id, RowLabel := s.title, RedisMetaKey := s.metaKey]
    + (if s.unit.Some? then map[SystemdUnit := s.unit.value] else map[])
    + (if s.workload.Some?
       then map[K8sNamespace := s.workload.value.namespace, K8sDeployment := s.workload.value.deployment] else map[])
  }

  function RowsOf(services: seq<Service>): seq<RawRow> {
    seq(|services|, i requires 0 <= i < |services| => RawRow(FieldsOf(services[i])))
  }

  lemma BuiltIsNormal(
    sid: string, title: string, meta: string, unit: string, namespace: string, deployment: string, keys: Keys)
    requires ValidKeys(keys) && sid != "ib_market"
    requires Stripped(sid) && Stripped(title) && Stripped(meta)
    requires Stripped(unit) && Stripped(namespace) && Stripped(deployment)
    ensures var s := Build(sid, title, meta, unit, namespace, deployment, keys); s.Some? ==> NormalRow(s.value, keys)
  {
  }

  lemma NormalisedIsNormal(fields: map<FieldName, string>, keys: Keys)
    requires ValidKeys(keys)
    ensures Normalise(fields, keys).Some? ==> NormalRow(Normalise(fields, keys).value, keys)
  {
    var sid := Canonical(Strip(Field(fields, Id)));
    var title := if Field(fields, RowLabel) == "" then sid else Field(fields, RowLabel);
    StripStrips(Strip(Field(fields, Id)));
    StripStrips(title);
    StripStrips(Field(fields, RedisMetaKey));
    StripStrips(Field(fields, SystemdUnit));
    StripStrips(Field(fields, K8sNamespace));
    StripStrips(Field(fields, K8sDeployment));
    BuiltIsNormal(
      sid, Strip(title), Strip(Field(fields, RedisMetaKey)), Strip(Field(fields, SystemdUnit)),
      Strip(Field(fields, K8sNamespace)), Strip(Field(fields, K8sDeployment)), keys);
  }

  function UnitText(s: Service): string {
    if s.unit.Some? then s.unit.value else ""
  }

  function WorkloadText(s: Service): Workload {
    if s.workload.Some? then s.workload.value else Workload("", "")
  }

  lemma FieldsRead(s: Service)
    ensures var fields := FieldsOf(s);
      && Field(fields, Id) == s.id && Field(fields, RowLabel) == s.title && Field(fields, RedisMetaKey) == s.metaKey
      && Field(fields, SystemdUnit) == UnitText(s)
      && Field(fields, K8sNamespace) == WorkloadText(s).namespace
      && Field(fields, K8sDeployment) == WorkloadText(s).deployment
  {
  }

  lemma NormalIsFixed(s: Service, keys: Keys)
    requires NormalRow(s, keys)
    ensures Normalise(FieldsOf(s), keys) == Some(s)
  {
    FieldsRead(s);
    StripIdentity(s.id);
    StripIdentity(s.title);
    StripIdentity(s.metaKey);
    StripIdentity(UnitText(s));
    StripIdentity(WorkloadText(s).namespace);
    StripIdentity(WorkloadText(s).deployment);
  }

  lemma AllAreNormal(rows: seq<RawRow>, keys: Keys)
    requires ValidKeys(keys)
    ensures forall i :: 0 <= i < |NormaliseAll(rows, keys)| ==> NormalRow(NormaliseAll(rows, keys)[i], keys)
  {
    forall s | s in NormaliseAll(rows, keys)
      ensures NormalRow(s, keys)
    {
      var i := CollectedComesFrom(rows, Normaliser(keys), s);
      NormalisedIsNormal(rows[i].fields, keys);
    }
  }

  lemma NormalRowsAreFixed(services: seq<Service>, keys: Keys)
    requires forall i :: 0 <= i < |services| ==> NormalRow(services[i], keys)
    ensures NormaliseAll(RowsOf(services), keys) == services
  {
    forall i | 0 <= i < |services|
      ensures Normaliser(keys)(RowsOf(services)[i]) == Some(services[i])
    {
      NormalIsFixed(services[i], keys);
    }
    CollectOfAll(RowsOf(services), services, Normaliser(keys));
  }

  lemma GatewayRowIsNormal(i: nat, title: string, keys: Keys)
    requires ValidKeys(keys) && i < |GATEWAY_IDS| && title != "" && Stripped(title)
    ensures NormalRow(Service(GATEWAY_IDS[i], title, keys.current[GATEWAY_IDS[i]], None, Some(GATEWAY)), keys)
    ensures GATEWAY_IDS[i] != DAEMON
  {
  }

  lemma DaemonRowIsNormal(keys: Keys)
    requires ValidKeys(keys)
    ensures NormalRow(
      Service(DAEMON, "Strategy Trading Daemon", keys.current[DAEMON], Some("bifrost-engine.service"), None), keys)
  {
  }

  lemma DefaultsAreNormal(keys: Keys)
    requires ValidKeys(keys)
    ensures NormalList(DefaultServices(keys), keys)
    ensures forall i :: 0 <= i < |GatewayServices(keys)| ==> NormalRow(GatewayServices(keys)[i], keys)
    ensures GatewayServices(keys)[0].id != DAEMON
  {
    GatewayRowIsNormal(0, "Platform IB Gateway · Operator RPC", keys);
    GatewayRowIsNormal(1, "Platform IB Gateway · Market ingest", keys);
    GatewayRowIsNormal(2, "Platform IB Gateway · Account agent", keys);
    DaemonRowIsNormal(keys);
    assert DefaultServices(keys)[0] == GatewayServices(keys)[0];
  }

  /** Whatever the configuration holds, the rows are in normal form. */
  lemma ServicesAreNormal(rows: Option<seq<RawRow>>, keys: Keys)
    requires ValidKeys(keys)
    ensures NormalList(ServicesFrom(rows, keys), keys)
  {
    DefaultsAreNormal(keys);
    if rows.Some? {
      AllAreNormal(rows.value, keys);
      var services := NormaliseAll(rows.value, keys);
      if services != [] && DaemonOnly(services) {
        assert WithGateway(services, keys)[0] == GatewayServices(keys)[0];
      }
    }
  }

  /** The lists that stay as they are when fed back as configuration are exactly those in normal form. */
  lemma FixedIffNormal(services: seq<Service>, keys: Keys)
    requires ValidKeys(keys)
    ensures ServicesFrom(Some(RowsOf(services)), keys) == services <==> NormalList(services, keys)
  {
    ServicesAreNormal(Some(RowsOf(services)), keys);
    if NormalList(services, keys) {
      NormalRowsAreFixed(services, keys);
    }
  }

  /** Feeding the rows back as configuration returns them unchanged and in order. */
  lemma NormalisingIsIdempotent(rows: Option<seq<RawRow>>, keys: Keys)
    requires ValidKeys(keys)
    ensures ServicesFrom(Some(RowsOf(ServicesFrom(rows, keys))), keys) == ServicesFrom(rows, keys)
  {
    ServicesAreNormal(rows, keys);
    FixedIffNormal(ServicesFrom(rows, keys), keys);
  }

  // ---------------------------------------------------------------- one row, field by field

  /** The older id of the market feed stands for the newer one. */
  lemma MarketIsIngestor(fields: map<FieldName, string>, keys: Keys)
    requires Strip(Field(fields, Id)) == "ib_market"
    ensures Normalise(fields, keys) == Normalise(fields[Id := "ib_ingestor"], keys)
    ensures Normalise(fields, keys).Some? && Normalise(fields, keys).value.id == "ib_ingestor"
  {
    StripStrips(Field(fields, Id));
    StripIdentity("ib_market");
    StripIdentity("ib_ingestor");
    var other := fields[Id := "ib_ingestor"];
    assert forall name: FieldName :: name != Id ==> Field(other, name) == Field(fields, name);
  }

  /** A unit name that ends in ".service" is kept. */
  lemma SuffixIff(unit: string)
    ensures HasSuffix(unit) <==> exists name :: unit == name + ".service"
  {
    if HasSuffix(unit) {
      assert unit == unit[..|unit| - 8] + ".service";
    }
    if name :| unit == name + ".service" {
      assert unit[|unit| - 8..] == ".service";
    }
  }

  predicate IsGateway(sid: string) {
    sid in {"ib_operator", "ib_ingestor", "ib_account_agent"}
  }

  /** Any other row is left out exactly when it names no service or a retired one, or is no part of the gateway and
      names neither a unit nor a deployment; else its fields are its stripped texts, with these defaults. */
  lemma RowIs(fields: map<FieldName, string>, keys: Keys)
    requires ValidKeys(keys) && Strip(Field(fields, Id)) != "ib_market"
    ensures var sid, unit, deployment, namespace := Strip(Field(fields, Id)), Strip(Field(fields, SystemdUnit)),
                Strip(Field(fields, K8sDeployment)), Strip(Field(fields, K8sNamespace));
      var title, meta, s := Strip(Field(fields, RowLabel)), Strip(Field(fields, RedisMetaKey)), Normalise(fields, keys);
      && (s.None? <==>
            sid == "" || sid == "account_sync_daemon" || (!IsGateway(sid) && unit == "" && deployment == ""))
      && (s.Some? ==>
            && s.value.id == sid && s.value.title == (if title == "" then sid else title)
            && s.value.unit == (if IsGateway(sid) || unit == "" then None
                                else if HasSuffix(unit) then Some(unit) else Some(unit + ".service"))
            && s.value.workload == (if IsGateway(sid) then Some(Workload("data", "ib-gateway"))
                                    else if deployment == "" then None
                                    else Some(Workload(if namespace == "" then "data" else namespace, deployment)))
            && s.value.metaKey == (if sid in keys.legacy && meta in keys.legacy[sid] then keys.current[sid]
                                   else if sid == "trading_engine" && meta == "" then keys.current["trading_engine"]
                                   else meta))
  {
    StripStrips(Field(fields, Id));
    StripIdentity(Strip(Field(fields, Id)));
  }

  lemma {:induction false} KeptRows(rows: seq<RawRow>, keys: Keys)
    ensures NormaliseAll(rows, keys) == [] <==>
      forall row :: row in rows && row.RawRow? ==> Normalise(row.fields, keys).None?
    ensures forall s :: s in NormaliseAll(rows, keys) <==>
      exists row :: row in rows && row.RawRow? && Normalise(row.fields, keys) == Some(s)
  {
    if rows != [] {
      var front, last := rows[..|rows| - 1], rows[|rows| - 1];
      KeptRows(front, keys);
      assert rows == front + [last];
      assert last in rows;
    }
  }

  /** The default rows are the three of the gateway and the daemon's. They stand in for a configuration that is
      missing or leaves no row, and the gateway's are put in front of a list that only names the daemon. */
  lemma ServicesAre(rows: Option<seq<RawRow>>, keys: Keys)
    requires ValidKeys(keys)
    ensures var all, kept := ServicesFrom(rows, keys), if rows.None? then [] else NormaliseAll(rows.value, keys);
      if kept == [] then
        |all| == 4 && all[0].id == "ib_operator" && all[1].id == "ib_ingestor" && all[2].id == "ib_account_agent" &&
        all[3].id == "trading_engine" && forall i :: 0 <= i < 4 ==> all[i].metaKey == keys.current[all[i].id]
      else if forall s :: s in kept ==> s.id == "trading_engine" then
        |all| == 3 + |kept| && all[0].id == "ib_operator" && all[1].id == "ib_ingestor" &&
        all[2].id == "ib_account_agent" && all[3..] == kept
      else all == kept
  {
  }
}
