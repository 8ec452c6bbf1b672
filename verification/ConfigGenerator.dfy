/**
 From stored rows to the runtime's configuration. `Generate` is the generator
 as a function of the row lists; the methods are its loops.
 */
module ConfigGenerator {
  import opened Wrappers
  import opened Exclusions
  import opened VHostRows
  import opened Sorting
  import opened Decimals
  import opened ConfigRenderer

  datatype Policy = Policy(
    id: nat, isActive: bool, crs: CrsSettings,
    ddosEnabled: bool, requests: int, window: int, maxConnections: int,
    autoBan: bool, banThreshold: int, banDuration: int,
    geoipMode: GeoipMode, geoipCountries: seq<string>)

  datatype RuleOverride = RuleOverride(policyId: nat, context: OverrideContext)

  datatype CustomRule = CustomRule(policyId: nat, context: CustomRuleContext)

  datatype Rows = Rows(
    vhosts: seq<VHost>, policies: seq<Policy>, overrides: seq<RuleOverride>,
    exclusions: seq<RuleExclusion>, customRules: seq<CustomRule>, bindings: seq<PolicyBinding>)

  /** What comes from outside: templates, URL parsing, and two settings. */
  datatype Settings = Settings(
    templates: Templates, addressOf: string -> Option<string>, geoipFailOpen: bool, logLevel: string)

  datatype App = App(name: string, crsSetup: string, tuning: string)

  datatype Config = Config(haproxyCfg: string, spoaYaml: string, apps: seq<App>, certs: map<string, string>)

  const UNASSIGNED := CrsSettings(1, 5, 4, true)

  function AppName(policyId: Option<nat>): string {
    match policyId
    case None => DEFAULT_APP
    case Some(id) => "policy_" + Decimal(id)
  }

  // --- policies ------------------------------------------------------------

  /** The last row with the id, as a dictionary filled in order keeps it. */
  function FindPolicy(policies: seq<Policy>, id: nat): Option<Policy> {
    if policies == [] then None
    else if policies[|policies| - 1].id == id then Some(policies[|policies| - 1])
    else FindPolicy(policies[..|policies| - 1], id)
  }

  predicate PolicyUsable(v: VHost, policies: seq<Policy>) {
    v.policyId.Some? ==>
      FindPolicy(policies, v.policyId.value).Some? && FindPolicy(policies, v.policyId.value).value.isActive
  }

  function PolicyOf(v: VHost, policies: seq<Policy>): Option<Policy> {
    if v.policyId.Some? then FindPolicy(policies, v.policyId.value) else None
  }

  function ActiveVhosts(vhosts: seq<VHost>): seq<VHost> {
    Sort(Filter(vhosts, (v: VHost) => v.isActive), ByString((v: VHost) => v.domain))
  }

  /** The policies of these vhosts, each once, in order of first use. */
  function UsedPolicies(vhosts: seq<VHost>, policies: seq<Policy>): seq<Policy> {
    if vhosts == [] then []
    else
      var used := UsedPolicies(vhosts[..|vhosts| - 1], policies);
      var p := PolicyOf(vhosts[|vhosts| - 1], policies);
      if p.Some? && p.value !in used then used + [p.value] else used
  }

  function EffectivePolicies(active: seq<VHost>, policies: seq<Policy>): seq<Policy> {
    Sort(UsedPolicies(active, policies), ByNumber((p: Policy) => p.id))
  }

  // --- path bindings -------------------------------------------------------

  /** A binding that asks for another policy on part of this vhost. */
  predicate Disagrees(b: PolicyBinding, v: VHost) {
    b.vhostId == v.id && v.policyId != Some(b.policyId)
  }

  predicate BindingsAgree(active: seq<VHost>, bindings: seq<PolicyBinding>) {
    forall b, v :: b in bindings && v in active ==> !Disagrees(b, v)
  }

  method RejectPathScopedPolicies(active: seq<VHost>, bindings: seq<PolicyBinding>) returns (accepted: bool)
    requires forall v, w :: v in active && w in active && v.id == w.id ==> v == w
    ensures accepted <==> BindingsAgree(active, bindings)
  {
    var policyIds: map<nat, Option<nat>> := map[];
    for n := 0 to |active|
      invariant forall id :: id in policyIds <==> exists v :: v in active[..n] && v.id == id
      invariant forall v :: v in active[..n] ==> policyIds[v.id] == v.policyId
    {
      assert active[..n + 1] == active[..n] + [active[n]];
      policyIds := policyIds[active[n].id := active[n].policyId];
    }
    assert active[..|active|] == active;
    for n := 0 to |bindings|
      invariant BindingsAgree(active, bindings[..n])
    {
      var b := bindings[n];
      if b.vhostId in policyIds && policyIds[b.vhostId] != Some(b.policyId) {
        var v :| v in active && v.id == b.vhostId;
        assert Disagrees(b, v);
        return false;
      }
      assert bindings[..n + 1] == bindings[..n] + [b];
    }
    assert bindings[..|bindings|] == bindings;
    return true;
  }

  // --- HAProxy routes ------------------------------------------------------

  function VhostSuffix(id: nat): string {
    "vhost_" + Decimal(id)
  }

  function ActiveBackends(backends: seq<Backend>): seq<Backend> {
    Filter(backends, (b: Backend) => b.isActive)
  }

  function ServerName(id: nat, index: nat): string {
    "srv_" + VhostSuffix(id) + "_" + Decimal(index)
  }

  function ToServer(settings: Settings, id: nat, index: nat, b: Backend): Option<Server> {
    var address := settings.addressOf(b.url);
    if address.None? then None
    else Some(Server(ServerName(id, index), address.value, b.healthCheckEnabled, b.interval, b.fall, b.rise))
  }

  function ServersFrom(settings: Settings, id: nat, backends: seq<Backend>): (r: Option<seq<Server>>)
    ensures r.Some? <==> forall b :: b in backends ==> settings.addressOf(b.url).Some?
    ensures r.Some? ==> |r.value| == |backends|
    ensures r.Some? ==> forall i :: 0 <= i < |backends| ==> ToServer(settings, id, i + 1, backends[i]) == Some(r.value[i])
  {
    if backends == [] then Some([])
    else
      var last := |backends| - 1;
      assert backends == backends[..last] + [backends[last]];
      var init := ServersFrom(settings, id, backends[..last]);
      var server := ToServer(settings, id, |backends|, backends[last]);
      if init.Some? && server.Some? then Some(init.value + [server.value]) else None
  }

  /** The servers of a vhost's backend section; none if the section cannot be written. */
  function ToServers(settings: Settings, v: VHost): Option<seq<Server>> {
    if v.backends == [] && v.backendUrl != "" then
      match settings.addressOf(v.backendUrl)
      case None => None
      case Some(address) => Some([Server("srv_" + VhostSuffix(v.id), address, true, 5, 3, 2)])
    else if ActiveBackends(v.backends) == [] || !AtMostOne(CheckedPaths(v.backends)) then None
    else ServersFrom(settings, v.id, ActiveBackends(v.backends))
  }

  function FirstCheckedPath(backends: seq<Backend>): string {
    if backends == [] then "/"
    else if backends[0].healthCheckEnabled then backends[0].healthCheckPath
    else FirstCheckedPath(backends[1..])
  }

  function DdosOf(id: nat, policy: Option<Policy>): Option<Ddos> {
    match policy
    case Some(p) =>
      if p.ddosEnabled then
        Some(Ddos("st_ddos_" + VhostSuffix(id), p.requests, p.window, p.maxConnections,
                  p.autoBan, "st_ban_" + VhostSuffix(id), p.banThreshold, p.banDuration))
      else None
    case None => None
  }

  function GeoipOf(settings: Settings, policy: Option<Policy>): Option<Geoip> {
    match policy
    case Some(p) =>
      if p.geoipMode != Off && p.geoipCountries != [] then Some(Geoip(p.geoipMode, p.geoipCountries, settings.geoipFailOpen))
      else None
    case None => None
  }

  function ToRoute(settings: Settings, policies: seq<Policy>, v: VHost): Option<Route> {
    match ToServers(settings, v)
    case None => None
    case Some(servers) =>
      var policy := PolicyOf(v, policies);
      var route := Route(
        "host_" + VhostSuffix(v.id), v.domain, if v.sslEnabled then v.sslProvider else "none",
        DdosOf(v.id, policy), GeoipOf(settings, policy),
        AppName(if policy.Some? then Some(policy.value.id) else None),
        "be_" + VhostSuffix(v.id), FirstCheckedPath(ActiveBackends(v.backends)), servers);
      if route.Accepted() then Some(route) else None
  }

  function Routes(settings: Settings, rows: Rows): Option<seq<Route>> {
    MapSome(ActiveVhosts(rows.vhosts), v => ToRoute(settings, rows.policies, v))
  }

  // --- rows of one policy --------------------------------------------------

  method GroupByPolicyId<Row>(rows: seq<Row>, policyIdOf: Row -> nat) returns (grouped: map<nat, seq<Row>>)
    ensures forall id :: RowsAt(grouped, id) == RowsOf(rows, policyIdOf, id)
  {
    grouped := map[];
    for n := 0 to |rows|
      invariant forall id :: RowsAt(grouped, id) == RowsOf(rows[..n], policyIdOf, id)
    {
      var row, id := rows[n], policyIdOf(rows[n]);
      assert rows[..n + 1] == rows[..n] + [row];
      forall other ensures RowsOf(rows[..n + 1], policyIdOf, other) ==
        RowsOf(rows[..n], policyIdOf, other) + if other == id then [row] else []
      {
        FilterOfConcat(rows[..n], [row], (r: Row) => policyIdOf(r) == other);
      }
      var more := grouped[id := RowsAt(grouped, id) + [row]];
      assert forall other :: RowsAt(more, other) == RowsAt(grouped, other) + if other == id then [row] else [];
      grouped := more;
    }
    assert rows[..|rows|] == rows;
  }

  function RowsAt<Row>(grouped: map<nat, seq<Row>>, id: nat): seq<Row> {
    if id in grouped then grouped[id] else []
  }

  function RowsOf<Row>(rows: seq<Row>, policyIdOf: Row -> nat, id: nat): seq<Row> {
    Filter(rows, (r: Row) => policyIdOf(r) == id)
  }

  function OverridesOf(rows: Rows, id: nat): seq<RuleOverride> {
    RowsOf(rows.overrides, (o: RuleOverride) => o.policyId, id)
  }

  function ExclusionsOf(rows: Rows, id: nat): seq<RuleExclusion> {
    RowsOf(rows.exclusions, (e: RuleExclusion) => e.policyId, id)
  }

  function CustomRulesOf(rows: Rows, id: nat): seq<CustomRule> {
    RowsOf(rows.customRules, (c: CustomRule) => c.policyId, id)
  }

  // --- Coraza applications -------------------------------------------------

  /** The first of the rule ids an exclusion owns, above the custom rules'. */
  function ControlRuleId(id: nat): int {
    9100000 + id * MATCHERS_PER_EXCLUSION
  }

  function ToExclusionContext(e: RuleExclusion): ExclusionContext {
    ExclusionContext(e.key, e.scopePath, if e.scopePath.Some? then Some(ControlRuleId(e.id)) else None)
  }

  /** Rows that cannot be rendered are left out. */
  function ExclusionContexts(exclusions: seq<RuleExclusion>): seq<ExclusionContext> {
    Filter(Map(exclusions, ToExclusionContext), (e: ExclusionContext) => e.Accepted())
  }

  /** Rule ids by position; a row without a scope gets none. */
  method ControlRuleIds(exclusions: seq<RuleExclusion>) returns (idAt: map<nat, int>)
    ensures forall i :: 0 <= i < |exclusions| ==>
      (if i in idAt then Some(idAt[i]) else None) == ToExclusionContext(exclusions[i]).controlRuleId
  {
    idAt := map[];
    for i := 0 to |exclusions|
      invariant forall j :: j in idAt ==> 0 <= j < i
      invariant forall j :: 0 <= j < i ==>
        (if j in idAt then Some(idAt[j]) else None) == ToExclusionContext(exclusions[j]).controlRuleId
    {
      if exclusions[i].scopePath.Some? {
        idAt := idAt[i := 9100000 + exclusions[i].id * MATCHERS_PER_EXCLUSION];
      }
    }
  }

  method ToExclusionContexts(exclusions: seq<RuleExclusion>) returns (contexts: seq<ExclusionContext>)
    ensures contexts == ExclusionContexts(exclusions)
  {
    var ids := ControlRuleIds(exclusions);
    contexts := [];
    for i := 0 to |exclusions|
      invariant contexts == ExclusionContexts(exclusions[..i])
    {
      var e := exclusions[i];
      var context := ExclusionContext(e.key, e.scopePath, if i in ids then Some(ids[i]) else None);
      if context.Accepted() {
        contexts := contexts + [context];
      }
      assert exclusions[..i + 1] == exclusions[..i] + [e];
      assert Map(exclusions[..i + 1], ToExclusionContext) == Map(exclusions[..i], ToExclusionContext) + [context];
      FilterOfConcat(Map(exclusions[..i], ToExclusionContext), [context], (x: ExclusionContext) => x.Accepted());
    }
    assert exclusions[..|exclusions|] == exclusions;
  }

  function OverrideContexts(overrides: seq<RuleOverride>): seq<OverrideContext> {
    Map(overrides, (o: RuleOverride) => o.context)
  }

  function CustomRuleContexts(rules: seq<CustomRule>): seq<CustomRuleContext> {
    Map(rules, (c: CustomRule) => c.context)
  }

  function ToApp(t: Templates, policy: Policy, overrides: seq<RuleOverride>, exclusions: seq<RuleExclusion>,
                 rules: seq<CustomRule>): App {
    App(AppName(Some(policy.id)), t.crsSetup(policy.crs),
        RenderTuning(t, OverrideContexts(overrides), ExclusionContexts(exclusions), CustomRuleContexts(rules)))
  }

  function DefaultApp(t: Templates): App {
    App(DEFAULT_APP, t.crsSetup(UNASSIGNED), RenderTuning(t, [], [], []))
  }

  function PolicyApps(t: Templates, effective: seq<Policy>, rows: Rows): seq<App> {
    Map(effective, (p: Policy) => ToApp(t, p, OverridesOf(rows, p.id), ExclusionsOf(rows, p.id), CustomRulesOf(rows, p.id)))
  }

  predicate CustomRulesAccepted(effective: seq<Policy>, rows: Rows) {
    forall p, c :: p in effective && c in CustomRulesOf(rows, p.id) ==> c.context.Accepted()
  }

  // --- certificates --------------------------------------------------------

  predicate Holds(text: Option<string>) {
    text.Some? && text.value != ""
  }

  function Certs(active: seq<VHost>): map<string, string> {
    if active == [] then map[]
    else
      var v := active[|active| - 1];
      var certs := Certs(active[..|active| - 1]);
      if v.sslEnabled && Holds(v.sslCert) && Holds(v.sslKey)
      then certs[v.domain := v.sslCert.value + "\n" + v.sslKey.value] else certs
  }

  // --- the whole configuration ---------------------------------------------

  function AppNames(apps: seq<App>): seq<string> {
    Map(apps, (a: App) => a.name)
  }

  /** The configuration of these rows, unless they cannot be rendered. */
  function Generate(settings: Settings, rows: Rows): Option<Config> {
    var active := ActiveVhosts(rows.vhosts);
    var routes := Routes(settings, rows);
    var effective := EffectivePolicies(active, rows.policies);
    if || (exists v :: v in active && !PolicyUsable(v, rows.policies))
       || !BindingsAgree(active, rows.bindings)
       || routes.None?
       || !CustomRulesAccepted(effective, rows)
    then None
    else
      var apps := [DefaultApp(settings.templates)] + PolicyApps(settings.templates, effective, rows);
      match (RenderHaproxy(settings.templates, routes.value), RenderSpoa(settings.templates, AppNames(apps), settings.logLevel))
      case (Some(haproxyCfg), Some(spoaYaml)) => Some(Config(haproxyCfg, spoaYaml, apps, Certs(active)))
      case _ => None
  }

  method CollectCerts(active: seq<VHost>) returns (certs: map<string, string>)
    ensures certs == Certs(active)
  {
    certs := map[];
    for n := 0 to |active|
      invariant certs == Certs(active[..n])
    {
      var v := active[n];
      assert active[..n + 1][..n] == active[..n];
      if v.sslEnabled && Holds(v.sslCert) && Holds(v.sslKey) {
        certs := certs[v.domain := v.sslCert.value + "\n" + v.sslKey.value];
      }
    }
    assert active[..|active|] == active;
  }

  method ToCorazaApp(t: Templates, policy: Policy, overrides: seq<RuleOverride>, exclusions: seq<RuleExclusion>,
                     rules: seq<CustomRule>) returns (app: Option<App>)
    ensures app == if forall c :: c in rules ==> c.context.Accepted()
                   then Some(ToApp(t, policy, overrides, exclusions, rules)) else None
  {
    var contexts := ToExclusionContexts(exclusions);
    if exists c :: c in rules && !c.context.Accepted() {
      return None;
    }
    var tuning := RenderTuning(t, OverrideContexts(overrides), contexts, CustomRuleContexts(rules));
    return Some(App(AppName(Some(policy.id)), t.crsSetup(policy.crs), tuning));
  }

  /** The applications, or none if one cannot be built. */
  method CorazaApps(t: Templates, effective: seq<Policy>, rows: Rows) returns (apps: Option<seq<App>>)
    ensures apps == if CustomRulesAccepted(effective, rows)
                    then Some([DefaultApp(t)] + PolicyApps(t, effective, rows)) else None
  {
    var overrides := GroupByPolicyId(rows.overrides, (o: RuleOverride) => o.policyId);
    var exclusions := GroupByPolicyId(rows.exclusions, (e: RuleExclusion) => e.policyId);
    var customRules := GroupByPolicyId(rows.customRules, (c: CustomRule) => c.policyId);
    var built := [];
    hide RowsAt, RowsOf, ToApp, PolicyApps, CustomRulesAccepted;
    NoApps(t, rows);
    for n := 0 to |effective|
      invariant built == PolicyApps(t, effective[..n], rows) && CustomRulesAccepted(effective[..n], rows)
    {
      var p := effective[n];
      OneMoreApp(t, effective, n, rows);
      var app := ToCorazaApp(t, p, RowsAt(overrides, p.id), RowsAt(exclusions, p.id), RowsAt(customRules, p.id));
      if app.None? {
        RefusedForAll(effective, n, rows);
        return None;
      }
      built := built + [app.value];
    }
    assert effective[..|effective|] == effective;
    return Some([DefaultApp(t)] + built);
  }

  lemma NoApps(t: Templates, rows: Rows)
    ensures PolicyApps(t, [], rows) == [] && CustomRulesAccepted([], rows)
  {
  }

  lemma OneMoreApp(t: Templates, effective: seq<Policy>, n: nat, rows: Rows)
    requires n < |effective|
    ensures var p := effective[n];
            PolicyApps(t, effective[..n + 1], rows) ==
              PolicyApps(t, effective[..n], rows)
                + [ToApp(t, p, OverridesOf(rows, p.id), ExclusionsOf(rows, p.id), CustomRulesOf(rows, p.id))]
    ensures CustomRulesAccepted(effective[..n + 1], rows) <==>
      CustomRulesAccepted(effective[..n], rows) && forall c :: c in CustomRulesOf(rows, effective[n].id) ==> c.context.Accepted()
  {
    hide ToApp, RowsOf;
    assert effective[..n + 1] == effective[..n] + [effective[n]];
  }

  lemma RefusedForAll(effective: seq<Policy>, n: nat, rows: Rows)
    requires n < |effective| && exists c :: c in CustomRulesOf(rows, effective[n].id) && !c.context.Accepted()
    ensures !CustomRulesAccepted(effective, rows)
  {
  }

  /** The generator with its loops: grouping, rejecting, skipping, assembling. */
  method GenerateConfig(settings: Settings, rows: Rows) returns (r: Option<Config>)
    requires forall v, w :: v in ActiveVhosts(rows.vhosts) && w in ActiveVhosts(rows.vhosts) && v.id == w.id ==> v == w
    ensures r == Generate(settings, rows)
  {
    var active := ActiveVhosts(rows.vhosts);
    if exists v :: v in active && !PolicyUsable(v, rows.policies) {
      return None;
    }
    var agree := RejectPathScopedPolicies(active, rows.bindings);
    var routes := Routes(settings, rows);
    if !agree || routes.None? {
      return None;
    }
    var apps := CorazaApps(settings.templates, EffectivePolicies(active, rows.policies), rows);
    if apps.None? {
      return None;
    }
    var haproxyCfg := RenderHaproxy(settings.templates, routes.value);
    var spoaYaml := RenderSpoa(settings.templates, AppNames(apps.value), settings.logLevel);
    var certs := CollectCerts(active);
    if haproxyCfg.None? || spoaYaml.None? {
      return None;
    }
    return Some(Config(haproxyCfg.value, spoaYaml.value, apps.value, certs));
  }
}
