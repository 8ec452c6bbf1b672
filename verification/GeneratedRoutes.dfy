/** What each generated route and application says, read off the rows it comes from. */
module GeneratedRoutes {
  import opened Wrappers
  import opened Exclusions
  import opened SecLang
  import opened VHostRows
  import opened Sorting
  import opened Decimals
  import opened ConfigRenderer
  import opened ConfigGenerator
  import opened GeneratorOrder
  import GeneratorLaws

  /** The row a vhost's policy id stands for: the last one with that id. */
  ghost predicate IsPolicyOf(v: VHost, policies: seq<Policy>, p: Policy) {
    v.policyId == Some(p.id) && exists k :: 0 <= k < |policies| && LastWithId(policies, k, p)
  }

  ghost predicate LastWithId(policies: seq<Policy>, k: nat, p: Policy)
    requires k < |policies|
  {
    policies[k] == p && forall j :: k < j < |policies| ==> policies[j].id != p.id
  }

  lemma {:induction false} FindsTheLast(policies: seq<Policy>, p: Policy)
    ensures FindPolicy(policies, p.id) == Some(p) <==> exists k :: 0 <= k < |policies| && LastWithId(policies, k, p)
    decreases |policies|
  {
    if policies != [] {
      var last := |policies| - 1;
      var init := policies[..last];
      FindsTheLast(init, p);
      if policies[last].id == p.id {
        assert policies[last] == p ==> LastWithId(policies, last, p);
      } else {
        if k :| 0 <= k < |init| && LastWithId(init, k, p) {
          assert LastWithId(policies, k, p);
        }
        if k :| 0 <= k < |policies| && LastWithId(policies, k, p) {
          assert LastWithId(init, k, p);
        }
      }
    }
  }

  lemma PolicyIsItsRow(v: VHost, policies: seq<Policy>)
    ensures forall p :: IsPolicyOf(v, policies, p) ==> PolicyOf(v, policies) == Some(p)
    ensures PolicyOf(v, policies).Some? ==> IsPolicyOf(v, policies, PolicyOf(v, policies).value)
  {
    forall p: Policy | v.policyId == Some(p.id) ensures PolicyOf(v, policies) == Some(p) <==> IsPolicyOf(v, policies, p) {
      FindsTheLast(policies, p);
    }
    if v.policyId.Some? {
      HasItsId(policies, v.policyId.value);
    }
  }

  lemma {:induction false} HasItsId(policies: seq<Policy>, id: nat)
    ensures FindPolicy(policies, id).Some? ==> FindPolicy(policies, id).value.id == id
    decreases |policies|
  {
    if policies != [] {
      HasItsId(policies[..|policies| - 1], id);
    }
  }

  // --- servers ---------------------------------------------------------------

  /** How many of the first n backends are active. */
  function ActiveAmong(backends: seq<Backend>, n: nat): nat
    requires n <= |backends|
  {
    if n == 0 then 0 else ActiveAmong(backends, n - 1) + if backends[n - 1].isActive then 1 else 0
  }

  /** The backend is checked before any other: the first one active and checked. */
  predicate FirstChecked(backends: seq<Backend>, n: nat)
    requires n < |backends|
  {
    && backends[n].isActive && backends[n].healthCheckEnabled
    && forall m :: 0 <= m < n ==> !(backends[m].isActive && backends[m].healthCheckEnabled)
  }

  lemma {:induction false} ActiveInOrder(backends: seq<Backend>, n: nat)
    requires n <= |backends|
    ensures |ActiveBackends(backends[..n])| == ActiveAmong(backends, n)
    ensures forall m :: 0 <= m < n && backends[m].isActive ==>
      ActiveAmong(backends, m) < ActiveAmong(backends, n)
      && ActiveBackends(backends[..n])[ActiveAmong(backends, m)] == backends[m]
  {
    if n > 0 {
      ActiveInOrder(backends, n - 1);
      assert backends[..n] == backends[..n - 1] + [backends[n - 1]];
      FilterOfConcat(backends[..n - 1], [backends[n - 1]], (b: Backend) => b.isActive);
    }
  }

  lemma {:induction false} FirstCheckedIsFirst(backends: seq<Backend>)
    ensures forall n :: 0 <= n < |backends| && FirstChecked(backends, n) ==>
      FirstCheckedPath(ActiveBackends(backends)) == backends[n].healthCheckPath
    ensures (forall b :: b in backends ==> !(b.isActive && b.healthCheckEnabled)) ==> FirstCheckedPath(ActiveBackends(backends)) == "/"
    decreases |backends|
  {
    if backends != [] {
      var rest := backends[1..];
      FirstCheckedIsFirst(rest);
      forall n | 0 < n < |backends| && FirstChecked(backends, n) ensures FirstChecked(rest, n - 1) {
        assert forall m :: 0 <= m < |rest| ==> rest[m] == backends[m + 1];
        assert !(backends[0].isActive && backends[0].healthCheckEnabled);
      }
      assert backends == [backends[0]] + rest;
      FilterOfConcat([backends[0]], rest, (b: Backend) => b.isActive);
      assert ActiveBackends(backends) == (if backends[0].isActive then [backends[0]] else []) + ActiveBackends(rest);
      assert backends[0].isActive ==> ActiveBackends(backends)[1..] == ActiveBackends(rest);
    }
  }

  /** The servers are the active backends, in order, each with its own address and check. */
  ghost predicate ServesBackends(settings: Settings, backends: seq<Backend>, servers: seq<Server>) {
    && |servers| == ActiveAmong(backends, |backends|)
    && forall n :: 0 <= n < |backends| && backends[n].isActive ==>
         && ActiveAmong(backends, n) < |servers|
         && var (server, b) := (servers[ActiveAmong(backends, n)], backends[n]);
            && Some(server.address) == settings.addressOf(b.url) && server.checked == b.healthCheckEnabled
            && server.interval == b.interval && server.fall == b.fall && server.rise == b.rise
  }

  lemma ServersAreBackends(settings: Settings, v: VHost, servers: seq<Server>)
    requires ToServers(settings, v) == Some(servers)
    ensures v.backends != [] ==> ServesBackends(settings, v.backends, servers)
    ensures v.backends == [] ==>
      && |servers| == 1 && Some(servers[0].address) == settings.addressOf(v.backendUrl)
      && servers[0].checked && servers[0].interval == 5 && servers[0].fall == 3 && servers[0].rise == 2
  {
    var n := |v.backends|;
    ActiveInOrder(v.backends, n);
    assert v.backends[..n] == v.backends;
    if v.backends != [] {
      var active := ActiveBackends(v.backends);
      hide ActiveBackends, ServerName, AtMostOne, CheckedPaths;
      assert ServersFrom(settings, v.id, active) == Some(servers);
      hide ServersFrom, ToServers;
      forall m | 0 <= m < n && v.backends[m].isActive
        ensures ActiveAmong(v.backends, m) < |servers| && active[ActiveAmong(v.backends, m)] == v.backends[m]
      {
      }
    }
  }

  // --- routes ----------------------------------------------------------------

  /** The policy's limits are on the route, all of them or none. */
  predicate LimitsOf(ddos: Option<Ddos>, p: Policy) {
    && (ddos.Some? <==> p.ddosEnabled)
    && (ddos.Some? ==>
          && ddos.value.requests == p.requests && ddos.value.window == p.window
          && ddos.value.maxConnections == p.maxConnections && ddos.value.autoBan == p.autoBan
          && ddos.value.banThreshold == p.banThreshold && ddos.value.banDuration == p.banDuration)
  }

  /** So are its countries, let in or kept out as it says. */
  predicate CountriesOf(geoip: Option<Geoip>, p: Policy, failOpen: bool) {
    && (geoip.Some? <==> p.geoipMode != Off && p.geoipCountries != [])
    && (geoip.Some? ==>
          geoip.value.mode == p.geoipMode && geoip.value.countries == p.geoipCountries && geoip.value.failOpen == failOpen)
  }

  ghost predicate Guards(route: Route, p: Policy, failOpen: bool) {
    p.isActive && LimitsOf(route.ddos, p) && CountriesOf(route.geoip, p, failOpen)
  }

  lemma RouteFields(settings: Settings, policies: seq<Policy>, v: VHost, route: Route)
    requires ToRoute(settings, policies, v) == Some(route)
    ensures route.host == v.domain && (v.sslEnabled ==> route.sslProvider == v.sslProvider)
    ensures !v.sslEnabled ==> route.sslProvider == "none"
    ensures v.policyId.None? ==> route.ddos.None? && route.geoip.None?
    ensures forall p :: IsPolicyOf(v, policies, p) ==>
      LimitsOf(route.ddos, p) && CountriesOf(route.geoip, p, settings.geoipFailOpen)
    ensures ToServers(settings, v) == Some(route.servers)
    ensures route.healthCheckPath == FirstCheckedPath(ActiveBackends(v.backends))
  {
    PolicyIsItsRow(v, policies);
    hide Route.Accepted, ToServers, FirstCheckedPath, ActiveBackends, VhostSuffix, AppName, IsPolicyOf;
  }

  /** What a vhost's sections, tables and application are called. */
  lemma RouteIsNamed(settings: Settings, policies: seq<Policy>, v: VHost, route: Route)
    requires ToRoute(settings, policies, v) == Some(route) && PolicyUsable(v, policies)
    ensures NamedByRow(route, v)
  {
    GeneratorLaws.RouteOf(settings, policies, v, route);
    hide ToRoute, ToServers, PolicyUsable, FindPolicy;
    var id := Decimal(v.id);
    assert "host_" + ("vhost_" + id) == "host_vhost_" + id && "be_" + ("vhost_" + id) == "be_vhost_" + id;
    assert "st_ddos_" + ("vhost_" + id) == "st_ddos_vhost_" + id && "st_ban_" + ("vhost_" + id) == "st_ban_vhost_" + id;
  }

  predicate NamedByRow(route: Route, v: VHost) {
    var id := Decimal(v.id);
    && route.aclName == "host_vhost_" + id && route.backendName == "be_vhost_" + id
    && (route.ddos.Some? ==>
          route.ddos.value.stickTable == "st_ddos_vhost_" + id && route.ddos.value.banTable == "st_ban_vhost_" + id)
    && route.wafApp == if v.policyId.Some? then "policy_" + Decimal(v.policyId.value) else "default"
  }

  /**
   A generated HAProxy file is rendered from one route for each active vhost, in
   their order; each says what its vhost's row, that vhost's backends and its
   policy's row say.
   */
  lemma RoutesSayTheirRows(settings: Settings, rows: Rows, i: nat)
    requires Generate(settings, rows).Some? && i < |ActiveVhosts(rows.vhosts)|
    ensures Routes(settings, rows).Some? && |Routes(settings, rows).value| == |ActiveVhosts(rows.vhosts)|
    ensures Generate(settings, rows).value.haproxyCfg == settings.templates.haproxy(Routes(settings, rows).value)
    ensures
      var (v, route) := (ActiveVhosts(rows.vhosts)[i], Routes(settings, rows).value[i]);
      && route.host == v.domain && route.sslProvider == (if v.sslEnabled then v.sslProvider else "none")
      && NamedByRow(route, v)
      && (v.policyId.None? ==> route.ddos.None? && route.geoip.None?)
      && (v.policyId.Some? ==> exists p :: IsPolicyOf(v, rows.policies, p) && Guards(route, p, settings.geoipFailOpen))
      && (v.backends != [] ==> ServesBackends(settings, v.backends, route.servers))
      && (v.backends == [] ==>
            && |route.servers| == 1 && Some(route.servers[0].address) == settings.addressOf(v.backendUrl)
            && route.servers[0].checked && route.servers[0].interval == 5
            && route.servers[0].fall == 3 && route.servers[0].rise == 2)
      && (forall n :: 0 <= n < |v.backends| && FirstChecked(v.backends, n) ==>
            route.healthCheckPath == v.backends[n].healthCheckPath)
      && ((forall b :: b in v.backends ==> !(b.isActive && b.healthCheckEnabled)) ==> route.healthCheckPath == "/")
  {
    GeneratorLaws.GeneratedFromUsable(settings, rows);
    GeneratorLaws.FilesOf(settings, rows);
    var active, routes := ActiveVhosts(rows.vhosts), Routes(settings, rows).value;
    var v := active[i];
    assert v in active;
    hide Generate, ActiveVhosts, ToRoute, ServesBackends, IsPolicyOf, LimitsOf, CountriesOf, FirstChecked;
    assert ToRoute(settings, rows.policies, v) == Some(routes[i]);
    hide Routes;
    RouteFields(settings, rows.policies, v, routes[i]);
    RouteIsNamed(settings, rows.policies, v, routes[i]);
    hide NamedByRow;
    ServersAreBackends(settings, v, routes[i].servers);
    FirstCheckedIsFirst(v.backends);
    if v.policyId.Some? {
      UsableHasARow(v, rows.policies);
    }
  }

  lemma UsableHasARow(v: VHost, policies: seq<Policy>)
    requires PolicyUsable(v, policies) && v.policyId.Some?
    ensures exists p :: p in policies && p.isActive && IsPolicyOf(v, policies, p)
  {
    PolicyIsItsRow(v, policies);
    var p := PolicyOf(v, policies).value;
    assert IsPolicyOf(v, policies, p);
  }

  // --- applications ------------------------------------------------------------

  /** The rule is switched off by an override of this policy. */
  ghost predicate SwitchedOff(rows: Rows, id: nat, o: OverrideContext) {
    o.disable && exists row :: row in rows.overrides && row.policyId == id && row.context == o
  }

  /** An active custom rule of this policy. */
  ghost predicate IsCustomRule(rows: Rows, id: nat, r: CustomRuleContext) {
    r.isActive && exists row :: row in rows.customRules && row.policyId == id && row.context == r
  }

  /** An exclusion of this policy that can be rendered, with its own block of rule ids if it has a scope. */
  ghost predicate IsExclusion(rows: Rows, id: nat, e: ExclusionContext) {
    e.Accepted() && exists row :: row in rows.exclusions && row.policyId == id && IsContextOf(e, row)
  }

  predicate IsContextOf(e: ExclusionContext, row: RuleExclusion) {
    && row.key == e.key && row.scopePath == e.scopePath
    && e.controlRuleId == if row.scopePath.Some? then Some(9100000 + 3 * row.id) else None
  }

  lemma OverridesAre(rows: Rows, id: nat, o: OverrideContext)
    ensures o in SortedDisabled(OverrideContexts(OverridesOf(rows, id))) <==> SwitchedOff(rows, id, o)
  {
    var contexts := OverrideContexts(OverridesOf(rows, id));
    RowsOfIgnoresOrder(rows.overrides, rows.overrides, (row: RuleOverride) => row.policyId, id);
    RulesAreKept(contexts, []);
    assert multiset(SortedDisabled(contexts))[o] == if o.disable then multiset(contexts)[o] else 0;
    hide SortedDisabled, RowsOf;
    if SwitchedOff(rows, id, o) {
      var row :| row in rows.overrides && row.policyId == id && row.context == o;
      assert row in OverridesOf(rows, id);
      var k :| 0 <= k < |OverridesOf(rows, id)| && OverridesOf(rows, id)[k] == row;
      assert contexts[k] == o;
    }
    if o in contexts {
      var k :| 0 <= k < |contexts| && contexts[k] == o;
      assert OverridesOf(rows, id)[k] in OverridesOf(rows, id);
    }
  }

  lemma CustomRulesAre(rows: Rows, id: nat, r: CustomRuleContext)
    ensures r in SortedActive(CustomRuleContexts(CustomRulesOf(rows, id))) <==> IsCustomRule(rows, id, r)
  {
    var contexts := CustomRuleContexts(CustomRulesOf(rows, id));
    RowsOfIgnoresOrder(rows.customRules, rows.customRules, (row: CustomRule) => row.policyId, id);
    RulesAreKept([], contexts);
    assert multiset(SortedActive(contexts))[r] == if r.isActive then multiset(contexts)[r] else 0;
    hide SortedActive, RowsOf;
    if IsCustomRule(rows, id, r) {
      var row :| row in rows.customRules && row.policyId == id && row.context == r;
      assert row in CustomRulesOf(rows, id);
      var k :| 0 <= k < |CustomRulesOf(rows, id)| && CustomRulesOf(rows, id)[k] == row;
      assert contexts[k] == r;
    }
    if r in contexts {
      var k :| 0 <= k < |contexts| && contexts[k] == r;
      assert CustomRulesOf(rows, id)[k] in CustomRulesOf(rows, id);
    }
  }

  lemma ContextOfRow(e: ExclusionContext, row: RuleExclusion)
    ensures ToExclusionContext(row) == e <==> IsContextOf(e, row)
  {
  }

  lemma ExclusionsAre(rows: Rows, id: nat, e: ExclusionContext)
    ensures e in ExclusionContexts(ExclusionsOf(rows, id)) <==> IsExclusion(rows, id, e)
  {
    var own := ExclusionsOf(rows, id);
    var contexts := Map(own, ToExclusionContext);
    RowsOfIgnoresOrder(rows.exclusions, rows.exclusions, (row: RuleExclusion) => row.policyId, id);
    FilterContains(contexts, (x: ExclusionContext) => x.Accepted(), e);
    hide Filter, RowsOf, ExclusionContext.Accepted, ToExclusionContext, IsContextOf;
    forall row ensures ToExclusionContext(row) == e <==> IsContextOf(e, row) {
      ContextOfRow(e, row);
    }
    if IsExclusion(rows, id, e) {
      var row :| row in rows.exclusions && row.policyId == id && IsContextOf(e, row);
      assert row in own;
      var k :| 0 <= k < |own| && own[k] == row;
      assert contexts[k] == e;
    }
    if e in contexts {
      var k :| 0 <= k < |contexts| && contexts[k] == e;
      assert own[k] in own && IsContextOf(e, own[k]);
    }
  }

  /** The k-th row is the policy with this id, and the application carries its CRS settings. */
  ghost predicate IsTuned(settings: Settings, policies: seq<Policy>, k: nat, id: nat, app: App)
    requires k < |policies|
  {
    && policies[k].id == id && LastWithId(policies, k, policies[k])
    && app.crsSetup == settings.templates.crsSetup(policies[k].crs)
  }

  /**
   A policy's application: its own CRS settings, and, each in its place, the rules
   its overrides switch off, its exclusions without and with a scope, and its
   active custom rules. (Whatever the templates show of these.)
   */
  lemma AppSaysItsRows(settings: Settings, rows: Rows, id: nat, app: App)
    returns (off: seq<OverrideContext>, global: seq<ExclusionContext>, scoped: seq<ExclusionContext>, custom: seq<CustomRuleContext>)
    requires GeneratorLaws.Generates(settings, rows, id, app)
    ensures app.tuning == settings.templates.tuning(off, global, scoped, custom)
    ensures exists k :: 0 <= k < |rows.policies| && IsTuned(settings, rows.policies, k, id, app)
    ensures forall o :: o in off <==> SwitchedOff(rows, id, o)
    ensures forall e :: e in global <==> IsExclusion(rows, id, e) && e.scopePath.None?
    ensures forall e :: e in scoped <==> IsExclusion(rows, id, e) && e.scopePath.Some?
    ensures forall r :: r in custom <==> IsCustomRule(rows, id, r)
  {
    CarriesItsPolicy(settings, rows, id, app);
    off, custom := SortedDisabled(OverrideContexts(OverridesOf(rows, id))), SortedActive(CustomRuleContexts(CustomRulesOf(rows, id)));
    global, scoped := ExclusionsSplit(rows, id);
    hide *;
    forall o ensures o in off <==> SwitchedOff(rows, id, o) {
      OverridesAre(rows, id, o);
    }
    forall r ensures r in custom <==> IsCustomRule(rows, id, r) {
      CustomRulesAre(rows, id, r);
    }
  }

  lemma ExclusionsSplit(rows: Rows, id: nat) returns (global: seq<ExclusionContext>, scoped: seq<ExclusionContext>)
    ensures global == SortedGlobal(ExclusionContexts(ExclusionsOf(rows, id)))
    ensures scoped == SortedScoped(ExclusionContexts(ExclusionsOf(rows, id)))
    ensures forall e :: e in global <==> IsExclusion(rows, id, e) && e.scopePath.None?
    ensures forall e :: e in scoped <==> IsExclusion(rows, id, e) && e.scopePath.Some?
  {
    hide *;
    var contexts := ExclusionContexts(ExclusionsOf(rows, id));
    global, scoped := SortedGlobal(contexts), SortedScoped(contexts);
    ExclusionsAreSplit(contexts);
    forall e ensures e in global || e in scoped <==> IsExclusion(rows, id, e) {
      ExclusionsAre(rows, id, e);
      assert multiset(global)[e] + multiset(scoped)[e] == multiset(contexts)[e];
    }
  }

  lemma CarriesItsPolicy(settings: Settings, rows: Rows, id: nat, app: App)
    requires GeneratorLaws.Generates(settings, rows, id, app)
    ensures exists k :: 0 <= k < |rows.policies| && IsTuned(settings, rows.policies, k, id, app)
    ensures
      var contexts := ExclusionContexts(ExclusionsOf(rows, id));
      app.tuning == settings.templates.tuning(
        SortedDisabled(OverrideContexts(OverridesOf(rows, id))), SortedGlobal(contexts), SortedScoped(contexts),
        SortedActive(CustomRuleContexts(CustomRulesOf(rows, id))))
  {
    GeneratorLaws.AppIsItsPolicys(settings, rows, id, app);
    var p := FindPolicy(rows.policies, id).value;
    HasItsId(rows.policies, id);
    FindsTheLast(rows.policies, p);
    hide GeneratorLaws.Generates, FindPolicy, SortedDisabled, SortedActive, SortedGlobal, SortedScoped, ExclusionContexts,
         OverrideContexts, CustomRuleContexts, OverridesOf, CustomRulesOf, ExclusionsOf;
    var k :| 0 <= k < |rows.policies| && LastWithId(rows.policies, k, p);
    assert IsTuned(settings, rows.policies, k, id, app);
  }

  /** A custom rule that can be rendered: a positive id, plain variables, and texts that can be quoted. */
  predicate CustomRuleWritable(r: CustomRuleContext) {
    && r.ruleId >= 1 && PlainVariables(r.variables)
    && QuotedValueError(r.argument).None? && QuotedValueError(r.actions).None?
  }

  predicate PlainVariables(variables: string) {
    variables != "" && forall i :: 0 <= i < |variables| ==>
      || 'a' <= variables[i] <= 'z' || 'A' <= variables[i] <= 'Z' || '0' <= variables[i] <= '9'
      || variables[i] in {'_', '-', '.', ':', '|', '@'}
  }

  /** Every custom rule of a policy in use can be written. */
  predicate CustomRulesWritable(active: seq<VHost>, rules: seq<CustomRule>) {
    forall v, c :: v in active && c in rules && v.policyId == Some(c.policyId) ==> CustomRuleWritable(c.context)
  }

  lemma RuleAcceptedIff(r: CustomRuleContext)
    ensures r.Accepted() <==> CustomRuleWritable(r)
  {
  }

  lemma CustomRulesAcceptedIff(active: seq<VHost>, rows: Rows)
    requires forall v :: v in active ==> PolicyUsable(v, rows.policies)
    ensures CustomRulesAccepted(EffectivePolicies(active, rows.policies), rows) <==> CustomRulesWritable(active, rows.customRules)
  {
    var effective := EffectivePolicies(active, rows.policies);
    hide EffectivePolicies, FindPolicy, RowsOf, CustomRuleContext.Accepted, CustomRuleWritable;
    forall p, c | p in effective && c in CustomRulesOf(rows, p.id)
      ensures c in rows.customRules && c.policyId == p.id && exists v :: v in active && v.policyId == Some(p.id)
    {
      RowsOfIgnoresOrder(rows.customRules, rows.customRules, (row: CustomRule) => row.policyId, p.id);
      var v := GeneratorLaws.UserOf(p, active, rows.policies);
    }
    forall v, c | v in active && c in rows.customRules && v.policyId == Some(c.policyId)
      ensures exists p :: p in effective && c in CustomRulesOf(rows, p.id)
    {
      GeneratorLaws.UsedPolicyOf(v, active, rows.policies);
      var p := PolicyOf(v, rows.policies).value;
      RowsOfIgnoresOrder(rows.customRules, rows.customRules, (row: CustomRule) => row.policyId, p.id);
      assert p in effective && c in CustomRulesOf(rows, p.id);
    }
    forall c: CustomRule ensures c.context.Accepted() <==> CustomRuleWritable(c.context) {
      RuleAcceptedIff(c.context);
    }
  }

  /** The first application is the one for vhosts without a policy: detection only, nothing tuned. */
  lemma DefaultAppIsUntuned(settings: Settings, rows: Rows)
    requires Generate(settings, rows).Some?
    ensures
      var (t, apps) := (settings.templates, Generate(settings, rows).value.apps);
      && apps != [] && apps[0].name == "default"
      && apps[0].crsSetup == t.crsSetup(CrsSettings(1, 5, 4, true)) && apps[0].tuning == t.tuning([], [], [], [])
  {
    GeneratorLaws.GeneratedFromUsable(settings, rows);
    hide Generate, PolicyApps;
    var none: seq<ExclusionContext> := [];
    assert Sort(none, ExclusionLe) == [];
  }
}
