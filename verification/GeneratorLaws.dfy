/**
 What a generated configuration promises: the applications HAProxy names are
 the ones Coraza gets, each is made of its own policy's rows only, and nothing
 generated collides with anything else.
 */
module GeneratorLaws {
  import opened Wrappers
  import opened Exclusions
  import opened VHostRows
  import opened Sorting
  import opened Decimals
  import opened ConfigRenderer
  import opened ConfigGenerator
  import opened GeneratorOrder
  import LearnedScopes

  // --- names ---------------------------------------------------------------

  lemma AppNamesDiffer(a: Option<nat>, b: Option<nat>)
    requires AppName(a) == AppName(b)
    ensures a == b
  {
    if a.Some? && b.Some? {
      assert AppName(a) + "" == AppName(a) && AppName(b) + "" == AppName(b);
      NumberedNamesDiffer("policy_", a.value, "", b.value, "");
    }
  }

  lemma AppNameIsAccepted(id: Option<nat>)
    ensures MatchesToDollar(AppName(id), AppNameChar)
  {
    if id.Some? {
      var d := Decimal(id.value);
      forall i | 0 <= i < |AppName(id)| ensures AppNameChar(AppName(id)[i]) {
        if i >= 7 {
          assert AppName(id)[i] == d[i - 7];
        }
      }
    }
  }

  /** Policies are used in id order, each once. */
  lemma EffectiveHaveDistinctIds(active: seq<VHost>, policies: seq<Policy>)
    ensures var effective := EffectivePolicies(active, policies);
            forall i, j :: 0 <= i < j < |effective| ==> effective[i].id < effective[j].id
  {
    var used := UsedPolicies(active, policies);
    var effective := EffectivePolicies(active, policies);
    ByNumberIsOrder((p: Policy) => p.id);
    SortIsAscending(used, ByNumber((p: Policy) => p.id));
    UsedOnce(active, policies);
    forall i, j | 0 <= i < j < |effective| ensures effective[i].id < effective[j].id {
      assert effective[i] in effective && effective[j] in effective;
      EffectiveAreUsed(active, policies, effective[i]);
      EffectiveAreUsed(active, policies, effective[j]);
      var v :| v in active && PolicyOf(v, policies) == Some(effective[i]);
      var w :| w in active && PolicyOf(w, policies) == Some(effective[j]);
      FindPolicyIsLookup(policies, v.policyId.value);
      FindPolicyIsLookup(policies, w.policyId.value);
      UniqueIsByElement(used, effective, i, j);
      assert ByNumber((p: Policy) => p.id)(effective[i], effective[j]);
    }
  }

  lemma UniqueIsByElement<T>(s: seq<T>, t: seq<T>, i: nat, j: nat)
    requires Unique(s) && multiset(s) == multiset(t) && i < j < |t|
    ensures t[i] != t[j]
  {
    UniqueCountsOnce(s, t[i]);
    CountedOnceApart(t, i, j);
  }

  lemma {:induction false} UniqueCountsOnce<T>(s: seq<T>, x: T)
    requires Unique(s)
    ensures multiset(s)[x] <= 1
  {
    if s != [] {
      var last := |s| - 1;
      assert s == s[..last] + [s[last]];
      UniqueCountsOnce(s[..last], x);
    }
  }

  lemma {:induction false} UsedOnce(vhosts: seq<VHost>, policies: seq<Policy>)
    ensures Unique(UsedPolicies(vhosts, policies))
  {
    if vhosts != [] {
      UsedOnce(vhosts[..|vhosts| - 1], policies);
    }
  }

  // --- closure -------------------------------------------------------------

  /** The application a vhost is sent to. */
  function AppOf(v: VHost): string {
    AppName(v.policyId)
  }

  /** What was checked before anything was rendered. */
  lemma GeneratedFromUsable(settings: Settings, rows: Rows)
    requires Generate(settings, rows).Some?
    ensures forall v :: v in ActiveVhosts(rows.vhosts) ==> PolicyUsable(v, rows.policies)
    ensures BindingsAgree(ActiveVhosts(rows.vhosts), rows.bindings)
    ensures Routes(settings, rows).Some?
    ensures Generate(settings, rows).value.apps ==
      [DefaultApp(settings.templates)]
        + PolicyApps(settings.templates, EffectivePolicies(ActiveVhosts(rows.vhosts), rows.policies), rows)
  {
    hide ActiveVhosts, EffectivePolicies, PolicyUsable, BindingsAgree, Routes, PolicyApps, DefaultApp, CustomRulesAccepted, RenderHaproxy,
         RenderSpoa, Certs;
  }

  lemma SpoaWasRendered(settings: Settings, rows: Rows)
    requires Generate(settings, rows).Some?
    ensures RenderSpoa(settings.templates, AppNames(Generate(settings, rows).value.apps), settings.logLevel).Some?
  {
    hide ActiveVhosts, EffectivePolicies, PolicyUsable, BindingsAgree, Routes, PolicyApps, DefaultApp, CustomRulesAccepted, RenderHaproxy,
         RenderSpoa, AppNames, Certs;
  }

  lemma AppsByName(settings: Settings, rows: Rows, i: nat)
    requires Generate(settings, rows).Some? && i < |Generate(settings, rows).value.apps|
    ensures i == 0 ==> Generate(settings, rows).value.apps[i] == DefaultApp(settings.templates)
    ensures var effective := EffectivePolicies(ActiveVhosts(rows.vhosts), rows.policies);
            i > 0 ==>
              && i - 1 < |effective|
              && var p := effective[i - 1];
                 Generate(settings, rows).value.apps[i] ==
                   ToApp(settings.templates, p, OverridesOf(rows, p.id), ExclusionsOf(rows, p.id), CustomRulesOf(rows, p.id))
    ensures |Generate(settings, rows).value.apps| == 1 + |EffectivePolicies(ActiveVhosts(rows.vhosts), rows.policies)|
  {
    GeneratedFromUsable(settings, rows);
    hide Generate, ToApp, EffectivePolicies, ActiveVhosts, DefaultApp;
  }

  lemma UsedPolicyOf(v: VHost, active: seq<VHost>, policies: seq<Policy>)
    requires v in active && v.policyId.Some? && PolicyUsable(v, policies)
    ensures var p := PolicyOf(v, policies);
            p.Some? && p.value.id == v.policyId.value && p.value in EffectivePolicies(active, policies)
  {
    FindPolicyIsLookup(policies, v.policyId.value);
    EffectiveAreUsed(active, policies, PolicyOf(v, policies).value);
  }

  lemma UserOf(p: Policy, active: seq<VHost>, policies: seq<Policy>) returns (v: VHost)
    requires p in EffectivePolicies(active, policies)
    ensures v in active && v.policyId == Some(p.id) && FindPolicy(policies, p.id) == Some(p)
  {
    EffectiveAreUsed(active, policies, p);
    v :| v in active && PolicyOf(v, policies) == Some(p);
    FindPolicyIsLookup(policies, v.policyId.value);
  }

  lemma AppIsInUse(settings: Settings, rows: Rows, i: nat)
    requires Generate(settings, rows).Some? && 0 < i < |Generate(settings, rows).value.apps|
    ensures exists v :: v in ActiveVhosts(rows.vhosts) && AppOf(v) == Generate(settings, rows).value.apps[i].name
  {
    AppsByName(settings, rows, i);
    hide Generate, EffectivePolicies, ActiveVhosts;
    var active := ActiveVhosts(rows.vhosts);
    var effective := EffectivePolicies(active, rows.policies);
    assert effective[i - 1] in effective;
    var v := UserOf(effective[i - 1], active, rows.policies);
    assert AppOf(v) == Generate(settings, rows).value.apps[i].name;
  }

  lemma AppInUseIsGenerated(settings: Settings, rows: Rows, v: VHost)
    requires Generate(settings, rows).Some? && v in ActiveVhosts(rows.vhosts)
    ensures AppOf(v) in AppNames(Generate(settings, rows).value.apps)
  {
    GeneratedFromUsable(settings, rows);
    hide Generate, EffectivePolicies, ActiveVhosts, PolicyApps, Map;
    var names := AppNames(Generate(settings, rows).value.apps);
    AppsByName(settings, rows, 0);
    if v.policyId.None? {
      assert names[0] == AppOf(v);
    } else {
      var active := ActiveVhosts(rows.vhosts);
      var effective := EffectivePolicies(active, rows.policies);
      UsedPolicyOf(v, active, rows.policies);
      var k :| 0 <= k < |effective| && effective[k] == PolicyOf(v, rows.policies).value;
      AppsByName(settings, rows, k + 1);
      assert names[k + 1] == AppOf(v);
    }
  }

  lemma NameIsInUse(settings: Settings, rows: Rows, name: string)
    requires Generate(settings, rows).Some? && name in AppNames(Generate(settings, rows).value.apps)
    ensures name == DEFAULT_APP || exists v :: v in ActiveVhosts(rows.vhosts) && AppOf(v) == name
  {
    var names := AppNames(Generate(settings, rows).value.apps);
    hide Generate, ActiveVhosts, AppOf;
    var i :| 0 <= i < |names| && names[i] == name;
    if i == 0 {
      AppsByName(settings, rows, 0);
    } else {
      AppIsInUse(settings, rows, i);
    }
  }

  lemma DefaultIsGenerated(settings: Settings, rows: Rows)
    requires Generate(settings, rows).Some?
    ensures DEFAULT_APP in AppNames(Generate(settings, rows).value.apps)
  {
    GeneratedFromUsable(settings, rows);
    hide Generate, PolicyApps;
    assert AppNames(Generate(settings, rows).value.apps)[0] == DEFAULT_APP;
  }

  /** Coraza gets the default application and those of the active vhosts, and no others. */
  lemma AppsAreThoseInUse(settings: Settings, rows: Rows, name: string)
    ensures Generate(settings, rows).Some? ==>
      (name in AppNames(Generate(settings, rows).value.apps) <==>
         name == DEFAULT_APP || exists v :: v in ActiveVhosts(rows.vhosts) && AppOf(v) == name)
  {
    hide Generate, ActiveVhosts, AppOf, AppNames;
    if Generate(settings, rows).Some? {
      DefaultIsGenerated(settings, rows);
      if name in AppNames(Generate(settings, rows).value.apps) {
        NameIsInUse(settings, rows, name);
      }
      if v :| v in ActiveVhosts(rows.vhosts) && AppOf(v) == name {
        AppInUseIsGenerated(settings, rows, v);
      }
    }
  }

  lemma RouteOf(settings: Settings, policies: seq<Policy>, v: VHost, route: Route)
    requires ToRoute(settings, policies, v) == Some(route) && PolicyUsable(v, policies)
    ensures route.host == v.domain && route.wafApp == AppOf(v)
    ensures route.aclName == "host_" + VhostSuffix(v.id) && route.backendName == "be_" + VhostSuffix(v.id)
    ensures ToServers(settings, v) == Some(route.servers)
    ensures route.ddos == DdosOf(v.id, PolicyOf(v, policies))
  {
    hide Route.Accepted, ToServers, DdosOf, GeoipOf, FirstCheckedPath, VhostSuffix;
    if v.policyId.Some? {
      FindPolicyIsLookup(policies, v.policyId.value);
    }
  }

  lemma RouteGoesToItsApp(settings: Settings, rows: Rows, i: nat)
    requires Generate(settings, rows).Some? && i < |Routes(settings, rows).value|
    ensures var active := ActiveVhosts(rows.vhosts);
            && |Routes(settings, rows).value| == |active|
            && Routes(settings, rows).value[i].host == active[i].domain
            && Routes(settings, rows).value[i].wafApp == AppOf(active[i])
  {
    GeneratedFromUsable(settings, rows);
    var active := ActiveVhosts(rows.vhosts);
    hide Generate, ActiveVhosts, ToRoute, AppOf;
    assert active[i] in active;
    RouteOf(settings, rows.policies, active[i], Routes(settings, rows).value[i]);
  }

  /** Every application a route names is generated, and so is the default one. */
  lemma RoutesStayWithinApps(settings: Settings, rows: Rows)
    requires Generate(settings, rows).Some?
    ensures var names := AppNames(Generate(settings, rows).value.apps);
            && DEFAULT_APP in names
            && forall route :: route in Routes(settings, rows).value ==> route.wafApp in names
  {
    var routes := Routes(settings, rows).value;
    DefaultIsGenerated(settings, rows);
    hide Generate, Routes, ActiveVhosts, AppOf;
    forall i | 0 <= i < |routes| ensures routes[i].wafApp in AppNames(Generate(settings, rows).value.apps) {
      RouteGoesToItsApp(settings, rows, i);
      AppInUseIsGenerated(settings, rows, ActiveVhosts(rows.vhosts)[i]);
    }
  }

  // --- isolation -----------------------------------------------------------

  ghost predicate Generates(settings: Settings, rows: Rows, id: nat, app: App) {
    Generate(settings, rows).Some? && app in Generate(settings, rows).value.apps && app.name == AppName(Some(id))
  }

  /** The application of a policy is what its own rows make it. */
  lemma AppIsItsPolicys(settings: Settings, rows: Rows, id: nat, app: App)
    ensures Generates(settings, rows, id, app) ==>
      && FindPolicy(rows.policies, id).Some?
      && app == ToApp(settings.templates, FindPolicy(rows.policies, id).value,
                      OverridesOf(rows, id), ExclusionsOf(rows, id), CustomRulesOf(rows, id))
  {
    hide Generate, EffectivePolicies, ActiveVhosts, FindPolicy;
    if Generates(settings, rows, id, app) {
      var active := ActiveVhosts(rows.vhosts);
      var effective := EffectivePolicies(active, rows.policies);
      var apps := Generate(settings, rows).value.apps;
      var i :| 0 <= i < |apps| && apps[i] == app;
      AppsByName(settings, rows, i);
      AppNamesDiffer(if i == 0 then None else Some(effective[i - 1].id), Some(id));
      assert effective[i - 1] in effective;
      var _ := UserOf(effective[i - 1], active, rows.policies);
    }
  }

  /** No row of another policy, and no vhost, changes what a policy's application holds. */
  lemma AppDependsOnItsPolicyOnly(settings: Settings, r: Rows, s: Rows, id: nat, a: App, b: App)
    requires FindPolicy(r.policies, id) == FindPolicy(s.policies, id)
    requires OverridesOf(r, id) == OverridesOf(s, id) && ExclusionsOf(r, id) == ExclusionsOf(s, id)
    requires CustomRulesOf(r, id) == CustomRulesOf(s, id)
    ensures Generates(settings, r, id, a) && Generates(settings, s, id, b) ==> a == b
  {
    AppIsItsPolicys(settings, r, id, a);
    AppIsItsPolicys(settings, s, id, b);
  }

  // --- rule ids ------------------------------------------------------------

  const CUSTOM_RULE_ID_MAX := 9099999

  /** The control rules one exclusion is written as. */
  function ControlRules(e: RuleExclusion): seq<LearnedScopes.ScopeMatcher> {
    if e.scopePath.None? then [] else LearnedScopes.ScopeMatchers(e.scopePath.value, ControlRuleId(e.id))
  }

  /** Two control rules with one id are the same rule of the same exclusion; no custom rule has that id. */
  lemma ControlRuleIdsAreApart(e: RuleExclusion, f: RuleExclusion, i: nat, j: nat)
    requires i < |ControlRules(e)| && j < |ControlRules(f)|
    ensures ControlRules(e)[i].ruleId == ControlRules(f)[j].ruleId <==> e.id == f.id && i == j
    ensures ControlRules(e)[i].ruleId > CUSTOM_RULE_ID_MAX
  {
    assert ControlRules(e)[i].ruleId == ControlRuleId(e.id) + i && i < MATCHERS_PER_EXCLUSION;
    assert ControlRules(f)[j].ruleId == ControlRuleId(f.id) + j && j < MATCHERS_PER_EXCLUSION;
  }

  // --- identifiers ---------------------------------------------------------

  /** Ids are primary keys. */
  ghost predicate VhostIdsHold(rows: Rows) {
    Unique(rows.vhosts) && forall v, w :: v in rows.vhosts && w in rows.vhosts && v.id == w.id ==> v == w
  }

  ghost predicate DistinctIds(vhosts: seq<VHost>) {
    forall i, j :: 0 <= i < j < |vhosts| ==> vhosts[i].id != vhosts[j].id
  }

  lemma ActiveHaveDistinctIds(rows: Rows)
    requires VhostIdsHold(rows)
    ensures DistinctIds(ActiveVhosts(rows.vhosts))
    ensures forall v :: v in ActiveVhosts(rows.vhosts) <==> v in rows.vhosts && v.isActive
    ensures Ascending(ActiveVhosts(rows.vhosts), ByString((v: VHost) => v.domain))
  {
    var active := (v: VHost) => v.isActive;
    var kept := Filter(rows.vhosts, active);
    var sorted := ActiveVhosts(rows.vhosts);
    ByStringIsOrder((v: VHost) => v.domain);
    SortIsAscending(kept, ByString((v: VHost) => v.domain));
    SameElements(kept, sorted);
    hide Sort, Ascending, IsOrder, StringLe;
    forall v ensures (v in sorted <==> v in rows.vhosts && v.isActive) && multiset(kept)[v] <= 1 {
      FilterContains(rows.vhosts, active, v);
      FilterCounts(rows.vhosts, active, v);
      UniqueCountsOnce(rows.vhosts, v);
    }
    forall i, j | 0 <= i < j < |sorted| ensures sorted[i].id != sorted[j].id {
      assert sorted[i] in sorted && sorted[j] in sorted;
      CountedOnceApart(sorted, i, j);
    }
  }

  lemma CountedOnceApart<T>(s: seq<T>, i: nat, j: nat)
    requires i < j < |s| && multiset(s)[s[i]] <= 1
    ensures s[i] != s[j]
  {
    assert s == s[..j] + [s[j]] + s[j + 1..];
  }

  /** A name that starts with the kind and the vhost's id. */
  ghost predicate NamedAfter(name: string, kind: string, id: nat) {
    exists tail :: Separate(tail) && name == kind + Decimal(id) + tail
  }

  lemma NamedAfterOne(name: string, kind: string, m: nat, n: nat)
    requires NamedAfter(name, kind, m) && NamedAfter(name, kind, n)
    ensures m == n
  {
    var tail :| Separate(tail) && name == kind + Decimal(m) + tail;
    var tail' :| Separate(tail') && name == kind + Decimal(n) + tail';
    NumberedNamesDiffer(kind, m, tail, n, tail');
  }

  lemma PlainName(kind: string, id: nat)
    ensures NamedAfter(kind + VhostSuffix(id), kind + "vhost_", id)
  {
    assert kind + VhostSuffix(id) == kind + "vhost_" + Decimal(id) + "";
  }

  lemma ServerNameIsNamed(id: nat, index: nat)
    ensures NamedAfter(ServerName(id, index), "srv_vhost_", id)
  {
    var tail := "_" + Decimal(index);
    assert ServerName(id, index) == "srv_vhost_" + Decimal(id) + tail;
  }

  lemma ServerNamesDiffer(id: nat, i: nat, j: nat)
    requires ServerName(id, i) == ServerName(id, j)
    ensures i == j
  {
    var prefix := "srv_" + VhostSuffix(id) + "_";
    assert prefix + Decimal(i) + "" == ServerName(id, i) && prefix + Decimal(j) + "" == ServerName(id, j);
    NumberedNamesDiffer(prefix, i, "", j, "");
  }

  lemma ServersAreNamed(settings: Settings, v: VHost, servers: seq<Server>)
    requires ToServers(settings, v) == Some(servers)
    ensures forall s :: s in servers ==> NamedAfter(s.name, "srv_vhost_", v.id)
    ensures Unique(ServerNames(servers)) && servers != []
  {
    if v.backends == [] && v.backendUrl != "" {
      PlainName("srv_", v.id);
      assert "srv_" + "vhost_" == "srv_vhost_";
    } else {
      var backends := ActiveBackends(v.backends);
      hide ToServers, ActiveBackends, VhostSuffix, NamedAfter;
      forall i | 0 <= i < |servers|
        ensures servers[i].name == ServerName(v.id, i + 1) && NamedAfter(servers[i].name, "srv_vhost_", v.id)
      {
        assert ToServer(settings, v.id, i + 1, backends[i]) == Some(servers[i]);
        ServerNameIsNamed(v.id, i + 1);
      }
      forall i, j | 0 <= i < j < |servers| ensures ServerNames(servers)[i] != ServerNames(servers)[j] {
        if servers[i].name == servers[j].name {
          ServerNamesDiffer(v.id, i + 1, j + 1);
        }
      }
    }
  }

  lemma {:induction false} AllServersAreNamed(settings: Settings, active: seq<VHost>, routes: seq<Route>)
    requires |routes| == |active| && DistinctIds(active)
    requires forall i :: 0 <= i < |routes| ==> ToServers(settings, active[i]) == Some(routes[i].servers)
    ensures Unique(AllServerNames(routes))
    ensures forall name :: name in AllServerNames(routes) ==>
      exists i :: 0 <= i < |active| && NamedAfter(name, "srv_vhost_", active[i].id)
  {
    if routes != [] {
      var last := |routes| - 1;
      var before, names := AllServerNames(routes[..last]), ServerNames(routes[last].servers);
      AllServersAreNamed(settings, active[..last], routes[..last]);
      ServersAreNamed(settings, active[last], routes[last].servers);
      hide ToServers, NamedAfter;
      forall k | 0 <= k < |names| ensures NamedAfter(names[k], "srv_vhost_", active[last].id) {
        assert routes[last].servers[k] in routes[last].servers;
      }
      forall name | name in before && name in names ensures false {
        var i :| 0 <= i < last && NamedAfter(name, "srv_vhost_", active[..last][i].id);
        NamedAfterOne(name, "srv_vhost_", active[i].id, active[last].id);
      }
      ConcatIsUnique(before, names);
      forall name | name in AllServerNames(routes) ensures exists i :: 0 <= i < |active| && NamedAfter(name, "srv_vhost_", active[i].id) {
        if name in before {
          var i :| 0 <= i < last && NamedAfter(name, "srv_vhost_", active[..last][i].id);
          assert NamedAfter(name, "srv_vhost_", active[i].id);
        } else {
          assert name in names;
          assert NamedAfter(name, "srv_vhost_", active[last].id);
        }
      }
    }
  }

  lemma ConcatIsUnique<T>(a: seq<T>, b: seq<T>)
    requires Unique(a) && Unique(b) && forall x :: !(x in a && x in b)
    ensures Unique(a + b)
  {
    forall i, j | 0 <= i < j < |a + b| ensures (a + b)[i] != (a + b)[j] {
      if i < |a| <= j {
        assert a[i] in a && b[j - |a|] in b;
      }
    }
  }

  lemma SuffixedNamesDiffer(kind: string, m: nat, n: nat)
    requires kind + VhostSuffix(m) == kind + VhostSuffix(n)
    ensures m == n
  {
    PlainName(kind, m);
    PlainName(kind, n);
    NamedAfterOne(kind + VhostSuffix(m), kind + "vhost_", m, n);
  }

  lemma SuffixedNamesAreUnique(routes: seq<Route>, active: seq<VHost>, f: Route -> string, kind: string)
    requires |routes| == |active| && DistinctIds(active)
    requires forall i :: 0 <= i < |routes| ==> f(routes[i]) == kind + VhostSuffix(active[i].id)
    ensures Unique(Map(routes, f))
  {
    hide VhostSuffix;
    forall i, j | 0 <= i < j < |routes| ensures f(routes[i]) != f(routes[j]) {
      if f(routes[i]) == f(routes[j]) {
        SuffixedNamesDiffer(kind, active[i].id, active[j].id);
      }
    }
  }

  lemma RouteAt(settings: Settings, rows: Rows, i: nat)
    requires Routes(settings, rows).Some? && i < |ActiveVhosts(rows.vhosts)|
    requires forall v :: v in ActiveVhosts(rows.vhosts) ==> PolicyUsable(v, rows.policies)
    ensures |Routes(settings, rows).value| == |ActiveVhosts(rows.vhosts)|
    ensures var route := Routes(settings, rows).value[i];
            var v := ActiveVhosts(rows.vhosts)[i];
            && route.aclName == "host_" + VhostSuffix(v.id) && route.backendName == "be_" + VhostSuffix(v.id)
            && ToServers(settings, v) == Some(route.servers) && route.ddos == DdosOf(v.id, PolicyOf(v, rows.policies))
  {
    var v := ActiveVhosts(rows.vhosts)[i];
    hide ActiveVhosts, ToRoute, PolicyUsable, ToServers, VhostSuffix, DdosOf;
    assert v in ActiveVhosts(rows.vhosts);
    RouteOf(settings, rows.policies, v, Routes(settings, rows).value[i]);
  }

  /** Distinct vhosts never share an ACL, a backend section or a server name. */
  lemma IdentifiersNeverCollide(settings: Settings, rows: Rows)
    requires VhostIdsHold(rows) && Routes(settings, rows).Some?
    requires forall v :: v in ActiveVhosts(rows.vhosts) ==> PolicyUsable(v, rows.policies)
    ensures RenderHaproxy(settings.templates, Routes(settings, rows).value).Some?
  {
    var active, routes := ActiveVhosts(rows.vhosts), Routes(settings, rows).value;
    ActiveHaveDistinctIds(rows);
    hide ActiveVhosts, Routes, PolicyUsable, ToServers, VhostSuffix, VhostIdsHold, DdosOf, Unique, AllServerNames, Map, DistinctIds;
    assert |routes| == |active| by {
      if active != [] {
        RouteAt(settings, rows, 0);
      } else {
        assert |Routes(settings, rows).value| == 0;
      }
    }
    forall i | 0 <= i < |routes|
      ensures routes[i].aclName == "host_" + VhostSuffix(active[i].id)
      ensures routes[i].backendName == "be_" + VhostSuffix(active[i].id)
      ensures ToServers(settings, active[i]) == Some(routes[i].servers)
    {
      RouteAt(settings, rows, i);
    }
    SuffixedNamesAreUnique(routes, active, (r: Route) => r.aclName, "host_");
    SuffixedNamesAreUnique(routes, active, (r: Route) => r.backendName, "be_");
    AllServersAreNamed(settings, active, routes);
  }

  lemma TablesAt(settings: Settings, rows: Rows, i: nat)
    requires Routes(settings, rows).Some? && i < |ActiveVhosts(rows.vhosts)|
    requires forall v :: v in ActiveVhosts(rows.vhosts) ==> PolicyUsable(v, rows.policies)
    ensures |Routes(settings, rows).value| == |ActiveVhosts(rows.vhosts)|
    ensures var ddos := Routes(settings, rows).value[i].ddos;
            var suffix := VhostSuffix(ActiveVhosts(rows.vhosts)[i].id);
            ddos.Some? ==> ddos.value.stickTable == "st_ddos_" + suffix && ddos.value.banTable == "st_ban_" + suffix
  {
    RouteAt(settings, rows, i);
    hide ActiveVhosts, Routes, VhostSuffix, ToServers;
  }

  /** Nor do they share a stick table, which only the names see to. */
  lemma StickTablesNeverCollide(settings: Settings, rows: Rows, i: nat, j: nat)
    requires VhostIdsHold(rows) && i < j < |ActiveVhosts(rows.vhosts)|
    ensures var routes := Routes(settings, rows);
            Generate(settings, rows).Some? && routes.value[i].ddos.Some? && routes.value[j].ddos.Some? ==>
              && routes.value[i].ddos.value.stickTable != routes.value[j].ddos.value.stickTable
              && routes.value[i].ddos.value.banTable != routes.value[j].ddos.value.banTable
  {
    ActiveHaveDistinctIds(rows);
    hide Generate, Routes, ActiveVhosts, VhostIdsHold, VhostSuffix, PolicyUsable;
    if Generate(settings, rows).Some? {
      var m, n := ActiveVhosts(rows.vhosts)[i].id, ActiveVhosts(rows.vhosts)[j].id;
      GeneratedFromUsable(settings, rows);
      TablesAt(settings, rows, i);
      TablesAt(settings, rows, j);
      if "st_ddos_" + VhostSuffix(m) == "st_ddos_" + VhostSuffix(n) {
        SuffixedNamesDiffer("st_ddos_", m, n);
      }
      if "st_ban_" + VhostSuffix(m) == "st_ban_" + VhostSuffix(n) {
        SuffixedNamesDiffer("st_ban_", m, n);
      }
    }
  }

  lemma AppNamesAreUnique(t: Templates, effective: seq<Policy>, rows: Rows)
    requires forall i, j :: 0 <= i < j < |effective| ==> effective[i].id < effective[j].id
    ensures var names := AppNames([DefaultApp(t)] + PolicyApps(t, effective, rows));
            Unique(names) && DEFAULT_APP in names && forall name :: name in names ==> MatchesToDollar(name, AppNameChar)
  {
    hide RenderTuning, MatchesToDollar, AppNameChar, OverridesOf, ExclusionsOf, CustomRulesOf, Decimal;
    var apps := [DefaultApp(t)] + PolicyApps(t, effective, rows);
    var ids := [None] + seq(|effective|, i requires 0 <= i < |effective| => Some(effective[i].id));
    DefaultName();
    forall i | 0 <= i < |apps| ensures apps[i].name == AppName(ids[i]) {
      assert i > 0 ==> apps[i] == PolicyApps(t, effective, rows)[i - 1];
    }
    NamesByIds(AppNames(apps), ids);
    assert AppNames(apps)[0] == DEFAULT_APP;
  }

  lemma NamesByIds(names: seq<string>, ids: seq<Option<nat>>)
    requires |names| == |ids| && forall i :: 0 <= i < |ids| ==> names[i] == AppName(ids[i])
    requires Unique(ids)
    ensures Unique(names) && forall name :: name in names ==> MatchesToDollar(name, AppNameChar)
  {
    hide AppName, MatchesToDollar;
    forall i | 0 <= i < |names| ensures MatchesToDollar(names[i], AppNameChar) {
      AppNameIsAccepted(ids[i]);
    }
    forall i, j | 0 <= i < j < |names| ensures names[i] != names[j] {
      if names[i] == names[j] {
        AppNamesDiffer(ids[i], ids[j]);
      }
    }
  }

  lemma DefaultName()
    ensures AppName(None) == DEFAULT_APP
  {
  }

  lemma GenerateUnfolds(settings: Settings, rows: Rows)
    ensures var active := ActiveVhosts(rows.vhosts);
            var effective := EffectivePolicies(active, rows.policies);
            Generate(settings, rows).Some? <==>
              && (forall v :: v in active ==> PolicyUsable(v, rows.policies))
              && BindingsAgree(active, rows.bindings)
              && CustomRulesAccepted(effective, rows)
              && Routes(settings, rows).Some?
              && RenderHaproxy(settings.templates, Routes(settings, rows).value).Some?
              && RenderSpoa(settings.templates, GeneratedNames(settings, rows), settings.logLevel).Some?
  {
    hide ActiveVhosts, EffectivePolicies, Routes, PolicyUsable, BindingsAgree, CustomRulesAccepted, RenderHaproxy, RenderSpoa,
         PolicyApps, DefaultApp, AppNames, Certs;
  }

  function GeneratedNames(settings: Settings, rows: Rows): seq<string> {
    AppNames([DefaultApp(settings.templates)]
               + PolicyApps(settings.templates, EffectivePolicies(ActiveVhosts(rows.vhosts), rows.policies), rows))
  }

  lemma SpoaRefusesOnlyTheLevel(settings: Settings, rows: Rows)
    ensures RenderSpoa(settings.templates, GeneratedNames(settings, rows), settings.logLevel).Some? <==>
      settings.logLevel in {"debug", "info", "warn", "error"}
  {
    var active := ActiveVhosts(rows.vhosts);
    EffectiveHaveDistinctIds(active, rows.policies);
    AppNamesAreUnique(settings.templates, EffectivePolicies(active, rows.policies), rows);
    hide ActiveVhosts, EffectivePolicies, PolicyApps, DefaultApp, AppNames, Unique, MatchesToDollar;
  }

  lemma RoutesAllOrNone(settings: Settings, rows: Rows)
    ensures Routes(settings, rows).Some? <==>
      forall v :: v in ActiveVhosts(rows.vhosts) ==> ToRoute(settings, rows.policies, v).Some?
  {
    hide ActiveVhosts, ToRoute;
  }

  /**
   Generation fails for what the rows say, never for the names it makes up:
   exactly when an active vhost's policy is missing or inactive, a binding asks
   for another policy, a route or a custom rule is refused by itself, or the
   log level is unknown.
   */
  lemma FailsOnlyForWhatRowsSay(settings: Settings, rows: Rows)
    requires VhostIdsHold(rows)
    ensures var active := ActiveVhosts(rows.vhosts);
            Generate(settings, rows).Some? <==>
              && (forall v :: v in active ==> PolicyUsable(v, rows.policies))
              && BindingsAgree(active, rows.bindings)
              && (forall v :: v in active ==> ToRoute(settings, rows.policies, v).Some?)
              && CustomRulesAccepted(EffectivePolicies(active, rows.policies), rows)
              && settings.logLevel in {"debug", "info", "warn", "error"}
  {
    hide ActiveVhosts, EffectivePolicies, Routes, ToRoute, PolicyUsable, BindingsAgree, CustomRulesAccepted, RenderHaproxy, RenderSpoa,
         VhostIdsHold, Generate, GeneratedNames;
    GenerateUnfolds(settings, rows);
    SpoaRefusesOnlyTheLevel(settings, rows);
    RoutesAllOrNone(settings, rows);
    if Routes(settings, rows).Some? && forall v :: v in ActiveVhosts(rows.vhosts) ==> PolicyUsable(v, rows.policies) {
      IdentifiersNeverCollide(settings, rows);
    }
  }

  // --- files and certificates ----------------------------------------------

  /** The database but for its rule overrides, exclusions, custom rules and path bindings. */
  predicate SameSites(r: Rows, s: Rows) {
    r.vhosts == s.vhosts && r.policies == s.policies
  }

  lemma FilesOf(settings: Settings, rows: Rows)
    requires Generate(settings, rows).Some?
    ensures var config := Generate(settings, rows).value;
            && Routes(settings, rows).Some?
            && config.haproxyCfg == settings.templates.haproxy(Routes(settings, rows).value)
            && config.spoaYaml == settings.templates.spoa(AppNames(config.apps), settings.logLevel)
            && config.certs == Certs(ActiveVhosts(rows.vhosts))
  {
    hide ActiveVhosts, EffectivePolicies, PolicyUsable, BindingsAgree, Routes, PolicyApps, DefaultApp, CustomRulesAccepted, AppNames,
         Certs;
  }

  lemma NameAt(settings: Settings, rows: Rows, i: nat)
    requires Generate(settings, rows).Some? && i < |Generate(settings, rows).value.apps|
    ensures var effective := EffectivePolicies(ActiveVhosts(rows.vhosts), rows.policies);
            && |Generate(settings, rows).value.apps| == 1 + |effective|
            && Generate(settings, rows).value.apps[i].name == if i == 0 then DEFAULT_APP else AppName(Some(effective[i - 1].id))
  {
    AppsByName(settings, rows, i);
    hide Generate, EffectivePolicies, ActiveVhosts, AppName, RenderTuning;
  }

  lemma SameSitesSameNames(settings: Settings, r: Rows, s: Rows)
    requires SameSites(r, s) && Generate(settings, r).Some? && Generate(settings, s).Some?
    ensures AppNames(Generate(settings, r).value.apps) == AppNames(Generate(settings, s).value.apps)
  {
    var a, b := Generate(settings, r).value.apps, Generate(settings, s).value.apps;
    DefaultIsGenerated(settings, r);
    DefaultIsGenerated(settings, s);
    hide Generate, EffectivePolicies, ActiveVhosts, Map;
    assert a != [] && b != [];
    NameAt(settings, r, 0);
    NameAt(settings, s, 0);
    forall i | 0 <= i < |a| ensures a[i].name == b[i].name {
      NameAt(settings, r, i);
      NameAt(settings, s, i);
    }
  }

  /**
   Tuning reaches HAProxy only through Coraza: whatever overrides, exclusions,
   custom rules and bindings change, while both states can be rendered, the
   HAProxy file, the list of applications and the certificates stay the same.
   */
  lemma TuningLeavesTheRestAlone(settings: Settings, r: Rows, s: Rows)
    requires SameSites(r, s)
    ensures var (g, h) := (Generate(settings, r), Generate(settings, s));
            g.Some? && h.Some? ==>
              && g.value.haproxyCfg == h.value.haproxyCfg && g.value.spoaYaml == h.value.spoaYaml
              && g.value.certs == h.value.certs && AppNames(g.value.apps) == AppNames(h.value.apps)
  {
    hide Generate, AppNames, Certs, ActiveVhosts;
    if Generate(settings, r).Some? && Generate(settings, s).Some? {
      FilesOf(settings, r);
      FilesOf(settings, s);
      SameSitesSameNames(settings, r, s);
      assert Routes(settings, r) == Routes(settings, s);
    }
  }

  predicate HasCertificate(v: VHost) {
    v.sslEnabled && Holds(v.sslCert) && Holds(v.sslKey)
  }

  /** A domain has a certificate exactly when its vhost serves TLS with one; it is that vhost's, followed by its key. */
  lemma {:induction false} CertsAreTheVhosts(active: seq<VHost>, domain: string)
    requires forall v, w :: v in active && w in active && v.domain == w.domain ==> v == w
    ensures domain in Certs(active) <==> exists v :: v in active && v.domain == domain && HasCertificate(v)
    ensures forall v :: v in active && v.domain == domain && HasCertificate(v) ==>
      Certs(active)[domain] == v.sslCert.value + "\n" + v.sslKey.value
  {
    if active != [] {
      var init, last := active[..|active| - 1], active[|active| - 1];
      assert active == init + [last];
      CertsAreTheVhosts(init, domain);
    }
  }
}
