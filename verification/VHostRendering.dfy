/** What the service's write rules spare the generator. */
module VHostRendering {
  import opened Wrappers
  import opened VHostRows
  import opened Sorting
  import opened Decimals
  import opened VHostStore
  import opened VHostInvariants
  import opened ConfigRenderer
  import opened ConfigGenerator
  import GeneratorLaws
  import GeneratedRoutes

  /** The rows a query of these tables returns, in any order. */
  ghost predicate RowsFrom(rows: Rows, s: Store) {
    && Unique(rows.vhosts)
    && (forall v :: v in rows.vhosts <==> v.id in s.vhosts && s.vhosts[v.id] == v)
    && (forall b :: b in rows.bindings <==> exists id :: id in s.bindings && s.bindings[id] == b)
    && (forall p :: p in s.policies <==> FindPolicy(rows.policies, p).Some?)
  }

  lemma StoredIdsHold(rows: Rows, s: Store)
    requires VhostsOk(s) && RowsFrom(rows, s)
    ensures GeneratorLaws.VhostIdsHold(rows)
    ensures forall v, w :: v in rows.vhosts && w in rows.vhosts && v.domain == w.domain ==> v == w
  {
    hide VhostOk;
  }

  // --- identifiers ---------------------------------------------------------

  lemma SuffixedIsIdentifier(kind: string, id: nat)
    requires forall i :: 0 <= i < |kind| ==> IdentifierChar(kind[i])
    ensures MatchesToDollar(kind + VhostSuffix(id), IdentifierChar)
  {
    var name := kind + "vhost_" + Decimal(id);
    assert kind + VhostSuffix(id) == name;
    forall i | 0 <= i < |name| ensures IdentifierChar(name[i]) {
      if i >= |kind| + 6 {
        assert name[i] == Decimal(id)[i - |kind| - 6];
      }
    }
  }

  lemma ServerNameIsIdentifier(id: nat, index: nat)
    ensures MatchesToDollar(ServerName(id, index), IdentifierChar)
  {
    var head := "srv_" + VhostSuffix(id);
    var name := ServerName(id, index);
    assert forall i :: 0 <= i < |head| ==> IdentifierChar(head[i]) by {
      assert forall i :: 0 <= i < |VhostSuffix(id)| ==> IdentifierChar(VhostSuffix(id)[i]);
    }
    assert name == head + "_" + Decimal(index);
    hide VhostSuffix, Decimal, ServerName;
    forall i | 0 <= i < |name| ensures IdentifierChar(name[i]) {
      if i > |head| {
        assert name[i] == Decimal(index)[i - |head| - 1];
      }
    }
  }

  // --- servers -------------------------------------------------------------

  lemma ActiveBackendsAre(backends: seq<Backend>, b: Backend)
    ensures b in ActiveBackends(backends) <==> b in backends && b.isActive
  {
    FilterContains(backends, (x: Backend) => x.isActive, b);
  }

  /** A stored active vhost has servers unless a backend's URL has no address. */
  lemma StoredVhostHasServers(settings: Settings, v: VHost)
    requires VhostOk(v) && v.isActive
    ensures ToServers(settings, v).Some? <==>
      forall b :: b in v.backends && b.isActive ==> settings.addressOf(b.url).Some?
  {
    forall b ensures b in ActiveBackends(v.backends) <==> b in v.backends && b.isActive {
      ActiveBackendsAre(v.backends, b);
    }
  }

  predicate ServerUsable(settings: Settings, b: Backend) {
    settings.addressOf(b.url).Some? && MatchesToDollar(settings.addressOf(b.url).value, AddressChar)
  }

  lemma StoredServerAccepted(settings: Settings, v: VHost, servers: seq<Server>, i: nat)
    requires VhostOk(v) && ToServers(settings, v) == Some(servers)
    requires i < |servers| == |ActiveBackends(v.backends)|
    requires ToServer(settings, v.id, i + 1, ActiveBackends(v.backends)[i]) == Some(servers[i])
    ensures servers[i].Accepted() <==> ServerUsable(settings, ActiveBackends(v.backends)[i])
  {
    var b := ActiveBackends(v.backends)[i];
    hide ServerName, MatchesToDollar, CheckedPaths, AtMostOne, ToServers, ActiveBackends;
    assert b in ActiveBackends(v.backends);
    ActiveBackendsAre(v.backends, b);
    ServerNameIsIdentifier(v.id, i + 1);
  }

  lemma StoredServersAccepted(settings: Settings, v: VHost, servers: seq<Server>)
    requires VhostOk(v) && ToServers(settings, v) == Some(servers)
    ensures servers != [] && Unique(ServerNames(servers))
    ensures (forall s :: s in servers ==> s.Accepted()) <==> forall b :: b in v.backends && b.isActive ==> ServerUsable(settings, b)
  {
    GeneratorLaws.ServersAreNamed(settings, v, servers);
    var backends := ActiveBackends(v.backends);
    hide ToServers, ToServer, ActiveBackends, Server.Accepted, ServerUsable, VhostOk;
    forall i | 0 <= i < |servers| ensures servers[i].Accepted() <==> ServerUsable(settings, backends[i]) {
      assert ToServer(settings, v.id, i + 1, backends[i]) == Some(servers[i]);
      StoredServerAccepted(settings, v, servers, i);
    }
    forall b ensures b in backends <==> b in v.backends && b.isActive {
      ActiveBackendsAre(v.backends, b);
    }
    if forall s :: s in servers ==> s.Accepted() {
      forall b | b in backends ensures ServerUsable(settings, b) {
        var i :| 0 <= i < |backends| && backends[i] == b;
        assert servers[i] in servers;
      }
    }
  }

  lemma {:induction false} FirstCheckedIsAPath(backends: seq<Backend>)
    requires forall b :: b in backends ==> BackendOk(b)
    ensures var path := FirstCheckedPath(backends);
            path != "" && path[0] == '/' && (path == "/" || exists b :: b in backends && b.healthCheckEnabled && b.healthCheckPath == path)
  {
    if backends != [] {
      assert backends[0] in backends;
      if !backends[0].healthCheckEnabled {
        FirstCheckedIsAPath(backends[1..]);
      }
    }
  }

  /** The policy's rate and ban limits, if they are used, are ones HAProxy is given. */
  predicate LimitsWritable(p: Policy) {
    p.ddosEnabled ==>
      && p.requests >= 1 && 1 <= p.window <= 3600 && p.maxConnections >= 1
      && (p.autoBan ==> p.banThreshold >= 1 && 1 <= p.banDuration <= 86400)
  }

  /** Its countries, if they are used, are two capital letters each; the pattern lets a line feed follow. */
  predicate CountriesWritable(p: Policy) {
    p.geoipMode != Off ==> forall code :: code in p.geoipCountries ==> TwoCapitals(code)
  }

  predicate TwoCapitals(code: string) {
    && |code| >= 2 && 'A' <= code[0] <= 'Z' && 'A' <= code[1] <= 'Z'
    && (|code| == 2 || (|code| == 3 && code[2] == '\n'))
  }

  /** What a stored vhost's own row and its policy's can still hold against rendering it. */
  predicate RouteWritable(settings: Settings, policies: seq<Policy>, v: VHost) {
    && AllIn(v.domain, HostChar)
    && (forall b :: b in v.backends && b.isActive ==> ServerUsable(settings, b))
    && (forall b :: b in v.backends && b.isActive && b.healthCheckEnabled ==> MatchesToDollar(b.healthCheckPath, HealthPathChar))
    && (PolicyOf(v, policies).Some? ==>
          LimitsWritable(PolicyOf(v, policies).value) && CountriesWritable(PolicyOf(v, policies).value))
  }

  lemma LimitsAreAccepted(id: nat, policy: Option<Policy>)
    ensures (DdosOf(id, policy).Some? ==> DdosOf(id, policy).value.Accepted()) <==> (policy.Some? ==> LimitsWritable(policy.value))
  {
    SuffixedIsIdentifier("st_ddos_", id);
    SuffixedIsIdentifier("st_ban_", id);
    hide MatchesToDollar, VhostSuffix;
  }

  lemma CapitalsAreACountry(code: string)
    ensures CountryCode(code) <==> TwoCapitals(code)
  {
    if |code| == 3 && code[2] == '\n' {
      assert code[..2][0] == code[0] && code[..2][1] == code[1];
    }
  }

  lemma CountriesAreAccepted(settings: Settings, policy: Option<Policy>)
    ensures (GeoipOf(settings, policy).Some? ==> GeoipOf(settings, policy).value.Accepted())
      <==> (policy.Some? ==> CountriesWritable(policy.value))
  {
    hide CountryCode, TwoCapitals;
    forall code ensures CountryCode(code) <==> TwoCapitals(code) {
      CapitalsAreACountry(code);
    }
  }

  /** There is one path to write: that of every checked backend, or "/". */
  lemma CheckedPathWritable(v: VHost)
    requires VhostOk(v) && v.isActive
    ensures MatchesToDollar(FirstCheckedPath(ActiveBackends(v.backends)), HealthPathChar) <==>
      forall b :: b in v.backends && b.isActive && b.healthCheckEnabled ==> MatchesToDollar(b.healthCheckPath, HealthPathChar)
  {
    var path := FirstCheckedPath(ActiveBackends(v.backends));
    GeneratedRoutes.FirstCheckedIsFirst(v.backends);
    assert MatchesToDollar("/", HealthPathChar) by {
      assert AllIn("/", HealthPathChar);
    }
    hide MatchesToDollar, FirstCheckedPath, ActiveBackends;
    if b :| b in v.backends && b.isActive && b.healthCheckEnabled {
      var n := FirstOne(v.backends, b);
      forall c | c in v.backends && c.isActive && c.healthCheckEnabled ensures c.healthCheckPath == path {
        assert c.healthCheckPath in CheckedPaths(v.backends) && v.backends[n].healthCheckPath in CheckedPaths(v.backends);
      }
    }
  }

  lemma {:induction false} FirstOne(backends: seq<Backend>, b: Backend) returns (n: nat)
    requires b in backends && b.isActive && b.healthCheckEnabled
    ensures n < |backends| && GeneratedRoutes.FirstChecked(backends, n)
  {
    if backends[0].isActive && backends[0].healthCheckEnabled {
      n := 0;
    } else {
      var rest := FirstOne(backends[1..], b);
      n := rest + 1;
      forall m | 0 <= m < n ensures !(backends[m].isActive && backends[m].healthCheckEnabled) {
        assert m > 0 ==> backends[m] == backends[1..][m - 1];
      }
    }
  }

  /**
   The route of a stored active vhost is refused only for characters HAProxy
   cannot take or for its policy's own limits and countries: never for its
   backends being inactive, its health check paths differing, an identifier, a
   relative path or a non-positive interval.
   */
  lemma StoredVhostHasRoute(settings: Settings, policies: seq<Policy>, v: VHost)
    requires VhostOk(v) && v.isActive
    ensures ToRoute(settings, policies, v).Some? <==> RouteWritable(settings, policies, v)
  {
    var policy := PolicyOf(v, policies);
    StoredVhostHasServers(settings, v);
    SuffixedIsIdentifier("host_", v.id);
    SuffixedIsIdentifier("be_", v.id);
    GeneratorLaws.AppNameIsAccepted(if policy.Some? then Some(policy.value.id) else None);
    LimitsAreAccepted(v.id, policy);
    CountriesAreAccepted(settings, policy);
    CheckedPathWritable(v);
    if ToServers(settings, v).Some? {
      StoredServersAccepted(settings, v, ToServers(settings, v).value);
      forall b | b in ActiveBackends(v.backends) ensures BackendOk(b) {
        ActiveBackendsAre(v.backends, b);
      }
      FirstCheckedIsAPath(ActiveBackends(v.backends));
    }
    hide ToServers, MatchesToDollar, AllIn, DdosOf, GeoipOf, PolicyOf, AppName, VhostSuffix, FirstCheckedPath, ActiveBackends, Unique,
         VhostOk, Ddos.Accepted, Geoip.Accepted, Server.Accepted, ServerNames, LimitsWritable, CountriesWritable;
  }

  // --- bindings and policies -----------------------------------------------

  /** The binding that mirrors a vhost's policy never disagrees with it. */
  lemma DefaultBindingsAgree(s: Store, rows: Rows, b: PolicyBinding, v: VHost)
    requires Stored(s) && RowsFrom(rows, s) && b in rows.bindings && v in rows.vhosts && Disagrees(b, v)
    ensures !IsDefault(b, v.id)
  {
    hide VhostOk;
    assert !DefaultNames(s, v.id, b.policyId);
  }

  /** A policy a stored vhost names is never missing. */
  lemma StoredPolicyIsFound(s: Store, rows: Rows, v: VHost)
    requires Stored(s) && RowsFrom(rows, s) && v in rows.vhosts
    ensures v.policyId.Some? ==> FindPolicy(rows.policies, v.policyId.value).Some?
    ensures PolicyUsable(v, rows.policies) <==> (v.policyId.Some? ==> FindPolicy(rows.policies, v.policyId.value).value.isActive)
  {
    hide VhostOk;
    assert PolicyKnown(s, s.vhosts[v.id].policyId);
  }

  // --- the whole configuration ---------------------------------------------

  predicate NamesActivePolicy(v: VHost, policies: seq<Policy>) {
    v.policyId.Some? ==> FindPolicy(policies, v.policyId.value).Some? && FindPolicy(policies, v.policyId.value).value.isActive
  }

  /** Bindings other than the mirrored ones ask for the vhost's own policy. */
  predicate PathBindingsAgree(active: seq<VHost>, bindings: seq<PolicyBinding>) {
    forall b, v :: b in bindings && v in active && b.vhostId == v.id && !IsDefault(b, v.id) ==> v.policyId == Some(b.policyId)
  }

  lemma StoredBindingsAgree(s: Store, rows: Rows, active: seq<VHost>)
    requires Stored(s) && RowsFrom(rows, s) && forall v :: v in active ==> v in rows.vhosts
    ensures BindingsAgree(active, rows.bindings) <==> PathBindingsAgree(active, rows.bindings)
  {
    hide Stored, RowsFrom, VhostOk;
    forall b, v | b in rows.bindings && v in active && Disagrees(b, v) ensures !IsDefault(b, v.id) {
      DefaultBindingsAgree(s, rows, b, v);
    }
  }

  lemma StoredRow(s: Store, rows: Rows, v: VHost)
    requires Stored(s) && RowsFrom(rows, s) && v in rows.vhosts
    ensures VhostOk(v)
  {
  }

  /**
   Over tables the service wrote, generation fails exactly when an active vhost's
   policy is deactivated, a path binding asks for another policy, a row holds
   what cannot be written, or the log level is unknown.
   */
  lemma StoredTablesGenerate(settings: Settings, s: Store, rows: Rows)
    requires Stored(s) && RowsFrom(rows, s)
    ensures var active := ActiveVhosts(rows.vhosts);
            Generate(settings, rows).Some? <==>
              && (forall v :: v in active ==> NamesActivePolicy(v, rows.policies))
              && PathBindingsAgree(active, rows.bindings)
              && (forall v :: v in active ==> RouteWritable(settings, rows.policies, v))
              && GeneratedRoutes.CustomRulesWritable(active, rows.customRules)
              && settings.logLevel in {"debug", "info", "warn", "error"}
  {
    var active := ActiveVhosts(rows.vhosts);
    StoredIdsHold(rows, s);
    GeneratorLaws.ActiveHaveDistinctIds(rows);
    hide Generate, Stored, RowsFrom, VhostOk, ActiveVhosts, EffectivePolicies, RouteWritable, ToRoute, CustomRulesAccepted,
         BindingsAgree, PathBindingsAgree, GeneratorLaws.VhostIdsHold;
    GeneratorLaws.FailsOnlyForWhatRowsSay(settings, rows);
    StoredBindingsAgree(s, rows, active);
    if forall v :: v in active ==> PolicyUsable(v, rows.policies) {
      GeneratedRoutes.CustomRulesAcceptedIff(active, rows);
    }
    hide GeneratedRoutes.CustomRulesWritable;
    forall v | v in active ensures ToRoute(settings, rows.policies, v).Some? <==> RouteWritable(settings, rows.policies, v) {
      StoredRow(s, rows, v);
      StoredVhostHasRoute(settings, rows.policies, v);
    }
  }
}
