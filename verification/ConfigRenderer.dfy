/**
 What the renderer takes: prepared values without a database behind them, the
 checks it makes on them, and the orders it puts them in. The templates are a
 parameter: nothing here depends on what they write.
 */
module ConfigRenderer {
  import opened Wrappers
  import opened SecLang
  import opened Exclusions
  import opened Sorting

  const DEFAULT_APP: string := "default"
  const MATCHERS_PER_EXCLUSION := 3

  // --- checks on strings ---------------------------------------------------

  predicate AllIn(s: string, ok: char -> bool) {
    s != "" && forall i :: 0 <= i < |s| ==> ok(s[i])
  }

  /** A pattern closed by `$`, which a trailing line feed does not fail. */
  predicate MatchesToDollar(s: string, ok: char -> bool) {
    AllIn(s, ok) || (s != "" && s[|s| - 1] == '\n' && AllIn(s[..|s| - 1], ok))
  }

  predicate IsDigit(c: char) { '0' <= c <= '9' }

  predicate IsLetter(c: char) { 'a' <= c <= 'z' || 'A' <= c <= 'Z' }

  predicate IdentifierChar(c: char) { IsLetter(c) || IsDigit(c) || c == '_' || c == '-' }

  predicate AddressChar(c: char) { IdentifierChar(c) || c == '.' || c == ':' }

  predicate HealthPathChar(c: char) { AddressChar(c) || c == '/' }

  predicate HostChar(c: char) { IdentifierChar(c) || c == '.' }

  predicate AppNameChar(c: char) { 'a' <= c <= 'z' || IsDigit(c) || c == '_' }

  predicate VariablesChar(c: char) { IdentifierChar(c) || c in ".:|@" }

  predicate CountryCode(code: string) {
    MatchesToDollar(code, c => 'A' <= c <= 'Z') && |code| == if code[|code| - 1] == '\n' then 3 else 2
  }

  // --- HAProxy -------------------------------------------------------------

  datatype Server = Server(name: string, address: string, checked: bool, interval: int, fall: int, rise: int) {
    predicate Accepted() {
      && MatchesToDollar(name, IdentifierChar) && MatchesToDollar(address, AddressChar)
      && interval > 0 && fall > 0 && rise > 0
    }
  }

  datatype Ddos = Ddos(
    stickTable: string, requests: int, window: int, maxConnections: int,
    autoBan: bool, banTable: string, banThreshold: int, banDuration: int)
  {
    predicate Accepted() {
      && MatchesToDollar(stickTable, IdentifierChar)
      && requests >= 1 && 1 <= window <= 3600 && maxConnections >= 1
      && (autoBan ==> MatchesToDollar(banTable, IdentifierChar) && banThreshold >= 1 && 1 <= banDuration <= 86400)
    }
  }

  datatype GeoipMode = Off | Allowlist | Blocklist

  datatype Geoip = Geoip(mode: GeoipMode, countries: seq<string>, failOpen: bool) {
    predicate Accepted() {
      !mode.Off? && countries != [] && forall code :: code in countries ==> CountryCode(code)
    }
  }

  datatype Route = Route(
    aclName: string, host: string, sslProvider: string, ddos: Option<Ddos>, geoip: Option<Geoip>,
    wafApp: string, backendName: string, healthCheckPath: string, servers: seq<Server>)
  {
    predicate Accepted() {
      && MatchesToDollar(aclName, IdentifierChar) && AllIn(host, HostChar)
      && MatchesToDollar(wafApp, AppNameChar) && MatchesToDollar(backendName, IdentifierChar)
      && servers != [] && (forall s :: s in servers ==> s.Accepted()) && Unique(ServerNames(servers))
      && healthCheckPath != "" && healthCheckPath[0] == '/' && MatchesToDollar(healthCheckPath, HealthPathChar)
      && (ddos.Some? ==> ddos.value.Accepted()) && (geoip.Some? ==> geoip.value.Accepted())
    }
  }

  predicate Unique<T(==)>(s: seq<T>) {
    forall i, j :: 0 <= i < j < |s| ==> s[i] != s[j]
  }

  function ServerNames(servers: seq<Server>): seq<string> {
    Map(servers, (s: Server) => s.name)
  }

  function AllServerNames(routes: seq<Route>): seq<string> {
    if routes == [] then [] else AllServerNames(routes[..|routes| - 1]) + ServerNames(routes[|routes| - 1].servers)
  }

  method EnsureUnique(values: seq<string>) returns (unique: bool)
    ensures unique <==> Unique(values)
  {
    var seen: set<string> := {};
    for n := 0 to |values|
      invariant Unique(values[..n])
      invariant forall v :: v in seen <==> v in values[..n]
    {
      if values[n] in seen {
        assert exists i :: 0 <= i < n && values[i] == values[n];
        return false;
      }
      seen := seen + {values[n]};
      assert values[..n + 1] == values[..n] + [values[n]];
    }
    assert values[..|values|] == values;
    return true;
  }

  // --- CRS tuning ----------------------------------------------------------

  datatype CrsSettings = CrsSettings(paranoiaLevel: int, inbound: int, outbound: int, detectOnly: bool)

  datatype OverrideContext = OverrideContext(ruleId: int, disable: bool)

  datatype ExclusionContext = ExclusionContext(key: Key, scopePath: Option<string>, controlRuleId: Option<int>) {
    predicate Accepted() {
      && key.ruleId > 0
      && ValidTarget(key.targetType, key.targetValue)
      && (scopePath.Some? ==>
            && QuotedValueError(scopePath.value).None?
            && scopePath.value[0] == '/'
            && controlRuleId.Some? && controlRuleId.value > 0)
    }
  }

  datatype CustomRuleContext = CustomRuleContext(
    ruleId: int, phase: nat, variables: string, operator: nat, argument: string, actions: string, isActive: bool)
  {
    predicate Accepted() {
      && ruleId > 0 && AllIn(variables, VariablesChar)
      && QuotedValueError(argument).None? && QuotedValueError(actions).None?
    }
  }

  /** The stored spelling of a target type, which is what it sorts by. */
  function ValueOf(t: TargetType): string {
    match t
    case REQUEST_URI => "request_uri"
    case REQUEST_URI_RAW => "request_uri_raw"
    case REQUEST_FILENAME => "request_filename"
    case ARGS => "args"
    case ARGS_NAMES => "args_names"
    case REQUEST_HEADERS => "request_headers"
    case REQUEST_HEADERS_NAMES => "request_headers_names"
    case REQUEST_COOKIES => "request_cookies"
    case REQUEST_COOKIES_NAMES => "request_cookies_names"
  }

  lemma ValueOfIsInjective(t: TargetType, u: TargetType)
    requires ValueOf(t) == ValueOf(u)
    ensures t == u
  {
    assert |ValueOf(t)| == |ValueOf(u)|;
    if |ValueOf(t)| > 8 {
      assert ValueOf(t)[8] == ValueOf(u)[8];
    }
  }

  function OrEmpty(s: Option<string>): string {
    if s.Some? then s.value else ""
  }

  /** The order of exclusions: by scope, rule, target type and target value. */
  predicate ExclusionLe(a: ExclusionContext, b: ExclusionContext) {
    if OrEmpty(a.scopePath) != OrEmpty(b.scopePath) then StringLe(OrEmpty(a.scopePath), OrEmpty(b.scopePath))
    else if a.key.ruleId != b.key.ruleId then a.key.ruleId < b.key.ruleId
    else if a.key.targetType != b.key.targetType then StringLe(ValueOf(a.key.targetType), ValueOf(b.key.targetType))
    else StringLe(OrEmpty(a.key.targetValue), OrEmpty(b.key.targetValue))
  }

  lemma ExclusionLeIsTotal(a: ExclusionContext, b: ExclusionContext)
    ensures ExclusionLe(a, b) || ExclusionLe(b, a)
    ensures ExclusionLe(a, b) && ExclusionLe(b, a) ==>
      && OrEmpty(a.scopePath) == OrEmpty(b.scopePath) && a.key.ruleId == b.key.ruleId
      && a.key.targetType == b.key.targetType && OrEmpty(a.key.targetValue) == OrEmpty(b.key.targetValue)
  {
    StringLeIsTotal(OrEmpty(a.scopePath), OrEmpty(b.scopePath));
    StringLeIsTotal(ValueOf(a.key.targetType), ValueOf(b.key.targetType));
    if ValueOf(a.key.targetType) == ValueOf(b.key.targetType) {
      ValueOfIsInjective(a.key.targetType, b.key.targetType);
    }
    StringLeIsTotal(OrEmpty(a.key.targetValue), OrEmpty(b.key.targetValue));
  }

  lemma ExclusionLeIsTransitive(a: ExclusionContext, b: ExclusionContext, c: ExclusionContext)
    requires ExclusionLe(a, b) && ExclusionLe(b, c)
    ensures ExclusionLe(a, c)
  {
    hide StringLe, ValueOf;
    StringStep(OrEmpty(a.scopePath), OrEmpty(b.scopePath), OrEmpty(c.scopePath));
    var t, u, v := a.key.targetType, b.key.targetType, c.key.targetType;
    StringStep(ValueOf(t), ValueOf(u), ValueOf(v));
    if ValueOf(t) == ValueOf(u) { ValueOfIsInjective(t, u); }
    if ValueOf(u) == ValueOf(v) { ValueOfIsInjective(u, v); }
    StringStep(OrEmpty(a.key.targetValue), OrEmpty(b.key.targetValue), OrEmpty(c.key.targetValue));
  }

  lemma StringStep(a: string, b: string, c: string)
    ensures StringLe(a, b) && StringLe(b, c) ==> StringLe(a, c)
    ensures StringLe(a, b) && StringLe(b, c) && (a != b || b != c) ==> a != c
  {
    if StringLe(a, b) && StringLe(b, c) {
      StringLeIsTransitive(a, b, c);
      StringLeIsTotal(a, b);
    }
  }

  lemma ExclusionLeIsOrder()
    ensures IsOrder(ExclusionLe)
  {
    forall a, b ensures ExclusionLe(a, b) || ExclusionLe(b, a) {
      ExclusionLeIsTotal(a, b);
    }
    forall a, b, c | ExclusionLe(a, b) && ExclusionLe(b, c) ensures ExclusionLe(a, c) {
      ExclusionLeIsTransitive(a, b, c);
    }
  }

  function SortedDisabled(overrides: seq<OverrideContext>): seq<OverrideContext> {
    Sort(Filter(overrides, (o: OverrideContext) => o.disable), ByNumber((o: OverrideContext) => o.ruleId))
  }

  function SortedGlobal(exclusions: seq<ExclusionContext>): seq<ExclusionContext> {
    Filter(Sort(exclusions, ExclusionLe), (e: ExclusionContext) => e.scopePath.None?)
  }

  function SortedScoped(exclusions: seq<ExclusionContext>): seq<ExclusionContext> {
    Filter(Sort(exclusions, ExclusionLe), (e: ExclusionContext) => e.scopePath.Some?)
  }

  function SortedActive(rules: seq<CustomRuleContext>): seq<CustomRuleContext> {
    Sort(Filter(rules, (r: CustomRuleContext) => r.isActive), ByNumber((r: CustomRuleContext) => r.ruleId))
  }

  /** The two lists hold every exclusion once, by whether it has a scope, each in order. */
  lemma ExclusionsAreSplit(exclusions: seq<ExclusionContext>)
    ensures multiset(SortedGlobal(exclusions)) + multiset(SortedScoped(exclusions)) == multiset(exclusions)
    ensures forall e :: e in SortedGlobal(exclusions) ==> e.scopePath.None?
    ensures forall e :: e in SortedScoped(exclusions) ==> e.scopePath.Some?
    ensures Ascending(SortedGlobal(exclusions), ExclusionLe) && Ascending(SortedScoped(exclusions), ExclusionLe)
  {
    var sorted := Sort(exclusions, ExclusionLe);
    var isGlobal, isScoped := (e: ExclusionContext) => e.scopePath.None?, (e: ExclusionContext) => e.scopePath.Some?;
    ExclusionLeIsOrder();
    SortIsAscending(exclusions, ExclusionLe);
    FilterIsAscending(sorted, isGlobal, ExclusionLe);
    FilterIsAscending(sorted, isScoped, ExclusionLe);
    hide Sort, ExclusionLe;
    forall e
      ensures e in Filter(sorted, isGlobal) <==> e in sorted && e.scopePath.None?
      ensures e in Filter(sorted, isScoped) <==> e in sorted && e.scopePath.Some?
      ensures multiset(Filter(sorted, isGlobal))[e] + multiset(Filter(sorted, isScoped))[e] == multiset(sorted)[e]
    {
      FilterContains(sorted, isGlobal, e);
      FilterContains(sorted, isScoped, e);
      FilterCounts(sorted, isGlobal, e);
      FilterCounts(sorted, isScoped, e);
    }
  }

  /** Active custom rules and disabled overrides are all there, each as often as it was given, by rule id. */
  lemma RulesAreKept(overrides: seq<OverrideContext>, rules: seq<CustomRuleContext>)
    ensures forall o :: multiset(SortedDisabled(overrides))[o] == if o.disable then multiset(overrides)[o] else 0
    ensures forall r :: multiset(SortedActive(rules))[r] == if r.isActive then multiset(rules)[r] else 0
    ensures forall i, j :: 0 <= i < j < |SortedDisabled(overrides)| ==>
      SortedDisabled(overrides)[i].ruleId <= SortedDisabled(overrides)[j].ruleId
    ensures forall i, j :: 0 <= i < j < |SortedActive(rules)| ==> SortedActive(rules)[i].ruleId <= SortedActive(rules)[j].ruleId
  {
    var disabled, active := (o: OverrideContext) => o.disable, (r: CustomRuleContext) => r.isActive;
    ByNumberIsOrder((o: OverrideContext) => o.ruleId);
    ByNumberIsOrder((r: CustomRuleContext) => r.ruleId);
    SortIsAscending(Filter(overrides, disabled), ByNumber((o: OverrideContext) => o.ruleId));
    SortIsAscending(Filter(rules, active), ByNumber((r: CustomRuleContext) => r.ruleId));
    forall o ensures multiset(Filter(overrides, disabled))[o] == if o.disable then multiset(overrides)[o] else 0 {
      FilterCounts(overrides, disabled, o);
    }
    forall r ensures multiset(Filter(rules, active))[r] == if r.isActive then multiset(rules)[r] else 0 {
      FilterCounts(rules, active, r);
    }
  }

  // --- rendering -----------------------------------------------------------

  datatype Templates = Templates(
    haproxy: seq<Route> -> string,
    spoa: (seq<string>, string) -> string,
    crsSetup: CrsSettings -> string,
    tuning: (seq<OverrideContext>, seq<ExclusionContext>, seq<ExclusionContext>, seq<CustomRuleContext>) -> string)

  function RenderHaproxy(t: Templates, routes: seq<Route>): Option<string> {
    if && Unique(Map(routes, (r: Route) => r.aclName))
       && Unique(Map(routes, (r: Route) => r.backendName))
       && Unique(AllServerNames(routes))
    then Some(t.haproxy(routes)) else None
  }

  function RenderSpoa(t: Templates, names: seq<string>, logLevel: string): Option<string> {
    if && DEFAULT_APP in names
       && (forall name :: name in names ==> MatchesToDollar(name, AppNameChar))
       && Unique(names)
       && logLevel in {"debug", "info", "warn", "error"}
    then Some(t.spoa(names, logLevel)) else None
  }

  function RenderTuning(t: Templates, overrides: seq<OverrideContext>, exclusions: seq<ExclusionContext>,
                        rules: seq<CustomRuleContext>): string {
    t.tuning(SortedDisabled(overrides), SortedGlobal(exclusions), SortedScoped(exclusions), SortedActive(rules))
  }
}
