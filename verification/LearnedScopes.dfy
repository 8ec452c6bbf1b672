/** Learned exclusions: from request URIs to a scope, and from the scope to control rules. */
module LearnedScopes {
  import opened Wrappers
  import opened SecLang
  import opened Exclusions
  import opened ScopePaths

  // ---------------------------------------------------------------------
  // Which groups an existing exclusion already covers

  predicate IsCovered(existing: seq<RuleExclusion>, key: Key, scope: Option<string>) {
    exists i :: 0 <= i < |existing| && existing[i].key == key &&
      match existing[i].scopePath
      case None => true
      case Some(wider) => scope.Some? && WithinScope(scope.value, wider)
  }

  /** This exclusion applies to every request path of the group. */
  predicate CoversGroup(e: RuleExclusion, paths: set<Option<string>>) {
    match e.scopePath
    case None => true
    case Some(scope) => None !in paths && CoversAll(Concrete(paths), scope)
  }

  /** Comparing the proposed scope alone decides it for every path of the group. */
  lemma CoveredIffWholeGroupIs(
    existing: seq<RuleExclusion>, key: Key, paths: set<Option<string>>, scope: Option<string>
  )
    requires paths != {} && ProposedScope(paths, scope)
    ensures IsCovered(existing, key, scope) <==>
      exists i :: 0 <= i < |existing| && existing[i].key == key && CoversGroup(existing[i], paths)
  {
    forall i | 0 <= i < |existing| && existing[i].scopePath.Some? && scope.Some?
      ensures WithinScope(scope.value, existing[i].scopePath.value) <==> CoversGroup(existing[i], paths)
    {
      var wider := existing[i].scopePath.value;
      if WithinScope(scope.value, wider) {
        forall p | p in Concrete(paths) ensures WithinScope(p, wider) {
          WithinIsTransitive(p, scope.value, wider);
        }
      }
      assert WithinScope(scope.value, scope.value);
    }
  }

  // ---------------------------------------------------------------------
  // From a URI to its path

  /** text.split(c, 1)[0] */
  function Before(text: string, c: char): string {
    if text == "" || text[0] == c then "" else [text[0]] + Before(text[1..], c)
  }

  lemma {:induction false} BeforeIsLongestFree(text: string, c: char)
    ensures Before(text, c) <= text && c !in Before(text, c)
    ensures |Before(text, c)| < |text| ==> text[|Before(text, c)|] == c
    ensures c !in text ==> Before(text, c) == text
  {
    if text != "" && text[0] != c {
      BeforeIsLongestFree(text[1..], c);
    }
  }

  /** A c-free prefix of the text is a prefix of the part before c. */
  lemma FreePrefixIsBefore(x: string, text: string, c: char)
    requires c !in x
    ensures x <= text <==> x <= Before(text, c)
  {
    BeforeIsLongestFree(text, c);
    var b := Before(text, c);
    assert |b| < |x| ==> x[|b|] != c;
  }

  function ScopePathFor(requestUri: string): Option<string> {
    var path := Before(Before(requestUri, '?'), '#');
    if SlashLed(path) && QuotedValueError(path).None? then Some(path) else None
  }

  // ---------------------------------------------------------------------
  // From a scope to control rules over the raw URI

  datatype Operator = Streq | BeginsWith

  datatype ScopeMatcher = ScopeMatcher(ruleId: int, operator: Operator, argument: string)

  function ScopeMatchers(scope: string, base: int): seq<ScopeMatcher> {
    if scope != "" && scope[|scope| - 1] == '/' then [ScopeMatcher(base, BeginsWith, scope)]
    else [
      ScopeMatcher(base, Streq, scope),
      ScopeMatcher(base + 1, BeginsWith, scope + "?"),
      ScopeMatcher(base + 2, BeginsWith, scope + "/")
    ]
  }

  predicate Fires(m: ScopeMatcher, uri: string) {
    match m.operator
    case Streq => uri == m.argument
    case BeginsWith => m.argument <= uri
  }

  predicate AnyFires(matchers: seq<ScopeMatcher>, uri: string) {
    exists i :: 0 <= i < |matchers| && Fires(matchers[i], uri)
  }

  /** What precedes the query is x exactly when the query, or nothing, follows it. */
  lemma PathIsBeforeQuery(x: string, uri: string)
    requires '?' !in x
    ensures Before(uri, '?') == x <==> uri == x || x + "?" <= uri
  {
    BeforeIsLongestFree(uri, '?');
    FreePrefixIsBefore(x, uri, '?');
    var path := Before(uri, '?');
    hide Before;
    if x + "?" <= uri {
      assert uri[|x|] == '?' && x <= uri;
    }
  }

  lemma FiresOneByOne(scope: string, base: int, uri: string)
    ensures AnyFires(ScopeMatchers(scope, base), uri) <==>
      if scope != "" && scope[|scope| - 1] == '/' then scope <= uri
      else uri == scope || scope + "?" <= uri || scope + "/" <= uri
  {
    var ms := ScopeMatchers(scope, base);
    if |ms| == 1 {
      assert AnyFires(ms, uri) <==> Fires(ms[0], uri);
    } else {
      assert AnyFires(ms, uri) <==> Fires(ms[0], uri) || Fires(ms[1], uri) || Fires(ms[2], uri);
    }
  }

  /**
   The rendered rules agree with the analyzer's notion of "within": they fire
   on a raw URI exactly when what precedes its query string is within the scope.
   */
  lemma RulesFireWithinScope(scope: string, base: int, uri: string)
    requires '?' !in scope
    ensures AnyFires(ScopeMatchers(scope, base), uri) <==> WithinScope(Before(uri, '?'), scope)
  {
    hide Before, AnyFires, ScopeMatchers;
    FiresOneByOne(scope, base, uri);
    PathIsBeforeQuery(scope, uri);
    FreePrefixIsBefore(scope, uri, '?');
    FreePrefixIsBefore(scope + "/", uri, '?');
  }

  /** For URIs without a fragment that is the path part the scope was learned from. */
  lemma RulesFireWithinScopeOfPath(scope: string, base: int, uri: string)
    requires '?' !in scope && '#' !in uri
    ensures AnyFires(ScopeMatchers(scope, base), uri) <==> WithinScope(Before(Before(uri, '?'), '#'), scope)
  {
    RulesFireWithinScope(scope, base, uri);
    BeforeIsLongestFree(uri, '?');
    BeforeIsLongestFree(Before(uri, '?'), '#');
  }

  // ---------------------------------------------------------------------
  // A learned exclusion and the requests it was learned from

  function PathsOf(uris: set<string>): set<Option<string>> {
    set u | u in uris :: ScopePathFor(u)
  }

  lemma NarrowestEndsOrIsAPath(paths: set<string>, scope: string)
    requires Narrowest(paths, scope)
    ensures scope in paths || (scope != "" && scope[|scope| - 1] == '/')
  {
    if scope !in paths && !(scope != "" && scope[|scope| - 1] == '/') {
      assert CoversAll(paths, scope + "/");
      assert WithinScope(scope, scope);
    }
  }

  lemma ScopePathIsPlain(uri: string)
    requires ScopePathFor(uri).Some?
    ensures var p := ScopePathFor(uri).value;
      SlashLed(p) && QuotedValueError(p).None? && '?' !in p && '#' !in p
  {
    BeforeIsLongestFree(uri, '?');
    BeforeIsLongestFree(Before(uri, '?'), '#');
  }

  lemma ProposedScopeIsPlain(uris: set<string>, scope: string)
    requires ProposedScope(PathsOf(uris), Some(scope))
    ensures SlashLed(scope) && QuotedValueError(scope).None?
    ensures '?' !in scope && '#' !in scope
  {
    var paths := Concrete(PathsOf(uris));
    forall p | p in paths
      ensures SlashLed(p) && QuotedValueError(p).None? && '?' !in p && '#' !in p
    {
      var u :| u in uris && ScopePathFor(u) == Some(p);
      ScopePathIsPlain(u);
    }
    NarrowestEndsOrIsAPath(paths, scope);
    if scope !in paths {
      var o :| o in PathsOf(uris);
      assert o.value in paths;
      assert WithinScope(o.value, scope);
      PrefixIsQuotable(o.value, scope);
      assert forall i :: 0 <= i < |scope| ==> scope[i] == o.value[i];
    }
  }

  /** The proposed scope can always be rendered, so no learned exclusion is skipped. */
  lemma ProposedScopeIsRenderable(uris: set<string>, scope: string, base: int)
    requires ProposedScope(PathsOf(uris), Some(scope))
    ensures SlashLed(scope) && QuotedValueError(scope).None?
    ensures forall m :: m in ScopeMatchers(scope, base) ==> QuoteModsec(m.argument).Success?
  {
    ProposedScopeIsPlain(uris, scope);
    ExtensionIsQuotable(scope, "?");
    ExtensionIsQuotable(scope, "/");
  }

  lemma PrefixIsQuotable(value: string, prefix: string)
    requires QuotedValueError(value).None? && prefix <= value
    ensures !HasLineBreak(prefix) && !HasBackslashQuote(prefix)
  {
    forall i | 0 <= i < |prefix| - 1 ensures !(prefix[i] == '\\' && prefix[i + 1] == '"') {
      assert prefix[i] == value[i] && prefix[i + 1] == value[i + 1];
    }
  }

  lemma ExtensionIsQuotable(value: string, tail: string)
    requires QuotedValueError(value).None? && (tail == "?" || tail == "/")
    ensures QuotedValueError(value + tail).None?
  {
    var longer := value + tail;
    assert !HasLineBreak(value) && !HasBackslashQuote(value);
    forall i | 0 <= i < |longer| - 1 ensures !(longer[i] == '\\' && longer[i + 1] == '"') {
      assert longer[i] == value[i];
      assert i + 1 < |value| ==> longer[i + 1] == value[i + 1];
    }
    assert !HasLineBreak(longer);
  }

  /**
   The rules of a learned scope fire on the request they were learned from,
   except when that request's own path is the scope, without a trailing slash,
   and a fragment follows it. Without fragments they always fire.
   */
  lemma LearnedRulesFireOnEvidence(uris: set<string>, scope: string, base: int, uri: string)
    requires ProposedScope(PathsOf(uris), Some(scope)) && uri in uris
    ensures AnyFires(ScopeMatchers(scope, base), uri) <==>
      !('#' in Before(uri, '?') && ScopePathFor(uri) == Some(scope) && scope[|scope| - 1] != '/')
    ensures '#' !in uri ==> AnyFires(ScopeMatchers(scope, base), uri)
  {
    ProposedScopeIsPlain(uris, scope);
    RulesFireWithinScope(scope, base, uri);
    var whole := Before(uri, '?');
    var path := Before(whole, '#');
    BeforeIsLongestFree(uri, '?');
    BeforeIsLongestFree(whole, '#');
    assert ScopePathFor(uri) in PathsOf(uris);
    assert path in Concrete(PathsOf(uris));
    assert WithinScope(path, scope);
    FreePrefixIsBefore(scope, whole, '#');
    FreePrefixIsBefore(scope + "/", whole, '#');
  }

  lemma BeforeFirst(x: string, c: char, y: string)
    requires c !in x
    ensures Before(x + [c] + y, c) == x
  {
    var text := x + [c] + y;
    BeforeIsLongestFree(text, c);
    FreePrefixIsBefore(x, text, c);
    assert text[|x|] == c;
  }

  lemma ApiIsQuotable()
    ensures SlashLed("/api") && QuotedValueError("/api").None?
  {
    var path := "/api";
    assert |path| == 4 && path[0] == '/' && path[1] == 'a' && path[2] == 'p' && path[3] == 'i';
    assert forall i :: 0 <= i < 4 ==> path[i] !in {'\n', '\r', '\\', '"'};
  }

  lemma PathBeforeFragment()
    ensures Before("/api#x", '?') == "/api#x" && ScopePathFor("/api#x") == Some("/api")
  {
    var uri := "/api" + ['#'] + "x";
    assert uri == "/api#x";
    assert |uri| == 6 && uri[0] == '/' && uri[1] == 'a' && uri[2] == 'p' && uri[3] == 'i' && uri[4] == '#' && uri[5] == 'x';
    assert '?' !in uri && '#' !in "/api";
    BeforeIsLongestFree(uri, '?');
    BeforeFirst("/api", '#', "x");
    ApiIsQuotable();
    hide Before, QuotedValueError, SlashLed;
  }

  /** A request with a fragment right after its path: "/api" is learned from it, and does not match it. */
  lemma FragmentEscapesItsScope(base: int)
    ensures ProposedScope(PathsOf({"/api#x"}), Some("/api"))
    ensures !AnyFires(ScopeMatchers("/api", base), "/api#x")
  {
    PathBeforeFragment();
    OnePathHeadsAll({"/api"}, "/api");
    RulesFireWithinScope("/api", base, "/api#x");
    hide Before, Narrowest, ScopeMatchers, AnyFires;
    assert |"/api#x"| == 6 && "/api#x"[4] == '#' && |"/api"| == 4;
    assert !WithinScope("/api#x", "/api");
    hide ScopePathFor, WithinScope;
    assert PathsOf({"/api#x"}) == {Some("/api")};
    assert Concrete({Some("/api")}) == {"/api"};
  }
}
