/**
 The database returns rows in no particular order, and the checksum that tells
 drift is computed from two different queries. The configuration must therefore
 be a function of the rows, not of their order.
 */
module GeneratorOrder {
  import opened Wrappers
  import opened Exclusions
  import opened VHostRows
  import opened Sorting
  import opened ConfigRenderer
  import opened ConfigGenerator

  ghost predicate SameRows(r: Rows, s: Rows) {
    && multiset(r.vhosts) == multiset(s.vhosts) && multiset(r.policies) == multiset(s.policies)
    && multiset(r.overrides) == multiset(s.overrides) && multiset(r.exclusions) == multiset(s.exclusions)
    && multiset(r.customRules) == multiset(s.customRules) && multiset(r.bindings) == multiset(s.bindings)
  }

  /** What the database's keys and unique constraints say about the rows. */
  ghost predicate KeysHold(rows: Rows) {
    && (forall v, w :: v in rows.vhosts && w in rows.vhosts && v.domain == w.domain ==> v == w)
    && (forall p, q :: p in rows.policies && q in rows.policies && p.id == q.id ==> p == q)
    && (forall o, p | o in rows.overrides && p in rows.overrides ::
          o.policyId == p.policyId && o.context.ruleId == p.context.ruleId ==> o == p)
    && (forall c, d | c in rows.customRules && d in rows.customRules ::
          c.policyId == d.policyId && c.context.ruleId == d.context.ruleId ==> c == d)
    && (forall e, f :: e in rows.exclusions && f in rows.exclusions && e.id == f.id ==> e == f)
  }

  predicate Twins(e: RuleExclusion, f: RuleExclusion) {
    e.key == f.key && e.scopePath == f.scopePath
  }

  /** No two exclusions of one scope that can be rendered are the same but for their ids. */
  ghost predicate NoScopedTies(exclusions: seq<RuleExclusion>) {
    forall e, f | e in exclusions && f in exclusions && e.scopePath.Some? && ToExclusionContext(e).Accepted() ::
      Twins(e, f) ==> e.id == f.id
  }

  // --- active vhosts and policies ------------------------------------------

  lemma ActiveVhostsIgnoreOrder(r: Rows, s: Rows)
    requires SameRows(r, s) && KeysHold(r)
    ensures ActiveVhosts(r.vhosts) == ActiveVhosts(s.vhosts)
  {
    var active := (v: VHost) => v.isActive;
    var byDomain := (v: VHost) => v.domain;
    FilterIgnoresOrder(r.vhosts, s.vhosts, active);
    ByStringIsOrder(byDomain);
    forall a, b | a in Filter(r.vhosts, active) && b in Filter(r.vhosts, active)
      && ByString(byDomain)(a, b) && ByString(byDomain)(b, a)
      ensures a == b
    {
      FilterContains(r.vhosts, active, a);
      FilterContains(r.vhosts, active, b);
      StringLeIsTotal(a.domain, b.domain);
    }
    SortIgnoresOrder(Filter(r.vhosts, active), Filter(s.vhosts, active), ByString(byDomain));
  }

  lemma {:induction false} FindPolicyIsLookup(policies: seq<Policy>, id: nat)
    ensures FindPolicy(policies, id).Some? ==> FindPolicy(policies, id).value in policies && FindPolicy(policies, id).value.id == id
    ensures FindPolicy(policies, id).None? ==> forall p :: p in policies ==> p.id != id
  {
    if policies != [] {
      FindPolicyIsLookup(policies[..|policies| - 1], id);
      assert policies == policies[..|policies| - 1] + [policies[|policies| - 1]];
    }
  }

  lemma FindPolicyIgnoresOrder(r: Rows, s: Rows, id: nat)
    requires SameRows(r, s) && KeysHold(r)
    ensures FindPolicy(r.policies, id) == FindPolicy(s.policies, id)
  {
    FindPolicyIsLookup(r.policies, id);
    FindPolicyIsLookup(s.policies, id);
    SameElements(r.policies, s.policies);
  }

  lemma {:induction false} UsedPoliciesAgree(vhosts: seq<VHost>, policies: seq<Policy>, other: seq<Policy>)
    requires forall v :: v in vhosts ==> PolicyOf(v, policies) == PolicyOf(v, other)
    ensures UsedPolicies(vhosts, policies) == UsedPolicies(vhosts, other)
  {
    if vhosts != [] {
      assert vhosts[|vhosts| - 1] in vhosts;
      UsedPoliciesAgree(vhosts[..|vhosts| - 1], policies, other);
    }
  }

  // --- rows of one policy --------------------------------------------------

  lemma RowsOfIgnoresOrder<Row(!new)>(r: seq<Row>, s: seq<Row>, policyIdOf: Row -> nat, id: nat)
    requires multiset(r) == multiset(s)
    ensures multiset(RowsOf(r, policyIdOf, id)) == multiset(RowsOf(s, policyIdOf, id))
    ensures forall x :: x in RowsOf(r, policyIdOf, id) <==> x in r && policyIdOf(x) == id
  {
    FilterIgnoresOrder(r, s, (x: Row) => policyIdOf(x) == id);
    forall x ensures x in RowsOf(r, policyIdOf, id) <==> x in r && policyIdOf(x) == id {
      FilterContains(r, (y: Row) => policyIdOf(y) == id, x);
    }
  }

  lemma SortedByNumberIgnoresOrder<T(!new)>(s: seq<T>, t: seq<T>, p: T -> bool, key: T -> int)
    requires multiset(s) == multiset(t)
    requires forall a, b :: a in s && b in s && key(a) == key(b) ==> a == b
    ensures Sort(Filter(s, p), ByNumber(key)) == Sort(Filter(t, p), ByNumber(key))
  {
    FilterIgnoresOrder(s, t, p);
    ByNumberIsOrder(key);
    forall a, b | a in Filter(s, p) && b in Filter(s, p) && ByNumber(key)(a, b) && ByNumber(key)(b, a) ensures a == b {
      FilterContains(s, p, a);
      FilterContains(s, p, b);
    }
    SortIgnoresOrder(Filter(s, p), Filter(t, p), ByNumber(key));
  }

  lemma OverridesIgnoreOrder(r: Rows, s: Rows, id: nat)
    requires SameRows(r, s) && KeysHold(r)
    ensures SortedDisabled(OverrideContexts(OverridesOf(r, id))) == SortedDisabled(OverrideContexts(OverridesOf(s, id)))
  {
    RowsOfIgnoresOrder(r.overrides, s.overrides, (o: RuleOverride) => o.policyId, id);
    var a, b := OverrideContexts(OverridesOf(r, id)), OverrideContexts(OverridesOf(s, id));
    MapIgnoresOrder(OverridesOf(r, id), OverridesOf(s, id), (o: RuleOverride) => o.context);
    forall x, y | x in a && y in a && x.ruleId == y.ruleId ensures x == y {
      var i :| 0 <= i < |a| && a[i] == x;
      var j :| 0 <= j < |a| && a[j] == y;
      assert OverridesOf(r, id)[i] in OverridesOf(r, id) && OverridesOf(r, id)[j] in OverridesOf(r, id);
    }
    SortedByNumberIgnoresOrder(a, b, (o: OverrideContext) => o.disable, (o: OverrideContext) => o.ruleId);
  }

  lemma CustomRulesIgnoreOrder(r: Rows, s: Rows, id: nat)
    requires SameRows(r, s) && KeysHold(r)
    ensures SortedActive(CustomRuleContexts(CustomRulesOf(r, id))) == SortedActive(CustomRuleContexts(CustomRulesOf(s, id)))
    ensures forall c :: c in CustomRulesOf(r, id) <==> c in CustomRulesOf(s, id)
  {
    RowsOfIgnoresOrder(r.customRules, s.customRules, (c: CustomRule) => c.policyId, id);
    SameElements(CustomRulesOf(r, id), CustomRulesOf(s, id));
    var a, b := CustomRuleContexts(CustomRulesOf(r, id)), CustomRuleContexts(CustomRulesOf(s, id));
    MapIgnoresOrder(CustomRulesOf(r, id), CustomRulesOf(s, id), (c: CustomRule) => c.context);
    forall x, y | x in a && y in a && x.ruleId == y.ruleId ensures x == y {
      var i :| 0 <= i < |a| && a[i] == x;
      var j :| 0 <= j < |a| && a[j] == y;
      assert CustomRulesOf(r, id)[i] in CustomRulesOf(r, id) && CustomRulesOf(r, id)[j] in CustomRulesOf(r, id);
    }
    SortedByNumberIgnoresOrder(a, b, (c: CustomRuleContext) => c.isActive, (c: CustomRuleContext) => c.ruleId);
  }

  // --- exclusions ----------------------------------------------------------

  lemma ContextsComeFromRows(exclusions: seq<RuleExclusion>, x: ExclusionContext)
    ensures x in ExclusionContexts(exclusions) <==> x.Accepted() && exists e :: e in exclusions && ToExclusionContext(e) == x
  {
    var all := Map(exclusions, ToExclusionContext);
    FilterContains(all, (e: ExclusionContext) => e.Accepted(), x);
    if x in all {
      var i :| 0 <= i < |all| && all[i] == x;
      assert exclusions[i] in exclusions;
    }
    if e :| e in exclusions && ToExclusionContext(e) == x {
      var i :| 0 <= i < |exclusions| && exclusions[i] == e;
      assert all[i] == x;
    }
  }

  lemma TiesAreTwins(a: ExclusionContext, b: ExclusionContext)
    requires a.Accepted() && b.Accepted()
    ensures ExclusionLe(a, b) && ExclusionLe(b, a) <==> a.key == b.key && a.scopePath == b.scopePath
  {
    ExclusionLeIsTotal(a, b);
    ExclusionLeIsTotal(a, a);
  }

  lemma ContextsHaveNoTies(exclusions: seq<RuleExclusion>)
    requires NoScopedTies(exclusions)
    ensures NoTies(ExclusionContexts(exclusions), ExclusionLe)
  {
    var contexts := ExclusionContexts(exclusions);
    forall a, b | a in contexts && b in contexts && ExclusionLe(a, b) && ExclusionLe(b, a) ensures a == b {
      ContextsComeFromRows(exclusions, a);
      ContextsComeFromRows(exclusions, b);
      TiesAreTwins(a, b);
      var e :| e in exclusions && ToExclusionContext(e) == a;
      var f :| f in exclusions && ToExclusionContext(f) == b;
      assert e.key == f.key && e.scopePath == f.scopePath;
    }
  }

  lemma ExclusionContextsIgnoreOrder(r: seq<RuleExclusion>, s: seq<RuleExclusion>)
    requires multiset(r) == multiset(s)
    ensures multiset(ExclusionContexts(r)) == multiset(ExclusionContexts(s))
  {
    MapIgnoresOrder(r, s, ToExclusionContext);
    FilterIgnoresOrder(Map(r, ToExclusionContext), Map(s, ToExclusionContext), (e: ExclusionContext) => e.Accepted());
  }

  lemma ExclusionsIgnoreOrder(r: seq<RuleExclusion>, s: seq<RuleExclusion>)
    requires multiset(r) == multiset(s) && NoScopedTies(r)
    ensures Sort(ExclusionContexts(r), ExclusionLe) == Sort(ExclusionContexts(s), ExclusionLe)
  {
    ExclusionContextsIgnoreOrder(r, s);
    ContextsHaveNoTies(r);
    ExclusionLeIsOrder();
    SortIgnoresOrder(ExclusionContexts(r), ExclusionContexts(s), ExclusionLe);
  }

  // --- the configuration ---------------------------------------------------

  lemma AppIgnoresOrder(t: Templates, p: Policy, r: Rows, s: Rows)
    requires SameRows(r, s) && KeysHold(r) && NoScopedTies(ExclusionsOf(r, p.id))
    ensures ToApp(t, p, OverridesOf(r, p.id), ExclusionsOf(r, p.id), CustomRulesOf(r, p.id)) ==
            ToApp(t, p, OverridesOf(s, p.id), ExclusionsOf(s, p.id), CustomRulesOf(s, p.id))
  {
    RowsOfIgnoresOrder(r.exclusions, s.exclusions, (e: RuleExclusion) => e.policyId, p.id);
    hide KeysHold, SameRows, NoScopedTies;
    OverridesIgnoreOrder(r, s, p.id);
    CustomRulesIgnoreOrder(r, s, p.id);
    ExclusionsIgnoreOrder(ExclusionsOf(r, p.id), ExclusionsOf(s, p.id));
  }

  lemma {:induction false} UsedAreFound(vhosts: seq<VHost>, policies: seq<Policy>, p: Policy)
    ensures p in UsedPolicies(vhosts, policies) <==> exists v :: v in vhosts && PolicyOf(v, policies) == Some(p)
  {
    if vhosts != [] {
      UsedAreFound(vhosts[..|vhosts| - 1], policies, p);
      assert vhosts == vhosts[..|vhosts| - 1] + [vhosts[|vhosts| - 1]];
    }
  }

  lemma EffectiveAreUsed(active: seq<VHost>, policies: seq<Policy>, p: Policy)
    ensures p in EffectivePolicies(active, policies) <==> exists v :: v in active && PolicyOf(v, policies) == Some(p)
  {
    ByNumberIsOrder((q: Policy) => q.id);
    SortIsAscending(UsedPolicies(active, policies), ByNumber((q: Policy) => q.id));
    SameElements(UsedPolicies(active, policies), EffectivePolicies(active, policies));
    UsedAreFound(active, policies, p);
  }

  lemma EffectiveIgnoreOrder(r: Rows, s: Rows)
    requires SameRows(r, s) && KeysHold(r)
    ensures EffectivePolicies(ActiveVhosts(r.vhosts), r.policies) == EffectivePolicies(ActiveVhosts(s.vhosts), s.policies)
  {
    ActiveVhostsIgnoreOrder(r, s);
    var active := ActiveVhosts(r.vhosts);
    forall v | v in active ensures PolicyOf(v, r.policies) == PolicyOf(v, s.policies) {
      if v.policyId.Some? {
        FindPolicyIgnoresOrder(r, s, v.policyId.value);
      }
    }
    UsedPoliciesAgree(active, r.policies, s.policies);
  }

  lemma {:induction false} MapSomeAgrees<T, U>(s: seq<T>, f: T -> Option<U>, g: T -> Option<U>)
    requires forall x :: x in s ==> f(x) == g(x)
    ensures MapSome(s, f) == MapSome(s, g)
  {
    if s != [] {
      assert s[|s| - 1] in s;
      MapSomeAgrees(s[..|s| - 1], f, g);
    }
  }

  lemma RoutesIgnoreOrder(settings: Settings, r: Rows, s: Rows)
    requires SameRows(r, s) && KeysHold(r)
    ensures Routes(settings, r) == Routes(settings, s)
  {
    ActiveVhostsIgnoreOrder(r, s);
    var active := ActiveVhosts(r.vhosts);
    var f := v => ToRoute(settings, r.policies, v);
    var g := v => ToRoute(settings, s.policies, v);
    forall v | v in active ensures f(v) == g(v) {
      if v.policyId.Some? {
        FindPolicyIgnoresOrder(r, s, v.policyId.value);
      }
    }
    MapSomeAgrees(active, f, g);
  }

  lemma AppsIgnoreOrder(t: Templates, r: Rows, s: Rows, effective: seq<Policy>)
    requires SameRows(r, s) && KeysHold(r)
    requires forall p :: p in effective ==> NoScopedTies(ExclusionsOf(r, p.id))
    ensures PolicyApps(t, effective, r) == PolicyApps(t, effective, s)
    ensures CustomRulesAccepted(effective, r) <==> CustomRulesAccepted(effective, s)
  {
    hide SameRows, KeysHold, NoScopedTies;
    forall i | 0 <= i < |effective| ensures PolicyApps(t, effective, r)[i] == PolicyApps(t, effective, s)[i] {
      AppIgnoresOrder(t, effective[i], r, s);
    }
    forall p: Policy, c ensures c in CustomRulesOf(r, p.id) <==> c in CustomRulesOf(s, p.id) {
      CustomRulesIgnoreOrder(r, s, p.id);
    }
  }

  /**
   The configuration, or that there is none, is the same for every order of
   the rows, if no policy in use has two scoped exclusions that differ in
   their ids alone.
   */
  lemma OrderDoesNotMatter(settings: Settings, r: Rows, s: Rows)
    requires SameRows(r, s) && KeysHold(r)
    requires forall p :: p in EffectivePolicies(ActiveVhosts(r.vhosts), r.policies) ==> NoScopedTies(ExclusionsOf(r, p.id))
    ensures Generate(settings, r) == Generate(settings, s)
  {
    var active := ActiveVhosts(r.vhosts);
    var effective := EffectivePolicies(active, r.policies);
    ActiveVhostsIgnoreOrder(r, s);
    EffectiveIgnoreOrder(r, s);
    RoutesIgnoreOrder(settings, r, s);
    AppsIgnoreOrder(settings.templates, r, s, effective);
    SameElements(r.bindings, s.bindings);
    forall v | v in active ensures PolicyUsable(v, r.policies) <==> PolicyUsable(v, s.policies) {
      if v.policyId.Some? {
        FindPolicyIgnoresOrder(r, s, v.policyId.value);
      }
    }
    assert BindingsAgree(active, r.bindings) <==> BindingsAgree(active, s.bindings);
    hide ActiveVhosts, EffectivePolicies, Routes, PolicyApps, CustomRulesAccepted, BindingsAgree, PolicyUsable, Certs,
         RenderHaproxy, RenderSpoa, DefaultApp, SameRows, KeysHold, NoScopedTies;
  }

  // --- and otherwise it does -----------------------------------------------

  /** What is rendered from these exclusions whatever the order they come in. */
  ghost predicate OrderIndependent(exclusions: seq<RuleExclusion>) {
    forall other: seq<RuleExclusion> | multiset(other) == multiset(exclusions) ::
      SortedScoped(ExclusionContexts(other)) == SortedScoped(ExclusionContexts(exclusions))
  }

  /** The sorted list keeps the order in which twins were given. */
  lemma ScopedTwinsKeepOrder(contexts: seq<ExclusionContext>, x: ExclusionContext)
    requires x.Accepted() && x.scopePath.Some? && forall y :: y in contexts ==> y.Accepted()
    ensures Tied(SortedScoped(contexts), x, ExclusionLe) == Tied(contexts, x, ExclusionLe)
  {
    var sorted := Sort(contexts, ExclusionLe);
    ExclusionLeIsOrder();
    SortIsStable(contexts, x, ExclusionLe);
    SortIsAscending(contexts, ExclusionLe);
    SameElements(sorted, contexts);
    forall y | y in sorted && ExclusionLe(x, y) && ExclusionLe(y, x) ensures y.scopePath.Some? {
      TiesAreTwins(x, y);
    }
    TiedOfFiltered(sorted, (e: ExclusionContext) => e.scopePath.Some?, x, ExclusionLe);
  }

  lemma FirstOfTwins(e: RuleExclusion, rest: seq<RuleExclusion>, x: ExclusionContext)
    requires ToExclusionContext(e).Accepted() && x.Accepted() && x.key == e.key && x.scopePath == e.scopePath
    ensures var tied := Tied(ExclusionContexts([e] + rest), x, ExclusionLe);
            tied != [] && tied[0] == ToExclusionContext(e)
  {
    var c := ToExclusionContext(e);
    assert Map([e] + rest, ToExclusionContext) == [c] + Map(rest, ToExclusionContext);
    TiesAreTwins(x, c);
  }

  lemma MovedToFront<T>(s: seq<T>, i: nat)
    requires i < |s|
    ensures multiset([s[i]] + (s[..i] + s[i + 1..])) == multiset(s)
  {
    assert s == s[..i] + [s[i]] + s[i + 1..];
    ElementsOfConcat(s[..i], s[i], s[i + 1..]);
  }

  /** Scoped exclusions are rendered the same in any order if and only if none are twins. */
  lemma OrderMattersForTwins(exclusions: seq<RuleExclusion>)
    ensures OrderIndependent(exclusions) <==> NoScopedTies(exclusions)
  {
    if NoScopedTies(exclusions) {
      forall other: seq<RuleExclusion> | multiset(other) == multiset(exclusions)
        ensures SortedScoped(ExclusionContexts(other)) == SortedScoped(ExclusionContexts(exclusions))
      {
        ExclusionsIgnoreOrder(exclusions, other);
      }
    } else {
      var e, f :|
        && e in exclusions && f in exclusions && e.scopePath.Some? && ToExclusionContext(e).Accepted()
        && Twins(e, f) && e.id != f.id;
      var i :| 0 <= i < |exclusions| && exclusions[i] == e;
      var j :| 0 <= j < |exclusions| && exclusions[j] == f;
      var eFirst := [e] + (exclusions[..i] + exclusions[i + 1..]);
      var fFirst := [f] + (exclusions[..j] + exclusions[j + 1..]);
      MovedToFront(exclusions, i);
      MovedToFront(exclusions, j);
      TwinsSortApart(eFirst, fFirst, e, f);
    }
  }

  lemma TwinsSortApart(eFirst: seq<RuleExclusion>, fFirst: seq<RuleExclusion>, e: RuleExclusion, f: RuleExclusion)
    requires Twins(e, f) && e.id != f.id && e.scopePath.Some? && ToExclusionContext(e).Accepted()
    requires |eFirst| > 0 && eFirst[0] == e && |fFirst| > 0 && fFirst[0] == f
    ensures SortedScoped(ExclusionContexts(eFirst)) != SortedScoped(ExclusionContexts(fFirst))
  {
    var x := ToExclusionContext(e);
    forall y ensures (y in ExclusionContexts(eFirst) || y in ExclusionContexts(fFirst)) ==> y.Accepted() {
      ContextsComeFromRows(eFirst, y);
      ContextsComeFromRows(fFirst, y);
    }
    ScopedTwinsKeepOrder(ExclusionContexts(eFirst), x);
    ScopedTwinsKeepOrder(ExclusionContexts(fFirst), x);
    assert eFirst == [e] + eFirst[1..] && fFirst == [f] + fFirst[1..];
    FirstOfTwins(e, eFirst[1..], x);
    FirstOfTwins(f, fFirst[1..], x);
  }

  /** The same exclusion saved twice: both can be rendered, and the order of the rows shows. */
  lemma TwinsShowTheirOrder()
    ensures var key := Key(942100, ARGS, Some("token"));
            var e, f := RuleExclusion(1, 7, key, Some("/api")), RuleExclusion(2, 7, key, Some("/api"));
            && ToExclusionContext(e).Accepted() && ToExclusionContext(f).Accepted()
            && SortedScoped(ExclusionContexts([e, f])) != SortedScoped(ExclusionContexts([f, e]))
  {
    var key := Key(942100, ARGS, Some("token"));
    var e, f := RuleExclusion(1, 7, key, Some("/api")), RuleExclusion(2, 7, key, Some("/api"));
    TwinsSortApart([e, f], [f, e], e, f);
  }
}
