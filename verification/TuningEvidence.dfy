/** What an analysis makes of the events: how much each kind of evidence counts, and when it creates a row. */
module TuningEvidence {
  import opened Wrappers
  import opened Exclusions
  import opened ScopePaths
  import opened LearnedScopes
  import opened TuningRules
  import opened ConfigRenderer
  import ConfigGenerator

  // ---------------------------------------------------------------------
  // The four kinds of evidence

  /** Clients: 35 in all, at ten of them, evenly up to there and nothing beyond. */
  lemma ClientsCount(events: nat, clients: nat, hours: nat, alone: real)
    ensures Score(events, 10, hours, alone) == Score(events, 0, hours, alone) + 35.0
    ensures clients < 10 ==> Score(events, clients + 1, hours, alone) == Score(events, clients, hours, alone) + 3.5
    ensures clients >= 10 ==> Score(events, clients, hours, alone) == Score(events, 10, hours, alone)
  {
  }

  /** Volume: 20 in all, at twenty events. */
  lemma VolumeCounts(events: nat, clients: nat, hours: nat, alone: real)
    ensures Score(20, clients, hours, alone) == Score(0, clients, hours, alone) + 20.0
    ensures events < 20 ==> Score(events + 1, clients, hours, alone) == Score(events, clients, hours, alone) + 1.0
    ensures events >= 20 ==> Score(events, clients, hours, alone) == Score(20, clients, hours, alone)
  {
  }

  /** Spread: 20 in all, at six different hours. */
  lemma HoursCount(events: nat, clients: nat, hours: nat, alone: real)
    ensures Score(events, clients, 6, alone) == Score(events, clients, 0, alone) + 20.0
    ensures hours < 6 ==> Score(events, clients, hours + 1, alone) == Score(events, clients, hours, alone) + 20.0 / 6.0
    ensures hours >= 6 ==> Score(events, clients, hours, alone) == Score(events, clients, 6, alone)
  {
  }

  /** Having fired alone: 25 if always, and the share of that otherwise. */
  lemma FiringAloneCounts(events: nat, clients: nat, hours: nat, alone: real)
    ensures Score(events, clients, hours, 1.0) == Score(events, clients, hours, 0.0) + 25.0
    ensures Score(events, clients, hours, alone) == Score(events, clients, hours, 0.0) + alone * 25.0
    ensures Score(0, 0, 0, 0.0) == 0.0
  {
  }

  lemma RoundKeepsOrder(x: real, y: real)
    requires x <= y
    ensures Round(x) <= Round(y)
  {
  }

  lemma MoreNeverLowers(
    events: nat, clients: nat, hours: nat, alone: real, events': nat, clients': nat, hours': nat, alone': real
  )
    requires events <= events' && clients <= clients' && hours <= hours' && alone <= alone'
    ensures Score(events, clients, hours, alone) <= Score(events', clients', hours', alone')
    ensures ConfidenceScore(events, clients, hours, alone) <= ConfidenceScore(events', clients', hours', alone')
  {
    assert AtMost(events, 20) <= AtMost(events', 20) && AtMost(clients, 10) <= AtMost(clients', 10)
      && AtMost(hours, 6) <= AtMost(hours', 6);
    RoundKeepsOrder(Score(events, clients, hours, alone), Score(events', clients', hours', alone'));
  }

  /** Rounding goes to the nearest number, and from halfway to the even one. */
  lemma RoundIsNearest(x: real)
    ensures -0.5 <= x - Round(x) as real <= 0.5
    ensures x - Round(x) as real == 0.5 || x - Round(x) as real == -0.5 ==> Round(x) % 2 == 0
  {
  }

  // ---------------------------------------------------------------------
  // The evidence in the events of a key

  function Clients(events: seq<Event>): set<string> {
    set i | 0 <= i < |events| :: events[i].sourceIp
  }

  function Hours(events: seq<Event>): set<int> {
    set i | 0 <= i < |events| :: HourOf(events[i].at)
  }

  /** Points by events: 3.5 a client, 1 an event, 10/3 an hour, 25 times the share that fired alone, each to its cap. */
  function Evidence(events: seq<Event>): real
    requires events != []
  {
    Points(|events|, |Clients(events)|, |Hours(events)|, Alone(events) as real / |events| as real)
  }

  function Points(events: nat, clients: nat, hours: nat, alone: real): real {
    3.5 * (if clients > 10 then 10.0 else clients as real)
      + (if events > 20 then 20.0 else events as real)
      + (if hours > 6 then 20.0 else 10.0 * hours as real / 3.0)
      + alone * 25.0
  }

  lemma ScoreIsPoints(events: nat, clients: nat, hours: nat, alone: real)
    ensures Score(events, clients, hours, alone) == Points(events, clients, hours, alone)
  {
  }

  lemma ThirtyIsFromHalfBelow(x: real)
    ensures Round(x) >= 30 <==> x >= 29.5
  {
  }

  lemma {:induction false} ConfidenceIsTheEvidence(events: seq<Event>, key: Key)
    requires EventsWith(events, key) != []
    ensures Tally(events, key).Some? && Tally(events, key).value.eventCount > 0
    ensures Confidence(Tally(events, key).value) == Round(Evidence(EventsWith(events, key)))
    ensures Confidence(Tally(events, key).value) >= 30 <==> Evidence(EventsWith(events, key)) >= 29.5
  {
    TallyIsOverEventsWith(events, key);
    var with, g := EventsWith(events, key), Tally(events, key).value;
    assert g.sourceIps == Clients(with) && g.activeHours == Hours(with);
    hide Tally, EventsWith, Score, Points, Round, Clients, Hours, Alone, PathsOf;
    ScoreIsPoints(|with|, |Clients(with)|, |Hours(with)|, Alone(with) as real / |with| as real);
    ThirtyIsFromHalfBelow(Evidence(with));
  }

  // ---------------------------------------------------------------------
  // When an analysis creates a row

  ghost predicate HasRow(table: seq<Suggestion>, policyId: nat, key: Key) {
    exists i :: 0 <= i < |table| && table[i].policyId == policyId && table[i].key == key
  }

  /** An exclusion of the policy applies to every one of these requests. */
  ghost predicate Excluded(exclusions: seq<RuleExclusion>, policyId: nat, key: Key, events: seq<Event>) {
    exists e :: e in exclusions && e.policyId == policyId && e.key == key && AppliesToAll(e, events)
  }

  ghost predicate AppliesToAll(e: RuleExclusion, events: seq<Event>) {
    e.scopePath.Some? ==> forall i :: 0 <= i < |events| ==>
      ScopePathFor(events[i].requestUri).Some? && WithinScope(ScopePathFor(events[i].requestUri).value, e.scopePath.value)
  }

  /** Enough to go on: three events, not excluded already. */
  ghost predicate Considered(db: Db, policyId: nat, events: seq<Event>, key: Key) {
    && policyId in db.policies && |EventsWith(events, key)| >= 3
    && !Excluded(db.exclusions, policyId, key, EventsWith(events, key))
  }

  lemma {:induction false} OfPolicyHolds(exclusions: seq<RuleExclusion>, policyId: nat, e: RuleExclusion)
    ensures e in OfPolicy(exclusions, policyId) <==> e in exclusions && e.policyId == policyId
  {
    if exclusions != [] {
      OfPolicyHolds(exclusions[1..], policyId, e);
    }
  }

  lemma ScopeIsProposed(uris: set<string>)
    ensures ProposedScope(PathsOf(uris), ScopeOf(PathsOf(uris)))
  {
    var paths := PathsOf(uris);
    forall p | Some(p) in paths ensures SlashLed(p) {
      var u :| u in uris && ScopePathFor(u) == Some(p);
    }
    var scope := SomethingIsProposed(paths);
    hide ProposedScope;
    assert exists s :: ProposedScope(paths, s);
  }

  lemma AppliesIsCovers(e: RuleExclusion, events: seq<Event>)
    ensures AppliesToAll(e, events) <==> CoversGroup(e, PathsOf(set i | 0 <= i < |events| :: events[i].requestUri))
  {
    var uris := set i | 0 <= i < |events| :: events[i].requestUri;
    var paths := PathsOf(uris);
    if e.scopePath.Some? {
      var scope := e.scopePath.value;
      if AppliesToAll(e, events) {
        forall o | o in paths ensures o.Some? && WithinScope(o.value, scope) {
          var u :| u in uris && ScopePathFor(u) == o;
        }
      }
      if CoversGroup(e, paths) {
        forall i | 0 <= i < |events|
          ensures ScopePathFor(events[i].requestUri).Some? && WithinScope(ScopePathFor(events[i].requestUri).value, scope)
        {
          assert events[i].requestUri in uris;
          var o := ScopePathFor(events[i].requestUri);
          assert o in paths;
          assert o.value in Concrete(paths);
        }
      }
    }
  }

  lemma CoveredIsExcluded(exclusions: seq<RuleExclusion>, policyId: nat, key: Key, events: seq<Event>)
    requires events != []
    ensures
      var paths := PathsOf(set i | 0 <= i < |events| :: events[i].requestUri);
      IsCovered(OfPolicy(exclusions, policyId), key, ScopeOf(paths)) <==> Excluded(exclusions, policyId, key, events)
  {
    var uris := set i | 0 <= i < |events| :: events[i].requestUri;
    var paths, own := PathsOf(uris), OfPolicy(exclusions, policyId);
    assert events[0].requestUri in uris && ScopePathFor(events[0].requestUri) in paths;
    ScopeIsProposed(uris);
    hide ScopeOf, ProposedScope, ScopePathFor;
    CoveredIffWholeGroupIs(own, key, paths, ScopeOf(paths));
    hide IsCovered, OfPolicy, CoversGroup, AppliesToAll, PathsOf;
    forall e ensures AppliesToAll(e, events) <==> CoversGroup(e, paths) {
      AppliesIsCovers(e, events);
    }
    forall e ensures e in own <==> e in exclusions && e.policyId == policyId {
      OfPolicyHolds(exclusions, policyId, e);
    }
    if i :| 0 <= i < |own| && own[i].key == key && CoversGroup(own[i], paths) {
      assert own[i] in own;
    }
    if e :| e in exclusions && e.policyId == policyId && e.key == key && AppliesToAll(e, events) {
      assert e in own;
      var i :| 0 <= i < |own| && own[i] == e;
    }
  }

  // --- one key considered ----------------------------------------------------

  lemma ConsiderKeyCreates(db: Db, table: seq<Suggestion>, policyId: nat, events: seq<Event>, key: Key)
    requires policyId in db.policies
    ensures
      var with := EventsWith(events, key);
      HasRow(ConsiderKey(table, policyId, OfPolicy(db.exclusions, policyId), events, key), policyId, key) <==>
        HasRow(table, policyId, key) || (Considered(db, policyId, events, key) && Evidence(with) >= 29.5)
  {
    var with, own := EventsWith(events, key), OfPolicy(db.exclusions, policyId);
    TallyIsOverEventsWith(events, key);
    if with != [] {
      var g := Tally(events, key).value;
      ConfidenceIsTheEvidence(events, key);
      CoveredIsExcluded(db.exclusions, policyId, key, with);
      hide Tally, EventsWith, Evidence, Confidence, IsCovered, Excluded, OfPolicy, PathsOf, ScopeOf;
      var after := ConsiderKey(table, policyId, own, events, key);
      if Find(table, policyId, key).Some? {
        var i := Find(table, policyId, key).value;
        assert after[i].policyId == policyId && after[i].key == key;
      } else if after != table {
        assert after[|table|].policyId == policyId && after[|table|].key == key;
      }
    }
  }

  /** A key's row is not another's. */
  lemma ConsiderKeySparesOthers(
    table: seq<Suggestion>, policyId: nat, exclusions: seq<RuleExclusion>, events: seq<Event>, other: Key,
    owner: nat, key: Key
  )
    requires other != key || owner != policyId
    ensures HasRow(ConsiderKey(table, policyId, exclusions, events, other), owner, key) <==> HasRow(table, owner, key)
  {
    hide IsCovered, ScopeOf, Confidence, Tally, EventsWith, PathsOf;
    TallyIsOverEventsWith(events, other);
    var after := ConsiderKey(table, policyId, exclusions, events, other);
    assert |after| >= |table|;
    forall i | 0 <= i < |table| ensures after[i].policyId == table[i].policyId && after[i].key == table[i].key {
    }
    assert forall i :: |table| <= i < |after| ==> after[i].policyId == policyId && after[i].key == other;
  }

  lemma {:induction false} ConsiderAllCreates(db: Db, policyId: nat, events: seq<Event>, keys: seq<Key>, owner: nat, key: Key)
    requires policyId in db.policies
    ensures
      var after := ConsiderAll(db.suggestions, policyId, OfPolicy(db.exclusions, policyId), events, keys);
      HasRow(after, owner, key) <==>
        || HasRow(db.suggestions, owner, key)
        || (owner == policyId && key in keys && Considered(db, policyId, events, key)
            && Evidence(EventsWith(events, key)) >= 29.5)
    decreases |keys|
  {
    if keys != [] {
      var init, last := keys[..|keys| - 1], keys[|keys| - 1];
      var own := OfPolicy(db.exclusions, policyId);
      var before := ConsiderAll(db.suggestions, policyId, own, events, init);
      hide HasRow, Considered, Evidence, EventsWith, ConsiderKey, OfPolicy;
      ConsiderAllCreates(db, policyId, events, init, owner, key);
      if owner == policyId && last == key {
        ConsiderKeyCreates(db, before, policyId, events, key);
      } else {
        ConsiderKeySparesOthers(before, policyId, own, events, last, owner, key);
      }
      assert key in keys <==> key in init || key == last;
    }
  }

  /**
   After an analysis a key has a row iff it had one, or the policy has at least
   three events of it, no exclusion of the policy applies to all of them, and
   their evidence comes to 29.5 points; no other policy gets a row.
   */
  lemma AnalysisCreatesIff(db: Db, policyId: nat, events: seq<Event>, owner: nat, key: Key)
    ensures
      HasRow(Apply(db, Analyze(policyId, events)).suggestions, owner, key) <==>
        || HasRow(db.suggestions, owner, key)
        || (owner == policyId && Considered(db, policyId, events, key) && Evidence(EventsWith(events, key)) >= 29.5)
  {
    if policyId in db.policies {
      ConsiderAllCreates(db, policyId, events, KeysOf(events), owner, key);
      KeysHaveGroups(events, key);
      TallyIsOverEventsWith(events, key);
    }
  }

  /** One client, one hour, never a rule alone: no suggestion, however many requests it sends. */
  lemma OneClientBurstCreatesNothing(db: Db, policyId: nat, events: seq<Event>, key: Key, client: string, hour: int)
    requires forall i :: 0 <= i < |EventsWith(events, key)| ==>
      var e := EventsWith(events, key)[i];
      e.sourceIp == client && HourOf(e.at) == hour && |RulesIn(e)| != 1
    ensures HasRow(Apply(db, Analyze(policyId, events)).suggestions, policyId, key) ==> HasRow(db.suggestions, policyId, key)
  {
    AnalysisCreatesIff(db, policyId, events, policyId, key);
    var with := EventsWith(events, key);
    if |with| >= 3 {
      OneClientOneHour(with, client, hour);
      NeverAlone(with);
    }
  }

  /** A single client gets a suggestion for what no exclusion covers iff volume, hours and firing alone come to 26. */
  lemma OneClientCreatesIff(db: Db, policyId: nat, events: seq<Event>, key: Key, client: string)
    requires forall i :: 0 <= i < |EventsWith(events, key)| ==> EventsWith(events, key)[i].sourceIp == client
    requires Considered(db, policyId, events, key) && !HasRow(db.suggestions, policyId, key)
    ensures
      var with := EventsWith(events, key);
      HasRow(Apply(db, Analyze(policyId, events)).suggestions, policyId, key) <==>
        (if |with| > 20 then 20.0 else |with| as real)
          + (if |Hours(with)| > 6 then 20.0 else 10.0 * |Hours(with)| as real / 3.0)
          + Alone(with) as real / |with| as real * 25.0 >= 26.0
  {
    AnalysisCreatesIff(db, policyId, events, policyId, key);
    var with := EventsWith(events, key);
    assert with[0].sourceIp in Clients(with);
    assert Clients(with) == {client};
    hide Apply, EventsWith, HasRow, Considered, Hours, Alone, Clients;
  }

  /** Two moments count as one hour iff one hour of the clock holds both. */
  lemma HoursAreClockHours(a: int, b: int)
    ensures HourOf(a) == HourOf(b) <==> exists h: int :: InHour(a, h) && InHour(b, h)
  {
    assert InHour(a, HourOf(a)) && InHour(b, HourOf(b));
    forall h: int | InHour(a, h) && InHour(b, h) ensures HourOf(a) == h == HourOf(b) {
    }
  }

  /** The hour from 3600 h up to the next, in seconds. */
  predicate InHour(at: int, h: int) {
    3600 * h <= at < 3600 * (h + 1)
  }

  lemma OneClientOneHour(events: seq<Event>, client: string, hour: int)
    requires events != [] && forall i :: 0 <= i < |events| ==> events[i].sourceIp == client && HourOf(events[i].at) == hour
    ensures |Clients(events)| == 1 && |Hours(events)| == 1
  {
    assert events[0].sourceIp in Clients(events) && HourOf(events[0].at) in Hours(events);
    assert Clients(events) == {client} && Hours(events) == {hour};
  }

  lemma {:induction false} NeverAlone(events: seq<Event>)
    requires forall i :: 0 <= i < |events| ==> |RulesIn(events[i])| != 1
    ensures Alone(events) == 0
    decreases |events|
  {
    if events != [] {
      NeverAlone(events[..|events| - 1]);
    }
  }

  /**
   After an analysis, every pending row of a key that was considered says what
   the events of that key say.
   */
  lemma AnalysedRowSaysItsEvents(db: Db, policyId: nat, events: seq<Event>, key: Key, i: nat)
    requires UniqueKeys(db.suggestions) && Percentages(db.suggestions)
    requires Considered(db, policyId, events, key)
    requires
      var after := Apply(db, Analyze(policyId, events)).suggestions;
      i < |after| && after[i].policyId == policyId && after[i].key == key && after[i].status.Pending?
    ensures
      var (row, with) := (Apply(db, Analyze(policyId, events)).suggestions[i], EventsWith(events, key));
      && row.eventCount == |with| && row.sourceIpCount == |Clients(with)|
      && row.lastSeen == with[0].at && row.firstSeen == with[|with| - 1].at
      && row.confidence == Round(Evidence(with))
      && ProposedScope(PathsOf(set n | 0 <= n < |with| :: with[n].requestUri), row.scope)
      && |row.samples| == (if |with| < 5 then |with| else 5)
      && (forall n :: 0 <= n < |row.samples| ==> row.samples[n] == with[n].id)
      && row.message == FirstMessage(with[0].matches, key)
  {
    var own, after := OfPolicy(db.exclusions, policyId), Apply(db, Analyze(policyId, events)).suggestions;
    var with := EventsWith(events, key);
    TallyIsOverEventsWith(events, key);
    FirstMessageStays(events, key);
    ConfidenceIsTheEvidence(events, key);
    CoveredIsExcluded(db.exclusions, policyId, key, with);
    ScopeIsProposed(set n | 0 <= n < |with| :: with[n].requestUri);
    RowIsSettled(db, policyId, events, key, i);
    assert Tally(events, key).value.sourceIps == Clients(with);
    hide Tally, EventsWith, Evidence, Confidence, IsCovered, Excluded, OfPolicy, ProposedScope, ScopeOf, Apply, UniqueKeys, Percentages;
    assert after[i] == Refreshed(after[i], Tally(events, key).value, ScopeOf(Tally(events, key).value.paths));
  }

  lemma {:induction false} FirstMessageStays(events: seq<Event>, key: Key)
    requires EventsWith(events, key) != []
    ensures Tally(events, key).Some? && Tally(events, key).value.message == FirstMessage(EventsWith(events, key)[0].matches, key)
    decreases |events|
  {
    var init := events[..|events| - 1];
    TallyCounts(events, key);
    TallyCounts(init, key);
    if EventsWith(init, key) != [] {
      FirstMessageStays(init, key);
    }
  }

  lemma RowIsSettled(db: Db, policyId: nat, events: seq<Event>, key: Key, i: nat)
    requires UniqueKeys(db.suggestions) && Percentages(db.suggestions) && policyId in db.policies
    requires EventsWith(events, key) != []
    requires
      var after := Apply(db, Analyze(policyId, events)).suggestions;
      i < |after| && after[i].policyId == policyId && after[i].key == key
    ensures
      var after := Apply(db, Analyze(policyId, events)).suggestions;
      && Find(after, policyId, key) == Some(i)
      && TuningRules.Settled(after, policyId, OfPolicy(db.exclusions, policyId), events, key)
  {
    var own, keys := OfPolicy(db.exclusions, policyId), KeysOf(events);
    TallyCounts(events, key);
    KeysHaveGroups(events, key);
    var k :| 0 <= k < |keys| && keys[k] == key;
    ConsiderAllKeeps(db.suggestions, policyId, own, events, keys);
    AllSettled(db.suggestions, policyId, own, events, keys, k);
    FindIsUnique(Apply(db, Analyze(policyId, events)).suggestions, policyId, key, i);
  }

  // ---------------------------------------------------------------------
  // What a match is excluded by

  predicate IsUpperOf(lower: string, upper: string) {
    |lower| == |upper| && forall i :: 0 <= i < |lower| ==> upper[i] == Upper(lower[i])
  }

  function Upper(c: char): char {
    if 'a' <= c <= 'z' then c - 'a' + 'A' else c
  }

  function Variable(t: TargetType): string {
    match t
    case REQUEST_URI => "REQUEST_URI"
    case REQUEST_URI_RAW => "REQUEST_URI_RAW"
    case REQUEST_FILENAME => "REQUEST_FILENAME"
    case ARGS => "ARGS"
    case ARGS_NAMES => "ARGS_NAMES"
    case REQUEST_HEADERS => "REQUEST_HEADERS"
    case REQUEST_HEADERS_NAMES => "REQUEST_HEADERS_NAMES"
    case REQUEST_COOKIES => "REQUEST_COOKIES"
    case REQUEST_COOKIES_NAMES => "REQUEST_COOKIES_NAMES"
  }

  lemma UriIsUpper(t: TargetType)
    requires t.REQUEST_URI? || t.REQUEST_URI_RAW? || t.REQUEST_FILENAME?
    ensures IsUpperOf(ValueOf(t), Variable(t))
  {
  }

  lemma ArgsIsUpper(t: TargetType)
    requires t.ARGS? || t.ARGS_NAMES?
    ensures IsUpperOf(ValueOf(t), Variable(t))
  {
  }

  lemma HeadersIsUpper(t: TargetType)
    requires t.REQUEST_HEADERS? || t.REQUEST_HEADERS_NAMES?
    ensures IsUpperOf(ValueOf(t), Variable(t))
  {
  }

  lemma CookiesIsUpper(t: TargetType)
    requires t.REQUEST_COOKIES? || t.REQUEST_COOKIES_NAMES?
    ensures IsUpperOf(ValueOf(t), Variable(t))
  {
  }

  lemma VariableIsUpper(t: TargetType)
    ensures IsUpperOf(ValueOf(t), Variable(t))
  {
    hide *;
    if t.REQUEST_URI? || t.REQUEST_URI_RAW? || t.REQUEST_FILENAME? {
      UriIsUpper(t);
    } else if t.ARGS? || t.ARGS_NAMES? {
      ArgsIsUpper(t);
    } else if t.REQUEST_HEADERS? || t.REQUEST_HEADERS_NAMES? {
      HeadersIsUpper(t);
    } else {
      CookiesIsUpper(t);
    }
  }

  lemma UpperIsUnique(lower: string, a: string, b: string)
    requires IsUpperOf(lower, a) && IsUpperOf(lower, b)
    ensures a == b
  {
  }

  lemma TypeOfVariable(t: TargetType)
    ensures TypeOf(Variable(t)) == Some(t)
  {
    var v := Variable(t);
    assert |v| == |ValueOf(t)|;
    assert |v| >= 4 && v[0] in {'R', 'A'};
  }

  lemma TypeNamesItsVariable(variable: string, t: TargetType)
    ensures TypeOf(variable) == Some(t) <==> IsUpperOf(ValueOf(t), variable)
  {
    VariableIsUpper(t);
    TypeOfVariable(t);
    if IsUpperOf(ValueOf(t), variable) {
      UpperIsUnique(ValueOf(t), variable, Variable(t));
    }
  }

  /**
   A match can be excluded iff its variable is one of the target types, under
   its stored name in capitals; by that type alone for the parts of the request
   line, otherwise by its member, if that is made of plain characters.
   */
  lemma KeyNamesItsMatch(m: RuleMatch, key: Key)
    ensures KeyOf(m) == Some(key) <==>
      && m.variable.Some? && IsUpperOf(ValueOf(key.targetType), m.variable.value)
      && key.ruleId == m.ruleId
      && (if key.targetType in {REQUEST_URI, REQUEST_URI_RAW, REQUEST_FILENAME} then key.targetValue.None?
          else key.targetValue == m.member && m.member.Some? && PlainTarget(m.member.value))
  {
    if m.variable.Some? {
      hide TypeOf, IsUpperOf;
      TypeNamesItsVariable(m.variable.value, key.targetType);
    }
  }

  /** One or more letters, digits, and _ . : / @ - */
  predicate PlainTarget(value: string) {
    value != "" && forall i :: 0 <= i < |value| ==>
      'a' <= value[i] <= 'z' || 'A' <= value[i] <= 'Z' || '0' <= value[i] <= '9' || value[i] in {'_', '.', ':', '/', '@', '-'}
  }

  /** An event counts as fired alone iff all its matches with a variable are of one rule. */
  lemma AloneIsOneRule(e: Event)
    ensures |RulesIn(e)| == 1 <==>
      exists i :: 0 <= i < |e.matches| && e.matches[i].variable.Some? && OnlyRule(e, e.matches[i].ruleId)
  {
    if |RulesIn(e)| == 1 {
      var r :| r in RulesIn(e);
      assert RulesIn(e) == {r} by {
        forall q | q in RulesIn(e) ensures q == r {
          assert {q, r} <= RulesIn(e);
          if q != r {
            CardinalityGrows({q, r}, RulesIn(e));
          }
        }
      }
      forall j | 0 <= j < |e.matches| && e.matches[j].variable.Some? ensures e.matches[j].ruleId == r {
        assert e.matches[j].ruleId in RulesIn(e);
      }
      var i :| 0 <= i < |e.matches| && e.matches[i].variable.Some? && e.matches[i].ruleId == r;
      assert OnlyRule(e, r);
    }
    if i :| 0 <= i < |e.matches| && e.matches[i].variable.Some? && OnlyRule(e, e.matches[i].ruleId) {
      assert RulesIn(e) == {e.matches[i].ruleId};
    }
  }

  lemma {:induction false} CardinalityGrows<T>(a: set<T>, b: set<T>)
    requires a <= b
    ensures |a| <= |b|
  {
    assert b == a + (b - a);
  }

  predicate OnlyRule(e: Event, rule: int) {
    forall j :: 0 <= j < |e.matches| && e.matches[j].variable.Some? ==> e.matches[j].ruleId == rule
  }

  /** What is learned is rendered: an exclusion approved as suggested is never among those skipped. */
  lemma LearnedExclusionIsRendered(row: RuleExclusion, m: RuleMatch, uris: set<string>)
    requires KeyOf(m) == Some(row.key) && m.ruleId > 0 && ProposedScope(PathsOf(uris), row.scopePath)
    ensures ConfigGenerator.ToExclusionContext(row).Accepted()
  {
    if row.scopePath.Some? {
      ProposedScopeIsRenderable(uris, row.scopePath.value, 0);
    }
    hide ProposedScope, ValidTarget;
  }
}
