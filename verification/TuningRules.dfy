/** Learning mode, as rules over values: grouping events, scoring groups, refreshing suggestions. */
module TuningRules {
  import opened Wrappers
  import opened Exclusions
  import opened ScopePaths
  import opened LearnedScopes

  const MIN_EVENTS := 3
  const MIN_CONFIDENCE := 30
  const SAMPLE_SIZE := 5

  // ---------------------------------------------------------------------
  // Events and their rule matches

  datatype RuleMatch = RuleMatch(ruleId: int, message: Option<string>, variable: Option<string>, member: Option<string>)

  datatype Event = Event(id: nat, at: int, sourceIp: string, requestUri: string, matches: seq<RuleMatch>)

  function TypeOf(variable: string): Option<TargetType> {
    if variable == "REQUEST_URI" then Some(REQUEST_URI)
    else if variable == "REQUEST_URI_RAW" then Some(REQUEST_URI_RAW)
    else if variable == "REQUEST_FILENAME" then Some(REQUEST_FILENAME)
    else if variable == "ARGS" then Some(ARGS)
    else if variable == "ARGS_NAMES" then Some(ARGS_NAMES)
    else if variable == "REQUEST_HEADERS" then Some(REQUEST_HEADERS)
    else if variable == "REQUEST_HEADERS_NAMES" then Some(REQUEST_HEADERS_NAMES)
    else if variable == "REQUEST_COOKIES" then Some(REQUEST_COOKIES)
    else if variable == "REQUEST_COOKIES_NAMES" then Some(REQUEST_COOKIES_NAMES)
    else None
  }

  /** What a match would be excluded by, if it can be. */
  function KeyOf(m: RuleMatch): Option<Key> {
    if m.variable.None? then None
    else
      match TypeOf(m.variable.value)
      case None => None
      case Some(targetType) =>
        var value := if targetType.TakesKey() then m.member else None;
        if ValidTarget(targetType, value) then Some(Key(m.ruleId, targetType, value)) else None
  }

  predicate Has(e: Event, key: Key) {
    exists i :: 0 <= i < |e.matches| && KeyOf(e.matches[i]) == Some(key)
  }

  /** The rules that fired on a known variable. */
  function RulesIn(e: Event): set<int> {
    set i | 0 <= i < |e.matches| && e.matches[i].variable.Some? :: e.matches[i].ruleId
  }

  /** The message of the event's first match for this key. */
  function FirstMessage(matches: seq<RuleMatch>, key: Key): Option<string> {
    if matches == [] then None
    else if KeyOf(matches[0]) == Some(key) then matches[0].message
    else FirstMessage(matches[1..], key)
  }

  function HourOf(at: int): int {
    at / 3600
  }

  // ---------------------------------------------------------------------
  // Groups

  datatype Group = Group(
    message: Option<string>, eventCount: nat, isolatedCount: nat,
    sourceIps: set<string>, activeHours: set<int>, paths: set<Option<string>>,
    samples: seq<nat>, firstSeen: int, lastSeen: int)

  /** What one event adds to the group of one of its keys; events come newest first. */
  function Count(group: Option<Group>, e: Event, key: Key): Group {
    var alone := if |RulesIn(e)| == 1 then 1 else 0;
    match group
    case None =>
      Group(FirstMessage(e.matches, key), 1, alone, {e.sourceIp}, {HourOf(e.at)}, {ScopePathFor(e.requestUri)},
            [e.id], e.at, e.at)
    case Some(g) =>
      Group(g.message, g.eventCount + 1, g.isolatedCount + alone,
            g.sourceIps + {e.sourceIp}, g.activeHours + {HourOf(e.at)}, g.paths + {ScopePathFor(e.requestUri)},
            if |g.samples| < SAMPLE_SIZE then g.samples + [e.id] else g.samples, e.at, g.lastSeen)
  }

  /** The group of a key over all events that have it. */
  function Tally(events: seq<Event>, key: Key): Option<Group> {
    if events == [] then None
    else
      var earlier := Tally(events[..|events| - 1], key);
      var e := events[|events| - 1];
      if Has(e, key) then Some(Count(earlier, e, key)) else earlier
  }

  function EventsWith(events: seq<Event>, key: Key): seq<Event> {
    if events == [] then []
    else
      EventsWith(events[..|events| - 1], key)
        + (if Has(events[|events| - 1], key) then [events[|events| - 1]] else [])
  }

  function Alone(events: seq<Event>): nat {
    if events == [] then 0
    else Alone(events[..|events| - 1]) + (if |RulesIn(events[|events| - 1])| == 1 then 1 else 0)
  }

  lemma {:induction false} TallyCounts(events: seq<Event>, key: Key)
    ensures Tally(events, key).None? <==> EventsWith(events, key) == []
    ensures Alone(EventsWith(events, key)) <= |EventsWith(events, key)|
    ensures Tally(events, key).Some? ==>
      var g := Tally(events, key).value;
      g.eventCount == |EventsWith(events, key)| && g.isolatedCount == Alone(EventsWith(events, key))
    decreases |events|
  {
    if events != [] {
      var init := events[..|events| - 1];
      TallyCounts(init, key);
      if Has(events[|events| - 1], key) {
        var with := EventsWith(events, key);
        assert with == EventsWith(init, key) + [events[|events| - 1]];
        assert with[..|with| - 1] == EventsWith(init, key);
        assert Alone(with) == Alone(with[..|with| - 1]) + (if |RulesIn(with[|with| - 1])| == 1 then 1 else 0);
      } else {
        assert EventsWith(events, key) == EventsWith(init, key);
      }
    }
  }

  lemma {:induction false} TallyCollects(events: seq<Event>, key: Key)
    requires Tally(events, key).Some?
    ensures
      var g := Tally(events, key).value;
      var with := EventsWith(events, key);
      && g.sourceIps == (set i | 0 <= i < |with| :: with[i].sourceIp)
      && g.activeHours == (set i | 0 <= i < |with| :: HourOf(with[i].at))
      && g.paths == PathsOf(set i | 0 <= i < |with| :: with[i].requestUri)
    decreases |events|
  {
    var init := events[..|events| - 1];
    TallyCounts(init, key);
    if Has(events[|events| - 1], key) {
      if Tally(init, key).Some? {
        TallyCollects(init, key);
      }
      SetsOfAppended(EventsWith(init, key), events[|events| - 1]);
    } else {
      TallyCollects(init, key);
      assert EventsWith(events, key) == EventsWith(init, key);
    }
  }

  lemma {:induction false} TallySamples(events: seq<Event>, key: Key)
    requires Tally(events, key).Some?
    ensures
      var g := Tally(events, key).value;
      var with := EventsWith(events, key);
      && with != [] && g.lastSeen == with[0].at && g.firstSeen == with[|with| - 1].at
      && |g.samples| == (if |with| < SAMPLE_SIZE then |with| else SAMPLE_SIZE)
      && (forall i :: 0 <= i < |g.samples| ==> g.samples[i] == with[i].id)
    decreases |events|
  {
    var init := events[..|events| - 1];
    TallyCounts(init, key);
    if Tally(init, key).Some? {
      TallySamples(init, key);
    }
  }

  /**
   What the running group amounts to, stated over the events that have the key:
   all of them counted once, the newest five as samples.
   */
  lemma TallyIsOverEventsWith(events: seq<Event>, key: Key)
    ensures Tally(events, key).None? <==> EventsWith(events, key) == []
    ensures Tally(events, key).Some? ==>
      var g := Tally(events, key).value;
      var with := EventsWith(events, key);
      && g.eventCount == |with|
      && g.isolatedCount == Alone(with) <= |with|
      && g.sourceIps == (set i | 0 <= i < |with| :: with[i].sourceIp)
      && g.activeHours == (set i | 0 <= i < |with| :: HourOf(with[i].at))
      && g.paths == PathsOf(set i | 0 <= i < |with| :: with[i].requestUri)
      && g.lastSeen == with[0].at && g.firstSeen == with[|with| - 1].at
      && |g.samples| == (if |with| < SAMPLE_SIZE then |with| else SAMPLE_SIZE)
      && (forall i :: 0 <= i < |g.samples| ==> g.samples[i] == with[i].id)
  {
    TallyCounts(events, key);
    if Tally(events, key).Some? {
      TallyCollects(events, key);
      TallySamples(events, key);
    }
  }

  lemma SetsOfAppended(before: seq<Event>, e: Event)
    ensures
      var with := before + [e];
      && (set i | 0 <= i < |with| :: with[i].sourceIp) == (set i | 0 <= i < |before| :: before[i].sourceIp) + {e.sourceIp}
      && (set i | 0 <= i < |with| :: HourOf(with[i].at)) == (set i | 0 <= i < |before| :: HourOf(before[i].at)) + {HourOf(e.at)}
      && PathsOf(set i | 0 <= i < |with| :: with[i].requestUri)
           == PathsOf(set i | 0 <= i < |before| :: before[i].requestUri) + {ScopePathFor(e.requestUri)}
  {
    var with := before + [e];
    assert forall i :: 0 <= i < |before| ==> with[i] == before[i];
    assert with[|before|] == e;
    var uris := set i | 0 <= i < |before| :: before[i].requestUri;
    assert (set i | 0 <= i < |with| :: with[i].requestUri) == uris + {e.requestUri};
    assert PathsOf(uris + {e.requestUri}) == PathsOf(uris) + {ScopePathFor(e.requestUri)};
    assert (set i | 0 <= i < |with| :: with[i].sourceIp) == (set i | 0 <= i < |before| :: before[i].sourceIp) + {e.sourceIp};
    assert (set i | 0 <= i < |with| :: HourOf(with[i].at)) == (set i | 0 <= i < |before| :: HourOf(before[i].at)) + {HourOf(e.at)};
  }

  // ---------------------------------------------------------------------
  // Confidence

  function AtMost(n: nat, cap: nat): real {
    if n < cap then n as real else cap as real
  }

  function Score(eventCount: nat, sourceIps: nat, activeHours: nat, isolatedRatio: real): real {
    35.0 * AtMost(sourceIps, 10) / 10.0
      + 20.0 * AtMost(eventCount, 20) / 20.0
      + 20.0 * AtMost(activeHours, 6) / 6.0
      + 25.0 * isolatedRatio
  }

  /** round(): to the nearest integer, halves to the even one. */
  function Round(x: real): int {
    var down := x.Floor;
    var rest := x - down as real;
    if rest < 0.5 || (rest == 0.5 && down % 2 == 0) then down else down + 1
  }

  function ConfidenceScore(eventCount: nat, sourceIps: nat, activeHours: nat, isolatedRatio: real): int {
    Round(Score(eventCount, sourceIps, activeHours, isolatedRatio))
  }

  lemma ConfidenceIsAPercentage(eventCount: nat, sourceIps: nat, activeHours: nat, isolated: nat)
    requires isolated <= eventCount && eventCount > 0
    ensures 0 <= ConfidenceScore(eventCount, sourceIps, activeHours, isolated as real / eventCount as real) <= 100
  {
    var ratio := isolated as real / eventCount as real;
    assert 0.0 <= ratio <= 1.0;
    var x := Score(eventCount, sourceIps, activeHours, ratio);
    assert 0.0 <= x <= 100.0;
  }

  function Confidence(g: Group): int
    requires g.eventCount > 0
  {
    ConfidenceScore(g.eventCount, |g.sourceIps|, |g.activeHours|, g.isolatedCount as real / g.eventCount as real)
  }

  // ---------------------------------------------------------------------
  // Suggestions

  datatype SuggestionStatus = Pending | Approved | Rejected

  datatype Suggestion = Suggestion(
    policyId: nat, key: Key, message: Option<string>, scope: Option<string>,
    confidence: int, eventCount: nat, sourceIpCount: nat, firstSeen: int, lastSeen: int, samples: seq<nat>,
    status: SuggestionStatus, exclusionId: Option<nat>)

  /** The narrowest scope of a group's paths, a value because it is unique. */
  ghost function ScopeOf(paths: set<Option<string>>): Option<string> {
    if exists s :: ProposedScope(paths, s) then
      var s :| ProposedScope(paths, s);
      s
    else None
  }

  function Refreshed(s: Suggestion, g: Group, scope: Option<string>): Suggestion
    requires g.eventCount > 0
  {
    s.(message := g.message, scope := scope, confidence := Confidence(g), eventCount := g.eventCount,
       sourceIpCount := |g.sourceIps|, firstSeen := g.firstSeen, lastSeen := g.lastSeen, samples := g.samples)
  }

  function New(policyId: nat, key: Key, g: Group, scope: Option<string>): Suggestion
    requires g.eventCount > 0
  {
    Refreshed(Suggestion(policyId, key, None, None, 0, 0, 0, 0, 0, [], Pending, None), g, scope)
  }

  /** The row a suggestion for this key is stored in. */
  function Find(table: seq<Suggestion>, policyId: nat, key: Key): (r: Option<nat>)
    ensures r.Some? ==> r.value < |table| && table[r.value].policyId == policyId && table[r.value].key == key
    ensures r.None? ==> forall i :: 0 <= i < |table| ==> !(table[i].policyId == policyId && table[i].key == key)
  {
    if table == [] then None
    else if table[|table| - 1].policyId == policyId && table[|table| - 1].key == key then Some(|table| - 1)
    else Find(table[..|table| - 1], policyId, key)
  }

  /** What an analysis does about one group. */
  function Consider(
    table: seq<Suggestion>, policyId: nat, key: Key, g: Group, scope: Option<string>, covered: bool
  ): seq<Suggestion>
    requires g.eventCount > 0
  {
    if g.eventCount < MIN_EVENTS || covered then table
    else
      match Find(table, policyId, key)
      case Some(i) => if table[i].status.Pending? then table[i := Refreshed(table[i], g, scope)] else table
      case None => if Confidence(g) < MIN_CONFIDENCE then table else table + [New(policyId, key, g, scope)]
  }

  /** The exclusions of one policy. */
  function OfPolicy(exclusions: seq<RuleExclusion>, policyId: nat): seq<RuleExclusion> {
    if exclusions == [] then []
    else (if exclusions[0].policyId == policyId then [exclusions[0]] else []) + OfPolicy(exclusions[1..], policyId)
  }

  ghost function ConsiderKey(
    table: seq<Suggestion>, policyId: nat, exclusions: seq<RuleExclusion>, events: seq<Event>, key: Key
  ): seq<Suggestion> {
    match Tally(events, key)
    case None => table
    case Some(g) =>
      TallyIsOverEventsWith(events, key);
      Consider(table, policyId, key, g, ScopeOf(g.paths), IsCovered(exclusions, key, ScopeOf(g.paths)))
  }

  /** The keys of the events, in the order they are first met. */
  ghost function ConsiderAll(
    table: seq<Suggestion>, policyId: nat, exclusions: seq<RuleExclusion>, events: seq<Event>, keys: seq<Key>
  ): seq<Suggestion> {
    if keys == [] then table
    else
      var last := |keys| - 1;
      ConsiderKey(ConsiderAll(table, policyId, exclusions, events, keys[..last]), policyId, exclusions, events, keys[last])
  }

  /** The pass rewrites a row that is there, and pending, for this key. */
  ghost predicate Refreshes(
    table: seq<Suggestion>, policyId: nat, exclusions: seq<RuleExclusion>, events: seq<Event>, key: Key
  ) {
    var tally := Tally(events, key);
    && tally.Some? && tally.value.eventCount >= MIN_EVENTS
    && (TallyIsOverEventsWith(events, key); !IsCovered(exclusions, key, ScopeOf(tally.value.paths)))
    && Find(table, policyId, key).Some? && table[Find(table, policyId, key).value].status.Pending?
  }

  ghost function RefreshCount(
    table: seq<Suggestion>, policyId: nat, exclusions: seq<RuleExclusion>, events: seq<Event>, keys: seq<Key>
  ): nat {
    if keys == [] then 0
    else
      var init, last := keys[..|keys| - 1], keys[|keys| - 1];
      RefreshCount(table, policyId, exclusions, events, init)
        + if Refreshes(ConsiderAll(table, policyId, exclusions, events, init), policyId, exclusions, events, last) then 1 else 0
  }

  function AddNew(keys: seq<Key>, key: Option<Key>): seq<Key> {
    if key.None? || key.value in keys then keys else keys + [key.value]
  }

  function KeysOfMatches(keys: seq<Key>, matches: seq<RuleMatch>): seq<Key> {
    if matches == [] then keys
    else AddNew(KeysOfMatches(keys, matches[..|matches| - 1]), KeyOf(matches[|matches| - 1]))
  }

  function KeysOf(events: seq<Event>): seq<Key> {
    if events == [] then []
    else KeysOfMatches(KeysOf(events[..|events| - 1]), events[|events| - 1].matches)
  }

  lemma {:induction false} KeysOfMatchesOnly(keys: seq<Key>, matches: seq<RuleMatch>, key: Key)
    ensures key in KeysOfMatches(keys, matches) <==>
      key in keys || exists i :: 0 <= i < |matches| && KeyOf(matches[i]) == Some(key)
    decreases |matches|
  {
    if matches != [] {
      var last := |matches| - 1;
      KeysOfMatchesOnly(keys, matches[..last], key);
      assert forall i :: 0 <= i < last ==> matches[..last][i] == matches[i];
    }
  }

  /** The order of the groups names exactly the keys that have one. */
  lemma {:induction false} KeysHaveGroups(events: seq<Event>, key: Key)
    ensures key in KeysOf(events) <==> Tally(events, key).Some?
    decreases |events|
  {
    if events != [] {
      var last := |events| - 1;
      KeysHaveGroups(events[..last], key);
      KeysOfMatchesOnly(KeysOf(events[..last]), events[last].matches, key);
    }
  }

  // ---------------------------------------------------------------------
  // The service as a state machine

  datatype Db = Db(policies: set<nat>, exclusions: seq<RuleExclusion>, suggestions: seq<Suggestion>)

  datatype Operation =
    | Analyze(policyId: nat, events: seq<Event>)
    | Approve(policyId: nat, id: nat, exclusion: Key, scopePath: Option<string>)
    | Reject(policyId: nat, id: nat)

  predicate Resolvable(db: Db, policyId: nat, id: nat) {
    && policyId in db.policies && id < |db.suggestions|
    && db.suggestions[id].policyId == policyId && db.suggestions[id].status.Pending?
  }

  ghost function Apply(db: Db, op: Operation): Db {
    match op
    case Analyze(policyId, events) =>
      if policyId !in db.policies then db
      else db.(suggestions :=
        ConsiderAll(db.suggestions, policyId, OfPolicy(db.exclusions, policyId), events, KeysOf(events)))
    case Approve(policyId, id, exclusion, scopePath) =>
      if !Resolvable(db, policyId, id) then db
      else
        var created := RuleExclusion(|db.exclusions|, policyId, exclusion, scopePath);
        db.(exclusions := db.exclusions + [created],
            suggestions := db.suggestions[id := db.suggestions[id].(status := Approved, exclusionId := Some(created.id))])
    case Reject(policyId, id) =>
      if !Resolvable(db, policyId, id) then db
      else db.(suggestions := db.suggestions[id := db.suggestions[id].(status := Rejected)])
  }

  ghost function ApplyAll(db: Db, ops: seq<Operation>): Db
    decreases |ops|
  {
    if ops == [] then db else ApplyAll(Apply(db, ops[0]), ops[1..])
  }

  /** At most one suggestion per policy, rule and target. */
  ghost predicate UniqueKeys(table: seq<Suggestion>) {
    forall i, j :: 0 <= i < j < |table| ==> !(table[i].policyId == table[j].policyId && table[i].key == table[j].key)
  }

  ghost predicate Percentages(table: seq<Suggestion>) {
    forall i :: 0 <= i < |table| ==> 0 <= table[i].confidence <= 100
  }

  /** Rows stay where they are; resolved rows stay as they are. */
  ghost predicate ResolvedKept(before: seq<Suggestion>, after: seq<Suggestion>) {
    && |before| <= |after|
    && forall i :: 0 <= i < |before| ==>
         && after[i].policyId == before[i].policyId && after[i].key == before[i].key
         && (!before[i].status.Pending? ==> after[i] == before[i])
  }

  lemma ConsiderKeyKeeps(
    table: seq<Suggestion>, policyId: nat, exclusions: seq<RuleExclusion>, events: seq<Event>, key: Key
  )
    requires UniqueKeys(table) && Percentages(table)
    ensures
      var after := ConsiderKey(table, policyId, exclusions, events, key);
      UniqueKeys(after) && Percentages(after) && ResolvedKept(table, after)
  {
    TallyIsOverEventsWith(events, key);
    if Tally(events, key).Some? {
      var g := Tally(events, key).value;
      ConfidenceIsAPercentage(g.eventCount, |g.sourceIps|, |g.activeHours|, g.isolatedCount);
    }
  }

  lemma {:induction false} ConsiderAllKeeps(
    table: seq<Suggestion>, policyId: nat, exclusions: seq<RuleExclusion>, events: seq<Event>, keys: seq<Key>
  )
    requires UniqueKeys(table) && Percentages(table)
    ensures
      var after := ConsiderAll(table, policyId, exclusions, events, keys);
      UniqueKeys(after) && Percentages(after) && ResolvedKept(table, after)
    decreases |keys|
  {
    if keys != [] {
      var init := keys[..|keys| - 1];
      ConsiderAllKeeps(table, policyId, exclusions, events, init);
      ConsiderKeyKeeps(ConsiderAll(table, policyId, exclusions, events, init), policyId, exclusions, events, keys[|keys| - 1]);
    }
  }

  /**
   Over any sequence of analyses, approvals and rejections there is one row per
   policy, rule and target, every confidence is a percentage, and a resolved row
   is never rewritten.
   */
  lemma {:induction false} ResolvedIsTerminal(db: Db, ops: seq<Operation>)
    requires UniqueKeys(db.suggestions) && Percentages(db.suggestions)
    ensures
      var end := ApplyAll(db, ops);
      && UniqueKeys(end.suggestions) && Percentages(end.suggestions)
      && ResolvedKept(db.suggestions, end.suggestions)
    decreases |ops|
  {
    if ops != [] {
      var op := ops[0];
      if op.Analyze? {
        ConsiderAllKeeps(db.suggestions, op.policyId, OfPolicy(db.exclusions, op.policyId), op.events, KeysOf(op.events));
      }
      ResolvedIsTerminal(Apply(db, op), ops[1..]);
    }
  }

  // ---------------------------------------------------------------------
  // Analysing the same events again changes nothing

  ghost predicate Settled(
    table: seq<Suggestion>, policyId: nat, exclusions: seq<RuleExclusion>, events: seq<Event>, key: Key
  ) {
    ConsiderKey(table, policyId, exclusions, events, key) == table
  }

  lemma {:induction false} FindIsUnique(table: seq<Suggestion>, policyId: nat, key: Key, i: nat)
    requires UniqueKeys(table) && i < |table| && table[i].policyId == policyId && table[i].key == key
    ensures Find(table, policyId, key) == Some(i)
  {
    var j := Find(table, policyId, key);
    assert j.Some?;
    assert !(i < j.value) && !(j.value < i);
  }

  lemma ConsideredIsSettled(
    table: seq<Suggestion>, policyId: nat, exclusions: seq<RuleExclusion>, events: seq<Event>, key: Key
  )
    requires UniqueKeys(table) && Percentages(table)
    ensures Settled(ConsiderKey(table, policyId, exclusions, events, key), policyId, exclusions, events, key)
  {
    var after := ConsiderKey(table, policyId, exclusions, events, key);
    ConsiderKeyKeeps(table, policyId, exclusions, events, key);
    if after != table {
      var i := if Find(table, policyId, key).Some? then Find(table, policyId, key).value else |table|;
      FindIsUnique(after, policyId, key, i);
      assert after[i := after[i]] == after;
    }
  }

  lemma OthersStaySettled(
    table: seq<Suggestion>, policyId: nat, exclusions: seq<RuleExclusion>, events: seq<Event>, key: Key, other: Key
  )
    requires UniqueKeys(table) && Percentages(table) && key != other
    requires Settled(table, policyId, exclusions, events, key)
    ensures Settled(ConsiderKey(table, policyId, exclusions, events, other), policyId, exclusions, events, key)
  {
    var after := ConsiderKey(table, policyId, exclusions, events, other);
    ConsiderKeyKeeps(table, policyId, exclusions, events, other);
    match Find(table, policyId, key) {
      case Some(i) =>
        FindIsUnique(after, policyId, key, i);
        assert after[i] == table[i];
        assert after[i := after[i]] == after;
      case None =>
        assert Find(after, policyId, key).None?;
    }
  }

  lemma {:induction false} AllSettled(
    table: seq<Suggestion>, policyId: nat, exclusions: seq<RuleExclusion>, events: seq<Event>, keys: seq<Key>, k: nat
  )
    requires UniqueKeys(table) && Percentages(table) && k < |keys|
    ensures Settled(ConsiderAll(table, policyId, exclusions, events, keys), policyId, exclusions, events, keys[k])
    decreases |keys|
  {
    var last := |keys| - 1;
    var init := keys[..last];
    var before := ConsiderAll(table, policyId, exclusions, events, init);
    ConsiderAllKeeps(table, policyId, exclusions, events, init);
    if keys[k] == keys[last] {
      ConsideredIsSettled(before, policyId, exclusions, events, keys[last]);
    } else {
      AllSettled(table, policyId, exclusions, events, init, k);
      OthersStaySettled(before, policyId, exclusions, events, keys[k], keys[last]);
    }
  }

  lemma {:induction false} SettledIsUnchanged(
    table: seq<Suggestion>, policyId: nat, exclusions: seq<RuleExclusion>, events: seq<Event>, keys: seq<Key>
  )
    requires forall k :: 0 <= k < |keys| ==> Settled(table, policyId, exclusions, events, keys[k])
    ensures ConsiderAll(table, policyId, exclusions, events, keys) == table
    decreases |keys|
  {
    if keys != [] {
      SettledIsUnchanged(table, policyId, exclusions, events, keys[..|keys| - 1]);
    }
  }

  /** A second analysis of the same events creates nothing and leaves every row as it is. */
  lemma AnalysisIsIdempotent(db: Db, policyId: nat, events: seq<Event>)
    requires UniqueKeys(db.suggestions) && Percentages(db.suggestions)
    ensures Apply(Apply(db, Analyze(policyId, events)), Analyze(policyId, events)) == Apply(db, Analyze(policyId, events))
  {
    if policyId in db.policies {
      var exclusions := OfPolicy(db.exclusions, policyId);
      var keys := KeysOf(events);
      var after := ConsiderAll(db.suggestions, policyId, exclusions, events, keys);
      forall k | 0 <= k < |keys| ensures Settled(after, policyId, exclusions, events, keys[k]) {
        AllSettled(db.suggestions, policyId, exclusions, events, keys, k);
      }
      SettledIsUnchanged(after, policyId, exclusions, events, keys);
    }
  }
}
