/** The analyzer and the review operations on the suggestion table. */
module TuningService {
  import opened Wrappers
  import opened Exclusions
  import opened ScopePaths
  import opened LearnedScopes
  import opened TuningRules

  datatype AnalysisResult = AnalysisResult(eventsScanned: nat, created: nat, updated: nat)

  datatype TuningError = PolicyNotFound | SuggestionNotFound | SuggestionNotPending

  /** The groups after some matches of one event, on top of the events before it. */
  ghost predicate Grouped(groups: map<Key, Group>, events: seq<Event>, e: Event, seen: set<Key>) {
    forall key ::
      && (key in groups <==> Tally(events, key).Some? || key in seen)
      && (key in groups ==>
            Some(groups[key]) == if key in seen then Some(Count(Tally(events, key), e, key)) else Tally(events, key))
  }

  ghost predicate Tallied(groups: map<Key, Group>, events: seq<Event>) {
    forall key ::
      && (key in groups <==> Tally(events, key).Some?)
      && (key in groups ==> Some(groups[key]) == Tally(events, key))
  }

  ghost predicate SeenUpTo(seen: set<Key>, matches: seq<RuleMatch>) {
    forall key :: key in seen <==> exists i :: 0 <= i < |matches| && KeyOf(matches[i]) == Some(key)
  }

  lemma {:induction false} FirstMessageAt(matches: seq<RuleMatch>, j: nat, key: Key)
    requires j < |matches| && KeyOf(matches[j]) == Some(key)
    requires forall i :: 0 <= i < j ==> KeyOf(matches[i]) != Some(key)
    ensures FirstMessage(matches, key) == matches[j].message
  {
    if j > 0 {
      assert matches[1..][j - 1] == matches[j];
      assert forall i :: 0 <= i < j - 1 ==> matches[1..][i] == matches[i + 1];
      FirstMessageAt(matches[1..], j - 1, key);
    }
  }

  /** Add one event to the group of a key it has; `m` is the event's first match for that key. */
  method AddToGroup(group: Option<Group>, e: Event, m: RuleMatch, key: Key, rulesInEvent: set<int>) returns (g: Group)
    requires rulesInEvent == RulesIn(e) && m.message == FirstMessage(e.matches, key)
    ensures g == Count(group, e, key)
  {
    if group.None? {
      g := Group(m.message, 0, 0, {}, {}, {}, [], e.at, e.at);
    } else {
      g := group.value;
    }
    g := g.(eventCount := g.eventCount + 1);
    if |rulesInEvent| == 1 {
      g := g.(isolatedCount := g.isolatedCount + 1);
    }
    g := g.(sourceIps := g.sourceIps + {e.sourceIp});
    g := g.(activeHours := g.activeHours + {HourOf(e.at)});
    g := g.(paths := g.paths + {ScopePathFor(e.requestUri)});
    if |g.samples| < SAMPLE_SIZE {
      g := g.(samples := g.samples + [e.id]);
    }
    g := g.(firstSeen := e.at);
  }

  lemma GroupedStep(groups: map<Key, Group>, events: seq<Event>, e: Event, seen: set<Key>, key: Key, g: Group)
    requires Grouped(groups, events, e, seen) && key !in seen && g == Count(Tally(events, key), e, key)
    ensures Grouped(groups[key := g], events, e, seen + {key})
  {
  }

  lemma SeenStep(seen: set<Key>, matches: seq<RuleMatch>, j: nat)
    requires j < |matches| && SeenUpTo(seen, matches[..j])
    ensures SeenUpTo(if KeyOf(matches[j]).Some? then seen + {KeyOf(matches[j]).value} else seen, matches[..j + 1])
    ensures KeyOf(matches[j]).Some? && KeyOf(matches[j]).value !in seen ==>
      forall i :: 0 <= i < j ==> KeyOf(matches[i]) != KeyOf(matches[j])
  {
    var init, more := matches[..j], matches[..j + 1];
    assert forall i :: 0 <= i < j ==> init[i] == matches[i] && more[i] == matches[i];
    assert more[j] == matches[j];
    forall key ensures
      (exists i :: 0 <= i < |more| && KeyOf(more[i]) == Some(key)) <==>
      (exists i :: 0 <= i < |init| && KeyOf(init[i]) == Some(key)) || KeyOf(matches[j]) == Some(key)
    {
      if exists i :: 0 <= i < |init| && KeyOf(init[i]) == Some(key) {
        var i :| 0 <= i < |init| && KeyOf(init[i]) == Some(key);
        assert KeyOf(more[i]) == Some(key);
      }
      if KeyOf(matches[j]) == Some(key) {
        assert KeyOf(more[j]) == Some(key);
      }
    }
  }

  /** Add one event to the group of its j-th match, the first with that key. */
  method CountMatch(groups0: map<Key, Group>, order0: seq<Key>, e: Event, j: nat, key: Key, rulesInEvent: set<int>,
                    ghost seen: set<Key>, ghost before: seq<Event>) returns (groups: map<Key, Group>, order: seq<Key>)
    requires j < |e.matches| && KeyOf(e.matches[j]) == Some(key) && key !in seen && rulesInEvent == RulesIn(e)
    requires Grouped(groups0, before, e, seen) && SeenUpTo(seen, e.matches[..j])
    requires order0 == KeysOfMatches(KeysOf(before), e.matches[..j])
    ensures Grouped(groups, before, e, seen + {key}) && order == AddNew(order0, Some(key))
  {
    SeenStep(seen, e.matches, j);
    FirstMessageAt(e.matches, j, key);
    KeysOfMatchesOnly(KeysOf(before), e.matches[..j], key);
    KeysHaveGroups(before, key);
    hide Tally, Count, RulesIn, FirstMessage, KeysOf;
    order := order0;
    if key !in groups0 {
      order := order + [key];
    }
    var g := AddToGroup(if key in groups0 then Some(groups0[key]) else None, e, e.matches[j], key, rulesInEvent);
    GroupedStep(groups0, before, e, seen, key, g);
    groups := groups0[key := g];
  }

  /** Add one event to all its groups, once each. */
  method GroupEvent(groups0: map<Key, Group>, order0: seq<Key>, e: Event, ghost before: seq<Event>)
    returns (groups: map<Key, Group>, order: seq<Key>)
    requires Tallied(groups0, before) && order0 == KeysOf(before)
    ensures Tallied(groups, before + [e]) && order == KeysOf(before + [e])
  {
    hide Tally, Count, FirstMessage, RulesIn;
    assert Grouped(groups0, before, e, {}) && SeenUpTo({}, e.matches[..0]);
    groups, order := groups0, order0;
    var rulesInEvent := RulesIn(e);
    var seen: set<Key> := {};
    for j := 0 to |e.matches|
      invariant Grouped(groups, before, e, seen) && SeenUpTo(seen, e.matches[..j])
      invariant order == KeysOfMatches(KeysOf(before), e.matches[..j])
    {
      var target := KeyOf(e.matches[j]);
      assert e.matches[..j + 1][..j] == e.matches[..j];
      SeenStep(seen, e.matches, j);
      hide Grouped, RulesIn, KeysOf, SeenUpTo;
      if target.None? {
        continue;
      }
      var key := target.value;
      if key in seen {
        SeenHasOrder(seen, before, e.matches[..j], key);
        assert seen + {key} == seen;
        continue;
      }
      groups, order := CountMatch(groups, order, e, j, key, rulesInEvent, seen, before);
      seen := seen + {key};
    }
    assert e.matches[..|e.matches|] == e.matches;
    hide Grouped, SeenUpTo, Tallied, KeysOfMatches;
    assert (before + [e])[..|before|] == before;
    EventIsCounted(groups, before, e, seen);
  }

  lemma SeenHasOrder(seen: set<Key>, before: seq<Event>, matches: seq<RuleMatch>, key: Key)
    requires SeenUpTo(seen, matches) && key in seen
    ensures key in KeysOfMatches(KeysOf(before), matches)
  {
    KeysOfMatchesOnly(KeysOf(before), matches, key);
  }

  lemma EventIsCounted(groups: map<Key, Group>, events: seq<Event>, e: Event, seen: set<Key>)
    requires Grouped(groups, events, e, seen) && SeenUpTo(seen, e.matches)
    ensures Tallied(groups, events + [e])
  {
    assert (events + [e])[..|events|] == events;
    forall key ensures Tally(events + [e], key) ==
      if key in seen then Some(Count(Tally(events, key), e, key)) else Tally(events, key)
    {
      assert key in seen <==> Has(e, key);
    }
  }

  /** Group the events, newest first, by rule and target. */
  method GroupEvents(events: seq<Event>) returns (groups: map<Key, Group>, order: seq<Key>)
    ensures Tallied(groups, events) && order == KeysOf(events)
  {
    groups, order := map[], [];
    for i := 0 to |events|
      invariant Tallied(groups, events[..i]) && order == KeysOf(events[..i])
    {
      assert events[..i] + [events[i]] == events[..i + 1];
      groups, order := GroupEvent(groups, order, events[i], events[..i]);
    }
    assert events[..|events|] == events;
  }

  lemma GroupPathsAreSlashLed(events: seq<Event>, key: Key)
    requires Tally(events, key).Some?
    ensures forall p :: Some(p) in Tally(events, key).value.paths ==> SlashLed(p)
  {
    TallyIsOverEventsWith(events, key);
  }

  class Tuning {
    var policies: set<nat>
    var exclusions: seq<RuleExclusion>
    var suggestions: seq<Suggestion>

    constructor (policies: set<nat>)
      ensures Now() == Db(policies, [], [])
    {
      this.policies, exclusions, suggestions := policies, [], [];
    }

    ghost function Now(): Db
      reads this
    {
      Db(policies, exclusions, suggestions)
    }

    /** `events` are the policy's events in the window, newest first. */
    method AnalyzePolicy(policyId: nat, events: seq<Event>) returns (r: Result<AnalysisResult, TuningError>)
      modifies this
      ensures Now() == Apply(old(Now()), Analyze(policyId, events))
      ensures policyId !in policies <==> r == Failure(PolicyNotFound)
      ensures r.Success? ==>
        && r.value.eventsScanned == |events|
        && |suggestions| == |old(suggestions)| + r.value.created
        && r.value.updated == RefreshCount(old(suggestions), policyId, OfPolicy(exclusions, policyId), events, KeysOf(events))
    {
      if policyId !in policies {
        return Failure(PolicyNotFound);
      }
      var groups, order := GroupEvents(events);
      var own := OfPolicy(exclusions, policyId);
      var created, updated := 0, 0;
      for k := 0 to |order|
        invariant policies == old(policies) && exclusions == old(exclusions)
        invariant suggestions == ConsiderAll(old(suggestions), policyId, own, events, order[..k])
        invariant |suggestions| == |old(suggestions)| + created
        invariant updated == RefreshCount(old(suggestions), policyId, own, events, order[..k])
      {
        var key := order[k];
        assert order[..k + 1][..k] == order[..k];
        assert key in KeysOf(events);
        KeysHaveGroups(events, key);
        TallyIsOverEventsWith(events, key);
        var group := groups[key];
        if group.eventCount < MIN_EVENTS {
          continue;
        }
        GroupPathsAreSlashLed(events, key);
        var scope := CommonScopePath(group.paths);
        ProposedScopeIsUnique(group.paths, scope, ScopeOf(group.paths));
        if IsCovered(own, key, scope) {
          continue;
        }
        var stored := Find(suggestions, policyId, key);
        if stored.Some? && !suggestions[stored.value].status.Pending? {
          continue;
        }
        if stored.None? && Confidence(group) < MIN_CONFIDENCE {
          continue;
        }
        if stored.None? {
          suggestions := suggestions + [New(policyId, key, group, scope)];
          created := created + 1;
        } else {
          suggestions := suggestions[stored.value := Refreshed(suggestions[stored.value], group, scope)];
          updated := updated + 1;
        }
      }
      assert order[..|order|] == order;
      r := Success(AnalysisResult(|events|, created, updated));
    }

    method PendingSuggestion(policyId: nat, id: nat) returns (r: Result<Suggestion, TuningError>)
      ensures r.Success? <==> Resolvable(Now(), policyId, id)
      ensures r.Success? ==> r.value == suggestions[id]
      ensures r == Failure(PolicyNotFound) <==> policyId !in policies
      ensures r == Failure(SuggestionNotPending) <==>
        policyId in policies && id < |suggestions| && suggestions[id].policyId == policyId && !suggestions[id].status.Pending?
    {
      if policyId !in policies {
        return Failure(PolicyNotFound);
      }
      if id >= |suggestions| || suggestions[id].policyId != policyId {
        return Failure(SuggestionNotFound);
      }
      if !suggestions[id].status.Pending? {
        return Failure(SuggestionNotPending);
      }
      r := Success(suggestions[id]);
    }

    /** Create the reviewed exclusion and resolve the suggestion. */
    method ApproveSuggestion(policyId: nat, id: nat, exclusion: Key, scopePath: Option<string>)
      returns (r: Result<Suggestion, TuningError>)
      modifies this
      ensures Now() == Apply(old(Now()), Approve(policyId, id, exclusion, scopePath))
      ensures r.Success? <==> old(Resolvable(Now(), policyId, id))
      ensures r.Success? ==>
        && r.value == suggestions[id] && r.value.status == Approved
        && r.value.exclusionId == Some(|old(exclusions)|) && |exclusions| == |old(exclusions)| + 1
    {
      var suggestion := PendingSuggestion(policyId, id);
      if suggestion.Failure? {
        return suggestion;
      }
      var created := RuleExclusion(|exclusions|, policyId, exclusion, scopePath);
      exclusions := exclusions + [created];
      suggestions := suggestions[id := suggestion.value.(status := Approved, exclusionId := Some(created.id))];
      r := Success(suggestions[id]);
    }

    method RejectSuggestion(policyId: nat, id: nat) returns (r: Result<Suggestion, TuningError>)
      modifies this
      ensures Now() == Apply(old(Now()), Reject(policyId, id))
      ensures r.Success? <==> old(Resolvable(Now(), policyId, id))
      ensures r.Success? ==> r.value == suggestions[id] && r.value.status == Rejected
    {
      var suggestion := PendingSuggestion(policyId, id);
      if suggestion.Failure? {
        return suggestion;
      }
      suggestions := suggestions[id := suggestion.value.(status := Rejected)];
      r := Success(suggestions[id]);
    }
  }
}
