/**
 Without any assumption on timing or outcomes: exactly which releases can be
 applied so that no name HAProxy sends is ever missing from Coraza.
 */
module ApplyRisk {
  import opened Wrappers
  import opened ApplyProtocol
  import opened ApplySafety

  /** A run of the rest of one apply, and of Coraza up to the next one. */
  ghost predicate IsApplyRun(w: World, actions: seq<Action>)
    decreases |actions|
  {
    actions != [] ==>
      (!w.phase.Idle? || ByCoraza(actions[0])) && Enabled(w, actions[0]) && IsApplyRun(Step(w, actions[0]), actions[1..])
  }

  ghost function End(w: World, actions: seq<Action>): World
    requires IsApplyRun(w, actions)
    decreases |actions|
  {
    if actions == [] then w else End(Step(w, actions[0]), actions[1..])
  }

  /** HAProxy sends a name Coraza has not loaded. */
  predicate Uncovered(w: World) {
    !(w.sent <= w.loaded)
  }

  ghost predicate CanUncover(w: World) {
    exists actions: seq<Action> :: IsApplyRun(w, actions) && Uncovered(End(w, actions))
  }

  function StartOf(w: World, gen: Release, cand: nat): Action {
    Begin(gen, cand, WriteOk)
  }

  /** Applying `gen` keeps every name loaded, whatever Coraza's timing and every step's outcome. */
  ghost predicate SafeToApply(w: World, gen: Release) {
    forall cand | Enabled(w, StartOf(w, gen, cand)) :: !CanUncover(Step(w, StartOf(w, gen, cand)))
  }

  function JobFor(w: World, gen: Release, cand: nat): Job {
    Job(w.current, w.sent, w.Target(), w.CurrentRelease(), cand, gen)
  }

  /** Names HAProxy sends now, or would send again after a rollback, that `gen` retires. */
  function NamesAtRisk(w: World, gen: Release): set<string> {
    var job := JobFor(w, gen, 0);
    (w.sent + job.PrevRoutes()) * job.Retired()
  }

  /**
   When the new config, or the old one again, reaches HAProxy, Coraza may have the
   names it has now, those of the load under way, or those of a load that reads
   the old release during the apply. None of these may lack a name HAProxy sends;
   and where they can answer for all added applications, the last of them must
   not lack a name of either config.
   */
  predicate LoadsAreFresh(w: World, gen: Release) {
    var job := JobFor(w, gen, 0);
    w.sent <= Served(job.prevRelease) && PreSafe(w, job)
  }

  /** The names of the configs an apply can give HAProxy. */
  function Configs(job: Job): set<string> {
    job.gen.routes + job.PrevRoutes()
  }

  /** Before the swap of the link: the second half is about a load that reads the old release. */
  predicate PreSafe(w: World, job: Job) {
    var before := Served(job.prevRelease);
    && w.Keeps(w.sent)
    && AckSafe(w, job, {})
    && (job.Added() <= w.loaded + before ==> job.gen.routes <= before)
    && (w.loading.Some? && job.Added() <= w.loading.value + before ==> job.gen.routes <= before)
  }

  /** Once the rest of the added applications can be acknowledged, both configs' names are there. */
  predicate AckSafe(w: World, job: Job, acked: set<string>) {
    && (job.Added() <= acked + w.loaded ==> Configs(job) <= w.loaded)
    && (w.loading.Some? && job.Added() <= acked + w.loaded + w.loading.value ==> Configs(job) <= w.loading.value)
  }

  // ---------------------------------------------------------------------
  // No names at risk, no stale load: safe

  function Common(job: Job): set<string> {
    Served(job.prevRelease) * job.gen.apps
  }

  predicate Harmless(job: Job) {
    && job.sentBefore <= Common(job)
    && job.PrevRoutes() <= Common(job)
  }

  predicate Covered(w: World) {
    && w.Keeps(w.sent)
    && (!w.phase.Idle? ==> Harmless(w.phase.job))
    && match w.phase
       case Idle(_) => w.sent <= Served(w.CurrentRelease())
       case Written(job) => PreSafe(w, job)
       case Bridging(job) => PreSafe(w, job)
       case Ready(job, _) => PreSafe(w, job)
       case Waiting(job, _) => AckSafe(w, job, {})
       case Probing(job, _, pending) => AckSafe(w, job, job.Added() - pending)
       case Reloaded(job, _, ok) => w.Keeps(Configs(job))
       case Promoted(job, _, ok) => w.Keeps(Configs(job))
       case AfterWaiting(job) => w.Keeps(Configs(job))
       case Failed(job, late) => w.Keeps(Configs(job))
       case Unlinked(job) => true
       case Restoring(job, late) => w.Keeps(Configs(job))
       case Restored(job, late) => w.Keeps(job.PrevRoutes())
       case Undo(job, _) => true
       case Cleaning(job, _) => true
  }

  predicate OnOldRelease(p: Phase) {
    p.Written? || p.Bridging? || p.Ready? || p.Restored? || p.Cleaning?
  }

  predicate OnNewRelease(p: Phase) {
    p.Waiting? || p.Probing? || p.Reloaded? || p.Promoted? || p.AfterWaiting? || p.Failed? || p.Restoring? || p.Undo?
  }

  /** What the releases `current` can name serve. */
  lemma ServedByPhase(w: World)
    requires Files(w) && !w.phase.Idle? && Harmless(w.phase.job)
    ensures
      var (job, serves) := (w.phase.job, Served(w.CurrentRelease()));
      && job.gen.apps <= Served(job.prevRelease) + job.Added()
      && (job.DropsOnly() ==> job.gen.routes <= Served(job.prevRelease))
      && (job.prev.None? ==> Served(job.prevRelease) == {DEFAULT})
      && (OnOldRelease(w.phase) ==> serves == Served(job.prevRelease))
      && (OnNewRelease(w.phase) ==> job.gen.apps <= serves)
      && (w.phase.Unlinked? ==> serves == job.gen.apps || serves == {DEFAULT})
  {
    JobSets(w.phase.job);
  }

  lemma CoveredHoldsForCoraza(w: World, a: Action)
    requires Files(w) && Covered(w) && Enabled(w, a) && ByCoraza(a)
    ensures Covered(Step(w, a))
  {
    if !w.phase.Idle? {
      ServedByPhase(w);
      hide Files, Served, World.CurrentRelease, Job.PrevRoutes, Job.Added, Job.DropsOnly;
    }
  }

  lemma CoveredHoldsUpToReload(w: World, a: Action)
    requires Files(w) && Covered(w) && Enabled(w, a) && !w.phase.Idle? && UpToReload(a)
    ensures Covered(Step(w, a))
  {
    ServedByPhase(w);
  }

  lemma CoveredHoldsAfterReload(w: World, a: Action)
    requires Files(w) && Covered(w) && Enabled(w, a) && !w.phase.Idle? && !Outside(a) && !UpToReload(a)
    ensures Covered(Step(w, a))
  {
    ServedByPhase(w);
  }

  lemma {:induction false} CoveredThroughout(w: World, actions: seq<Action>)
    requires Files(w) && Covered(w) && IsApplyRun(w, actions)
    ensures !Uncovered(End(w, actions))
    decreases |actions|
  {
    if actions != [] {
      hide Covered, Files, Enabled, Step;
      FilesHold(w, actions[0]);
      CoveredHolds(w, actions[0]);
      CoveredThroughout(Step(w, actions[0]), actions[1..]);
    }
  }

  lemma CoveredHolds(w: World, a: Action)
    requires Files(w) && Covered(w) && Enabled(w, a) && (!w.phase.Idle? || ByCoraza(a))
    ensures Covered(Step(w, a))
  {
    hide Covered, Files, Step;
    if ByCoraza(a) {
      CoveredHoldsForCoraza(w, a);
    } else if UpToReload(a) {
      CoveredHoldsUpToReload(w, a);
    } else {
      CoveredHoldsAfterReload(w, a);
    }
  }

  lemma NothingAtRiskIsHarmless(w: World, gen: Release, cand: nat)
    requires Files(w) && w.sent <= Served(w.CurrentRelease()) && Generated(gen) && NamesAtRisk(w, gen) == {}
    ensures Harmless(JobFor(w, gen, cand))
  {
    var job := JobFor(w, gen, cand);
    assert job.Retired() == JobFor(w, gen, 0).Retired();
    JobSets(job);
    forall n | n in w.sent + job.PrevRoutes() ensures n in Common(job) {
      assert n !in NamesAtRisk(w, gen);
    }
  }

  // ---------------------------------------------------------------------
  // Runs that uncover a name, built backwards

  lemma UncoveredNow(w: World)
    requires Uncovered(w)
    ensures CanUncover(w)
  {
    assert IsApplyRun(w, []) && End(w, []) == w;
  }

  lemma UncoveredLater(w: World, a: Action)
    requires (!w.phase.Idle? || ByCoraza(a)) && Enabled(w, a) && CanUncover(Step(w, a))
    ensures CanUncover(w)
  {
    var rest: seq<Action> :| IsApplyRun(Step(w, a), rest) && Uncovered(End(Step(w, a), rest));
    var actions := [a] + rest;
    assert actions[0] == a && actions[1..] == rest;
    assert IsApplyRun(w, actions) && End(w, actions) == End(Step(w, a), rest);
  }

  /** Coraza lets go of the load under way, if any, and reads the release `current` names. */
  lemma ReadsNow(w: World) returns (next: World)
    requires Files(w)
    ensures next == w.(loading := Some(Served(w.CurrentRelease()))) && Files(next)
    ensures CanUncover(next) ==> CanUncover(w)
  {
    hide Files;
    var quiet := w;
    if w.loading.Some? {
      quiet := Step(w, CorazaGivesUp);
      FilesHold(w, CorazaGivesUp);
    }
    next := Step(quiet, CorazaReads);
    FilesHold(quiet, CorazaReads);
    if CanUncover(next) {
      UncoveredLater(quiet, CorazaReads);
      if w.loading.Some? {
        UncoveredLater(w, CorazaGivesUp);
      }
    }
  }

  lemma LoadsNow(w: World) returns (next: World)
    requires Files(w)
    ensures next == w.(loaded := Served(w.CurrentRelease()), loading := None) && Files(next)
    ensures CanUncover(next) ==> CanUncover(w)
  {
    hide Files;
    var reading := ReadsNow(w);
    next := Step(reading, CorazaSwaps);
    FilesHold(reading, CorazaSwaps);
    if CanUncover(next) {
      UncoveredLater(reading, CorazaSwaps);
    }
  }

  /** Coraza loads the candidate while HAProxy still sends a retired name. */
  lemma LoadsTooEarly(w: World)
    requires Files(w) && !w.phase.Idle? && w.CurrentRelease() == Some(w.phase.job.gen) && w.phase.job.gen.apps != {}
    requires w.sent * w.phase.job.Retired() != {}
    ensures CanUncover(w)
  {
    var n :| n in w.sent * w.phase.job.Retired();
    var next := LoadsNow(w);
    assert n in next.sent && n !in next.loaded;
    UncoveredNow(next);
  }

  /** A failed apply puts the previous config back, with Coraza as it is. */
  lemma RollsBack(w: World)
    requires Files(w) && w.phase.Failed? && !(w.phase.job.PrevRoutes() <= w.loaded)
    ensures CanUncover(w)
  {
    var job := w.phase.job;
    var validated := Step(w, ValidatePrevious(true));
    var back := Step(validated, SwapBack);
    var reread := Step(back, RollbackReload(true));
    assert reread.sent == job.PrevRoutes() && reread.loaded == w.loaded;
    UncoveredNow(reread);
    UncoveredLater(back, RollbackReload(true));
    UncoveredLater(validated, SwapBack);
    UncoveredLater(w, ValidatePrevious(true));
  }

  /** Coraza has loaded the candidate when HAProxy goes back to a release sending a retired name. */
  lemma RollsBackTooLate(w: World)
    requires Files(w) && w.phase.Failed? && w.phase.job.PrevRoutes() * w.phase.job.Retired() != {}
    ensures CanUncover(w)
  {
    var n :| n in w.phase.job.PrevRoutes() * w.phase.job.Retired();
    var next := LoadsNow(w);
    assert n !in next.loaded;
    RollsBack(next);
  }

  /** HAProxy's reload fails; a bridge is promoted and removed all the same. */
  lemma ReloadFails(w: World, job: Job, bridge: Option<nat>) returns (failed: World)
    requires Files(w) && w.phase == Probing(job, bridge, {})
    ensures Files(failed) && failed.phase == Failed(job, false)
    ensures failed.sent == w.sent && failed.loaded == w.loaded
    ensures CanUncover(failed) ==> CanUncover(w)
  {
    failed := Step(w, Reload(false));
    FilesHold(w, Reload(false));
    if bridge.Some? {
      var unloaded := failed;
      var promoted := Step(unloaded, Promote);
      FilesHold(unloaded, Promote);
      failed := Step(promoted, RemoveBridge);
      FilesHold(promoted, RemoveBridge);
      if CanUncover(failed) {
        UncoveredLater(promoted, RemoveBridge);
        UncoveredLater(unloaded, Promote);
      }
    }
    if CanUncover(failed) {
      UncoveredLater(w, Reload(false));
    }
  }

  // ---------------------------------------------------------------------
  // Names at risk

  lemma DropOnlyIsRisky(w: World, job: Job)
    requires Files(w) && w.phase == Written(job) && job.DropsOnly()
    requires Tree(job.prevRelease) != Tree(Some(job.gen))
    requires (w.sent + job.PrevRoutes()) * job.Retired() != {}
    ensures CanUncover(w)
  {
    JobSets(job);
    var ready := Step(w, Validate(true));
    FilesHold(w, Validate(true));
    var swapped := Step(ready, Swap);
    FilesHold(ready, Swap);
    assert swapped.phase == Probing(job, None, {});
    if swapped.sent * job.Retired() != {} {
      LoadsTooEarly(swapped);
    } else {
      var reloaded := Step(swapped, Reload(true));
      FilesHold(swapped, Reload(true));
      assert reloaded.phase == AfterWaiting(job);
      var refused := Step(reloaded, AfterWait(false));
      FilesHold(reloaded, AfterWait(false));
      assert job.PrevRoutes() * job.Retired() != {};
      RollsBackTooLate(refused);
      UncoveredLater(reloaded, AfterWait(false));
      UncoveredLater(swapped, Reload(true));
    }
    UncoveredLater(ready, Swap);
    UncoveredLater(w, Validate(true));
  }

  lemma BridgedIsRisky(w: World, job: Job)
    requires Files(w) && w.phase == Written(job) && job.NeedsBridge()
    requires (w.sent + job.PrevRoutes()) * job.Retired() != {}
    ensures CanUncover(w)
  {
    var probing := ReachesProbing(w, job);
    var bridge := probing.phase.bridge;
    var loaded := LoadsNow(probing);
    assert loaded.loaded == job.gen.apps + job.Retired();
    var acked := Step(loaded, Ack(job.Added()));
    FilesHold(loaded, Ack(job.Added()));
    assert acked.phase == Probing(job, bridge, {});
    var failed := ReloadFails(acked, job, bridge);
    if failed.sent * job.Retired() != {} {
      LoadsTooEarly(failed);
    } else {
      assert job.PrevRoutes() * job.Retired() != {};
      RollsBackTooLate(failed);
    }
    UncoveredLater(loaded, Ack(job.Added()));
  }

  /** From the written files to the probe, with Coraza reporting success before it has loaded anything. */
  lemma ReachesProbing(w: World, job: Job) returns (probing: World)
    requires Files(w) && w.phase == Written(job)
    ensures Files(probing) && probing.phase.Probing? && probing.phase == StartProbing(job, probing.phase.bridge)
    ensures probing.sent == w.sent && probing.loaded == w.loaded && probing.loading == w.loading
    ensures CanUncover(probing) ==> CanUncover(w)
  {
    var ready := ReachesReady(w, job);
    hide Files;
    var swapped := Step(ready, Swap);
    FilesHold(ready, Swap);
    probing := swapped;
    if swapped.phase.Waiting? {
      probing := Accepted(swapped);
    }
    if CanUncover(probing) {
      UncoveredLater(ready, Swap);
    }
  }

  lemma Accepted(w: World) returns (probing: World)
    requires Files(w) && w.phase.Waiting?
    ensures Files(probing) && probing.phase == StartProbing(w.phase.job, w.phase.bridge)
    ensures probing.sent == w.sent && probing.loaded == w.loaded && probing.loading == w.loading
    ensures CanUncover(probing) ==> CanUncover(w)
  {
    var reported := Step(w, CorazaReports(true));
    FilesHold(w, CorazaReports(true));
    probing := Step(reported, CorazaWait(true));
    FilesHold(reported, CorazaWait(true));
    if CanUncover(probing) {
      UncoveredLater(reported, CorazaWait(true));
      UncoveredLater(w, CorazaReports(true));
    }
  }

  lemma ReachesReady(w: World, job: Job) returns (ready: World)
    requires Files(w) && w.phase == Written(job)
    ensures Files(ready) && ready.phase.Ready? && ready.phase.job == job
    ensures ready.sent == w.sent && ready.loaded == w.loaded && ready.loading == w.loading
    ensures CanUncover(ready) ==> CanUncover(w)
  {
    ready := Step(w, Validate(true));
    FilesHold(w, Validate(true));
    if job.NeedsBridge() {
      var bridging := ready;
      var bridge := FreshRelease(bridging);
      var write := WriteBridge(bridge, Tree(job.prevRelease) + 1, true);
      ready := Step(bridging, write);
      FilesHold(bridging, write);
      if CanUncover(ready) {
        UncoveredLater(bridging, write);
      }
    }
    if CanUncover(ready) {
      UncoveredLater(w, Validate(true));
    }
  }

  lemma FreshRelease(w: World) returns (id: nat)
    ensures id !in w.releases && w.current != Some(id)
  {
    var used := w.releases.Keys + (if w.current.Some? then {w.current.value} else {});
    var bound := UpperBound(used);
    id := bound;
  }

  lemma UpperBound(ids: set<nat>) returns (bound: nat)
    ensures forall id :: id in ids ==> id < bound
    decreases ids
  {
    if ids == {} {
      bound := 0;
    } else {
      var id :| id in ids;
      var b := UpperBound(ids - {id});
      bound := if b > id then b else id + 1;
      assert forall i :: i in ids ==> i == id || i in ids - {id};
    }
  }

  // ---------------------------------------------------------------------
  // A load that is not fresh

  /** All added applications are acknowledged, and Coraza misses a name of a config HAProxy can be given. */
  lemma GivenAMissingName(w: World, job: Job, bridge: Option<nat>)
    requires Files(w) && w.phase == Probing(job, bridge, {}) && !(Configs(job) <= w.loaded)
    ensures CanUncover(w)
  {
    if !(job.gen.routes <= w.loaded) {
      var reloaded := Step(w, Reload(true));
      assert reloaded.sent == job.gen.routes && reloaded.loaded == w.loaded;
      UncoveredNow(reloaded);
      UncoveredLater(w, Reload(true));
    } else {
      var failed := ReloadFails(w, job, bridge);
      RollsBack(failed);
    }
  }

  /** The added applications are acknowledged by what is loaded, or by it and by what replaces it. */
  lemma NotAckSafe(w: World, job: Job, bridge: Option<nat>)
    requires Files(w) && w.phase == StartProbing(job, bridge) && !AckSafe(w, job, {})
    ensures CanUncover(w)
  {
    var first := job.Added() * w.loaded;
    var acked := Step(w, Ack(first));
    FilesHold(w, Ack(first));
    if job.Added() <= w.loaded && !(Configs(job) <= w.loaded) {
      assert acked.phase == Probing(job, bridge, {});
      GivenAMissingName(acked, job, bridge);
    } else {
      var swapped := Step(acked, CorazaSwaps);
      FilesHold(acked, CorazaSwaps);
      var rest := job.Added() - first;
      assert rest <= swapped.loaded;
      var all := Step(swapped, Ack(rest));
      FilesHold(swapped, Ack(rest));
      assert all.phase == Probing(job, bridge, {});
      GivenAMissingName(all, job, bridge);
      UncoveredLater(swapped, Ack(rest));
      UncoveredLater(acked, CorazaSwaps);
    }
    UncoveredLater(w, Ack(first));
  }

  lemma WrittenNotAckSafe(w: World, job: Job)
    requires Files(w) && w.phase == Written(job) && !AckSafe(w, job, {})
    ensures CanUncover(w)
  {
    var probing := ReachesProbing(w, job);
    NotAckSafe(probing, job, probing.phase.bridge);
  }

  /** A load that read the old release is swapped in last. */
  lemma OldReleaseComesLast(w: World, job: Job)
    requires Files(w) && w.phase == Written(job)
    requires job.Added() <= w.loaded + Served(job.prevRelease) && !(job.gen.routes <= Served(job.prevRelease))
    ensures CanUncover(w)
  {
    assert w.CurrentRelease() == job.prevRelease;
    var reading := ReadsNow(w);
    WrittenNotAckSafe(reading, job);
  }

  lemma StaleLoadsAreRisky(w: World, job: Job)
    requires Files(w) && w.phase == Written(job)
    requires !(w.sent <= Served(job.prevRelease) && PreSafe(w, job))
    ensures CanUncover(w)
  {
    if !(w.sent <= Served(job.prevRelease)) {
      assert w.CurrentRelease() == job.prevRelease;
      var next := LoadsNow(w);
      UncoveredNow(next);
    } else if !(w.sent <= w.loaded) {
      UncoveredNow(w);
    } else if !AckSafe(w, job, {}) {
      WrittenNotAckSafe(w, job);
    } else if job.Added() <= w.loaded + Served(job.prevRelease) && !(job.gen.routes <= Served(job.prevRelease)) {
      OldReleaseComesLast(w, job);
    } else {
      var swapped := Step(w, CorazaSwaps);
      FilesHold(w, CorazaSwaps);
      if !(w.sent <= swapped.loaded) {
        UncoveredNow(swapped);
      } else {
        OldReleaseComesLast(swapped, job);
      }
      UncoveredLater(w, CorazaSwaps);
    }
  }

  // ---------------------------------------------------------------------
  // The exact condition

  lemma SafeStart(w: World, gen: Release, cand: nat)
    requires Files(w) && Enabled(w, StartOf(w, gen, cand))
    requires NamesAtRisk(w, gen) == {} && LoadsAreFresh(w, gen)
    ensures !CanUncover(Step(w, StartOf(w, gen, cand)))
  {
    var written := Step(w, StartOf(w, gen, cand));
    FilesHold(w, StartOf(w, gen, cand));
    NothingAtRiskIsHarmless(w, gen, cand);
    assert written.phase == Written(JobFor(w, gen, cand));
    assert Covered(written);
    forall actions: seq<Action> | IsApplyRun(written, actions) ensures !Uncovered(End(written, actions)) {
      CoveredThroughout(written, actions);
    }
  }

  lemma RiskyStart(w: World, gen: Release, cand: nat)
    requires Files(w) && Enabled(w, StartOf(w, gen, cand))
    requires JobFor(w, gen, 0).Retired() != {} ==> Tree(w.CurrentRelease()) != gen.tree
    requires !(NamesAtRisk(w, gen) == {} && LoadsAreFresh(w, gen))
    ensures CanUncover(Step(w, StartOf(w, gen, cand)))
  {
    var written := Step(w, StartOf(w, gen, cand));
    FilesHold(w, StartOf(w, gen, cand));
    var job := JobFor(w, gen, cand);
    assert written.phase == Written(job);
    if NamesAtRisk(w, gen) == {} {
      StaleLoadsAreRisky(written, job);
    } else if job.NeedsBridge() {
      BridgedIsRisky(written, job);
    } else {
      DropOnlyIsRisky(written, job);
    }
  }

  /**
   A release can be applied without ever uncovering a name, whatever is written,
   refused, answered or loaded when, exactly when it retires no name that
   HAProxy sends or that its previous config sends, and no load of Coraza, under
   way or still to start on the old release, can answer for the new
   applications and then go without a name. (The digest of the Coraza files is
   taken to tell releases with different applications apart.)
   */
  lemma SafeIffNothingAtRisk(w: World, gen: Release)
    requires Files(w) && w.phase.Idle? && Generated(gen)
    requires JobFor(w, gen, 0).Retired() != {} ==> Tree(w.CurrentRelease()) != gen.tree
    ensures SafeToApply(w, gen) <==> NamesAtRisk(w, gen) == {} && LoadsAreFresh(w, gen)
  {
    if NamesAtRisk(w, gen) == {} && LoadsAreFresh(w, gen) {
      forall cand | Enabled(w, StartOf(w, gen, cand)) ensures !CanUncover(Step(w, StartOf(w, gen, cand))) {
        SafeStart(w, gen, cand);
      }
    } else {
      var cand := FreshRelease(w);
      RiskyStart(w, gen, cand);
    }
  }

  /** Between applies, a load matters only to a release that adds applications Coraza already answers for. */
  lemma SafeBetweenApplies(w: World, gen: Release)
    requires Files(w) && w.phase.Idle? && AtRest(w) && Generated(gen)
    requires JobFor(w, gen, 0).Retired() != {} ==> Tree(w.CurrentRelease()) != gen.tree
    ensures
      var (added, served) := (JobFor(w, gen, 0).Added(), Served(w.CurrentRelease()));
      SafeToApply(w, gen) <==>
        && NamesAtRisk(w, gen) == {}
        && (added <= w.loaded ==> gen.routes <= served)
        && (w.loading.Some? && added <= w.loaded + w.loading.value ==> gen.routes <= w.loading.value)
        && (w.loading.Some? && added <= w.loading.value ==> gen.routes <= served)
  {
    SafeIffNothingAtRisk(w, gen);
    var job := JobFor(w, gen, 0);
    JobSets(job);
    assert gen.routes <= Served(job.prevRelease) + job.Added();
    assert job.PrevRoutes() <= Served(job.prevRelease);
    assert w.loaded + Served(job.prevRelease) == w.loaded;
    if w.loading.Some? {
      assert w.loading.value + Served(job.prevRelease) == w.loading.value;
    }
  }

  /** Once Coraza has caught up with `current`, only retired names put an apply at risk. */
  lemma SafeOnceCaughtUp(w: World, gen: Release)
    requires Files(w) && w.phase.Idle? && w.sent <= w.loaded && Generated(gen)
    requires w.loading.None? && w.loaded == Served(w.CurrentRelease())
    requires JobFor(w, gen, 0).Retired() != {} ==> Tree(w.CurrentRelease()) != gen.tree
    ensures SafeToApply(w, gen) <==> NamesAtRisk(w, gen) == {}
  {
    SafeBetweenApplies(w, gen);
    JobSets(JobFor(w, gen, 0));
  }

  /**
   A policy is dropped and added back while Coraza still has it: a load that read
   the release without it can end after HAProxy sends the name again.
   */
  lemma AddedBackTooSoon(a: string, b: string)
    requires a != DEFAULT && b != DEFAULT && a != b
    ensures
      var without := Release({DEFAULT, a}, {DEFAULT, a}, 1);
      var again := Release({DEFAULT, a, b}, {DEFAULT, a, b}, 2);
      var w := World(map[0 := without], Some(0), {DEFAULT, a}, {DEFAULT, a, b}, None, None, Idle(None));
      Files(w) && AtRest(w) && NamesAtRisk(w, again) == {} && !SafeToApply(w, again)
  {
    var without := Release({DEFAULT, a}, {DEFAULT, a}, 1);
    var again := Release({DEFAULT, a, b}, {DEFAULT, a, b}, 2);
    var w := World(map[0 := without], Some(0), {DEFAULT, a}, {DEFAULT, a, b}, None, None, Idle(None));
    var job := JobFor(w, again, 0);
    assert job.Retired() == {};
    assert b in again.routes && b !in Served(w.CurrentRelease());
    SafeBetweenApplies(w, again);
  }
}
