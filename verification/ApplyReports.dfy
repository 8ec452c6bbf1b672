/** What an apply's success says about Coraza: which release the supervisor reported, and when. */
module ApplyReports {
  import opened Wrappers
  import opened ApplyProtocol

  /** The state after the first k steps of a run. */
  ghost function StateAt(w: World, actions: seq<Action>, k: nat): World
    requires IsRun(w, actions) && k <= |actions|
    decreases k
  {
    if k == 0 then w else StateAt(Step(w, actions[0]), actions[1..], k - 1)
  }

  predicate NoOtherApply(actions: seq<Action>) {
    forall i :: 0 <= i < |actions| ==> !actions[i].Begin?
  }

  ghost predicate Succeeds(w: World, actions: seq<Action>)
    requires IsRun(w, actions)
  {
    After(w, actions).phase == Idle(Some(Status.Success))
  }

  /** Every application stays or goes, and some go. */
  predicate OnlyDrops(prev: Option<Release>, gen: Release) {
    prev.Some? && gen.apps < prev.value.apps
  }

  lemma OnlyDropsIs(job: Job)
    requires job.prev.Some? <==> job.prevRelease.Some?
    ensures job.DropsOnly() <==> OnlyDrops(job.prevRelease, job.gen)
  {
    if job.prevRelease.Some? {
      var apps := job.prevRelease.value.apps;
      if job.Added() == {} {
        assert job.gen.apps <= apps by {
          forall n | n in job.gen.apps ensures n in apps {
            assert n !in job.Added();
          }
        }
      }
      if job.gen.apps < apps {
        assert job.Added() == {};
        var n :| n in apps && n !in job.gen.apps;
        assert n in job.Retired();
      }
    }
  }

  // ---------------------------------------------------------------------
  // The rest of an apply, from where it has got to

  /** Phases from which only another apply leads to a success. */
  predicate GaveUp(p: Phase) {
    || p.Undo? || p.Cleaning? || p.Unlinked? || p.Failed? || p.Restoring? || p.Restored?
    || (p.Idle? && p.last != Some(Status.Success))
  }

  lemma {:induction false} GivenUpIsGivenUp(w: World, actions: seq<Action>)
    requires IsRun(w, actions) && NoOtherApply(actions) && GaveUp(w.phase)
    ensures !Succeeds(w, actions)
    decreases |actions|
  {
    if actions != [] {
      assert GaveUp(Step(w, actions[0]).phase);
      GivenUpIsGivenUp(Step(w, actions[0]), actions[1..]);
    }
  }

  lemma {:induction false} WaitsForItsReport(w: World, actions: seq<Action>) returns (k: nat)
    requires IsRun(w, actions) && NoOtherApply(actions) && Succeeds(w, actions) && w.phase.Waiting?
    ensures k <= |actions| && StateAt(w, actions, k).status == Some((SwapTarget(w.phase.job, w.phase.bridge), true))
    ensures forall i :: 0 <= i < k ==> Outside(actions[i])
    decreases |actions|
  {
    if Outside(actions[0]) {
      var rest := WaitsForItsReport(Step(w, actions[0]), actions[1..]);
      k := rest + 1;
    } else if actions[0].ok {
      k := 0;
    } else {
      GivenUpIsGivenUp(Step(w, actions[0]), actions[1..]);
      assert false;
    }
  }

  lemma {:induction false} WaitsAfterReload(w: World, actions: seq<Action>) returns (k: nat)
    requires IsRun(w, actions) && NoOtherApply(actions) && Succeeds(w, actions) && w.phase.AfterWaiting?
    ensures k <= |actions| && StateAt(w, actions, k).status == Some((w.phase.job.cand, true))
    decreases |actions|
  {
    if Outside(actions[0]) {
      var rest := WaitsAfterReload(Step(w, actions[0]), actions[1..]);
      k := rest + 1;
    } else if actions[0].ok {
      k := 0;
    } else {
      GivenUpIsGivenUp(Step(w, actions[0]), actions[1..]);
      assert false;
    }
  }

  lemma {:induction false} DropWaitsAfterReload(w: World, actions: seq<Action>) returns (r: nat, k: nat)
    requires IsRun(w, actions) && NoOtherApply(actions) && Succeeds(w, actions)
    requires w.phase.Probing? && w.phase.bridge.None? && w.phase.job.DropsOnly()
    requires Tree(w.phase.job.prevRelease) != Tree(Some(w.phase.job.gen))
    ensures r < k <= |actions| && actions[r] == Reload(true)
    ensures StateAt(w, actions, k).status == Some((w.phase.job.cand, true))
    decreases |actions|
  {
    var a, next := actions[0], Step(w, actions[0]);
    if a == Reload(true) {
      var rest := WaitsAfterReload(next, actions[1..]);
      r, k := 0, rest + 1;
    } else if a == Reload(false) || a.GiveUp? {
      GivenUpIsGivenUp(next, actions[1..]);
      assert false;
    } else {
      var r', k' := DropWaitsAfterReload(next, actions[1..]);
      r, k := r' + 1, k' + 1;
    }
  }

  lemma {:induction false} SwapsFirst(w: World, actions: seq<Action>) returns (s: nat)
    requires IsRun(w, actions) && NoOtherApply(actions) && Succeeds(w, actions)
    requires w.phase.Written? || w.phase.Bridging? || w.phase.Ready?
    ensures s < |actions| && actions[s] == Swap && forall i :: 0 <= i < s ==> actions[i] != Swap
    ensures StateAt(w, actions, s).phase.Ready? && StateAt(w, actions, s).phase.job == w.phase.job
    decreases |actions|
  {
    var a, next := actions[0], Step(w, actions[0]);
    if a == Swap {
      s := 0;
    } else if GaveUp(next.phase) {
      GivenUpIsGivenUp(next, actions[1..]);
      assert false;
    } else {
      var rest := SwapsFirst(next, actions[1..]);
      s := rest + 1;
    }
  }

  lemma {:induction false} FilesAt(w: World, actions: seq<Action>, k: nat)
    requires Files(w) && IsRun(w, actions) && k <= |actions|
    ensures Files(StateAt(w, actions, k))
    decreases k
  {
    if k > 0 {
      FilesHold(w, actions[0]);
      FilesAt(Step(w, actions[0]), actions[1..], k - 1);
    }
  }

  /** A run goes on from any of its states. */
  lemma {:induction false} RunFrom(w: World, actions: seq<Action>, k: nat)
    requires IsRun(w, actions) && k <= |actions|
    ensures IsRun(StateAt(w, actions, k), actions[k..])
    ensures After(StateAt(w, actions, k), actions[k..]) == After(w, actions)
    ensures forall j :: 0 <= j <= |actions| - k ==> StateAt(StateAt(w, actions, k), actions[k..], j) == StateAt(w, actions, k + j)
    decreases k
  {
    if k == 0 {
      assert actions[0..] == actions;
    } else {
      RunFrom(Step(w, actions[0]), actions[1..], k - 1);
      assert actions[1..][k - 1..] == actions[k..];
      forall j | 0 <= j <= |actions| - k ensures StateAt(StateAt(w, actions, k), actions[k..], j) == StateAt(w, actions, k + j) {
        assert StateAt(w, actions, k + j) == StateAt(Step(w, actions[0]), actions[1..], k - 1 + j);
      }
    }
  }

  // ---------------------------------------------------------------------
  // Success means reported

  /** What a successful apply went through: the swap at s, HAProxy's reload at r, the report at k. */
  ghost predicate Reported(prev: Option<Release>, gen: Release, written: World, actions: seq<Action>, s: nat, r: nat, k: nat)
    requires IsRun(written, actions)
  {
    && s < |actions| && actions[s] == Swap && (forall i :: 0 <= i < s ==> actions[i] != Swap)
    && var swapped := StateAt(written, actions, s + 1);
       && swapped.Target().Some?
       && (Tree(prev) != Tree(swapped.CurrentRelease()) ==>
             && s < k <= |actions| && StateAt(written, actions, k).status == Some((swapped.current.value, true))
             && (if OnlyDrops(prev, gen) then s < r < k && actions[r] == Reload(true)
                 else forall i :: s < i < k ==> Outside(actions[i])))
  }

  /**
   An apply that ends in success swapped a release in, the bridge if there is
   one; if that release's Coraza files differ from the previous release's, the
   supervisor's status said `ok` for it at some later moment: after HAProxy's
   reload if the new release only drops applications, before anything else the
   apply did otherwise.
   */
  lemma SuccessWasReported(w: World, gen: Release, cand: nat, actions: seq<Action>) returns (s: nat, r: nat, k: nat)
    requires Files(w) && Enabled(w, Begin(gen, cand, WriteOk))
    requires IsRun(Step(w, Begin(gen, cand, WriteOk)), actions) && NoOtherApply(actions)
    requires Succeeds(Step(w, Begin(gen, cand, WriteOk)), actions)
    ensures Reported(w.CurrentRelease(), gen, Step(w, Begin(gen, cand, WriteOk)), actions, s, r, k)
  {
    var begin := Begin(gen, cand, WriteOk);
    var written := Step(w, begin);
    FilesHold(w, begin);
    assert written.phase == Written(Job(w.current, w.sent, w.Target(), w.CurrentRelease(), cand, gen));
    hide Files, Step, Enabled, IsRun, After, StateAt, OnlyDrops;
    s := SwapsFirst(written, actions);
    var ready := StateAt(written, actions, s);
    FilesAt(written, actions, s);
    SwapAt(written, actions, s);
    RunFrom(written, actions, s + 1);
    SwappedIn(ready);
    OnlyDropsIs(ready.phase.job);
    r, k := 0, 0;
    var swapped, rest := Step(ready, Swap), actions[s + 1..];
    if Tree(w.CurrentRelease()) != Tree(swapped.CurrentRelease()) {
      var r', k' := ReportedAfterSwap(ready, rest);
      r, k := s + 1 + r', s + 1 + k';
      assert StateAt(swapped, rest, k') == StateAt(written, actions, k);
      forall i | s < i < k ensures actions[i] == rest[i - s - 1] {
      }
    }
  }

  lemma ReportedAfterSwap(ready: World, rest: seq<Action>) returns (r: nat, k: nat)
    requires Files(ready) && ready.phase.Ready? && IsRun(Step(ready, Swap), rest) && NoOtherApply(rest)
    requires Succeeds(Step(ready, Swap), rest)
    requires Tree(ready.phase.job.prevRelease) != Tree(Step(ready, Swap).CurrentRelease())
    ensures k <= |rest| && Step(ready, Swap).current.Some?
    ensures StateAt(Step(ready, Swap), rest, k).status == Some((Step(ready, Swap).current.value, true))
    ensures if ready.phase.job.DropsOnly() then r < k && rest[r] == Reload(true) else forall i :: 0 <= i < k ==> Outside(rest[i])
  {
    SwappedIn(ready);
    var swapped := Step(ready, Swap);
    hide Files, Step, Enabled, IsRun, After, StateAt;
    if swapped.phase.Waiting? {
      r := 0;
      k := WaitsForItsReport(swapped, rest);
    } else {
      r, k := DropWaitsAfterReload(swapped, rest);
    }
  }

  lemma SwapAt(w: World, actions: seq<Action>, s: nat)
    requires IsRun(w, actions) && s < |actions| && actions[s] == Swap
    ensures Enabled(StateAt(w, actions, s), Swap)
    ensures StateAt(w, actions, s + 1) == Step(StateAt(w, actions, s), Swap)
  {
    RunFrom(w, actions, s);
    var rest := actions[s..];
    assert rest[0] == Swap;
    assert StateAt(StateAt(w, actions, s), rest, 1) == StateAt(w, actions, s + 1);
    assert StateAt(StateAt(w, actions, s), rest, 1) == StateAt(Step(StateAt(w, actions, s), Swap), rest[1..], 0);
  }

  /** After the swap `current` names what was swapped in; apply waits iff its files differ and it does not only drop. */
  lemma SwappedIn(ready: World)
    requires Files(ready) && ready.phase.Ready?
    ensures
      var (job, swapped) := (ready.phase.job, Step(ready, Swap));
      && (job.prev.Some? <==> job.prevRelease.Some?)
      && swapped.Target().Some? && swapped.current == Some(SwapTarget(job, ready.phase.bridge))
      && swapped.phase.job == job && (swapped.phase.Waiting? || swapped.phase.Probing?)
      && swapped.phase.bridge == ready.phase.bridge && (job.DropsOnly() ==> ready.phase.bridge.None?)
      && (ready.phase.bridge.None? ==> swapped.current == Some(job.cand) && swapped.CurrentRelease() == Some(job.gen))
      && (swapped.phase.Waiting? <==> Tree(job.prevRelease) != Tree(swapped.CurrentRelease()) && !job.DropsOnly())
  {
  }

  /** As long as the supervisor reports no `ok` for the release swapped in, its files being new, apply does not succeed. */
  lemma UnreportedNeverSucceeds(w: World, gen: Release, cand: nat, actions: seq<Action>, s: nat)
    requires Files(w) && Enabled(w, Begin(gen, cand, WriteOk))
    requires IsRun(Step(w, Begin(gen, cand, WriteOk)), actions) && NoOtherApply(actions)
    requires s < |actions| && actions[s] == Swap && forall i :: 0 <= i < s ==> actions[i] != Swap
    requires
      var written := Step(w, Begin(gen, cand, WriteOk));
      var swapped := StateAt(written, actions, s + 1);
      && Tree(w.CurrentRelease()) != Tree(swapped.CurrentRelease())
      && forall k :: s < k <= |actions| && swapped.current.Some? ==>
           StateAt(written, actions, k).status != Some((swapped.current.value, true))
    ensures !Succeeds(Step(w, Begin(gen, cand, WriteOk)), actions)
  {
    if Succeeds(Step(w, Begin(gen, cand, WriteOk)), actions) {
      var s', r, k := SuccessWasReported(w, gen, cand, actions);
    }
  }

  // ---------------------------------------------------------------------
  // Unchanged files

  /** Apply is past its swap, and will not wait for a report. */
  predicate WaitsForNothing(p: Phase) {
    || GaveUp(p) || p.Idle?
    || ((p.Probing? || p.Reloaded? || p.Promoted?) && (p.job.DropsOnly() ==> Tree(p.job.prevRelease) == Tree(Some(p.job.gen))))
  }

  predicate IsWait(a: Action) {
    a.CorazaWait? || a.AfterWait?
  }

  lemma {:induction false} NothingIsWaitedFor(w: World, actions: seq<Action>)
    requires IsRun(w, actions) && NoOtherApply(actions) && WaitsForNothing(w.phase)
    ensures forall i :: 0 <= i < |actions| ==> !IsWait(actions[i])
    decreases |actions|
  {
    if actions != [] {
      NothingIsWaitedFor(Step(w, actions[0]), actions[1..]);
      assert forall i :: 1 <= i < |actions| ==> actions[i] == actions[1..][i - 1];
    }
  }

  /** Once a release whose files are the previous one's is swapped in, no report decides anything. */
  lemma UnchangedFilesNeedNoReport(ready: World, actions: seq<Action>)
    requires Files(ready) && ready.phase.Ready?
    requires Tree(ready.phase.job.prevRelease) == Tree(Step(ready, Swap).CurrentRelease())
    requires IsRun(Step(ready, Swap), actions) && NoOtherApply(actions)
    ensures forall i :: 0 <= i < |actions| ==> !IsWait(actions[i])
  {
    SwappedIn(ready);
    NothingIsWaitedFor(Step(ready, Swap), actions);
  }

  /** And without added applications, swap and reload alone make a success, whatever the status file holds. */
  lemma UnchangedFilesSucceed(ready: World)
    requires Files(ready) && ready.phase.Ready? && ready.phase.job.Added() == {}
    requires Tree(ready.phase.job.prevRelease) == Tree(Step(ready, Swap).CurrentRelease())
    ensures IsRun(ready, [Swap, Reload(true)]) && Succeeds(ready, [Swap, Reload(true)])
    ensures After(ready, [Swap, Reload(true)]).status == ready.status
  {
    var swapped := Step(ready, Swap);
    var done := Step(swapped, Reload(true));
    var none: seq<Action> := [];
    assert [Swap, Reload(true)][1..] == [Reload(true)] && [Reload(true)][1..] == none;
    assert IsRun(done, none) && After(done, none) == done;
    assert IsRun(swapped, [Reload(true)]) && After(swapped, [Reload(true)]) == done;
  }

  // ---------------------------------------------------------------------
  // What is left in the release directory

  /** The candidate stays where its status says it is, or may be, live. */
  predicate KeepsCandidate(status: Status) {
    status in {Status.Success, ReloadFailedRolledBack, RollbackFailed}
  }

  /** Besides the releases there were, the candidate's directory and the bridge's, while there is one. */
  ghost predicate OnlyOwnFiles(w: World, base: map<nat, Release>, cand: nat, gen: Release, bridge: Option<nat>) {
    if bridge.None? then w.releases == base[cand := gen]
    else bridge.value in w.releases && bridge.value !in base && bridge.value != cand && w.releases - {bridge.value} == base[cand := gen]
  }

  ghost predicate Tidy(w: World, base: map<nat, Release>, cand: nat, gen: Release) {
    && (!w.phase.Idle? ==> w.phase.job.cand == cand && w.phase.job.gen == gen)
    && match w.phase
       case Idle(last) => last.Some? && w.releases == if KeepsCandidate(last.value) then base[cand := gen] else base
       case Ready(_, bridge) => OnlyOwnFiles(w, base, cand, gen, bridge)
       case Waiting(_, bridge) => OnlyOwnFiles(w, base, cand, gen, bridge)
       case Probing(_, bridge, _) => OnlyOwnFiles(w, base, cand, gen, bridge)
       case Reloaded(_, bridge, _) => OnlyOwnFiles(w, base, cand, gen, bridge)
       case Promoted(_, bridge, _) => OnlyOwnFiles(w, base, cand, gen, bridge)
       case Undo(_, bridge) => OnlyOwnFiles(w, base, cand, gen, bridge)
       case Cleaning(_, bridge) => OnlyOwnFiles(w, base, cand, gen, bridge)
       case _ => OnlyOwnFiles(w, base, cand, gen, None)
  }

  lemma TidyHoldsUpToReload(w: World, a: Action, base: map<nat, Release>, cand: nat, gen: Release)
    requires Tidy(w, base, cand, gen) && cand !in base && Enabled(w, a) && UpToReload(a) && !a.Begin?
    ensures Tidy(Step(w, a), base, cand, gen)
  {
    assert base[cand := gen] - {cand} == base;
    if a.WriteBridge? && a.ok {
      assert Step(w, a).releases - {a.bridge} == w.releases;
    }
  }

  lemma TidyHolds(w: World, a: Action, base: map<nat, Release>, cand: nat, gen: Release)
    requires Tidy(w, base, cand, gen) && cand !in base && Enabled(w, a) && !a.Begin?
    ensures Tidy(Step(w, a), base, cand, gen)
  {
    assert base[cand := gen] - {cand} == base;
    if UpToReload(a) {
      TidyHoldsUpToReload(w, a, base, cand, gen);
    } else if a.Clean? && w.phase.bridge.Some? {
      assert (w.releases - {w.phase.bridge.value}) - {cand} == base;
    }
  }

  lemma {:induction false} TidyAfter(w: World, actions: seq<Action>, base: map<nat, Release>, cand: nat, gen: Release)
    requires Tidy(w, base, cand, gen) && cand !in base && IsRun(w, actions) && NoOtherApply(actions)
    ensures Tidy(After(w, actions), base, cand, gen)
    decreases |actions|
  {
    if actions != [] {
      hide Tidy, Enabled, Step;
      TidyHolds(w, actions[0], base, cand, gen);
      TidyAfter(Step(w, actions[0]), actions[1..], base, cand, gen);
    }
  }

  /**
   Whatever happens on the way, an apply that has ended leaves the releases there
   were, unchanged, and its candidate exactly if its status is a success or
   follows a failed reload with something to roll back to; never a bridge.
   */
  lemma OnlyTheCandidateIsLeft(w: World, gen: Release, cand: nat, write: WriteOutcome, actions: seq<Action>)
    requires Enabled(w, Begin(gen, cand, write)) && IsRun(Step(w, Begin(gen, cand, write)), actions) && NoOtherApply(actions)
    requires After(Step(w, Begin(gen, cand, write)), actions).phase.Idle?
    ensures
      var end := After(Step(w, Begin(gen, cand, write)), actions);
      && end.phase.last.Some?
      && end.releases == if KeepsCandidate(end.phase.last.value) then w.releases[cand := gen] else w.releases
  {
    assert Tidy(Step(w, Begin(gen, cand, write)), w.releases, cand, gen);
    TidyAfter(Step(w, Begin(gen, cand, write)), actions, w.releases, cand, gen);
  }
}
