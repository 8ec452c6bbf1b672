/** What the apply protocol keeps: where `current` ends, and which names are covered. */
module ApplySafety {
  import opened Wrappers
  import opened ApplyProtocol

  // ---------------------------------------------------------------------
  // The link

  predicate LinkSound(w: World) {
    !w.Dangling() && (w.phase.Unlinked? ==> w.current.None?)
  }

  /**
   One step makes `current` dangle only by removing a candidate whose link could
   not be removed first.
   */
  lemma LinkBreaksOnlyAfterFailedUnlink(w: World, a: Action)
    requires Files(w) && Enabled(w, a) && !w.Dangling()
    ensures Step(w, a).Dangling() <==> a.RemoveCandidate? && w.current.Some?
  {
  }

  ghost predicate UnlinksSucceed(actions: seq<Action>) {
    forall i :: 0 <= i < |actions| ==> actions[i] != Unlink(false)
  }

  /** At every step of every run, `current` names a release that exists, if it names one. */
  lemma {:induction false} LinkNeverDangles(w: World, actions: seq<Action>)
    requires Files(w) && LinkSound(w) && IsRun(w, actions) && UnlinksSucceed(actions)
    ensures !After(w, actions).Dangling()
    decreases |actions|
  {
    if actions != [] {
      FilesHold(w, actions[0]);
      LinkBreaksOnlyAfterFailedUnlink(w, actions[0]);
      LinkNeverDangles(Step(w, actions[0]), actions[1..]);
    }
  }

  ghost predicate CanDangle(w: World) {
    exists actions: seq<Action> :: IsRun(w, actions) && After(w, actions).Dangling()
  }

  lemma DanglesLater(w: World, a: Action)
    requires Enabled(w, a) && CanDangle(Step(w, a))
    ensures CanDangle(w)
  {
    var rest: seq<Action> :| IsRun(Step(w, a), rest) && After(Step(w, a), rest).Dangling();
    var actions := [a] + rest;
    assert actions[0] == a && actions[1..] == rest;
    assert IsRun(w, actions) && After(w, actions) == After(Step(w, a), rest);
  }

  /** Wherever there is no release to go back to, a failing apply can end so. */
  lemma FirstApplyCanDangle(w: World, gen: Release, cand: nat)
    requires Files(w) && w.Target().None? && Enabled(w, Begin(gen, cand, WriteOk))
    ensures CanDangle(w)
  {
    if w.loading.Some? {
      FilesHold(w, CorazaGivesUp);
      QuietFirstApplyCanDangle(Step(w, CorazaGivesUp), gen, cand);
      DanglesLater(w, CorazaGivesUp);
    } else {
      QuietFirstApplyCanDangle(w, gen, cand);
    }
  }

  lemma QuietFirstApplyCanDangle(w: World, gen: Release, cand: nat)
    requires Files(w) && w.Target().None? && w.loading.None? && Enabled(w, Begin(gen, cand, WriteOk))
    ensures CanDangle(w)
  {
    var begin := Begin(gen, cand, WriteOk);
    var written := Step(w, begin);
    FilesHold(w, begin);
    var job := written.phase.job;
    var ready := Step(written, Validate(true));
    var swapped := Step(ready, Swap);
    var reading := Step(swapped, CorazaReads);
    var loaded := Step(reading, CorazaSwaps);
    assert loaded.loaded == gen.apps && swapped.phase.job == job;
    if loaded.phase.Waiting? {
      var reported := Step(loaded, CorazaReports(true));
      var probing := Step(reported, CorazaWait(true));
      ProbedApplyCanDangle(probing, job);
      DanglesLater(reported, CorazaWait(true));
      DanglesLater(loaded, CorazaReports(true));
    } else {
      ProbedApplyCanDangle(loaded, job);
    }
    DanglesLater(reading, CorazaSwaps);
    DanglesLater(swapped, CorazaReads);
    DanglesLater(ready, Swap);
    DanglesLater(written, Validate(true));
    DanglesLater(w, begin);
  }

  lemma ProbedApplyCanDangle(w: World, job: Job)
    requires w.phase == Probing(job, None, job.Added()) && job.prev.None? && w.current == Some(job.cand)
    requires job.Added() <= w.loaded && !job.DropsOnly()
    ensures CanDangle(w)
  {
    var acked := Step(w, Ack(job.Added()));
    var failed := Step(acked, Reload(false));
    var kept := Step(failed, Unlink(false));
    var removed := Step(kept, RemoveCandidate);
    assert IsRun(removed, []) && After(removed, []) == removed && removed.Dangling();
    DanglesLater(kept, RemoveCandidate);
    DanglesLater(failed, Unlink(false));
    DanglesLater(acked, Reload(false));
    DanglesLater(w, Ack(job.Added()));
  }

  // ---------------------------------------------------------------------
  // The outcome of an apply

  /** What each status promises about the link, the candidate's files and HAProxy's config. */
  predicate Outcome(w: World, job: Job, status: Status) {
    && (job.prev.Some? ==> job.prev.value in w.releases && Some(w.releases[job.prev.value]) == job.prevRelease)
    && match status
       case Success =>
         && w.current == Some(job.cand) && job.cand in w.releases && w.releases[job.cand] == job.gen
         && w.sent == job.gen.routes
       case WriteFailed => w.current == job.linkBefore && w.sent == job.sentBefore
       case StateInvalid => false
       case ValidationFailed =>
         w.current == job.linkBefore && w.sent == job.sentBefore && job.cand !in w.releases
       case CorazaReloadFailed =>
         && w.current == job.prev && job.cand !in w.releases
         && (w.sent == job.sentBefore || (job.DropsOnly() && w.sent == job.PrevRoutes()))
       case ReloadFailedRolledBack =>
         job.prev.Some? && w.current == job.prev && w.sent == job.PrevRoutes()
       case ReloadFailed =>
         && job.prev.None? && w.CurrentRelease().None? && job.cand !in w.releases
         && w.sent == job.sentBefore
       case RollbackFailed =>
         && job.prev.Some? && w.current in {Some(job.cand), job.prev}
         && (w.sent == job.sentBefore || (job.DropsOnly() && w.sent == job.gen.routes))
  }

  /** Whatever the validations, waits and reloads answered, an apply ends as its status says. */
  lemma ApplyEndsAsItsStatusSays(w: World, a: Action)
    requires Files(w) && Enabled(w, a) && !w.phase.Idle? && Step(w, a).phase.Idle?
    ensures Step(w, a).phase.last.Some?
    ensures Outcome(Step(w, a), w.phase.job, Step(w, a).phase.last.value)
  {
    FilesHold(w, a);
  }

  /** With a link that resolved and HAProxy on that release, failing leaves both as they were. */
  lemma FailureRestoresPrevious(w: World, job: Job, status: Status)
    requires Outcome(w, job, status)
    requires status in {WriteFailed, ValidationFailed, CorazaReloadFailed, ReloadFailedRolledBack}
    requires job.linkBefore == job.prev
    requires job.prevRelease.Some? ==> job.sentBefore == job.PrevRoutes()
    requires job.prevRelease.Some? <==> job.prev.Some?
    ensures w.current == job.linkBefore && w.sent == job.sentBefore
  {
  }

  // ---------------------------------------------------------------------
  // Names over any sequence of applies

  /** Between applies: HAProxy sends only what `current` serves, and Coraza has and keeps all of that. */
  predicate AtRest(w: World) {
    w.sent <= Served(w.CurrentRelease()) && w.Keeps(Served(w.CurrentRelease()))
  }

  predicate Kept(w: World, job: Job) {
    w.sent <= Served(job.prevRelease) && w.Keeps(Served(job.prevRelease))
  }

  /** What Coraza acknowledged is loaded, and no load that lacks an application of the release is under way. */
  predicate AckedKept(w: World, job: Job, acked: set<string>) {
    acked != {} ==> acked <= w.loaded && (w.loading.Some? ==> job.gen.apps <= w.loading.value)
  }

  predicate Names(w: World) {
    && w.Keeps(w.sent)
    && match w.phase
       case Idle(_) => AtRest(w)
       case Written(_) => AtRest(w)
       case Bridging(_) => AtRest(w)
       case Ready(_, _) => AtRest(w)
       case Waiting(job, _) => Kept(w, job)
       case Probing(job, _, pending) => Kept(w, job) && AckedKept(w, job, job.Added() - pending)
       case Reloaded(job, _, ok) => ok && w.Keeps(job.gen.apps)
       case Promoted(job, _, ok) => ok && w.Keeps(job.gen.apps)
       case AfterWaiting(job) => w.Keeps(job.gen.apps)
       case Failed(job, late) =>
         !late && Kept(w, job) && w.Keeps(job.gen.apps) && !job.NeedsBridge()
       case Unlinked(job) => Kept(w, job)
       case Restoring(job, late) => !late && Kept(w, job) && !job.NeedsBridge()
       case Restored(job, late) => !late && Kept(w, job)
       case Undo(job, _) => Kept(w, job)
       case Cleaning(job, _) => Kept(w, job)
  }

  /** A drop-only release is in place and HAProxy has not been reloaded from it, nor the old one put back. */
  predicate DropWindow(w: World) {
    match w.phase
    case Probing(job, _, _) => job.DropsOnly()
    case Failed(job, late) => job.DropsOnly() && !late
    case Restoring(job, late) => job.DropsOnly() && !late
    case _ => false
  }

  /** The load under way read a release that lacks an application `current` serves. */
  predicate Stale(w: World) {
    w.loading.Some? && !(Served(w.CurrentRelease()) <= w.loading.value)
  }

  /**
   The assumptions of the source's comment on the order of the switch. For
   drop-only releases: Coraza starts no load in the drop window, does not
   refuse the release once HAProxy is on it, and a failed HAProxy reload can be
   rolled back. For releases that add and drop: HAProxy's reload from the bridge
   succeeds if it is reached. For releases that add: Coraza does not answer for
   a new name while a load of an older release is still to be swapped in.
   */
  predicate Assumed(w: World, a: Action)
    requires Enabled(w, a)
  {
    && !(a.CorazaReads? && DropWindow(w))
    && !(a.Ack? && a.names != {} && Stale(w))
    && !(a.AfterWait? && !a.ok)
    && !(a.ValidatePrevious? && !a.ok && w.phase.job.DropsOnly())
    && !(a.Reload? && !a.ok && w.phase.bridge.Some?)
  }

  /** The sets an apply works with: what it brings in was served before or is added. */
  lemma JobSets(job: Job)
    requires Generated(job.gen) && (job.prev.Some? <==> job.prevRelease.Some?)
    ensures job.gen.apps <= Served(job.prevRelease) + job.Added()
    ensures Served(job.prevRelease) <= job.gen.apps + job.Retired()
    ensures !job.DropsOnly() && !job.NeedsBridge() ==> Served(job.prevRelease) <= job.gen.apps
    ensures job.DropsOnly() ==> job.Added() == {} && job.gen.apps <= Served(job.prevRelease)
  {
    if job.Retired() == {} {
      assert job.PrevApps() <= job.gen.apps by {
        forall n | n in job.PrevApps() ensures n in job.gen.apps {
          assert n !in job.Retired();
        }
      }
    }
  }

  lemma NamesHoldOutside(w: World, a: Action)
    requires Files(w) && Names(w) && Enabled(w, a) && Assumed(w, a) && Outside(a)
    ensures Names(Step(w, a))
  {
    if !w.phase.Idle? {
      JobSets(w.phase.job);
    }
  }

  lemma NamesHoldUpToSwap(w: World, a: Action)
    requires Files(w) && Names(w) && Enabled(w, a) && Assumed(w, a)
    requires a.Begin? || a.Validate? || a.WriteBridge? || a.Swap?
    ensures Names(Step(w, a))
  {
    if !w.phase.Idle? {
      JobSets(w.phase.job);
    }
  }

  lemma NamesHoldUpToReload(w: World, a: Action)
    requires Files(w) && Names(w) && Enabled(w, a) && Assumed(w, a)
    requires a.CorazaWait? || a.GiveUp? || a.Reload?
    ensures Names(Step(w, a))
  {
    if !w.phase.Idle? {
      JobSets(w.phase.job);
    }
    if a.Reload? {
      assert w.Keeps(w.phase.job.gen.apps);
    }
  }

  lemma NamesHoldForAcks(w: World, a: Action)
    requires Files(w) && Names(w) && Enabled(w, a) && Assumed(w, a) && a.Ack?
    ensures Names(Step(w, a))
  {
    var job, next := w.phase.job, Step(w, a);
    var (before, acked) := (job.Added() - w.phase.pending, job.Added() - next.phase.pending);
    assert job.gen.apps <= Served(w.CurrentRelease());
    assert acked <= before + a.names;
    assert a.names == {} ==> acked <= before;
  }

  lemma NamesHoldAfterReload(w: World, a: Action)
    requires Files(w) && Names(w) && Enabled(w, a) && Assumed(w, a) && !Outside(a) && !UpToReload(a)
    ensures Names(Step(w, a))
  {
    JobSets(w.phase.job);
  }

  lemma NamesHold(w: World, a: Action)
    requires Files(w) && Names(w) && Enabled(w, a) && Assumed(w, a)
    ensures Names(Step(w, a))
  {
    if Outside(a) {
      NamesHoldOutside(w, a);
    } else if a.Begin? || a.Validate? || a.WriteBridge? || a.Swap? {
      NamesHoldUpToSwap(w, a);
    } else if a.Ack? {
      NamesHoldForAcks(w, a);
    } else if UpToReload(a) {
      NamesHoldUpToReload(w, a);
    } else {
      NamesHoldAfterReload(w, a);
    }
  }

  ghost predicate AssumedRun(w: World, actions: seq<Action>)
    requires IsRun(w, actions)
    decreases |actions|
  {
    actions != [] ==> Assumed(w, actions[0]) && AssumedRun(Step(w, actions[0]), actions[1..])
  }

  /**
   Over any sequence of applies and GeoIP reloads, interleaved with Coraza in any
   order, every name HAProxy sends is loaded in Coraza; between applies `current`
   serves every name HAProxy sends and Coraza has, and keeps, all it serves.
   */
  lemma {:induction false} EveryNameIsLoaded(w: World, actions: seq<Action>)
    requires Files(w) && Names(w) && IsRun(w, actions) && AssumedRun(w, actions)
    ensures
      var end := After(w, actions);
      && end.sent <= end.loaded
      && (end.phase.Idle? ==> AtRest(end))
    decreases |actions|
  {
    if actions != [] {
      FilesHold(w, actions[0]);
      NamesHold(w, actions[0]);
      EveryNameIsLoaded(Step(w, actions[0]), actions[1..]);
    }
  }
}
