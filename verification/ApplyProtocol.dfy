/**
 Config apply as a state machine. The backend, HAProxy and Coraza share a
 directory of releases; the backend's steps and Coraza's own loading interleave
 in any order. A load takes two steps, some time apart: Coraza reads the release
 `current` names, and later swaps in the applications it built from it.
 */
module ApplyProtocol {
  import opened Wrappers

  /** The application the image's fallback config serves. */
  const DEFAULT: string := "default"

  /**
   A release directory: the applications under coraza/, the names its
   haproxy.cfg sends, and the digest of its Coraza files. A release written
   before per-policy applications has none of its own.
   */
  datatype Release = Release(apps: set<string>, routes: set<string>, tree: int)

  const EMPTY_TREE := 0

  /** The applications Coraza serves once it has loaded this release, or none. */
  function Served(release: Option<Release>): set<string> {
    match release
    case None => {DEFAULT}
    case Some(r) => if r.apps == {} then {DEFAULT} else r.apps
  }

  predicate WellFormed(r: Release) {
    r.routes <= Served(Some(r)) && DEFAULT in Served(Some(r))
  }

  /** What the generator hands to apply. */
  predicate Generated(r: Release) {
    r.routes <= r.apps && DEFAULT in r.apps
  }

  function Tree(release: Option<Release>): int {
    match release
    case None => EMPTY_TREE
    case Some(r) => r.tree
  }

  datatype Status =
    | Success | WriteFailed | StateInvalid | ValidationFailed | ReloadFailed
    | CorazaReloadFailed | ReloadFailedRolledBack | RollbackFailed

  /** One apply: where it started from and what it is bringing in. */
  datatype Job = Job(
    linkBefore: Option<nat>, sentBefore: set<string>,
    prev: Option<nat>, prevRelease: Option<Release>,
    cand: nat, gen: Release)
  {
    function PrevApps(): set<string> {
      match prevRelease
      case None => {}
      case Some(r) => r.apps
    }

    function PrevRoutes(): set<string> {
      match prevRelease
      case None => {}
      case Some(r) => r.routes
    }

    function Added(): set<string> { gen.apps - PrevApps() }

    function Retired(): set<string> { PrevApps() - gen.apps }

    predicate NeedsBridge() { Added() != {} && Retired() != {} && prev.Some? }

    predicate DropsOnly() { Retired() != {} && !NeedsBridge() }
  }

  datatype Phase =
    | Idle(last: Option<Status>)
    | Written(job: Job)
    | Bridging(job: Job)
    | Ready(job: Job, bridge: Option<nat>)
    | Waiting(job: Job, bridge: Option<nat>)
    | Probing(job: Job, bridge: Option<nat>, pending: set<string>)
    | Reloaded(job: Job, bridge: Option<nat>, ok: bool)
    | Promoted(job: Job, bridge: Option<nat>, ok: bool)
    | AfterWaiting(job: Job)
    | Failed(job: Job, late: bool)      // late: Coraza refused after HAProxy had reloaded
    | Unlinked(job: Job)
    | Restoring(job: Job, late: bool)
    | Restored(job: Job, late: bool)
    | Undo(job: Job, bridge: Option<nat>)
    | Cleaning(job: Job, bridge: Option<nat>)

  datatype World = World(
    releases: map<nat, Release>,      // release directories
    current: Option<nat>,             // what the `current` link names
    sent: set<string>,                // names HAProxy's running config sends
    loaded: set<string>,              // names Coraza has loaded
    loading: Option<set<string>>,     // names of the load under way, if there is one
    status: Option<(nat, bool)>,      // the supervisor's status file
    phase: Phase)
  {
    /** The link, resolved: none when it is missing or dangling. */
    function Target(): Option<nat> {
      if current.Some? && current.value in releases then current else None
    }

    function CurrentRelease(): Option<Release> {
      if Target().Some? then Some(releases[Target().value]) else None
    }

    /** Coraza has these names, and still has them once the load under way is swapped in. */
    predicate Keeps(names: set<string>) {
      names <= loaded && (loading.Some? ==> names <= loading.value)
    }

    predicate Dangling() { current.Some? && Target().None? }
  }

  datatype WriteOutcome = WriteOk | WriteFails | LinkIsDirectory

  datatype Action =
    // Coraza's supervisor and the GeoIP refresh
    | CorazaReads
    | CorazaSwaps
    | CorazaGivesUp
    | CorazaReports(ok: bool)
    | GeoipReload(ok: bool)
    // apply
    | Begin(gen: Release, cand: nat, write: WriteOutcome)
    | Validate(ok: bool)
    | WriteBridge(bridge: nat, tree: int, ok: bool)
    | Swap
    | CorazaWait(ok: bool)
    | Ack(names: set<string>)
    | GiveUp
    | Reload(ok: bool)
    | Promote
    | RemoveBridge
    | AfterWait(ok: bool)
    | Unlink(ok: bool)
    | RemoveCandidate
    | ValidatePrevious(ok: bool)
    | SwapBack
    | RollbackReload(ok: bool)
    | Restore
    | Clean

  function SwapTarget(job: Job, bridge: Option<nat>): nat {
    if bridge.Some? then bridge.value else job.cand
  }

  predicate Enabled(w: World, a: Action) {
    match a
    case CorazaReads => w.loading.None?
    case CorazaSwaps => w.loading.Some?
    case CorazaGivesUp => w.loading.Some?
    case CorazaReports(ok) => w.current.Some?
    case GeoipReload(ok) => w.phase.Idle? && (ok ==> w.Target().Some?)
    case Begin(gen, cand, write) =>
      w.phase.Idle? && Generated(gen) && cand !in w.releases && w.current != Some(cand)
    case Validate(ok) => w.phase.Written?
    case WriteBridge(bridge, tree, ok) =>
      w.phase.Bridging? && bridge !in w.releases && w.current != Some(bridge)
    case Swap => w.phase.Ready?
    // an `ok` line for the release waited for; anything else is a rejection or a timeout
    case CorazaWait(ok) =>
      w.phase.Waiting? && (ok ==> w.status == Some((SwapTarget(w.phase.job, w.phase.bridge), true)))
    case Ack(names) => w.phase.Probing? && names <= w.phase.pending && names <= w.loaded
    case GiveUp => w.phase.Probing? && w.phase.pending != {}
    case Reload(ok) => w.phase.Probing? && w.phase.pending == {} && (ok ==> w.Target().Some?)
    case Promote => w.phase.Reloaded?
    case RemoveBridge => w.phase.Promoted?
    case AfterWait(ok) => w.phase.AfterWaiting? && (ok ==> w.status == Some((w.phase.job.cand, true)))
    case Unlink(ok) => w.phase.Failed? && w.phase.job.prev.None?
    case RemoveCandidate => w.phase.Unlinked?
    case ValidatePrevious(ok) => w.phase.Failed? && w.phase.job.prev.Some?
    case SwapBack => w.phase.Restoring?
    case RollbackReload(ok) => w.phase.Restored? && (ok ==> w.Target().Some?)
    case Restore => w.phase.Undo?
    case Clean => w.phase.Cleaning?
  }

  function StartProbing(job: Job, bridge: Option<nat>): Phase {
    Probing(job, bridge, job.Added())
  }

  /** Where the HAProxy reload leads once `current` names the candidate. */
  function AfterReload(job: Job, ok: bool): Phase {
    if !ok then Failed(job, false)
    else if job.DropsOnly() && Tree(job.prevRelease) != Tree(Some(job.gen)) then AfterWaiting(job)
    else Idle(Some(Status.Success))
  }

  function Remove(releases: map<nat, Release>, gone: Option<nat>): map<nat, Release> {
    if gone.Some? then releases - {gone.value} else releases
  }

  /** A successful HAProxy reload reads the release `current` names. */
  function Reread(w: World, ok: bool): set<string>
    requires ok ==> w.Target().Some?
  {
    if ok then w.releases[w.Target().value].routes else w.sent
  }

  function Step(w: World, a: Action): World
    requires Enabled(w, a)
  {
    match a
    case CorazaReads => w.(loading := Some(Served(w.CurrentRelease())))
    case CorazaSwaps => w.(loaded := w.loading.value, loading := None)
    case CorazaGivesUp => w.(loading := None)
    case CorazaReports(ok) => w.(status := Some((w.current.value, ok)))
    case GeoipReload(ok) => w.(sent := Reread(w, ok))
    case Begin(gen, cand, write) =>
      var job := Job(w.current, w.sent, w.Target(), w.CurrentRelease(), cand, gen);
      (match write
       case LinkIsDirectory => w.(phase := Idle(Some(StateInvalid)))
       case WriteFails => w.(phase := Idle(Some(WriteFailed)))
       case WriteOk => w.(releases := w.releases[cand := gen], phase := Written(job)))
    case Validate(ok) =>
      var job := w.phase.job;
      if !ok then w.(releases := w.releases - {job.cand}, phase := Idle(Some(ValidationFailed)))
      else w.(phase := if job.NeedsBridge() then Bridging(job) else Ready(job, None))
    case WriteBridge(bridge, tree, ok) =>
      var job := w.phase.job;
      if !ok then w.(releases := w.releases - {job.cand}, phase := Idle(Some(WriteFailed)))
      else w.(releases := w.releases[bridge := Release(job.gen.apps + job.Retired(), job.gen.routes, tree)],
              phase := Ready(job, Some(bridge)))
    case Swap =>
      var (job, bridge) := (w.phase.job, w.phase.bridge);
      var target := SwapTarget(job, bridge);
      var swapped := if target in w.releases then Some(w.releases[target]) else None;
      w.(current := Some(target),
         phase := if Tree(job.prevRelease) != Tree(swapped) && !job.DropsOnly()
                  then Waiting(job, bridge) else StartProbing(job, bridge))
    case CorazaWait(ok) =>
      w.(phase := if ok then StartProbing(w.phase.job, w.phase.bridge) else Undo(w.phase.job, w.phase.bridge))
    case Ack(names) => w.(phase := w.phase.(pending := w.phase.pending - names))
    case GiveUp => w.(phase := Undo(w.phase.job, w.phase.bridge))
    case Reload(ok) =>
      var (job, bridge) := (w.phase.job, w.phase.bridge);
      w.(sent := Reread(w, ok),
         phase := if bridge.Some? then Reloaded(job, bridge, ok) else AfterReload(job, ok))
    case Promote =>
      w.(current := Some(w.phase.job.cand), phase := Promoted(w.phase.job, w.phase.bridge, w.phase.ok))
    case RemoveBridge =>
      w.(releases := Remove(w.releases, w.phase.bridge), phase := AfterReload(w.phase.job, w.phase.ok))
    case AfterWait(ok) => w.(phase := if ok then Idle(Some(Status.Success)) else Failed(w.phase.job, true))
    case Unlink(ok) => w.(current := if ok then None else w.current, phase := Unlinked(w.phase.job))
    case RemoveCandidate =>
      w.(releases := w.releases - {w.phase.job.cand}, phase := Idle(Some(ReloadFailed)))
    case ValidatePrevious(ok) =>
      w.(phase := if ok then Restoring(w.phase.job, w.phase.late) else Idle(Some(RollbackFailed)))
    case SwapBack => w.(current := w.phase.job.prev, phase := Restored(w.phase.job, w.phase.late))
    case RollbackReload(ok) =>
      w.(sent := Reread(w, ok),
         phase := if !ok then Idle(Some(RollbackFailed))
                  else if w.phase.late then Cleaning(w.phase.job, None)
                  else Idle(Some(ReloadFailedRolledBack)))
    case Restore => w.(current := w.phase.job.prev, phase := Cleaning(w.phase.job, w.phase.bridge))
    case Clean =>
      w.(releases := Remove(w.releases, w.phase.bridge) - {w.phase.job.cand},
         phase := Idle(Some(CorazaReloadFailed)))
  }

  // ---------------------------------------------------------------------
  // Runs

  ghost predicate IsRun(w: World, actions: seq<Action>)
    decreases |actions|
  {
    actions != [] ==> Enabled(w, actions[0]) && IsRun(Step(w, actions[0]), actions[1..])
  }

  ghost function After(w: World, actions: seq<Action>): World
    requires IsRun(w, actions)
    decreases |actions|
  {
    if actions == [] then w else After(Step(w, actions[0]), actions[1..])
  }

  // ---------------------------------------------------------------------
  // What the bookkeeping keeps: the files a job refers to are there

  predicate JobFiles(w: World, job: Job) {
    && Generated(job.gen)
    && (job.prev.Some? <==> job.prevRelease.Some?)
    && (job.prev.Some? ==> job.prev.value in w.releases && w.releases[job.prev.value] == job.prevRelease.value)
    && (job.prev.None? ==> job.linkBefore.None? || job.linkBefore.value !in w.releases)
    && (job.prev.Some? ==> job.linkBefore == job.prev)
    && job.linkBefore != Some(job.cand)
    && job.cand in w.releases && w.releases[job.cand] == job.gen
  }

  predicate BridgeFiles(w: World, job: Job, bridge: Option<nat>) {
    && (bridge.Some? <==> job.NeedsBridge())
    && (bridge.Some? ==>
          && bridge.value in w.releases && bridge != Some(job.cand) && bridge != job.prev && bridge != job.linkBefore
          && w.releases[bridge.value].apps == job.gen.apps + job.Retired()
          && w.releases[bridge.value].routes == job.gen.routes)
  }

  /** Which release `current` names in each phase, and that the job's files exist. */
  predicate Files(w: World) {
    && (forall id :: id in w.releases ==> WellFormed(w.releases[id]))
    && match w.phase
       case Idle(_) => true
       case Written(job) => JobFiles(w, job) && w.current == job.linkBefore && w.sent == job.sentBefore
       case Bridging(job) =>
         JobFiles(w, job) && w.current == job.linkBefore && w.sent == job.sentBefore && job.NeedsBridge()
       case Ready(job, bridge) =>
         JobFiles(w, job) && BridgeFiles(w, job, bridge) && w.current == job.linkBefore && w.sent == job.sentBefore
       case Waiting(job, bridge) =>
         && JobFiles(w, job) && BridgeFiles(w, job, bridge) && w.sent == job.sentBefore
         && w.current == Some(SwapTarget(job, bridge)) && !job.DropsOnly()
       case Probing(job, bridge, pending) =>
         && JobFiles(w, job) && BridgeFiles(w, job, bridge) && w.sent == job.sentBefore
         && w.current == Some(SwapTarget(job, bridge)) && pending <= job.Added()
       case Reloaded(job, bridge, ok) =>
         && JobFiles(w, job) && BridgeFiles(w, job, bridge) && bridge.Some? && w.current == bridge
         && w.sent == (if ok then job.gen.routes else job.sentBefore)
       case Promoted(job, bridge, ok) =>
         && JobFiles(w, job) && BridgeFiles(w, job, bridge) && bridge.Some? && w.current == Some(job.cand)
         && w.sent == (if ok then job.gen.routes else job.sentBefore)
       case AfterWaiting(job) =>
         JobFiles(w, job) && w.current == Some(job.cand) && w.sent == job.gen.routes && job.DropsOnly()
       case Failed(job, late) => JobFiles(w, job) && w.current == Some(job.cand) && AsLeft(w, job, late)
       case Unlinked(job) =>
         JobFiles(w, job) && job.prev.None? && w.current in {None, Some(job.cand)} && AsLeft(w, job, false)
       case Restoring(job, late) =>
         JobFiles(w, job) && job.prev.Some? && w.current == Some(job.cand) && AsLeft(w, job, late)
       case Restored(job, late) =>
         JobFiles(w, job) && job.prev.Some? && w.current == job.prev && AsLeft(w, job, late)
       case Undo(job, bridge) =>
         && JobFiles(w, job) && BridgeFiles(w, job, bridge) && w.sent == job.sentBefore
         && w.current == Some(SwapTarget(job, bridge)) && !job.DropsOnly()
       case Cleaning(job, bridge) =>
         && JobFiles(w, job) && w.current == job.prev
         && (bridge.Some? ==> BridgeFiles(w, job, bridge))
         && (w.sent == job.sentBefore || (job.prevRelease.Some? && job.DropsOnly() && w.sent == job.PrevRoutes()))
  }

  /** HAProxy is on its old config, or, when Coraza refused late, on the candidate's. */
  predicate AsLeft(w: World, job: Job, late: bool) {
    && w.sent == (if late then job.gen.routes else job.sentBefore)
    && (late ==> job.DropsOnly())
  }

  /** What Coraza and its supervisor do, in any phase of an apply or between applies. */
  predicate ByCoraza(a: Action) {
    a.CorazaReads? || a.CorazaSwaps? || a.CorazaGivesUp? || a.CorazaReports?
  }

  predicate Outside(a: Action) {
    ByCoraza(a) || a.GeoipReload?
  }

  predicate UpToReload(a: Action) {
    a.Begin? || a.Validate? || a.WriteBridge? || a.Swap? || a.CorazaWait? || a.Ack? || a.GiveUp? || a.Reload?
  }

  lemma FilesHoldOutside(w: World, a: Action)
    requires Files(w) && Enabled(w, a) && Outside(a)
    ensures Files(Step(w, a))
  {
  }

  lemma FilesHoldUpToReload(w: World, a: Action)
    requires Files(w) && Enabled(w, a) && UpToReload(a)
    ensures Files(Step(w, a))
  {
  }

  lemma FilesHoldAfterReload(w: World, a: Action)
    requires Files(w) && Enabled(w, a) && !Outside(a) && !UpToReload(a)
    ensures Files(Step(w, a))
  {
  }

  lemma FilesHold(w: World, a: Action)
    requires Files(w) && Enabled(w, a)
    ensures Files(Step(w, a))
  {
    if Outside(a) {
      FilesHoldOutside(w, a);
    } else if UpToReload(a) {
      FilesHoldUpToReload(w, a);
    } else {
      FilesHoldAfterReload(w, a);
    }
  }
}
