/**
 `_apply_locked` step by step on the runtime directory, with Coraza's supervisor
 acting between any two steps. Every state it passes through is recorded, and the
 record is a run of the apply protocol.
 */
module ConfigApply {
  import opened Wrappers
  import opened ApplyProtocol
  import opened ApplySafety
  import opened ApplyRisk
  import opened ApplyReports

  ghost predicate CanStep(w: World, next: World) {
    exists a :: Enabled(w, a) && Step(w, a) == next
  }

  ghost predicate IsHistory(h: seq<World>) {
    h != [] && forall i :: 0 <= i < |h| - 1 ==> CanStep(h[i], h[i + 1])
  }

  function Last<T>(s: seq<T>): T
    requires s != []
  {
    s[|s| - 1]
  }

  /** What is proved of all runs holds at every recorded state. */
  lemma {:induction false} HistoryIsRun(h: seq<World>) returns (actions: seq<Action>)
    requires IsHistory(h)
    ensures IsRun(h[0], actions) && After(h[0], actions) == Last(h)
    decreases |h|
  {
    if |h| == 1 {
      actions := [];
    } else {
      assert CanStep(h[0], h[0 + 1]);
      var a :| Enabled(h[0], a) && Step(h[0], a) == h[1];
      forall i | 0 <= i < |h[1..]| - 1 ensures CanStep(h[1..][i], h[1..][i + 1]) {
        assert CanStep(h[i + 1], h[i + 1 + 1]);
      }
      var rest := HistoryIsRun(h[1..]);
      actions := [a] + rest;
      assert actions[1..] == rest;
    }
  }

  ghost predicate AssumedHistory(h: seq<World>) {
    forall i :: 0 <= i < |h| - 1 ==> CanStepAsAssumed(h[i], h[i + 1])
  }

  ghost predicate CanStepAsAssumed(w: World, next: World) {
    exists a :: Enabled(w, a) && Assumed(w, a) && Step(w, a) == next
  }

  /** Under the protocol's assumptions every recorded state has all of HAProxy's names loaded. */
  lemma {:induction false} RecordedStatesAreCovered(h: seq<World>, i: nat)
    requires h != [] && Files(h[0]) && Names(h[0]) && AssumedHistory(h) && i < |h|
    ensures Files(h[i]) && Names(h[i]) && h[i].sent <= h[i].loaded
  {
    if i > 0 {
      RecordedStatesAreCovered(h, i - 1);
      assert CanStepAsAssumed(h[i - 1], h[i - 1 + 1]);
      var a :| Enabled(h[i - 1], a) && Assumed(h[i - 1], a) && Step(h[i - 1], a) == h[i];
      FilesHold(h[i - 1], a);
      NamesHold(h[i - 1], a);
    }
  }

  /** The parts of the file bookkeeping that the steps below look at. */
  lemma FilesOfJob(w: World)
    requires Files(w) && !w.phase.Idle?
    ensures JobFiles(w, w.phase.job)
    ensures w.phase.Ready? || w.phase.Probing? || w.phase.Promoted? ==> BridgeFiles(w, w.phase.job, w.phase.bridge)
    ensures w.phase.Probing? ==> w.current == Some(SwapTarget(w.phase.job, w.phase.bridge)) && w.Target().Some?
    ensures w.phase.Restored? ==> w.current == w.phase.job.prev && w.Target().Some?
    ensures w.phase.AfterWaiting? ==> w.current == Some(w.phase.job.cand)
  {
  }

  /** `next` is where action a ended the apply, up to what Coraza has done since. */
  ghost predicate Ended(w: World, a: Action, next: World, status: Status) {
    && Files(w) && Enabled(w, a) && !w.phase.Idle?
    && Step(w, a).phase == Idle(Some(status))
    && next.releases == Step(w, a).releases && next.current == Step(w, a).current && next.sent == Step(w, a).sent
  }

  lemma EndedAsItsStatusSays(w: World, a: Action, next: World, status: Status)
    requires Ended(w, a, next, status)
    ensures Outcome(next, w.phase.job, status)
  {
    ApplyEndsAsItsStatusSays(w, a);
  }

  lemma NothingWritten(w: World, job: Job)
    requires Files(w) && w.current == job.linkBefore && w.sent == job.sentBefore
    requires job.prev == w.Target() && job.prevRelease == w.CurrentRelease()
    ensures Outcome(w, job, WriteFailed)
  {
  }

  /**
   The supervisor's status said `ok`, at recorded state k, for the release that
   state s is on while the probe runs, if its Coraza files are not the previous
   release's: by then, or, for a release that only drops applications, while
   apply waits after HAProxy's reload.
   */
  ghost predicate ReportedBy(h: seq<World>, from: nat, prev: Option<Release>, gen: Release, s: nat, k: nat) {
    && from <= s < |h| && h[s].phase.Probing? && h[s].Target().Some?
    && (Tree(prev) != Tree(h[s].CurrentRelease()) ==> OkAt(h, from, h[s].current.value, prev, gen, s, k))
  }

  ghost predicate OkAt(h: seq<World>, from: nat, id: nat, prev: Option<Release>, gen: Release, s: nat, k: nat) {
    && from <= k < |h| && h[k].status == Some((id, true)) && h[k].current == Some(id)
    && (if OnlyDrops(prev, gen) then s < k && h[k].phase.AfterWaiting? else k <= s)
  }

  /** The phase an action leads to. */
  ghost function Leads(w: World, a: Action): Phase {
    if Enabled(w, a) then Step(w, a).phase else w.phase
  }

  /** The two answers to a reload: the config `current` names is read, or nothing changes but the phase. */
  ghost predicate Reloads(w: World, yes: Action, no: Action) {
    && Enabled(w, no) && Step(w, no) == w.(phase := Leads(w, no))
    && (w.Target().Some? ==>
          Enabled(w, yes) && Step(w, yes) == w.(sent := w.releases[w.Target().value].routes, phase := Leads(w, yes)))
  }

  class Runtime {
    var releases: map<nat, Release>
    var current: Option<nat>
    var sent: set<string>
    var loaded: set<string>
    var loading: Option<set<string>>
    var status: Option<(nat, bool)>
    ghost var phase: Phase
    ghost var history: seq<World>

    ghost function Now(): World
      reads this
    {
      World(releases, current, sent, loaded, loading, status, phase)
    }

    ghost predicate Valid()
      reads this
    {
      IsHistory(history) && Last(history) == Now() && Files(Now())
    }

    /** The release `current` resolves to. */
    function Resolved(): (r: Option<nat>)
      reads this
      ensures r == Now().Target()
    {
      if current.Some? && current.value in releases then current else None
    }

    function ReleaseAt(id: Option<nat>): Option<Release>
      reads this
    {
      if id.Some? && id.value in releases then Some(releases[id.value]) else None
    }

    constructor (releases: map<nat, Release>, current: Option<nat>, sent: set<string>, loaded: set<string>)
      requires forall id :: id in releases ==> WellFormed(releases[id])
      ensures Valid() && phase == Idle(None)
      ensures Now() == World(releases, current, sent, loaded, None, None, Idle(None)) && history == [Now()]
    {
      this.releases, this.current, this.sent := releases, current, sent;
      this.loaded, this.loading, this.status := loaded, None, None;
      phase := Idle(None);
      history := [World(releases, current, sent, loaded, None, None, Idle(None))];
    }

    /** The fields have just been changed as the protocol's action changes them. */
    ghost method Took(a: Action)
      requires IsHistory(history) && Files(Last(history)) && Enabled(Last(history), a)
      requires Step(Last(history), a) == Now().(phase := Step(Last(history), a).phase)
      modifies this`phase, this`history
      ensures Valid() && phase == Step(old(Last(history)), a).phase
      ensures old(history) < history
    {
      var before := Last(history);
      phase := Step(before, a).phase;
      FilesHold(before, a);
      assert CanStep(before, Now());
      history := history + [Now()];
    }

    /** Coraza reads releases, swaps in what it read or gives it up, and is reported on, any number of times. */
    method Others()
      requires Valid()
      modifies this`loaded, this`loading, this`status, this`phase, this`history
      ensures Valid() && phase == old(phase) && old(history) <= history
    {
      var n: nat :| true;
      for i := 0 to n
        invariant Valid() && phase == old(phase) && old(history) <= history
      {
        var loads, ends: bool := *, *;
        if loads && loading.Some? {
          if ends {
            loaded, loading := loading.value, None;
            Took(CorazaSwaps);
          } else {
            loading := None;
            Took(CorazaGivesUp);
          }
        } else if loads {
          loading := Some(Served(ReleaseAt(Resolved())));
          Took(CorazaReads);
        } else if current.Some? {
          var ok: bool := *;
          status := Some((current.value, ok));
          Took(CorazaReports(ok));
        }
      }
    }

    /** A decision that changes no file and reloads nothing. */
    ghost method Decided(a: Action)
      requires Valid() && Enabled(Now(), a)
      requires Step(Now(), a) == Now().(phase := Step(Now(), a).phase)
      modifies this`phase, this`history
      ensures Valid() && phase == Step(old(Now()), a).phase && old(history) <= history
    {
      Took(a);
    }

    lemma LastIsNow()
      requires Valid()
      ensures history != [] && history[|history| - 1] == Now()
    {
    }

    lemma ValidFiles()
      requires Valid()
      ensures Files(Now())
    {
    }

    method WriteRelease(id: nat, release: Release, ghost a: Action)
      requires Valid() && Enabled(Now(), a)
      requires Step(Now(), a) == Now().(releases := releases[id := release], phase := Step(Now(), a).phase)
      modifies this
      ensures Valid() && phase == Step(old(Now()), a).phase && old(history) <= history
      ensures releases == old(releases)[id := release] && current == old(current) && sent == old(sent)
    {
      releases := releases[id := release];
      Took(a);
      Others();
    }

    method UnlinkCurrent(ok: bool, ghost a: Action)
      requires Valid() && Enabled(Now(), a)
      requires Step(Now(), a) == Now().(current := if ok then None else current, phase := Step(Now(), a).phase)
      modifies this
      ensures Valid() && phase == Step(old(Now()), a).phase && old(history) <= history
      ensures current == (if ok then None else old(current)) && releases == old(releases) && sent == old(sent)
    {
      if ok {
        current := None;
      }
      Took(a);
      Others();
    }

    method SwapCurrentLink(target: nat, ghost a: Action)
      requires Valid() && Enabled(Now(), a)
      requires Step(Now(), a) == Now().(current := Some(target), phase := Step(Now(), a).phase)
      modifies this
      ensures Valid() && phase == Step(old(Now()), a).phase && old(history) <= history
      ensures current == Some(target) && releases == old(releases) && sent == old(sent) && |old(history)| < |history|
    {
      current := Some(target);
      Took(a);
      Others();
    }

    method RemoveRelease(gone: Option<nat>, also: Option<nat>, ghost a: Action)
      requires Valid() && Enabled(Now(), a)
      requires Step(Now(), a) ==
        Now().(releases := Remove(Remove(releases, gone), also), phase := Step(Now(), a).phase)
      modifies this
      ensures Valid() && phase == Step(old(Now()), a).phase && old(history) <= history
      ensures releases == Remove(Remove(old(releases), gone), also) && current == old(current) && sent == old(sent)
    {
      if gone.Some? {
        releases := releases - {gone.value};
      }
      if also.Some? {
        releases := releases - {also.value};
      }
      Took(a);
      Others();
    }

    /** The master CLI's answer decides; only a success means the config was re-read. */
    method ReloadHaproxy(ghost yes: Action, ghost no: Action) returns (ok: bool)
      requires Valid() && Reloads(Now(), yes, no)
      modifies this
      ensures Valid() && old(history) < history && releases == old(releases) && current == old(current)
      ensures ok ==>
        && old(Resolved()).Some? && phase == Leads(old(Now()), yes)
        && sent == old(releases)[old(Resolved()).value].routes
      ensures !ok ==> phase == Leads(old(Now()), no) && sent == old(sent)
    {
      ok := *;
      var target := Resolved();
      if target.None? {
        ok := false;
      }
      if ok {
        sent := releases[target.value].routes;
        Took(yes);
      } else {
        Took(no);
      }
      Others();
    }

    /** The clean-up an apply ends with. */
    method RemoveAndEnd(gone: Option<nat>, also: Option<nat>, ghost a: Action, ghost job: Job, ghost result: Status)
      requires Valid() && Enabled(Now(), a) && !phase.Idle? && phase.job == job
      requires Step(Now(), a) ==
        Now().(releases := Remove(Remove(releases, gone), also), phase := Idle(Some(result)))
      modifies this
      ensures Valid() && phase == Idle(Some(result)) && old(history) <= history
      ensures Outcome(Now(), job, result)
    {
      hide Outcome;
      ghost var before := Now();
      RemoveRelease(gone, also, a);
      EndedAsItsStatusSays(before, a, Now(), result);
    }

    /** The GeoIP refresh takes the apply lock, so it runs between applies. */
    method ReloadForGeoip() returns (ok: bool)
      requires Valid() && phase.Idle?
      modifies this
      ensures Valid() && phase == old(phase) && old(history) <= history
      ensures releases == old(releases) && current == old(current)
      ensures ok ==> Resolved().Some? && sent == releases[Resolved().value].routes
      ensures !ok ==> sent == old(sent)
    {
      ok := ReloadHaproxy(GeoipReload(true), GeoipReload(false));
    }

    method WaitForCorazaReload(release: nat) returns (ok: bool)
      requires Valid()
      modifies this`loaded, this`loading, this`status, this`phase, this`history
      ensures Valid() && phase == old(phase) && old(history) <= history
      ensures ok ==> status == Some((release, true))
    {
      var polls: nat :| true;
      while true
        invariant Valid() && phase == old(phase) && old(history) <= history
        decreases polls
      {
        if status.Some? && status.value.0 == release {
          return status.value.1;
        }
        if polls == 0 {
          return false;
        }
        polls := polls - 1;
        Others();
      }
    }

    /**
     One attempt of the probe: each name is asked for in turn, with Coraza acting in
     between, and answered for only while it is loaded. What an attempt that fails
     was answered does not count.
     */
    method ProbeApps(names: set<string>, ghost job: Job, ghost bridge: Option<nat>) returns (missing: set<string>)
      requires Valid() && phase == Probing(job, bridge, names)
      modifies this`loaded, this`loading, this`status, this`phase, this`history
      ensures Valid() && phase == Probing(job, bridge, missing) && old(history) <= history
    {
      var completes: bool := *;
      missing := names;
      var left := names;
      while left != {}
        invariant left <= missing
        invariant Valid() && phase == Probing(job, bridge, missing) && old(history) <= history
        decreases left
      {
        hide Valid;
        var name :| name in left;
        left := left - {name};
        Others();
        var answered: bool := *;
        if answered && name in loaded && completes {
          missing := missing - {name};
          Decided(Ack({name}));
        }
      }
    }

    /** Poll until Coraza has answered for every added application. */
    method WaitForCorazaApps(added: set<string>, ghost job: Job, ghost bridge: Option<nat>) returns (missing: set<string>)
      requires Valid() && phase == Probing(job, bridge, added)
      modifies this`loaded, this`loading, this`status, this`phase, this`history
      ensures Valid() && phase == Probing(job, bridge, missing) && old(history) <= history
    {
      missing := added;
      var polls: nat :| true;
      while missing != {}
        invariant Valid() && phase == Probing(job, bridge, missing) && old(history) <= history
        decreases polls
      {
        missing := ProbeApps(missing, job, bridge);
        if missing == {} || polls == 0 {
          return;
        }
        polls := polls - 1;
        Others();
      }
    }

    method CorazaReloadFailed(previous: Option<nat>, cand: nat, bridge: Option<nat>, ghost job: Job)
      requires Valid() && phase == Undo(job, bridge) && job.prev == previous && job.cand == cand
      modifies this
      ensures Valid() && phase == Idle(Some(Status.CorazaReloadFailed)) && old(history) <= history
      ensures Outcome(Now(), job, Status.CorazaReloadFailed)
    {
      hide Files, Outcome, Valid;
      if previous.None? {
        UnlinkCurrent(true, Restore);
      } else {
        SwapCurrentLink(previous.value, Restore);
      }
      RemoveAndEnd(bridge, Some(cand), Clean, job, Status.CorazaReloadFailed);
    }

    /** A name for a directory that does not exist yet. */
    method FreshDirectory() returns (id: nat)
      ensures id !in releases && current != Some(id)
    {
      ghost var unused := FreshRelease(Now());
      id :| id !in releases && current != Some(id);
    }

    method ApplyLocked(gen: Release) returns (result: Status, cand: nat, ghost s: nat, ghost k: nat)
      requires Valid() && phase.Idle? && Generated(gen)
      modifies this
      ensures Valid() && phase == Idle(Some(result)) && old(history) <= history
      ensures result.StateInvalid? ==>
        releases == old(releases) && current == old(current) && sent == old(sent)
      ensures !result.StateInvalid? ==> Outcome(Now(), JobFor(old(Now()), gen, cand), result)
      // a success was reported by the supervisor, unless no Coraza file changed
      ensures result.Success? ==> ReportedBy(history, |old(history)|, old(Now().CurrentRelease()), gen, s, k)
    {
      hide Files, Outcome, Valid, ReportedBy;
      s, k := 0, 0;
      cand := FreshDirectory();
      ghost var job := JobFor(Now(), gen, cand);
      var previous := Resolved();
      var write: WriteOutcome := *;
      if write.LinkIsDirectory? {
        Decided(Begin(gen, cand, write));
        return StateInvalid, cand, s, k;
      }
      if write.WriteFails? {
        Decided(Begin(gen, cand, write));
        ValidFiles();
        NothingWritten(Now(), job);
        return WriteFailed, cand, s, k;
      }
      WriteRelease(cand, gen, Begin(gen, cand, WriteOk));

      result, s, k := ValidateAndActivate(gen, cand, previous, job, |old(history)|);
    }

    /** From the written candidate on. */
    method ValidateAndActivate(gen: Release, cand: nat, previous: Option<nat>, ghost job: Job, ghost from: nat)
      returns (result: Status, ghost s: nat, ghost k: nat)
      requires Valid() && phase == Written(job) && from <= |history|
      requires job.cand == cand && job.gen == gen && job.prev == previous
      modifies this
      ensures Valid() && phase == Idle(Some(result)) && old(history) <= history
      ensures Outcome(Now(), job, result) && !result.StateInvalid?
      ensures result.Success? ==> ReportedBy(history, from, job.prevRelease, job.gen, s, k)
    {
      hide Files, Outcome, Valid, ReportedBy;
      s, k := 0, 0;
      ValidFiles();
      FilesOfJob(Now());
      var valid: bool := *;
      if !valid {
        RemoveAndEnd(Some(cand), None, Validate(false), job, ValidationFailed);
        return ValidationFailed, s, k;
      }
      Decided(Validate(true));
      Others();

      var previousApps := if previous.Some? then releases[previous.value].apps else {};
      var added := gen.apps - previousApps;
      var retired := previousApps - gen.apps;
      var bridge: Option<nat> := None;
      if added != {} && retired != {} && previous.Some? {
        bridge := WriteBridge(cand, retired, job);
        if bridge.None? {
          return WriteFailed, s, k;
        }
      }
      result, s, k := Activate(cand, bridge, previous, added, retired, job, from);
    }

    /** The candidate plus the retired applications; none when it could not be written. */
    method WriteBridge(cand: nat, retired: set<string>, ghost job: Job) returns (bridge: Option<nat>)
      requires Valid() && phase == Bridging(job) && job.cand == cand && job.Retired() == retired
      modifies this
      ensures Valid() && old(history) <= history
      ensures bridge.Some? ==> phase == Ready(job, bridge)
      ensures bridge.None? ==> phase == Idle(Some(WriteFailed)) && Outcome(Now(), job, WriteFailed)
    {
      hide Files, Outcome, Valid;
      ValidFiles();
      FilesOfJob(Now());
      var id := FreshDirectory();
      var tree: int, ok: bool := *, *;
      if !ok {
        assert Remove(Remove(releases, Some(cand)), Some(id)) == releases - {cand};
        RemoveAndEnd(Some(cand), Some(id), Action.WriteBridge(id, tree, false), job, WriteFailed);
        return None;
      }
      var copied := Release(releases[cand].apps + retired, releases[cand].routes, tree);
      WriteRelease(id, copied, Action.WriteBridge(id, tree, true));
      bridge := Some(id);
    }

    /** From the finished directories on: swap, wait, reload, roll back. */
    method Activate(cand: nat, bridge: Option<nat>, previous: Option<nat>, added: set<string>, retired: set<string>,
                    ghost job: Job, ghost from: nat)
      returns (result: Status, ghost s: nat, ghost k: nat)
      requires Valid() && phase == Ready(job, bridge) && from <= |history|
      requires job.cand == cand && job.prev == previous && job.Added() == added && job.Retired() == retired
      modifies this
      ensures Valid() && phase == Idle(Some(result)) && old(history) <= history
      ensures Outcome(Now(), job, result) && !result.StateInvalid?
      ensures result.Success? ==> ReportedBy(history, from, job.prevRelease, job.gen, s, k)
    {
      hide Files, Outcome, Valid;
      ValidFiles();
      FilesOfJob(Now());
      var swapped := if bridge.Some? then bridge.value else cand;
      var dropsOnly := retired != {} && bridge.None?;
      var preload := Tree(ReleaseAt(previous)) != Tree(ReleaseAt(Some(swapped))) && !dropsOnly;
      SwapCurrentLink(swapped, Swap);
      var ready: bool;
      ready, k := LoadFirst(swapped, preload, added, job, bridge);
      LastIsNow();
      s := |history| - 1;
      if ready {
        ghost var later;
        OnlyDropsIs(job);
        result, later := ReloadAndSettle(cand, bridge, previous, dropsOnly, job);
        k := if dropsOnly then later else k;
      } else {
        CorazaReloadFailed(previous, cand, bridge, job);
        result := Status.CorazaReloadFailed;
      }
    }

    /** The waits before HAProxy's reload: Coraza accepts the release, then serves the new names. */
    method LoadFirst(swapped: nat, preload: bool, added: set<string>, ghost job: Job, ghost bridge: Option<nat>)
      returns (ready: bool, ghost k: nat)
      requires Valid() && job.Added() == added && swapped == SwapTarget(job, bridge)
      requires phase == if preload then Waiting(job, bridge) else StartProbing(job, bridge)
      modifies this`loaded, this`loading, this`status, this`phase, this`history
      ensures Valid() && old(history) <= history
      ensures phase == if ready then Probing(job, bridge, {}) else Undo(job, bridge)
      ensures ready && preload ==>
        |old(history)| <= k + 1 && k < |history| && history[k].status == Some((swapped, true)) && history[k].current == current
    {
      hide Files, Valid;
      k := 0;
      if preload {
        ready := WaitForCorazaReload(swapped);
        LastIsNow();
        k := |history| - 1;
        Decided(CorazaWait(ready));
        if !ready {
          return false, k;
        }
      }
      if added != {} {
        var missing := WaitForCorazaApps(added, job, bridge);
        if missing != {} {
          Decided(GiveUp);
          return false, k;
        }
      }
      ready := true;
    }

    /** What the rest of an apply looks at after HAProxy's answer. */
    ghost predicate Answered(job: Job, ok: bool)
      reads this
    {
      && phase == AfterReload(job, ok)
      && ReleaseAt(job.prev) == job.prevRelease && ReleaseAt(Some(job.cand)) == Some(job.gen)
      && (phase.Idle? ==> Outcome(Now(), job, Status.Success))
    }

    method ReloadFromCandidate(ghost job: Job) returns (ok: bool)
      requires Valid() && phase == Probing(job, None, {})
      modifies this
      ensures Valid() && old(history) < history && Answered(job, ok)
    {
      hide Files, Outcome, Valid;
      ValidFiles();
      FilesOfJob(Now());
      ghost var before := Now();
      ok := ReloadHaproxy(Reload(true), Reload(false));
      if phase.Idle? {
        EndedAsItsStatusSays(before, Reload(ok), Now(), Status.Success);
      }
    }

    /** Whether or not HAProxy reloaded, the final release takes the bridge's place. */
    method ReloadFromBridge(cand: nat, bridge: nat, ghost job: Job) returns (ok: bool)
      requires Valid() && phase == Probing(job, Some(bridge), {}) && job.cand == cand
      modifies this
      ensures Valid() && old(history) < history && Answered(job, ok)
    {
      hide Files, Outcome, Valid;
      ValidFiles();
      FilesOfJob(Now());
      ok := ReloadHaproxy(Reload(true), Reload(false));
      SwapCurrentLink(cand, Promote);
      PromoteCandidate(bridge, ok, job);
    }

    method PromoteCandidate(bridge: nat, ok: bool, ghost job: Job)
      requires Valid() && phase == Promoted(job, Some(bridge), ok)
      modifies this
      ensures Valid() && old(history) <= history && Answered(job, ok)
    {
      hide Files, Outcome, Valid;
      ValidFiles();
      FilesOfJob(Now());
      ghost var before := Now();
      RemoveRelease(Some(bridge), None, RemoveBridge);
      if phase.Idle? {
        EndedAsItsStatusSays(before, RemoveBridge, Now(), Status.Success);
      }
    }

    method ReloadAndSettle(cand: nat, bridge: Option<nat>, previous: Option<nat>, dropsOnly: bool, ghost job: Job)
      returns (result: Status, ghost k: nat)
      requires Valid() && phase == Probing(job, bridge, {})
      requires job.cand == cand && job.prev == previous && job.DropsOnly() == dropsOnly
      modifies this
      ensures Valid() && phase == Idle(Some(result)) && old(history) <= history
      ensures Outcome(Now(), job, result) && !result.StateInvalid?
      ensures result.Success? && dropsOnly && Tree(job.prevRelease) != Tree(Some(job.gen)) ==>
        |old(history)| <= k < |history| && history[k].status == Some((cand, true)) && history[k].current == Some(cand)
        && history[k].phase.AfterWaiting?
    {
      hide Outcome, Valid;
      k := 0;
      var reloaded: bool;
      if bridge.Some? {
        reloaded := ReloadFromBridge(cand, bridge.value, job);
      } else {
        reloaded := ReloadFromCandidate(job);
      }
      if reloaded && dropsOnly && Tree(ReleaseAt(previous)) != Tree(ReleaseAt(Some(cand))) {
        result, k := WaitAfterReload(cand, previous, job);
      } else if reloaded {
        result := Status.Success;
      } else {
        result := RollBack(cand, previous, false, job);
      }
    }

    /** A release that only drops applications is accepted once HAProxy no longer sends them. */
    method WaitAfterReload(cand: nat, previous: Option<nat>, ghost job: Job) returns (result: Status, ghost k: nat)
      requires Valid() && phase == AfterWaiting(job) && job.cand == cand && job.prev == previous
      modifies this
      ensures Valid() && phase == Idle(Some(result)) && old(history) <= history
      ensures Outcome(Now(), job, result) && !result.StateInvalid?
      ensures result.Success? ==>
        |old(history)| <= k + 1 && k < |history| && history[k].status == Some((cand, true)) && history[k].current == Some(cand)
        && history[k].phase.AfterWaiting?
    {
      hide Files, Outcome, Valid;
      var accepted := WaitForCorazaReload(cand);
      LastIsNow();
      ValidFiles();
      FilesOfJob(Now());
      k := |history| - 1;
      ghost var before := Now();
      ValidFiles();
      Decided(AfterWait(accepted));
      if accepted {
        EndedAsItsStatusSays(before, AfterWait(true), Now(), Status.Success);
        result := Status.Success;
      } else {
        result := RollBack(cand, previous, true, job);
      }
    }

    method RollBack(cand: nat, previous: Option<nat>, late: bool, ghost job: Job) returns (result: Status)
      requires Valid() && phase == Failed(job, late) && job.cand == cand && job.prev == previous
      modifies this
      ensures Valid() && phase == Idle(Some(result)) && old(history) <= history
      ensures Outcome(Now(), job, result) && !result.StateInvalid? && !result.Success?
    {
      hide Files, Outcome, Valid;
      if previous.None? {
        DropCandidate(cand, late, job);
        return ReloadFailed;
      }
      var stillValid: bool := *;
      ghost var before := Now();
      ValidFiles();
      Decided(ValidatePrevious(stillValid));
      if !stillValid {
        EndedAsItsStatusSays(before, ValidatePrevious(false), Now(), RollbackFailed);
        return RollbackFailed;
      }
      Others();
      result := GoBack(cand, previous.value, late, job);
    }

    /** Nothing to roll back to: neither a restart nor the next apply should see the candidate. */
    method DropCandidate(cand: nat, ghost late: bool, ghost job: Job)
      requires Valid() && phase == Failed(job, late) && job.cand == cand && job.prev.None?
      modifies this
      ensures Valid() && phase == Idle(Some(ReloadFailed)) && old(history) <= history
      ensures Outcome(Now(), job, ReloadFailed)
    {
      hide Files, Outcome, Valid;
      var unlinked: bool := *;
      UnlinkCurrent(unlinked, Unlink(unlinked));
      RemoveAndEnd(Some(cand), None, RemoveCandidate, job, ReloadFailed);
    }

    method GoBack(cand: nat, previous: nat, late: bool, ghost job: Job) returns (result: Status)
      requires Valid() && phase == Restoring(job, late) && job.cand == cand && job.prev == Some(previous)
      modifies this
      ensures Valid() && phase == Idle(Some(result)) && old(history) <= history
      ensures Outcome(Now(), job, result) && !result.StateInvalid? && !result.Success?
    {
      hide Files, Outcome, Valid;
      SwapCurrentLink(previous, SwapBack);
      var back := ReloadPrevious(job, late);
      if back && late {
        RemoveAndEnd(Some(cand), None, Clean, job, Status.CorazaReloadFailed);
        return Status.CorazaReloadFailed;
      }
      result := if back then ReloadFailedRolledBack else RollbackFailed;
    }

    method ReloadPrevious(ghost job: Job, ghost late: bool) returns (back: bool)
      requires Valid() && phase == Restored(job, late)
      modifies this
      ensures Valid() && old(history) <= history
      ensures phase ==
        if !back then Idle(Some(RollbackFailed))
        else if late then Cleaning(job, None)
        else Idle(Some(ReloadFailedRolledBack))
      ensures phase.Idle? ==> Outcome(Now(), job, phase.last.value)
    {
      hide Files, Outcome, Valid;
      ghost var before := Now();
      ValidFiles();
      back := ReloadHaproxy(RollbackReload(true), RollbackReload(false));
      if phase.Idle? {
        EndedAsItsStatusSays(before, RollbackReload(back), Now(), phase.last.value);
      }
    }
  }
}
