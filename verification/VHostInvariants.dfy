/** What every sequence of vhost, binding and policy operations keeps, and what the generator gains from it. */
module VHostInvariants {
  import opened Wrappers
  import opened VHostRows
  import opened VHostStore

  predicate BackendOk(b: Backend) {
    HttpUrl(b.url) && b.healthCheckPath != "" && b.healthCheckPath[0] == '/' && b.interval > 0 && b.fall > 0 && b.rise > 0
  }

  predicate BackendsOk(backends: seq<Backend>, isActive: bool) {
    && backends != []
    && (forall b :: b in backends ==> BackendOk(b))
    && (isActive ==> HasActive(backends))
    && AtMostOne(CheckedPaths(backends))
  }

  ghost predicate VhostOk(v: VHost) {
    BackendsOk(v.backends, v.isActive) && v.backendUrl == v.backends[0].url
  }

  ghost predicate VhostsOk(s: Store) {
    && (forall id :: id in s.vhosts ==> s.vhosts[id].id == id && id < s.nextVhost && VhostOk(s.vhosts[id]))
    && (forall id :: id in s.vhosts ==> PolicyKnown(s, s.vhosts[id].policyId))
    && (forall i, j :: i in s.vhosts && j in s.vhosts && s.vhosts[i].domain == s.vhosts[j].domain ==> i == j)
  }

  predicate SameSpot(a: PolicyBinding, b: PolicyBinding) {
    a.vhostId == b.vhostId && a.pathPrefix == b.pathPrefix && a.priority == b.priority
  }

  ghost predicate BindingsOk(s: Store) {
    && (forall id :: id in s.bindings ==> id < s.nextBinding && s.bindings[id].vhostId in s.vhosts && s.bindings[id].policyId in s.policies)
    && (forall id :: id in s.bindings ==>
          s.bindings[id].pathPrefix != "" && s.bindings[id].pathPrefix[0] == '/' && s.bindings[id].priority >= 0)
    && (forall i, j :: i in s.bindings && j in s.bindings && SameSpot(s.bindings[i], s.bindings[j]) ==> i == j)
  }

  /** The default binding of a vhost names a policy. */
  ghost predicate DefaultNames(s: Store, vhostId: nat, policyId: nat) {
    exists id :: id in s.bindings && IsDefault(s.bindings[id], vhostId) && s.bindings[id].policyId == policyId
  }

  /** A vhost has a default binding exactly when it has a policy, and it names that policy. */
  ghost predicate Mirrors(s: Store) {
    forall v: nat, p: nat | v in s.vhosts :: DefaultNames(s, v, p) <==> s.vhosts[v].policyId == Some(p)
  }

  ghost predicate Stored(s: Store) {
    VhostsOk(s) && BindingsOk(s) && Mirrors(s)
  }

  lemma NormalizedIsOk(requested: seq<BackendPayload>, isActive: bool)
    requires NormalizedAll(requested, isActive).Some?
    ensures BackendsOk(NormalizedAll(requested, isActive).value, isActive)
  {
    var backends := NormalizedAll(requested, isActive).value;
    forall i | 0 <= i < |backends| ensures BackendOk(backends[i]) {
      assert Normalized(requested[i]) == Some(backends[i]);
    }
  }

  lemma SyncedBindingsOk(s: Store, vhostId: nat, policyId: Option<nat>)
    requires BindingsOk(s) && vhostId in s.vhosts && PolicyKnown(s, policyId)
    ensures BindingsOk(Synced(s, vhostId, policyId))
  {
  }

  lemma SyncedNames(s: Store, vhostId: nat, policyId: Option<nat>, p: nat)
    requires BindingsOk(s)
    ensures DefaultNames(Synced(s, vhostId, policyId), vhostId, p) <==> policyId == Some(p)
  {
    var t := Synced(s, vhostId, policyId);
    if policyId == Some(p) {
      if HasDefault(s.bindings, vhostId) {
        var id :| id in s.bindings && IsDefault(s.bindings[id], vhostId);
        assert IsDefault(t.bindings[id], vhostId) && t.bindings[id].policyId == p;
      } else {
        assert IsDefault(t.bindings[s.nextBinding], vhostId);
      }
    }
  }

  lemma SyncedOthers(s: Store, vhostId: nat, policyId: Option<nat>, v: nat, p: nat)
    requires v != vhostId && BindingsOk(s)
    ensures DefaultNames(Synced(s, vhostId, policyId), v, p) <==> DefaultNames(s, v, p)
  {
    SameDefaults(s, Synced(s, vhostId, policyId), v, p);
  }

  /** Everything but one vhost's default binding is left alone. */
  lemma SyncedKeeps(s: Store, vhostId: nat, policyId: Option<nat>)
    requires BindingsOk(s) && vhostId in s.vhosts && PolicyKnown(s, policyId)
    ensures BindingsOk(Synced(s, vhostId, policyId))
    ensures forall p: nat :: DefaultNames(Synced(s, vhostId, policyId), vhostId, p) <==> policyId == Some(p)
    ensures forall v: nat, p: nat :: v != vhostId ==> (DefaultNames(Synced(s, vhostId, policyId), v, p) <==> DefaultNames(s, v, p))
  {
    SyncedBindingsOk(s, vhostId, policyId);
    hide Synced, BindingsOk, DefaultNames;
    forall p: nat ensures DefaultNames(Synced(s, vhostId, policyId), vhostId, p) <==> policyId == Some(p) {
      SyncedNames(s, vhostId, policyId, p);
    }
    forall v: nat, p: nat | v != vhostId ensures DefaultNames(Synced(s, vhostId, policyId), v, p) <==> DefaultNames(s, v, p) {
      SyncedOthers(s, vhostId, policyId, v, p);
    }
  }

  lemma SameDefaults(s: Store, t: Store, v: nat, p: nat)
    requires forall id :: id in s.bindings && IsDefault(s.bindings[id], v) ==> id in t.bindings && t.bindings[id] == s.bindings[id]
    requires forall id :: id in t.bindings && IsDefault(t.bindings[id], v) ==> id in s.bindings && t.bindings[id] == s.bindings[id]
    ensures DefaultNames(s, v, p) <==> DefaultNames(t, v, p)
  {
  }

  lemma NoBindingsNoDefault(s: Store, v: nat)
    requires BindingsOk(s) && v !in s.vhosts
    ensures forall p: nat :: !DefaultNames(s, v, p)
  {
  }

  /** Saving a vhost leaves the bindings as they are, so the others stay mirrored. */
  lemma SaveMirrors(s: Store, t: Store, id: nat)
    requires BindingsOk(s) && Mirrors(s) && BindingsOk(t) && id in t.vhosts && t.bindings == s.bindings
    requires PolicyKnown(t, t.vhosts[id].policyId)
    requires forall v :: v in t.vhosts && v != id ==> v in s.vhosts && s.vhosts[v] == t.vhosts[v]
    ensures Mirrors(Synced(t, id, t.vhosts[id].policyId))
    ensures (if id in s.vhosts then s.vhosts[id].policyId == t.vhosts[id].policyId else t.vhosts[id].policyId.None?) ==> Mirrors(t)
  {
    SyncedKeeps(t, id, t.vhosts[id].policyId);
    assert Synced(t, id, t.vhosts[id].policyId).vhosts == t.vhosts;
    forall v: nat, p: nat ensures DefaultNames(s, v, p) <==> DefaultNames(t, v, p) {
      SameDefaults(s, t, v, p);
    }
    if id !in s.vhosts {
      NoBindingsNoDefault(s, id);
    }
    hide BindingsOk, DefaultNames, Synced;
  }

  lemma SaveKeepsStored(s: Store, t: Store, id: nat)
    requires Stored(s) && VhostsOk(t) && BindingsOk(t) && id in t.vhosts && t.bindings == s.bindings
    requires forall v :: v in t.vhosts && v != id ==> v in s.vhosts && s.vhosts[v] == t.vhosts[v]
    ensures Stored(Synced(t, id, t.vhosts[id].policyId))
    ensures (if id in s.vhosts then s.vhosts[id].policyId == t.vhosts[id].policyId else t.vhosts[id].policyId.None?) ==> Stored(t)
  {
    assert PolicyKnown(t, t.vhosts[id].policyId);
    SaveMirrors(s, t, id);
    SyncedKeeps(t, id, t.vhosts[id].policyId);
    SyncedVhostsOk(t, id, t.vhosts[id].policyId);
    hide VhostsOk, BindingsOk, Mirrors, Synced;
  }

  lemma SyncedVhostsOk(s: Store, id: nat, policyId: Option<nat>)
    requires VhostsOk(s)
    ensures VhostsOk(Synced(s, id, policyId))
  {
    var t := Synced(s, id, policyId);
    assert t.vhosts == s.vhosts && t.policies == s.policies && t.nextVhost == s.nextVhost;
    hide Synced, VhostOk;
  }

  /** One more or one changed vhost that is fine by itself. */
  lemma SavedVhostsOk(s: Store, t: Store, id: nat, v: VHost)
    requires VhostsOk(s) && BindingsOk(s) && (id in s.vhosts || id == s.nextVhost) && VhostOk(v) && v.id == id
    requires PolicyKnown(s, v.policyId) && !DomainTaken(s, v.domain, if id in s.vhosts then Some(id) else None)
    requires t == s.(vhosts := s.vhosts[id := v], nextVhost := if id in s.vhosts then s.nextVhost else s.nextVhost + 1)
    ensures VhostsOk(t) && BindingsOk(t)
  {
    hide VhostOk, SameSpot;
  }

  lemma CreateVhostKeeps(s: Store, q: CreateRequest, issued: Issued)
    requires Stored(s)
    ensures Stored(CreateVhost(s, q, issued).0)
  {
    var (t, error) := CreateVhost(s, q, issued);
    if error.None? {
      NormalizedIsOk(Requested(q.backendUrl, q.backends), q.isActive);
      var backends := NormalizedAll(Requested(q.backendUrl, q.backends), q.isActive).value;
      var reissued := q.sslProvider == "letsencrypt";
      var v := VHost(s.nextVhost, q.domain, backends[0].url, backends, q.isActive, q.sslEnabled, q.sslProvider,
                     if reissued then Some(issued.value.0) else q.sslCert, if reissued then Some(issued.value.1) else q.sslKey, q.policyId);
      var added := s.(vhosts := s.vhosts[s.nextVhost := v], nextVhost := s.nextVhost + 1);
      assert s.nextVhost !in s.vhosts;
      assert t == if q.policyId.Some? then Synced(added, s.nextVhost, q.policyId) else added;
      hide NormalizedAll, BackendsOk, Synced, BindingsOk, VhostsOk, Mirrors, CreateVhost;
      SavedVhostsOk(s, added, s.nextVhost, v);
      SaveKeepsStored(s, added, s.nextVhost);
    }
  }

  lemma PatchedIsOk(v: VHost, p: Patch, issued: Issued)
    requires VhostOk(v) && PatchedBackends(v, p) != Some(None)
    ensures var change := PatchedBackends(v, p);
            var replacement := if change.Some? then change.value else None;
            (replacement.Some? ==> replacement.value != []) && VhostOk(Patched(v, p, replacement, issued))
  {
    var nextActive := Or(p.isActive, v.isActive);
    if p.backends.Value? {
      NormalizedIsOk(p.backends.value, nextActive);
    } else if p.backendUrl.Value? {
      NormalizedIsOk(Requested(Some(p.backendUrl.value), None), nextActive);
    }
  }

  lemma UpdateVhostKeeps(s: Store, id: nat, p: Patch, issued: Issued)
    requires Stored(s)
    ensures Stored(UpdateVhost(s, id, p, issued).0)
  {
    var (t, error) := UpdateVhost(s, id, p, issued);
    if error.None? {
      var v := s.vhosts[id];
      PatchedIsOk(v, p, issued);
      var change := PatchedBackends(v, p);
      var v' := Patched(v, p, if change.Some? then change.value else None, issued);
      var saved := s.(vhosts := s.vhosts[id := v']);
      assert t == if p.policyId.Absent? then saved else Synced(saved, id, v'.policyId);
      assert v'.id == id && v'.domain == Or(p.domain, v.domain) && PolicyKnown(s, v'.policyId);
      hide VhostOk, PatchedBackends, NeedsCertificate, Patched, Synced, BindingsOk, VhostsOk, Mirrors, UpdateVhost;
      SavedVhostsOk(s, saved, id, v');
      SaveKeepsStored(s, saved, id);
    }
  }

  lemma MirrorsByDefaults(s: Store, t: Store)
    requires Mirrors(s)
    requires forall v :: v in t.vhosts ==> v in s.vhosts && t.vhosts[v] == s.vhosts[v]
    requires forall v: nat, p: nat :: v in t.vhosts ==> (DefaultNames(s, v, p) <==> DefaultNames(t, v, p))
    ensures Mirrors(t)
  {
    hide DefaultNames;
  }

  lemma DeleteVhostKeeps(s: Store, id: nat)
    requires Stored(s)
    ensures Stored(DeleteVhost(s, id).0)
  {
    var t := DeleteVhost(s, id).0;
    if id in s.vhosts {
      assert VhostsOk(t) && BindingsOk(t) by {
        hide VhostOk, IsDefault;
      }
      hide VhostsOk, BindingsOk, DefaultNames;
      forall v: nat, p: nat | v in t.vhosts ensures DefaultNames(s, v, p) <==> DefaultNames(t, v, p) {
        SameDefaults(s, t, v, p);
      }
      hide DeleteVhost;
      MirrorsByDefaults(s, t);
    }
  }

  lemma BindingAddedOk(s: Store, b: PolicyBinding)
    requires BindingsOk(s) && CreateBinding(s, b).1.None?
    ensures BindingsOk(CreateBinding(s, b).0)
  {
  }

  lemma VhostsKept(s: Store, t: Store)
    requires VhostsOk(s) && t.vhosts == s.vhosts && t.policies == s.policies && t.nextVhost == s.nextVhost
    ensures VhostsOk(t)
  {
    hide VhostOk;
  }

  lemma CreateBindingKeeps(s: Store, b: PolicyBinding)
    requires Stored(s)
    ensures Stored(CreateBinding(s, b).0)
  {
    var (t, error) := CreateBinding(s, b);
    if error.None? {
      BindingAddedOk(s, b);
      VhostsKept(s, t);
      assert s.nextBinding !in s.bindings;
      hide VhostsOk, BindingsOk, DefaultNames;
      forall v: nat, p: nat ensures DefaultNames(s, v, p) <==> DefaultNames(t, v, p) {
        SameDefaults(s, t, v, p);
      }
      hide CreateBinding;
      MirrorsByDefaults(s, t);
    }
  }

  lemma DeleteBindingKeeps(s: Store, vhostId: nat, bindingId: nat)
    requires Stored(s)
    ensures Stored(DeleteBinding(s, vhostId, bindingId).0)
  {
    var (t, error) := DeleteBinding(s, vhostId, bindingId);
    if error.None? {
      VhostsKept(s, t);
      assert BindingsOk(t) by {
        hide IsDefault;
      }
      hide VhostsOk, BindingsOk, DefaultNames;
      forall v: nat, p: nat ensures DefaultNames(s, v, p) <==> DefaultNames(t, v, p) {
        SameDefaults(s, t, v, p);
      }
      hide DeleteBinding;
      MirrorsByDefaults(s, t);
    }
  }

  lemma PolicyChangeKeeps(s: Store, policies: set<nat>)
    requires Stored(s)
    requires forall p :: p in s.policies && p !in policies ==> !PolicyAssigned(s, p)
    ensures Stored(s.(policies := policies))
  {
    var t := s.(policies := policies);
    assert VhostsOk(t) && BindingsOk(t) by {
      hide VhostOk, SameSpot, IsDefault;
    }
    hide VhostsOk, BindingsOk, DefaultNames, PolicyAssigned;
    forall v: nat, p: nat ensures DefaultNames(s, v, p) <==> DefaultNames(t, v, p) {
      SameDefaults(s, t, v, p);
    }
    MirrorsByDefaults(s, t);
  }

  lemma ApplyKeepsStored(s: Store, op: Operation)
    requires Stored(s)
    ensures Stored(Apply(s, op).0)
  {
    hide Stored, CreateVhost, UpdateVhost, DeleteVhost, CreateBinding, DeleteBinding;
    match op
    case OpCreateVhost(q, issued) => CreateVhostKeeps(s, q, issued);
    case OpUpdateVhost(id, p, issued) => UpdateVhostKeeps(s, id, p, issued);
    case OpDeleteVhost(id) => DeleteVhostKeeps(s, id);
    case OpCreateBinding(b) => CreateBindingKeeps(s, b);
    case OpDeleteBinding(v, b) => DeleteBindingKeeps(s, v, b);
    case OpCreatePolicy(p) => PolicyChangeKeeps(s, s.policies + {p});
    case OpDeletePolicy(p) =>
      if DeletePolicy(s, p).1.None? {
        PolicyChangeKeeps(s, s.policies - {p});
      }
  }

  /** After any operations, whatever they return. */
  lemma {:induction false} RunsKeepStored(s: Store, ops: seq<Operation>)
    requires Stored(s)
    ensures Stored(Run(s, ops))
  {
    if ops != [] {
      RunsKeepStored(s, ops[..|ops| - 1]);
      ApplyKeepsStored(Run(s, ops[..|ops| - 1]), ops[|ops| - 1]);
    }
  }

  lemma RunsFromEmptyAreStored(ops: seq<Operation>)
    ensures Stored(Run(Store(map[], map[], {}, 1, 1), ops))
  {
    RunsKeepStored(Store(map[], map[], {}, 1, 1), ops);
  }

  // --- what one operation undoes -------------------------------------------

  /** Deleting a vhost that was just created leaves no trace in any table. */
  lemma DeleteUndoesCreate(s: Store, q: CreateRequest, issued: Issued)
    requires Stored(s) && CreateVhost(s, q, issued).1.None?
    ensures var t := DeleteVhost(CreateVhost(s, q, issued).0, s.nextVhost);
            t.1.None? && t.0.vhosts == s.vhosts && t.0.bindings == s.bindings && t.0.policies == s.policies
  {
    var created := CreateVhost(s, q, issued).0;
    hide NormalizedAll, VhostOk, SameSpot;
    assert s.nextVhost !in s.vhosts;
    assert !HasDefault(s.bindings, s.nextVhost);
    assert created.vhosts - {s.nextVhost} == s.vhosts;
    assert s.nextBinding !in s.bindings;
  }

  lemma DeleteUndoesCreateBinding(s: Store, b: PolicyBinding)
    requires Stored(s) && CreateBinding(s, b).1.None?
    ensures var t := DeleteBinding(CreateBinding(s, b).0, b.vhostId, s.nextBinding);
            t.1.None? && t.0.vhosts == s.vhosts && t.0.bindings == s.bindings && t.0.policies == s.policies
  {
    hide VhostOk, SameSpot;
    assert s.nextBinding !in s.bindings;
  }

  predicate Updatable(s: Store, id: nat, p: Patch, issued: Issued) {
    && id in s.vhosts && !SendsForbiddenNull(p) && (p.policyId.Value? ==> p.policyId.value in s.policies)
    && PatchedBackends(s.vhosts[id], p) != Some(None)
    && (NeedsCertificate(s.vhosts[id], p) ==> issued.Some?)
    && !DomainTaken(s, Or(p.domain, s.vhosts[id].domain), Some(id))
  }

  /** The new row: the patch's values where it has them. */
  function NewRow(v: VHost, p: Patch, issued: Issued): VHost
    requires VhostOk(v) && PatchedBackends(v, p) != Some(None)
  {
    PatchedIsOk(v, p, issued);
    Patched(v, p, if PatchedBackends(v, p).Some? then PatchedBackends(v, p).value else None, issued)
  }

  function WithRow(s: Store, v: VHost, policySent: bool): Store {
    var saved := s.(vhosts := s.vhosts[v.id := v]);
    if policySent then Synced(saved, v.id, v.policyId) else saved
  }

  lemma UpdateUnfolds(s: Store, id: nat, p: Patch, issued: Issued)
    requires Stored(s)
    ensures UpdateVhost(s, id, p, issued).1.None? <==> Updatable(s, id, p, issued)
    ensures !Updatable(s, id, p, issued) ==> UpdateVhost(s, id, p, issued).0 == s
    ensures Updatable(s, id, p, issued) ==>
      UpdateVhost(s, id, p, issued).0 == WithRow(s, NewRow(s.vhosts[id], p, issued), !p.policyId.Absent?)
  {
    hide VhostOk, SameSpot, PatchedBackends, NeedsCertificate, Synced, DomainTaken, BindingsOk, Mirrors;
  }

  lemma WithRowTwice(s: Store, v: VHost, policySent: bool)
    requires Stored(s) && v.id in s.vhosts && s.vhosts[v.id] == v
    ensures WithRow(s, v, policySent) == s
  {
    SyncedTwice(s, v.id, v.policyId);
    hide VhostsOk, BindingsOk, Mirrors, Synced;
    assert s.vhosts[v.id := v] == s.vhosts;
  }

  /** Sending the same patch again changes nothing. */
  lemma UpdateTwiceIsOnce(s: Store, id: nat, p: Patch, issued: Issued)
    requires Stored(s) && UpdateVhost(s, id, p, issued).1.None?
    ensures var once := UpdateVhost(s, id, p, issued).0;
            UpdateVhost(once, id, p, issued) == (once, None)
  {
    hide UpdateVhost, VhostOk, BindingsOk, Mirrors, PatchedBackends, NeedsCertificate, Patched, Synced;
    UpdateVhostKeeps(s, id, p, issued);
    UpdateUnfolds(s, id, p, issued);
    var once := UpdateVhost(s, id, p, issued).0;
    var v, w := s.vhosts[id], NewRow(s.vhosts[id], p, issued);
    RowAfterUpdate(s, v, p, issued);
    PatchedTwice(v, p, issued);
    UpdateUnfolds(once, id, p, issued);
    WithRowTwice(once, w, !p.policyId.Absent?);
  }

  lemma RowAfterUpdate(s: Store, v: VHost, p: Patch, issued: Issued)
    requires Stored(s) && v.id in s.vhosts && s.vhosts[v.id] == v && PatchedBackends(v, p) != Some(None)
    ensures var w := NewRow(v, p, issued);
            var t := WithRow(s, w, !p.policyId.Absent?);
            && w.id == v.id && t.vhosts == s.vhosts[v.id := w] && t.policies == s.policies
            && w.domain == Or(p.domain, v.domain) == Or(p.domain, w.domain)
  {
    hide VhostOk, PatchedBackends, NeedsCertificate, BindingsOk, Mirrors;
  }

  /** An update touches the one vhost and its one default binding. */
  lemma UpdateTouchesOne(s: Store, id: nat, p: Patch, issued: Issued, other: nat, b: nat)
    requires Stored(s) && other != id
    ensures var t := UpdateVhost(s, id, p, issued).0;
            && (other in t.vhosts <==> other in s.vhosts) && (other in s.vhosts ==> t.vhosts[other] == s.vhosts[other])
            && (b in s.bindings && !IsDefault(s.bindings[b], id) ==> b in t.bindings && t.bindings[b] == s.bindings[b])
  {
    UpdateUnfolds(s, id, p, issued);
    assert b in s.bindings ==> b != s.nextBinding;
    hide UpdateVhost, VhostsOk, BindingsOk, Mirrors, Synced, NewRow, Patched, WithRow, IsDefault;
    if Updatable(s, id, p, issued) {
      RowAfterUpdate(s, s.vhosts[id], p, issued);
      WithRowTouchesOne(s, NewRow(s.vhosts[id], p, issued), !p.policyId.Absent?, other, b);
    }
  }

  lemma WithRowTouchesOne(s: Store, v: VHost, policySent: bool, other: nat, b: nat)
    requires other != v.id && (b in s.bindings ==> b != s.nextBinding)
    ensures var t := WithRow(s, v, policySent);
            && (other in t.vhosts <==> other in s.vhosts) && (other in s.vhosts ==> t.vhosts[other] == s.vhosts[other])
            && (b in s.bindings && !IsDefault(s.bindings[b], v.id) ==> b in t.bindings && t.bindings[b] == s.bindings[b])
  {
  }

  lemma PatchedTwice(v: VHost, p: Patch, issued: Issued)
    requires VhostOk(v) && PatchedBackends(v, p) != Some(None)
    ensures var change := PatchedBackends(v, p);
            var replacement := if change.Some? then change.value else None;
            && (replacement.Some? ==> replacement.value != [])
            && var w := Patched(v, p, replacement, issued);
               && PatchedBackends(w, p) == change
               && Patched(w, p, replacement, issued) == w
               && NeedsCertificate(w, p) == NeedsCertificate(v, p)
  {
    PatchedIsOk(v, p, issued);
    hide NormalizedAll;
  }

  lemma SyncedTwice(s: Store, id: nat, policyId: Option<nat>)
    requires Stored(s) && id in s.vhosts && s.vhosts[id].policyId == policyId
    ensures Synced(s, id, policyId) == s
  {
    hide VhostOk, SameSpot;
    if policyId.Some? {
      assert DefaultNames(s, id, policyId.value);
      var d :| d in s.bindings && IsDefault(s.bindings[d], id) && s.bindings[d].policyId == policyId.value;
      forall b | b in s.bindings && IsDefault(s.bindings[b], id) ensures s.bindings[b].policyId == policyId.value {
        assert DefaultNames(s, id, s.bindings[b].policyId);
      }
      assert Synced(s, id, policyId).bindings == s.bindings;
    } else {
      forall b | b in s.bindings ensures !IsDefault(s.bindings[b], id) {
        assert !DefaultNames(s, id, s.bindings[b].policyId);
      }
      assert Synced(s, id, policyId).bindings == s.bindings;
    }
  }
}
