/** The service that writes vhosts and their bindings, row by row. */
module VHostService {
  import opened Wrappers
  import opened VHostRows
  import opened Sorting
  import opened VHostStore
  import opened VHostInvariants

  method NormalizeBackendPayloads(backendUrl: Option<string>, backends: Option<seq<BackendPayload>>, isActive: bool)
    returns (r: Option<seq<Backend>>)
    ensures r == NormalizedAll(Requested(backendUrl, backends), isActive)
    ensures r.Some? ==> BackendsOk(r.value, isActive)
  {
    if backends.None? && backendUrl.None? {
      return None;
    }
    var requested := Requested(backendUrl, backends);
    if requested == [] {
      return None;
    }
    var normalized := [];
    hide Normalized;
    for n := 0 to |requested|
      invariant MapSome(requested[..n], Normalized) == Some(normalized)
    {
      assert requested[..n + 1][..n] == requested[..n];
      var b := Normalized(requested[n]);
      if b.None? {
        assert requested[n] in requested;
        return None;
      }
      normalized := normalized + [b.value];
    }
    assert requested[..|requested|] == requested;
    if isActive && !HasActive(normalized) {
      return None;
    }
    if !AtMostOne(CheckedPaths(normalized)) {
      return None;
    }
    NormalizedIsOk(requested, isActive);
    return Some(normalized);
  }

  class Service {
    var vhosts: map<nat, VHost>
    var bindings: map<nat, PolicyBinding>
    var policies: set<nat>
    var nextVhost: nat
    var nextBinding: nat

    ghost function State(): Store
      reads this
    {
      Store(vhosts, bindings, policies, nextVhost, nextBinding)
    }

    constructor ()
      ensures State() == Store(map[], map[], {}, 1, 1) && Stored(State())
    {
      vhosts, bindings, policies, nextVhost, nextBinding := map[], map[], {}, 1, 1;
    }

    /** Only the one default row is touched: there is at most one. */
    method SyncDefaultPolicyBinding(vhostId: nat, policyId: Option<nat>)
      requires BindingsOk(State())
      modifies `bindings, `nextBinding
      ensures State() == Synced(old(State()), vhostId, policyId)
    {
      if id :| id in bindings && IsDefault(bindings[id], vhostId) {
        OneDefault(State(), vhostId, id);
        if policyId.None? {
          bindings := bindings - {id};
        } else {
          bindings := bindings[id := bindings[id].(policyId := policyId.value)];
        }
        assert bindings == Synced(old(State()), vhostId, policyId).bindings;
      } else {
        if policyId.Some? {
          bindings := bindings[nextBinding := PolicyBinding(vhostId, policyId.value, "/", 0)];
          nextBinding := nextBinding + 1;
        }
        assert bindings == Synced(old(State()), vhostId, policyId).bindings;
      }
    }

    method CreateVhost(q: CreateRequest, issued: Issued) returns (error: Option<Error>)
      requires Stored(State())
      modifies this
      ensures (State(), error) == VHostStore.CreateVhost(old(State()), q, issued)
      ensures Stored(State())
    {
      CreateVhostKeeps(State(), q, issued);
      hide Stored, VhostsOk, Mirrors, Synced, NormalizedAll, BindingsOk, VhostOk;
      if q.policyId.Some? && q.policyId.value !in policies {
        return Some(PolicyNotFound);
      }
      var backends := NormalizeBackendPayloads(q.backendUrl, q.backends, q.isActive);
      if backends.None? {
        return Some(InvalidBackends);
      }
      var cert, key := q.sslCert, q.sslKey;
      if q.sslProvider == "letsencrypt" {
        if issued.None? {
          return Some(ProvisioningFailed);
        }
        cert, key := Some(issued.value.0), Some(issued.value.1);
      }
      if exists id :: id in vhosts && vhosts[id].domain == q.domain {
        return Some(DomainExists);
      }
      var id := nextVhost;
      var v := VHost(id, q.domain, backends.value[0].url, backends.value, q.isActive, q.sslEnabled, q.sslProvider, cert, key, q.policyId);
      AddingKeepsBindings(State(), v);
      vhosts, nextVhost := vhosts[id := v], nextVhost + 1;
      if q.policyId.Some? {
        SyncDefaultPolicyBinding(id, q.policyId);
      }
      return None;
    }

    method UpdateVhost(id: nat, p: Patch, issued: Issued) returns (error: Option<Error>)
      requires Stored(State())
      modifies this
      ensures (State(), error) == VHostStore.UpdateVhost(old(State()), id, p, issued)
      ensures Stored(State())
    {
      UpdateVhostKeeps(State(), id, p, issued);
      hide Stored, VhostsOk, Mirrors, Synced, NormalizedAll, BindingsOk, VhostOk;
      if id !in vhosts {
        return Some(VHostNotFound);
      }
      if SendsForbiddenNull(p) {
        return Some(FieldCannotBeNull);
      }
      var v := vhosts[id];
      if p.policyId.Value? && p.policyId.value !in policies {
        return Some(PolicyNotFound);
      }
      var replacement: Option<seq<Backend>> := None;
      var nextActive := Or(p.isActive, v.isActive);
      if p.backends.Value? || p.backendUrl.Value? {
        replacement := NormalizeBackendPayloads(
          if p.backends.Value? then None else Some(p.backendUrl.value),
          if p.backends.Value? then Some(p.backends.value) else None, nextActive);
        if replacement.None? {
          return Some(InvalidBackends);
        }
      } else if nextActive && !HasActive(v.backends) {
        return Some(InvalidBackends);
      }
      if NeedsCertificate(v, p) && issued.None? {
        return Some(ProvisioningFailed);
      }
      if exists other :: other in vhosts && other != id && vhosts[other].domain == Or(p.domain, v.domain) {
        return Some(DomainExists);
      }
      ChangingKeepsBindings(State(), id, Patched(v, p, replacement, issued));
      vhosts := vhosts[id := Patched(v, p, replacement, issued)];
      if !p.policyId.Absent? {
        SyncDefaultPolicyBinding(id, OrNull(p.policyId, v.policyId));
      }
      return None;
    }

    method DeleteVhost(id: nat) returns (error: Option<Error>)
      requires Stored(State())
      modifies this
      ensures (State(), error) == VHostStore.DeleteVhost(old(State()), id)
      ensures Stored(State())
    {
      DeleteVhostKeeps(State(), id);
      hide Stored;
      if id !in vhosts {
        return Some(VHostNotFound);
      }
      vhosts := vhosts - {id};
      bindings := map b | b in bindings && bindings[b].vhostId != id :: bindings[b];
      return None;
    }

    method CreatePolicyBinding(b: PolicyBinding) returns (error: Option<Error>)
      requires Stored(State())
      modifies this
      ensures (State(), error) == VHostStore.CreateBinding(old(State()), b)
      ensures Stored(State())
    {
      CreateBindingKeeps(State(), b);
      hide Stored;
      if b.vhostId !in vhosts {
        return Some(VHostNotFound);
      }
      if b.policyId !in policies {
        return Some(PolicyNotFound);
      }
      if b.pathPrefix == "" || b.pathPrefix[0] != '/' {
        return Some(InvalidPathPrefix);
      }
      if b.priority < 0 {
        return Some(InvalidPriority);
      }
      if b.pathPrefix == "/" && b.priority == 0 {
        return Some(DefaultManagedByVHost);
      }
      if exists id :: id in bindings && SameSpot(bindings[id], b) {
        return Some(BindingExists);
      }
      bindings, nextBinding := bindings[nextBinding := b], nextBinding + 1;
      return None;
    }

    method DeletePolicyBinding(vhostId: nat, bindingId: nat) returns (error: Option<Error>)
      requires Stored(State())
      modifies this
      ensures (State(), error) == VHostStore.DeleteBinding(old(State()), vhostId, bindingId)
      ensures Stored(State())
    {
      DeleteBindingKeeps(State(), vhostId, bindingId);
      hide Stored;
      if vhostId !in vhosts {
        return Some(VHostNotFound);
      }
      if bindingId !in bindings || bindings[bindingId].vhostId != vhostId {
        return Some(BindingNotFound);
      }
      if bindings[bindingId].pathPrefix == "/" && bindings[bindingId].priority == 0 {
        return Some(DefaultManagedByVHost);
      }
      bindings := bindings - {bindingId};
      return None;
    }

    method DeletePolicy(policyId: nat) returns (error: Option<Error>)
      requires Stored(State())
      modifies this
      ensures (State(), error) == VHostStore.DeletePolicy(old(State()), policyId)
      ensures Stored(State())
    {
      ApplyKeepsStored(State(), OpDeletePolicy(policyId));
      hide Stored;
      if policyId !in policies {
        return Some(PolicyNotFound);
      }
      if exists id :: id in vhosts && vhosts[id].policyId == Some(policyId) {
        return Some(PolicyInUse);
      }
      if exists id :: id in bindings && bindings[id].policyId == policyId {
        return Some(PolicyInUse);
      }
      policies := policies - {policyId};
      return None;
    }
  }

  lemma OneDefault(s: Store, vhostId: nat, id: nat)
    requires BindingsOk(s) && id in s.bindings && IsDefault(s.bindings[id], vhostId)
    ensures forall j :: j in s.bindings && IsDefault(s.bindings[j], vhostId) ==> j == id
  {
    forall j | j in s.bindings && IsDefault(s.bindings[j], vhostId) ensures j == id {
      assert SameSpot(s.bindings[j], s.bindings[id]);
    }
  }

  lemma AddingKeepsBindings(s: Store, v: VHost)
    requires Stored(s)
    ensures BindingsOk(s.(vhosts := s.vhosts[s.nextVhost := v], nextVhost := s.nextVhost + 1))
  {
    hide VhostOk, SameSpot, Mirrors;
  }

  lemma ChangingKeepsBindings(s: Store, id: nat, v: VHost)
    requires Stored(s)
    ensures BindingsOk(s.(vhosts := s.vhosts[id := v]))
  {
    hide VhostOk, SameSpot, Mirrors;
  }
}
