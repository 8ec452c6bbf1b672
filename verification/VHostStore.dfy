/**
 The vhost and binding tables and the write rules of the service, each
 operation as a function from tables to tables. A failed operation leaves the
 tables as they were.
 */
module VHostStore {
  import opened Wrappers
  import opened VHostRows
  import opened Sorting

  /** A field of a PATCH body. */
  datatype Sent<T> = Absent | Null | Value(value: T)

  datatype BackendPayload = BackendPayload(
    url: string, isActive: bool, healthCheckEnabled: bool, healthCheckPath: string, interval: int, fall: int, rise: int)

  datatype CreateRequest = CreateRequest(
    domain: string, backendUrl: Option<string>, backends: Option<seq<BackendPayload>>, isActive: bool,
    sslEnabled: bool, sslProvider: string, sslCert: Option<string>, sslKey: Option<string>, policyId: Option<nat>)

  datatype Patch = Patch(
    domain: Sent<string>, backendUrl: Sent<string>, backends: Sent<seq<BackendPayload>>, isActive: Sent<bool>,
    sslEnabled: Sent<bool>, sslProvider: Sent<string>, sslCert: Sent<string>, sslKey: Sent<string>, policyId: Sent<nat>)

  datatype Store = Store(
    vhosts: map<nat, VHost>, bindings: map<nat, PolicyBinding>, policies: set<nat>, nextVhost: nat, nextBinding: nat)

  datatype Error =
    | VHostNotFound | DomainExists | FieldCannotBeNull | PolicyNotFound | InvalidBackends | ProvisioningFailed
    | BindingNotFound | BindingExists | DefaultManagedByVHost | InvalidPathPrefix | InvalidPriority | PolicyInUse

  /** A certificate and its key, if the authority issued them. */
  type Issued = Option<(string, string)>

  // --- backends ------------------------------------------------------------

  predicate IsSpace(c: char) {
    c == ' ' || '\t' <= c <= '\r'
  }

  function Strip(s: string): (r: string)
    ensures |r| <= |s|
    decreases |s|
  {
    if s == "" then ""
    else if IsSpace(s[0]) then Strip(s[1..])
    else if IsSpace(s[|s| - 1]) then Strip(s[..|s| - 1])
    else s
  }

  predicate HttpUrl(url: string) {
    "http://" <= url || "https://" <= url
  }

  /** One backend as it is stored, if it is acceptable. */
  function Normalized(p: BackendPayload): Option<Backend> {
    var url := Strip(p.url);
    var path := if Strip(p.healthCheckPath) == "" then "/" else Strip(p.healthCheckPath);
    if !HttpUrl(url) || path[0] != '/' || p.interval <= 0 || p.fall <= 0 || p.rise <= 0 then None
    else Some(Backend(url, p.isActive, p.healthCheckEnabled, path, p.interval, p.fall, p.rise))
  }

  /** A legacy backend_url stands for one backend with the defaults. */
  function Requested(backendUrl: Option<string>, backends: Option<seq<BackendPayload>>): seq<BackendPayload> {
    match (backends, backendUrl)
    case (Some(list), _) => list
    case (None, Some(url)) => [BackendPayload(url, true, true, "/", 5, 3, 2)]
    case (None, None) => []
  }

  function NormalizedAll(requested: seq<BackendPayload>, isActive: bool): Option<seq<Backend>> {
    var all := MapSome(requested, Normalized);
    if requested == [] || all.None? || (isActive && !HasActive(all.value)) || !AtMostOne(CheckedPaths(all.value)) then None
    else all
  }

  // --- the default binding -------------------------------------------------

  /** The binding that mirrors a vhost's own policy. */
  predicate IsDefault(b: PolicyBinding, vhostId: nat) {
    b.vhostId == vhostId && b.pathPrefix == "/" && b.priority == 0
  }

  predicate HasDefault(bindings: map<nat, PolicyBinding>, vhostId: nat) {
    exists id :: id in bindings && IsDefault(bindings[id], vhostId)
  }

  function Synced(s: Store, vhostId: nat, policyId: Option<nat>): Store {
    match policyId
    case None =>
      s.(bindings := map id | id in s.bindings && !IsDefault(s.bindings[id], vhostId) :: s.bindings[id])
    case Some(p) =>
      if HasDefault(s.bindings, vhostId) then
        s.(bindings := map id | id in s.bindings ::
             if IsDefault(s.bindings[id], vhostId) then s.bindings[id].(policyId := p) else s.bindings[id])
      else
        s.(bindings := s.bindings[s.nextBinding := PolicyBinding(vhostId, p, "/", 0)], nextBinding := s.nextBinding + 1)
  }

  // --- operations ----------------------------------------------------------

  predicate DomainTaken(s: Store, domain: string, except: Option<nat>) {
    exists id :: id in s.vhosts && Some(id) != except && s.vhosts[id].domain == domain
  }

  predicate PolicyKnown(s: Store, policyId: Option<nat>) {
    policyId.Some? ==> policyId.value in s.policies
  }

  function CreateVhost(s: Store, q: CreateRequest, issued: Issued): (Store, Option<Error>) {
    var backends := NormalizedAll(Requested(q.backendUrl, q.backends), q.isActive);
    if !PolicyKnown(s, q.policyId) then (s, Some(PolicyNotFound))
    else if backends.None? then (s, Some(InvalidBackends))
    else if q.sslProvider == "letsencrypt" && issued.None? then (s, Some(ProvisioningFailed))
    else if DomainTaken(s, q.domain, None) then (s, Some(DomainExists))
    else
      var reissued := q.sslProvider == "letsencrypt";
      var v := VHost(s.nextVhost, q.domain, backends.value[0].url, backends.value, q.isActive, q.sslEnabled, q.sslProvider,
                     if reissued then Some(issued.value.0) else q.sslCert, if reissued then Some(issued.value.1) else q.sslKey, q.policyId);
      var added := s.(vhosts := s.vhosts[s.nextVhost := v], nextVhost := s.nextVhost + 1);
      (if q.policyId.Some? then Synced(added, s.nextVhost, q.policyId) else added, None)
  }

  predicate SendsForbiddenNull(p: Patch) {
    p.domain.Null? || p.backendUrl.Null? || p.backends.Null? || p.sslEnabled.Null? || p.sslProvider.Null? || p.isActive.Null?
  }

  function Or<T>(field: Sent<T>, stored: T): T {
    if field.Value? then field.value else stored
  }

  function OrNull<T>(field: Sent<T>, stored: Option<T>): Option<T> {
    match field
    case Absent => stored
    case Null => None
    case Value(value) => Some(value)
  }

  /** Whether the backends change, and to what; an inner None is a refusal. */
  function PatchedBackends(v: VHost, p: Patch): Option<Option<seq<Backend>>> {
    var nextActive := Or(p.isActive, v.isActive);
    if p.backends.Value? then Some(NormalizedAll(p.backends.value, nextActive))
    else if p.backendUrl.Value? then Some(NormalizedAll(Requested(Some(p.backendUrl.value), None), nextActive))
    else if nextActive && !HasActive(v.backends) then Some(None)
    else None
  }

  predicate NeedsCertificate(v: VHost, p: Patch) {
    (!p.sslProvider.Absent? || !p.sslCert.Absent?) && Or(p.sslProvider, v.sslProvider) == "letsencrypt"
  }

  function Patched(v: VHost, p: Patch, change: Option<seq<Backend>>, issued: Issued): VHost
    requires change.Some? ==> change.value != []
  {
    var reissued := NeedsCertificate(v, p) && issued.Some?;
    v.(
      domain := Or(p.domain, v.domain),
      backends := if change.Some? then change.value else v.backends,
      backendUrl := if change.Some? then change.value[0].url else v.backendUrl,
      isActive := Or(p.isActive, v.isActive), sslEnabled := Or(p.sslEnabled, v.sslEnabled),
      sslProvider := Or(p.sslProvider, v.sslProvider),
      sslCert := if reissued then Some(issued.value.0) else OrNull(p.sslCert, v.sslCert),
      sslKey := if reissued then Some(issued.value.1) else OrNull(p.sslKey, v.sslKey),
      policyId := OrNull(p.policyId, v.policyId))
  }

  function UpdateVhost(s: Store, id: nat, p: Patch, issued: Issued): (Store, Option<Error>) {
    if id !in s.vhosts then (s, Some(VHostNotFound))
    else if SendsForbiddenNull(p) then (s, Some(FieldCannotBeNull))
    else
      var v := s.vhosts[id];
      var change := PatchedBackends(v, p);
      if p.policyId.Value? && p.policyId.value !in s.policies then (s, Some(PolicyNotFound))
      else if change == Some(None) then (s, Some(InvalidBackends))
      else if NeedsCertificate(v, p) && issued.None? then (s, Some(ProvisioningFailed))
      else if DomainTaken(s, Or(p.domain, v.domain), Some(id)) then (s, Some(DomainExists))
      else
        var replacement := if change.Some? then change.value else None;
        var saved := s.(vhosts := s.vhosts[id := Patched(v, p, replacement, issued)]);
        (if p.policyId.Absent? then saved else Synced(saved, id, OrNull(p.policyId, v.policyId)), None)
  }

  /** Deleting a vhost deletes its bindings with it. */
  function DeleteVhost(s: Store, id: nat): (Store, Option<Error>) {
    if id !in s.vhosts then (s, Some(VHostNotFound))
    else
      (s.(vhosts := s.vhosts - {id},
          bindings := map b | b in s.bindings && s.bindings[b].vhostId != id :: s.bindings[b]), None)
  }

  predicate BindingTaken(s: Store, b: PolicyBinding) {
    exists id :: id in s.bindings && s.bindings[id].vhostId == b.vhostId
      && s.bindings[id].pathPrefix == b.pathPrefix && s.bindings[id].priority == b.priority
  }

  function CreateBinding(s: Store, b: PolicyBinding): (Store, Option<Error>) {
    if b.vhostId !in s.vhosts then (s, Some(VHostNotFound))
    else if b.policyId !in s.policies then (s, Some(PolicyNotFound))
    else if b.pathPrefix == "" || b.pathPrefix[0] != '/' then (s, Some(InvalidPathPrefix))
    else if b.priority < 0 then (s, Some(InvalidPriority))
    else if IsDefault(b, b.vhostId) then (s, Some(DefaultManagedByVHost))
    else if BindingTaken(s, b) then (s, Some(BindingExists))
    else (s.(bindings := s.bindings[s.nextBinding := b], nextBinding := s.nextBinding + 1), None)
  }

  function DeleteBinding(s: Store, vhostId: nat, bindingId: nat): (Store, Option<Error>) {
    if vhostId !in s.vhosts then (s, Some(VHostNotFound))
    else if bindingId !in s.bindings || s.bindings[bindingId].vhostId != vhostId then (s, Some(BindingNotFound))
    else if IsDefault(s.bindings[bindingId], vhostId) then (s, Some(DefaultManagedByVHost))
    else (s.(bindings := s.bindings - {bindingId}), None)
  }

  predicate PolicyAssigned(s: Store, policyId: nat) {
    || (exists id :: id in s.vhosts && s.vhosts[id].policyId == Some(policyId))
    || (exists id :: id in s.bindings && s.bindings[id].policyId == policyId)
  }

  function DeletePolicy(s: Store, policyId: nat): (Store, Option<Error>) {
    if policyId !in s.policies then (s, Some(PolicyNotFound))
    else if PolicyAssigned(s, policyId) then (s, Some(PolicyInUse))
    else (s.(policies := s.policies - {policyId}), None)
  }

  datatype Operation =
    | OpCreateVhost(request: CreateRequest, issued: Issued)
    | OpUpdateVhost(vhostId: nat, patch: Patch, issued: Issued)
    | OpDeleteVhost(vhostId: nat)
    | OpCreateBinding(binding: PolicyBinding)
    | OpDeleteBinding(vhostId: nat, bindingId: nat)
    | OpCreatePolicy(policyId: nat)
    | OpDeletePolicy(policyId: nat)

  function Apply(s: Store, op: Operation): (Store, Option<Error>) {
    match op
    case OpCreateVhost(q, issued) => CreateVhost(s, q, issued)
    case OpUpdateVhost(id, p, issued) => UpdateVhost(s, id, p, issued)
    case OpDeleteVhost(id) => DeleteVhost(s, id)
    case OpCreateBinding(b) => CreateBinding(s, b)
    case OpDeleteBinding(v, b) => DeleteBinding(s, v, b)
    case OpCreatePolicy(p) => (s.(policies := s.policies + {p}), None)
    case OpDeletePolicy(p) => DeletePolicy(s, p)
  }

  function Run(s: Store, ops: seq<Operation>): Store {
    if ops == [] then s else Apply(Run(s, ops[..|ops| - 1]), ops[|ops| - 1]).0
  }
}
