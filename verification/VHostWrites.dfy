/** What a write stores, field by field, read off the request. */
module VHostWrites {
  import opened Wrappers
  import opened VHostRows
  import opened Sorting
  import opened VHostStore
  import opened VHostInvariants

  // --- backends ------------------------------------------------------------

  predicate Blank(s: string) {
    forall i :: 0 <= i < |s| ==> IsSpace(s[i])
  }

  /** The text without the white space around it. */
  ghost predicate IsTrimmed(text: string, trimmed: string) {
    && (trimmed != "" ==> !IsSpace(trimmed[0]) && !IsSpace(trimmed[|trimmed| - 1]))
    && exists before, after :: text == before + trimmed + after && Blank(before) && Blank(after)
  }

  lemma OneMoreBefore(s: string, before: string, middle: string, after: string)
    requires s != "" && IsSpace(s[0]) && Blank(before) && s[1..] == before + middle + after
    ensures Blank([s[0]] + before) && s == ([s[0]] + before) + middle + after
  {
    assert s == [s[0]] + s[1..];
  }

  lemma OneMoreAfter(s: string, before: string, middle: string, after: string)
    requires s != "" && IsSpace(s[|s| - 1]) && Blank(after) && s[..|s| - 1] == before + middle + after
    ensures Blank(after + [s[|s| - 1]]) && s == before + middle + (after + [s[|s| - 1]])
  {
    assert s == s[..|s| - 1] + [s[|s| - 1]];
  }

  lemma {:induction false} StripCutsSpace(s: string) returns (before: string, after: string)
    ensures Blank(before) && Blank(after)
    ensures s == before + Strip(s) + after
    ensures Strip(s) != "" ==> !IsSpace(Strip(s)[0]) && !IsSpace(Strip(s)[|Strip(s)| - 1])
    decreases |s|
  {
    if s == "" {
      before, after := "", "";
    } else if IsSpace(s[0]) {
      before, after := StripCutsSpace(s[1..]);
      assert Strip(s) == Strip(s[1..]);
      hide Strip;
      OneMoreBefore(s, before, Strip(s), after);
      before := [s[0]] + before;
    } else if IsSpace(s[|s| - 1]) {
      var init, last := s[..|s| - 1], [s[|s| - 1]];
      before, after := StripCutsSpace(init);
      assert Strip(s) == Strip(init);
      hide Strip;
      OneMoreAfter(s, before, Strip(s), after);
      after := after + last;
    } else {
      before, after := "", "";
    }
  }

  lemma StripTrims(s: string)
    ensures IsTrimmed(s, Strip(s))
  {
    var before, after := StripCutsSpace(s);
    hide Strip;
  }

  /** The stored backend is the one asked for, with its URL and path trimmed; an empty path is the root. */
  ghost predicate StoresPayload(p: BackendPayload, b: Backend) {
    && IsTrimmed(p.url, b.url) && ("http://" <= b.url || "https://" <= b.url)
    && b.isActive == p.isActive && b.healthCheckEnabled == p.healthCheckEnabled
    && b.interval == p.interval > 0 && b.fall == p.fall > 0 && b.rise == p.rise > 0
    && b.healthCheckPath != "" && b.healthCheckPath[0] == '/'
    && (IsTrimmed(p.healthCheckPath, b.healthCheckPath) || (Blank(p.healthCheckPath) && b.healthCheckPath == "/"))
  }

  ghost predicate StoresPayloads(list: seq<BackendPayload>, backends: seq<Backend>) {
    && |backends| == |list| > 0
    && forall i :: 0 <= i < |list| ==> StoresPayload(list[i], backends[i])
  }

  lemma NormalizedStores(p: BackendPayload)
    ensures Normalized(p).Some? ==> StoresPayload(p, Normalized(p).value)
  {
    StripTrims(p.url);
    StripTrims(p.healthCheckPath);
    if Strip(p.healthCheckPath) == "" {
      var before, after :| p.healthCheckPath == before + "" + after && Blank(before) && Blank(after);
    }
    hide Strip;
  }

  lemma AllStored(list: seq<BackendPayload>, isActive: bool)
    ensures NormalizedAll(list, isActive).Some? ==> StoresPayloads(list, NormalizedAll(list, isActive).value)
  {
    hide Normalized;
    forall i | 0 <= i < |list| ensures Normalized(list[i]).Some? ==> StoresPayload(list[i], Normalized(list[i]).value) {
      NormalizedStores(list[i]);
    }
  }

  // --- vhosts --------------------------------------------------------------

  /** The backends asked for: a list, or one URL with the defaults. */
  function Asked(backendUrl: Option<string>, backends: Option<seq<BackendPayload>>): Option<seq<BackendPayload>> {
    if backends.Some? then backends
    else if backendUrl.Some? then Some([BackendPayload(backendUrl.value, true, true, "/", 5, 3, 2)])
    else None
  }

  /** A created vhost holds what the request said, and the certificate issued for it if one was asked for. */
  lemma CreatedRowSaysTheRequest(s: Store, q: CreateRequest, issued: Issued)
    requires Stored(s) && CreateVhost(s, q, issued).1.None?
    ensures
      var t := CreateVhost(s, q, issued).0;
      && s.nextVhost !in s.vhosts && t.vhosts.Keys == s.vhosts.Keys + {s.nextVhost}
      && (forall id :: id in s.vhosts ==> t.vhosts[id] == s.vhosts[id])
      && var w := t.vhosts[s.nextVhost];
         && w.id == s.nextVhost && w.domain == q.domain && w.isActive == q.isActive && w.policyId == q.policyId
         && w.sslEnabled == q.sslEnabled && w.sslProvider == q.sslProvider
         && (q.sslProvider == "letsencrypt" ==> issued.Some? && (w.sslCert, w.sslKey) == (Some(issued.value.0), Some(issued.value.1)))
         && (q.sslProvider != "letsencrypt" ==> (w.sslCert, w.sslKey) == (q.sslCert, q.sslKey))
         && Asked(q.backendUrl, q.backends).Some? && StoresPayloads(Asked(q.backendUrl, q.backends).value, w.backends)
         && w.backendUrl == w.backends[0].url
  {
    AllStored(Requested(q.backendUrl, q.backends), q.isActive);
    hide NormalizedAll, StoresPayload, VhostOk, Mirrors, BindingsOk;
    var t := CreateVhost(s, q, issued).0;
    var backends := NormalizedAll(Requested(q.backendUrl, q.backends), q.isActive).value;
    var reissued := q.sslProvider == "letsencrypt";
    var w := VHost(s.nextVhost, q.domain, backends[0].url, backends, q.isActive, q.sslEnabled, q.sslProvider,
                   if reissued then Some(issued.value.0) else q.sslCert, if reissued then Some(issued.value.1) else q.sslKey, q.policyId);
    assert t.vhosts == s.vhosts[s.nextVhost := w];
  }

  /** One sent, absent or null field of a patch. */
  predicate Keeps<T(==)>(field: Sent<T>, before: T, after: T) {
    && (field.Value? ==> after == field.value)
    && (field.Absent? ==> after == before)
  }

  predicate KeepsOrClears<T(==)>(field: Sent<T>, before: Option<T>, after: Option<T>) {
    && (field.Value? ==> after == Some(field.value))
    && (field.Null? ==> after.None?)
    && (field.Absent? ==> after == before)
  }

  /** The patch is about the certificate of a vhost that then gets it from Let's Encrypt. */
  predicate Reissues(v: VHost, p: Patch) {
    && (p.sslProvider.Value? || p.sslCert.Value? || p.sslCert.Null?)
    && (if p.sslProvider.Value? then p.sslProvider.value else v.sslProvider) == "letsencrypt"
  }

  /** An updated vhost holds every value that was sent, and keeps what was not. */
  lemma UpdatedRowSaysThePatch(s: Store, id: nat, p: Patch, issued: Issued)
    requires Stored(s) && UpdateVhost(s, id, p, issued).1.None?
    ensures id in s.vhosts && id in UpdateVhost(s, id, p, issued).0.vhosts
    ensures
      var (v, w) := (s.vhosts[id], UpdateVhost(s, id, p, issued).0.vhosts[id]);
      && w.id == id && Keeps(p.domain, v.domain, w.domain) && Keeps(p.isActive, v.isActive, w.isActive)
      && Keeps(p.sslEnabled, v.sslEnabled, w.sslEnabled) && Keeps(p.sslProvider, v.sslProvider, w.sslProvider)
      && KeepsOrClears(p.policyId, v.policyId, w.policyId)
      && (!Reissues(v, p) ==> KeepsOrClears(p.sslCert, v.sslCert, w.sslCert) && KeepsOrClears(p.sslKey, v.sslKey, w.sslKey))
      && (Reissues(v, p) ==> issued.Some? && (w.sslCert, w.sslKey) == (Some(issued.value.0), Some(issued.value.1)))
      && (p.backends.Absent? && p.backendUrl.Absent? ==> w.backends == v.backends && w.backendUrl == v.backendUrl)
      && (p.backends.Value? ==> StoresPayloads(p.backends.value, w.backends) && w.backendUrl == w.backends[0].url)
      && (p.backends.Absent? && p.backendUrl.Value? ==>
            && StoresPayloads([BackendPayload(p.backendUrl.value, true, true, "/", 5, 3, 2)], w.backends)
            && w.backendUrl == w.backends[0].url)
  {
    UpdateUnfolds(s, id, p, issued);
    var v := s.vhosts[id];
    RowAfterUpdate(s, v, p, issued);
    hide UpdateVhost, VhostOk, Mirrors, BindingsOk, PatchedBackends, Synced, DomainTaken, WithRow, NewRow, StoresPayloads, Reissues;
    RowSaysThePatch(v, p, issued);
  }

  lemma RowSaysThePatch(v: VHost, p: Patch, issued: Issued)
    requires VhostOk(v) && PatchedBackends(v, p) != Some(None) && !SendsForbiddenNull(p)
    requires NeedsCertificate(v, p) ==> issued.Some?
    ensures
      var w := NewRow(v, p, issued);
      && w.id == v.id && Keeps(p.domain, v.domain, w.domain) && Keeps(p.isActive, v.isActive, w.isActive)
      && Keeps(p.sslEnabled, v.sslEnabled, w.sslEnabled) && Keeps(p.sslProvider, v.sslProvider, w.sslProvider)
      && KeepsOrClears(p.policyId, v.policyId, w.policyId)
      && (!Reissues(v, p) ==> KeepsOrClears(p.sslCert, v.sslCert, w.sslCert) && KeepsOrClears(p.sslKey, v.sslKey, w.sslKey))
      && (Reissues(v, p) ==> issued.Some? && (w.sslCert, w.sslKey) == (Some(issued.value.0), Some(issued.value.1)))
      && (p.backends.Absent? && p.backendUrl.Absent? ==> w.backends == v.backends && w.backendUrl == v.backendUrl)
      && (p.backends.Value? ==> StoresPayloads(p.backends.value, w.backends) && w.backendUrl == w.backends[0].url)
      && (p.backends.Absent? && p.backendUrl.Value? ==>
            && StoresPayloads([BackendPayload(p.backendUrl.value, true, true, "/", 5, 3, 2)], w.backends)
            && w.backendUrl == w.backends[0].url)
  {
    hide VhostOk, NormalizedAll, StoresPayload, Normalized;
    if p.backends.Value? {
      AllStored(p.backends.value, Or(p.isActive, v.isActive));
    } else if p.backendUrl.Value? {
      AllStored(Requested(Some(p.backendUrl.value), None), Or(p.isActive, v.isActive));
    }
  }

  // --- when a write succeeds -----------------------------------------------

  /** A vhost is created iff its policy exists, its backends can be stored, its certificate was issued and its domain is free. */
  lemma CreatedIff(s: Store, q: CreateRequest, issued: Issued)
    ensures CreateVhost(s, q, issued).1.None? <==>
      && (q.policyId.Some? ==> q.policyId.value in s.policies)
      && NormalizedAll(Requested(q.backendUrl, q.backends), q.isActive).Some?
      && (q.sslProvider == "letsencrypt" ==> issued.Some?)
      && forall id :: id in s.vhosts ==> s.vhosts[id].domain != q.domain
    ensures CreateVhost(s, q, issued).1.Some? ==> CreateVhost(s, q, issued).0 == s
  {
    hide NormalizedAll, Synced;
  }

  /** A binding is added iff its vhost and policy exist, its place is well-formed, not the vhost's own and not taken. */
  lemma BindingAddedIff(s: Store, b: PolicyBinding)
    ensures CreateBinding(s, b).1.None? <==>
      && b.vhostId in s.vhosts && b.policyId in s.policies
      && b.pathPrefix != "" && b.pathPrefix[0] == '/' && b.priority >= 0
      && !(b.pathPrefix == "/" && b.priority == 0)
      && forall id :: id in s.bindings ==>
           !(s.bindings[id].vhostId == b.vhostId && s.bindings[id].pathPrefix == b.pathPrefix && s.bindings[id].priority == b.priority)
    ensures CreateBinding(s, b).1.None? ==>
      CreateBinding(s, b).0 == s.(bindings := s.bindings[s.nextBinding := b], nextBinding := s.nextBinding + 1)
    ensures CreateBinding(s, b).1.Some? ==> CreateBinding(s, b).0 == s
  {
  }
}
