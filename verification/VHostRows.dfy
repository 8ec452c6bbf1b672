/** Virtual hosts as stored: their backends and the policies bound to their paths. */
module VHostRows {
  import opened Wrappers

  datatype Backend = Backend(
    url: string, isActive: bool, healthCheckEnabled: bool, healthCheckPath: string,
    interval: int, fall: int, rise: int)

  datatype VHost = VHost(
    id: nat, domain: string, backendUrl: string, backends: seq<Backend>, isActive: bool,
    sslEnabled: bool, sslProvider: string, sslCert: Option<string>, sslKey: Option<string>,
    policyId: Option<nat>)

  datatype PolicyBinding = PolicyBinding(vhostId: nat, policyId: nat, pathPrefix: string, priority: int)

  /** The health check paths of the servers that are checked. */
  function CheckedPaths(backends: seq<Backend>): set<string> {
    set b | b in backends && b.isActive && b.healthCheckEnabled :: b.healthCheckPath
  }

  predicate HasActive(backends: seq<Backend>) {
    exists b :: b in backends && b.isActive
  }

  predicate AtMostOne<T(!new)>(s: set<T>) {
    forall a, b :: a in s && b in s ==> a == b
  }
}
