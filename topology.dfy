/** The client's data model (src/lib/types.ts).  Enumerated fields such as a
    node's type or status are kept as strings: the feed delivers whatever text
    the backend produced, and every consumer has a fallback for unknown values.
    Optional TypeScript properties are `Option`s. */
module Topology {
  import opened Collections

  datatype Location = Location(lat: real, lng: real)

  datatype NetworkMetrics = NetworkMetrics(cpu: real, memory: real, bandwidth: real, connections: real)

  datatype NetworkNode = NetworkNode(
    id: string,
    nodeType: string,
    name: string,
    location: Location,
    ipAddress: string,
    securityZone: Option<string>,
    status: string,
    metrics: Option<NetworkMetrics>,
    owner: Option<string>,
    asn: Option<string>,
    connections: Option<int>,
    process: Option<string>,
    firstSeen: Option<string>,
    lastSeen: Option<string>,
    metadata: Option<map<string, string>>)

  /** `Partial<NetworkNode>`: each property is either given or absent. */
  datatype NodePatch = NodePatch(
    id: Option<string>,
    nodeType: Option<string>,
    name: Option<string>,
    location: Option<Location>,
    ipAddress: Option<string>,
    securityZone: Option<string>,
    status: Option<string>,
    metrics: Option<NetworkMetrics>,
    owner: Option<string>,
    asn: Option<string>,
    connections: Option<int>,
    process: Option<string>,
    firstSeen: Option<string>,
    lastSeen: Option<string>,
    metadata: Option<map<string, string>>)

  datatype Connection = Connection(
    id: string,
    from: string,
    to: string,
    connType: string,
    latency: int,
    bandwidth: int,
    status: string)

  /** The `{from, to}` pairs carried by a `connections_update` message. */
  datatype WSConnection = WSConnection(from: string, to: string)

  datatype SecurityZone = SecurityZone(
    id: string,
    name: string,
    zoneType: string,
    polygon: seq<(real, real)>,
    rules: seq<string>)

  datatype ThreatEvent = ThreatEvent(
    id: string,
    threatType: string,
    timestamp: string,
    nodeId: string,
    severity: string,
    message: string)

  function Pick<T>(given: Option<T>, current: T): T {
    if given.Some? then given.value else current
  }

  function PickOpt<T>(given: Option<T>, current: Option<T>): Option<T> {
    if given.Some? then given else current
  }

  /** `{ ...node, ...patch }`: every property the patch gives replaces the
      node's, every other property is kept. */
  function Merge(n: NetworkNode, p: NodePatch): NetworkNode {
    NetworkNode(
      Pick(p.id, n.id), Pick(p.nodeType, n.nodeType), Pick(p.name, n.name),
      Pick(p.location, n.location), Pick(p.ipAddress, n.ipAddress),
      PickOpt(p.securityZone, n.securityZone), Pick(p.status, n.status),
      PickOpt(p.metrics, n.metrics), PickOpt(p.owner, n.owner), PickOpt(p.asn, n.asn),
      PickOpt(p.connections, n.connections), PickOpt(p.process, n.process),
      PickOpt(p.firstSeen, n.firstSeen), PickOpt(p.lastSeen, n.lastSeen),
      PickOpt(p.metadata, n.metadata))
  }

  /** A whole node used as a patch: its required properties are all given,
      its optional ones only when present. */
  function AsPatch(n: NetworkNode): NodePatch {
    NodePatch(
      Some(n.id), Some(n.nodeType), Some(n.name), Some(n.location), Some(n.ipAddress),
      n.securityZone, Some(n.status), n.metrics, n.owner, n.asn, n.connections,
      n.process, n.firstSeen, n.lastSeen, n.metadata)
  }

  const EmptyPatch := NodePatch(None, None, None, None, None, None, None, None,
                                None, None, None, None, None, None, None)

  /** An empty patch changes nothing; applying a patch twice is applying it once. */
  lemma MergeLaws(n: NetworkNode, p: NodePatch)
    ensures Merge(n, EmptyPatch) == n
    ensures Merge(Merge(n, p), p) == Merge(n, p)
  {
  }

  /** An optional property after a spread: the given value when present,
      the current one otherwise. */
  predicate Overlaid<T(==)>(given: Option<T>, current: Option<T>, r: Option<T>) {
    (given.Some? ==> r == given) && (given.None? ==> r == current)
  }

  /** Merging a whole node `m` takes every property `m` has and keeps only the
      optional properties `m` lacks; merging into `m` itself changes nothing. */
  lemma MergeWholeNode(n: NetworkNode, m: NetworkNode)
    ensures var r := Merge(n, AsPatch(m));
      r.id == m.id && r.nodeType == m.nodeType && r.name == m.name &&
      r.location == m.location && r.ipAddress == m.ipAddress && r.status == m.status &&
      Overlaid(m.securityZone, n.securityZone, r.securityZone) &&
      Overlaid(m.metrics, n.metrics, r.metrics) &&
      Overlaid(m.owner, n.owner, r.owner) && Overlaid(m.asn, n.asn, r.asn) &&
      Overlaid(m.connections, n.connections, r.connections) &&
      Overlaid(m.process, n.process, r.process) &&
      Overlaid(m.firstSeen, n.firstSeen, r.firstSeen) &&
      Overlaid(m.lastSeen, n.lastSeen, r.lastSeen) &&
      Overlaid(m.metadata, n.metadata, r.metadata)
    ensures Merge(m, AsPatch(m)) == m
  {
  }
}
