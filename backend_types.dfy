/** The backend's records (backend/types.go).  Times are integer milliseconds;
    coordinates are reals. */
module BackendTypes {

  /** One socket as reported by `ss`. */
  datatype Connection = Connection(
    localIP: string,
    localPort: int,
    remoteIP: string,
    remotePort: int,
    state: string,
    process: string)

  datatype Location = Location(lat: real, lng: real)

  /** A discovered remote endpoint, keyed in the store by its IP. */
  datatype NetworkNode = NetworkNode(
    id: string,
    name: string,
    ipAddress: string,
    nodeType: string,
    location: Location,
    owner: string,
    asn: string,
    status: string,
    connections: int,
    process: string,
    firstSeen: int,
    lastSeen: int)

  /** An edge of the topology, between node ids. */
  datatype WSConnection = WSConnection(from: string, to: string)

  /** A broadcast handed to the client hub: `node_add`, `node_update`,
      `node_remove` and `connections_update`. */
  datatype Event =
    | NodeAdd(node: NetworkNode)
    | NodeUpdate(node: NetworkNode)
    | NodeRemove(id: string)
    | ConnectionsUpdate(edges: seq<WSConnection>)

  /** The live node table, `map[string]*NetworkNode` keyed by IP. */
  class NodeStore {
    var nodes: map<string, NetworkNode>

    constructor ()
      ensures nodes == map[]
    {
      nodes := map[];
    }
  }
}
