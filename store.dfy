/** The topology store (src/lib/store.ts): six fields replaced wholesale by
    each operation.  `StoreState` is the value of the six fields and its
    member functions say what each operation does to it; `NetOpsStore` is the
    mutable store, whose methods are proved to perform those transitions. */
module Store {
  import opened Collections
  import opened Text
  import opened Topology

  const DefaultLatency := 0
  const DefaultBandwidth := 1000

  /** `nodes.map(node => node.id === id ? { ...node, ...updates } : node)`. */
  function PatchNodes(nodes: seq<NetworkNode>, id: string, updates: NodePatch): (r: seq<NetworkNode>)
    ensures |r| == |nodes|
  {
    seq(|nodes|, i requires 0 <= i < |nodes| =>
      if nodes[i].id == id then Merge(nodes[i], updates) else nodes[i])
  }

  /** The connection `setConnections` builds from the `idx`-th pair. */
  function FeedConnection(c: WSConnection, idx: nat): Connection {
    Connection(c.from + "-" + c.to + "-" + NatToString(idx), c.from, c.to, "https",
               DefaultLatency, DefaultBandwidth, "active")
  }

  datatype StoreState = StoreState(
    nodes: seq<NetworkNode>,
    connections: seq<Connection>,
    selectedNode: Option<NetworkNode>,
    securityZones: seq<SecurityZone>,
    threatEvents: seq<ThreatEvent>,
    filteredZone: Option<string>)
  {
    function AddNode(node: NetworkNode): StoreState {
      this.(nodes := nodes + [node])
    }

    predicate IsSelected(id: string) {
      selectedNode.Some? && selectedNode.value.id == id
    }

    function UpdateNode(id: string, updates: NodePatch): StoreState {
      this.(nodes := PatchNodes(nodes, id, updates),
            selectedNode := if IsSelected(id) then Some(Merge(selectedNode.value, updates))
                            else selectedNode)
    }

    function RemoveNode(id: string): StoreState {
      this.(nodes := Filter(nodes, (n: NetworkNode) => n.id != id),
            connections := Filter(connections, (c: Connection) => c.from != id && c.to != id),
            selectedNode := if IsSelected(id) then None else selectedNode)
    }

    /** `now` stands for `Date.now()`, from which the connection id is made. */
    function AddConnection(from: string, to: string, connType: string, now: nat): StoreState {
      this.(connections := connections +
              [Connection("c" + NatToString(now), from, to, connType,
                          DefaultLatency, DefaultBandwidth, "active")])
    }

    function RemoveConnection(id: string): StoreState {
      this.(connections := Filter(connections, (c: Connection) => c.id != id))
    }

    function SetConnections(feed: seq<WSConnection>): StoreState {
      this.(connections := seq(|feed|, i requires 0 <= i < |feed| => FeedConnection(feed[i], i)))
    }

    function SelectNode(node: Option<NetworkNode>): StoreState {
      this.(selectedNode := node)
    }

    function FilterByZone(zone: Option<string>): StoreState {
      this.(filteredZone := zone)
    }

    function ClearNodes(): StoreState {
      this.(nodes := [])
    }

    function ClearAll(): StoreState {
      Initial
    }
  }

  const Initial := StoreState([], [], None, [], [], None)

  // -----------------------------------------------------------------------
  // Properties of the transitions

  /** `addNode` appends at the end, keeps every earlier entry and accepts a
      duplicate id; nothing else changes. */
  lemma AddNodeAppends(s: StoreState, node: NetworkNode)
    ensures var r := s.AddNode(node);
      |r.nodes| == |s.nodes| + 1 && r.nodes[..|s.nodes|] == s.nodes && r.nodes[|s.nodes|] == node &&
      r.(nodes := s.nodes) == s
    ensures (exists n :: n in s.nodes && n.id == node.id) ==>
      |set i | 0 <= i < |s.AddNode(node).nodes| && s.AddNode(node).nodes[i].id == node.id| >= 2
  {
    var r := s.AddNode(node);
    if n :| n in s.nodes && n.id == node.id {
      var k :| 0 <= k < |s.nodes| && s.nodes[k] == n;
      assert {k, |s.nodes|} <= set i | 0 <= i < |r.nodes| && r.nodes[i].id == node.id;
      assert |{k, |s.nodes|}| == 2;
      SubsetCardinality({k, |s.nodes|}, set i | 0 <= i < |r.nodes| && r.nodes[i].id == node.id);
    }
  }

  lemma SubsetCardinality(a: set<int>, b: set<int>)
    requires a <= b
    ensures |a| <= |b|
  {
    assert b == a + (b - a);
  }

  /** `updateNode` keeps length and order, patches exactly the entries with the
      id, and leaves the nodes as they were when no entry has the id. */
  lemma UpdateNodeSpec(s: StoreState, id: string, updates: NodePatch)
    ensures var r := s.UpdateNode(id, updates);
      |r.nodes| == |s.nodes| &&
      (forall i :: 0 <= i < |s.nodes| && s.nodes[i].id == id ==> r.nodes[i] == Merge(s.nodes[i], updates)) &&
      (forall i :: 0 <= i < |s.nodes| && s.nodes[i].id != id ==> r.nodes[i] == s.nodes[i])
    ensures (forall n :: n in s.nodes ==> n.id != id) ==> s.UpdateNode(id, updates).nodes == s.nodes
    ensures s.UpdateNode(id, updates).connections == s.connections
    ensures s.IsSelected(id) ==>
              s.UpdateNode(id, updates).selectedNode == Some(Merge(s.selectedNode.value, updates))
    ensures !s.IsSelected(id) ==> s.UpdateNode(id, updates).selectedNode == s.selectedNode
  {
  }

  /** `removeNode` leaves no node with the id, keeps every other node with its
      multiplicity, keeps exactly the connections that touch neither end, and
      clears the selection exactly when the removed id was selected. */
  lemma {:induction false} RemoveNodeSpec(s: StoreState, id: string)
    ensures var r := s.RemoveNode(id);
      (forall n :: n in r.nodes <==> n in s.nodes && n.id != id) &&
      (forall n: NetworkNode :: n.id != id ==> multiset(r.nodes)[n] == multiset(s.nodes)[n]) &&
      (forall c :: c in r.connections <==> c in s.connections && c.from != id && c.to != id) &&
      (forall c: Connection :: c.from != id && c.to != id ==> multiset(r.connections)[c] == multiset(s.connections)[c]) &&
      (r.selectedNode.None? <==> s.selectedNode.None? || s.IsSelected(id)) &&
      (!s.IsSelected(id) ==> r.selectedNode == s.selectedNode) &&
      r.securityZones == s.securityZones && r.threatEvents == s.threatEvents &&
      r.filteredZone == s.filteredZone
  {
    var r := s.RemoveNode(id);
    var keepNode := (n: NetworkNode) => n.id != id;
    var keepConn := (c: Connection) => c.from != id && c.to != id;
    forall n ensures n in r.nodes <==> n in s.nodes && n.id != id {
      FilterMembership(s.nodes, keepNode, n);
    }
    forall n: NetworkNode | n.id != id ensures multiset(r.nodes)[n] == multiset(s.nodes)[n] {
      FilterMultiset(s.nodes, keepNode, n);
    }
    forall c ensures c in r.connections <==> c in s.connections && c.from != id && c.to != id {
      FilterMembership(s.connections, keepConn, c);
    }
    forall c: Connection | c.from != id && c.to != id
      ensures multiset(r.connections)[c] == multiset(s.connections)[c]
    {
      FilterMultiset(s.connections, keepConn, c);
    }
  }

  /** `removeNode` keeps the survivors in their order: removing from two runs
      of nodes and connections is removing from each run and concatenating,
      and a single entry survives exactly when it does not mention the id. */
  lemma RemoveNodeKeepsOrder(s: StoreState, id: string, a: seq<NetworkNode>, b: seq<NetworkNode>,
                             ca: seq<Connection>, cb: seq<Connection>)
    requires s.nodes == a + b && s.connections == ca + cb
    ensures var r := s.RemoveNode(id);
      var ra := s.(nodes := a, connections := ca).RemoveNode(id);
      var rb := s.(nodes := b, connections := cb).RemoveNode(id);
      r.nodes == ra.nodes + rb.nodes && r.connections == ra.connections + rb.connections
    ensures forall n: NetworkNode ::
      s.(nodes := [n]).RemoveNode(id).nodes == (if n.id != id then [n] else [])
    ensures forall c: Connection ::
      s.(connections := [c]).RemoveNode(id).connections == (if c.from != id && c.to != id then [c] else [])
  {
    FilterAppend(a, b, (n: NetworkNode) => n.id != id);
    FilterAppend(ca, cb, (c: Connection) => c.from != id && c.to != id);
    forall n: NetworkNode
      ensures s.(nodes := [n]).RemoveNode(id).nodes == (if n.id != id then [n] else [])
    {
      assert [n][..0] == [];
    }
    forall c: Connection
      ensures s.(connections := [c]).RemoveNode(id).connections == (if c.from != id && c.to != id then [c] else [])
    {
      assert [c][..0] == [];
    }
  }

  /** `removeNode` of an id no node and no connection mentions changes only the
      selection, and that only if the selected node had the id. */
  lemma RemoveUnknownNode(s: StoreState, id: string)
    requires forall n :: n in s.nodes ==> n.id != id
    requires forall c :: c in s.connections ==> c.from != id && c.to != id
    ensures s.RemoveNode(id).nodes == s.nodes
    ensures s.RemoveNode(id).connections == s.connections
  {
    FilterKeepsAll(s.nodes, (n: NetworkNode) => n.id != id);
    FilterKeepsAll(s.connections, (c: Connection) => c.from != id && c.to != id);
  }

  /** `addConnection` appends one active connection with id `c<now>`,
      latency 0 and bandwidth 1000; `removeConnection` drops every connection
      with the id and nothing else.  Neither touches any other field. */
  lemma ConnectionCrud(s: StoreState, from: string, to: string, connType: string, now: nat, id: string)
    ensures var r := s.AddConnection(from, to, connType, now);
      |r.connections| == |s.connections| + 1 && r.connections[..|s.connections|] == s.connections &&
      var c := r.connections[|s.connections|];
      c.id == "c" + NatToString(now) &&
      c.from == from && c.to == to && c.connType == connType && c.status == "active" &&
      c.latency == 0 && c.bandwidth == 1000 && r.(connections := s.connections) == s
    ensures var r := s.RemoveConnection(id);
      (forall c :: c in r.connections <==> c in s.connections && c.id != id) &&
      (forall c: Connection :: c.id != id ==> multiset(r.connections)[c] == multiset(s.connections)[c]) &&
      r.(connections := s.connections) == s
  {
    var r := s.RemoveConnection(id);
    var keep := (c: Connection) => c.id != id;
    forall c ensures c in r.connections <==> c in s.connections && c.id != id {
      FilterMembership(s.connections, keep, c);
    }
    forall c: Connection | c.id != id ensures multiset(r.connections)[c] == multiset(s.connections)[c] {
      FilterMultiset(s.connections, keep, c);
    }
  }

  /** The text after the last `-` of `p + "-" + d` is `d` when `d` has no `-`. */
  lemma AfterLastDash(p: string, d: string)
    requires '-' !in d
    ensures var s := p + "-" + d; LastIndexOf(s, '-') == |p| && s[|p| + 1..] == d
  {
    var s := p + "-" + d;
    assert s[|p|] == '-' && s[|p| + 1..] == d;
  }

  /** `setConnections` replaces the list by one connection per pair, in order,
      with fixed attributes and ids `from-to-i` that are pairwise distinct. */
  lemma SetConnectionsSpec(s: StoreState, feed: seq<WSConnection>)
    ensures var r := s.SetConnections(feed);
      |r.connections| == |feed| && r.(connections := s.connections) == s &&
      (forall i :: 0 <= i < |feed| ==>
        var c := r.connections[i];
        c.from == feed[i].from && c.to == feed[i].to && c.connType == "https" &&
        c.latency == 0 && c.bandwidth == 1000 && c.status == "active")
    ensures var r := s.SetConnections(feed);
      forall i, j :: 0 <= i < j < |feed| ==> r.connections[i].id != r.connections[j].id
  {
    var r := s.SetConnections(feed);
    forall i, j | 0 <= i < j < |feed| ensures r.connections[i].id != r.connections[j].id {
      var di, dj := NatToString(i), NatToString(j);
      var pi, pj := feed[i].from + "-" + feed[i].to, feed[j].from + "-" + feed[j].to;
      assert '-' !in di && '-' !in dj by {
        assert AllDigits(di) && AllDigits(dj);
      }
      assert r.connections[i].id == pi + "-" + di;
      assert r.connections[j].id == pj + "-" + dj;
      if r.connections[i].id == r.connections[j].id {
        AfterLastDash(pi, di);
        AfterLastDash(pj, dj);
        NatToStringInjective(i, j);
      }
    }
  }

  /** `clearNodes` empties only the nodes; `clearAll` resets all six fields. */
  lemma ClearSpec(s: StoreState)
    ensures s.ClearNodes().nodes == [] && s.ClearNodes().(nodes := s.nodes) == s
    ensures var r := s.ClearAll();
      r.nodes == [] && r.connections == [] && r.selectedNode.None? &&
      r.securityZones == [] && r.threatEvents == [] && r.filteredZone.None?
  {
  }

  // -----------------------------------------------------------------------
  // The mutable store

  class NetOpsStore {
    var nodes: seq<NetworkNode>
    var connections: seq<Connection>
    var selectedNode: Option<NetworkNode>
    var securityZones: seq<SecurityZone>
    var threatEvents: seq<ThreatEvent>
    var filteredZone: Option<string>

    function State(): StoreState
      reads this
    {
      StoreState(nodes, connections, selectedNode, securityZones, threatEvents, filteredZone)
    }

    constructor ()
      ensures State() == Initial
    {
      nodes, connections, selectedNode := [], [], None;
      securityZones, threatEvents, filteredZone := [], [], None;
    }

    method AddNode(node: NetworkNode)
      modifies this
      ensures State() == old(State()).AddNode(node)
    {
      nodes := nodes + [node];
    }

    method UpdateNode(id: string, updates: NodePatch)
      modifies this
      ensures State() == old(State()).UpdateNode(id, updates)
    {
      nodes := PatchNodes(nodes, id, updates);
      if selectedNode.Some? && selectedNode.value.id == id {
        selectedNode := Some(Merge(selectedNode.value, updates));
      }
    }

    method RemoveNode(id: string)
      modifies this
      ensures State() == old(State()).RemoveNode(id)
    {
      nodes := Filter(nodes, (n: NetworkNode) => n.id != id);
      connections := Filter(connections, (c: Connection) => c.from != id && c.to != id);
      if selectedNode.Some? && selectedNode.value.id == id {
        selectedNode := None;
      }
    }

    method AddConnection(from: string, to: string, connType: string, now: nat)
      modifies this
      ensures State() == old(State()).AddConnection(from, to, connType, now)
    {
      var c := Connection("c" + NatToString(now), from, to, connType,
                          DefaultLatency, DefaultBandwidth, "active");
      connections := connections + [c];
    }

    method RemoveConnection(id: string)
      modifies this
      ensures State() == old(State()).RemoveConnection(id)
    {
      connections := Filter(connections, (c: Connection) => c.id != id);
    }

    method SetConnections(feed: seq<WSConnection>)
      modifies this
      ensures State() == old(State()).SetConnections(feed)
    {
      connections := seq(|feed|, i requires 0 <= i < |feed| => FeedConnection(feed[i], i));
    }

    method SelectNode(node: Option<NetworkNode>)
      modifies this
      ensures State() == old(State()).SelectNode(node)
    {
      selectedNode := node;
    }

    method FilterByZone(zone: Option<string>)
      modifies this
      ensures State() == old(State()).FilterByZone(zone)
    {
      filteredZone := zone;
    }

    method ClearNodes()
      modifies this
      ensures State() == old(State()).ClearNodes()
    {
      nodes := [];
    }

    method ClearAll()
      modifies this
      ensures State() == old(State()).ClearAll()
    {
      nodes, connections, selectedNode := [], [], None;
      securityZones, threatEvents, filteredZone := [], [], None;
    }
  }
}
