/** The live update client's message handler (src/hooks/useWebSocket.ts,
    `ws.onmessage`): each inbound frame is decoded and its `type` selects the
    store operations to run.  A frame that does not decode is dropped.  The
    socket itself, its reconnect timer and the logging are not modelled. */
module LiveUpdate {
  import opened Collections
  import opened Topology
  import opened Store

  /** A decoded topology message; the payload properties are optional. */
  datatype WSMessage = WSMessage(
    msgType: string,
    node: Option<NetworkNode>,
    nodes: Option<seq<NetworkNode>>,
    connections: Option<seq<WSConnection>>,
    id: Option<string>)

  /** An inbound text frame: either `JSON.parse` (and reading `type`) succeeds
      and gives a message, or it throws and the raw text is all there is. */
  datatype Frame = Parsed(message: WSMessage) | Unparsable(data: string)

  /** `nodes.forEach(node => addNode(node))`. */
  function AddNodes(s: StoreState, ns: seq<NetworkNode>): StoreState
    decreases |ns|
  {
    if ns == [] then s else AddNodes(s, ns[..|ns| - 1]).AddNode(ns[|ns| - 1])
  }

  /** The store transition one frame causes. */
  function Dispatch(s: StoreState, f: Frame): StoreState {
    match f
    case Unparsable(_) => s
    case Parsed(m) =>
      if m.msgType == "initial_state" then
        var cleared := s.ClearNodes();
        if m.nodes.Some? then AddNodes(cleared, m.nodes.value) else cleared
      else if m.msgType == "node_add" then
        if m.node.Some? then s.AddNode(m.node.value) else s
      else if m.msgType == "node_update" then
        if m.node.Some? then s.UpdateNode(m.node.value.id, AsPatch(m.node.value)) else s
      else if m.msgType == "node_remove" then
        if m.id.Some? && m.id.value != "" then s.RemoveNode(m.id.value) else s
      else if m.msgType == "connections_update" then
        if m.connections.Some? then s.SetConnections(m.connections.value) else s
      else s
  }

  /** The store after a sequence of frames, handled in arrival order. */
  function DispatchAll(s: StoreState, frames: seq<Frame>): StoreState
    decreases |frames|
  {
    if frames == [] then s
    else Dispatch(DispatchAll(s, frames[..|frames| - 1]), frames[|frames| - 1])
  }

  // -----------------------------------------------------------------------
  // Properties

  /** Adding nodes one by one appends them all, in order, and changes nothing else. */
  lemma {:induction false} AddNodesAppends(s: StoreState, ns: seq<NetworkNode>)
    ensures AddNodes(s, ns) == s.(nodes := s.nodes + ns)
    decreases |ns|
  {
    if ns != [] {
      AddNodesAppends(s, ns[..|ns| - 1]);
      assert s.nodes + ns == s.nodes + ns[..|ns| - 1] + [ns[|ns| - 1]];
    }
  }

  /** `initial_state` makes the nodes exactly the message's list (or empty when
      it has none) and leaves connections, zones, threats and selection alone. */
  lemma InitialState(s: StoreState, m: WSMessage)
    requires m.msgType == "initial_state"
    ensures var r := Dispatch(s, Parsed(m));
      r.nodes == (if m.nodes.Some? then m.nodes.value else []) &&
      r.(nodes := s.nodes) == s
  {
    if m.nodes.Some? {
      AddNodesAppends(s.ClearNodes(), m.nodes.value);
    }
  }

  /** `node_add` appends the node if the message has one, else does nothing. */
  lemma NodeAdd(s: StoreState, m: WSMessage)
    requires m.msgType == "node_add"
    ensures m.node.Some? ==> Dispatch(s, Parsed(m)).nodes == s.nodes + [m.node.value]
    ensures m.node.Some? ==> Dispatch(s, Parsed(m)).(nodes := s.nodes) == s
    ensures m.node.None? ==> Dispatch(s, Parsed(m)) == s
  {
  }

  /** `node_update` is the store's `updateNode` with the message node as the
      patch: it merges that node into every stored node with its id, patches
      the selection when it has the id, and leaves connections, zones,
      threats and the zone filter alone; with no stored node of that id the
      nodes stay as they are. */
  lemma NodeUpdate(s: StoreState, m: WSMessage)
    requires m.msgType == "node_update" && m.node.Some?
    ensures Dispatch(s, Parsed(m)) == s.UpdateNode(m.node.value.id, AsPatch(m.node.value))
    ensures var r := Dispatch(s, Parsed(m)); var n := m.node.value;
      |r.nodes| == |s.nodes| && r.connections == s.connections &&
      (forall i :: 0 <= i < |s.nodes| ==>
        r.nodes[i] == if s.nodes[i].id == n.id then Merge(s.nodes[i], AsPatch(n)) else s.nodes[i])
    ensures var r := Dispatch(s, Parsed(m)); var n := m.node.value;
      r.selectedNode == (if s.IsSelected(n.id) then Some(Merge(s.selectedNode.value, AsPatch(n)))
                         else s.selectedNode) &&
      r.securityZones == s.securityZones && r.threatEvents == s.threatEvents &&
      r.filteredZone == s.filteredZone
    ensures (forall k :: k in s.nodes ==> k.id != m.node.value.id) ==>
      Dispatch(s, Parsed(m)).nodes == s.nodes
  {
    UpdateNodeSpec(s, m.node.value.id, AsPatch(m.node.value));
  }

  /** `node_remove` with a non-empty id is the store's `removeNode`: the node
      and its connections go, everything else stays (in order, by
      `RemoveNodeKeepsOrder`), and the selection clears if it was that node; a
      missing or empty id does nothing. */
  lemma NodeRemove(s: StoreState, m: WSMessage)
    requires m.msgType == "node_remove"
    ensures (m.id.None? || m.id.value == "") ==> Dispatch(s, Parsed(m)) == s
    ensures m.id.Some? && m.id.value != "" ==> Dispatch(s, Parsed(m)) == s.RemoveNode(m.id.value)
    ensures m.id.Some? && m.id.value != "" ==>
      var x := m.id.value; var r := Dispatch(s, Parsed(m));
      (forall n :: n in r.nodes <==> n in s.nodes && n.id != x) &&
      (forall c :: c in r.connections <==> c in s.connections && c.from != x && c.to != x) &&
      r.securityZones == s.securityZones && r.threatEvents == s.threatEvents &&
      r.filteredZone == s.filteredZone &&
      (!s.IsSelected(x) ==> r.selectedNode == s.selectedNode)
    ensures m.id.Some? && m.id.value != "" ==>
      var x := m.id.value; var r := Dispatch(s, Parsed(m));
      (forall n :: n in r.nodes ==> n.id != x) &&
      (forall c :: c in r.connections ==> c.from != x && c.to != x) &&
      (s.IsSelected(x) ==> r.selectedNode.None?)
  {
    if m.id.Some? && m.id.value != "" {
      RemoveNodeSpec(s, m.id.value);
    }
  }

  /** `connections_update` is the store's `setConnections`: one active
      connection per pair, in order, with the fixed attributes and distinct
      ids, and nothing but the connections changes; a message without a list
      does nothing. */
  lemma ConnectionsUpdate(s: StoreState, m: WSMessage)
    requires m.msgType == "connections_update"
    ensures m.connections.None? ==> Dispatch(s, Parsed(m)) == s
    ensures m.connections.Some? ==> Dispatch(s, Parsed(m)) == s.SetConnections(m.connections.value)
    ensures m.connections.Some? ==>
      var r := Dispatch(s, Parsed(m)); var feed := m.connections.value;
      |r.connections| == |feed| && r.(connections := s.connections) == s &&
      (forall i :: 0 <= i < |r.connections| ==>
        r.connections[i].from == feed[i].from && r.connections[i].to == feed[i].to &&
        r.connections[i].connType == "https" && r.connections[i].latency == 0 &&
        r.connections[i].bandwidth == 1000 && r.connections[i].status == "active") &&
      (forall i, j :: 0 <= i < j < |r.connections| ==> r.connections[i].id != r.connections[j].id)
  {
    if m.connections.Some? {
      SetConnectionsSpec(s, m.connections.value);
    }
  }

  /** A message of any other type leaves the store unchanged. */
  lemma UnknownType(s: StoreState, m: WSMessage)
    requires m.msgType !in {"initial_state", "node_add", "node_update", "node_remove", "connections_update"}
    ensures Dispatch(s, Parsed(m)) == s
  {
  }

  /** Handling frames in two batches is handling them in one. */
  lemma {:induction false} DispatchAllAppend(s: StoreState, a: seq<Frame>, b: seq<Frame>)
    ensures DispatchAll(s, a + b) == DispatchAll(DispatchAll(s, a), b)
    decreases |b|
  {
    if b == [] {
      assert a + b == a;
    } else {
      assert (a + b)[..|a + b| - 1] == a + b[..|b| - 1];
      DispatchAllAppend(s, a, b[..|b| - 1]);
    }
  }

  /** An unparsable frame is skipped and every later frame is still applied
      exactly as if it had not arrived. */
  lemma ParseFailureIsolation(s: StoreState, data: string, later: seq<Frame>)
    ensures DispatchAll(s, [Unparsable(data)] + later) == DispatchAll(s, later)
  {
    DispatchAllAppend(s, [Unparsable(data)], later);
    assert DispatchAll(s, [Unparsable(data)]) == s by {
      assert [Unparsable(data)][..0] == [];
    }
  }

  // -----------------------------------------------------------------------
  // The handler, run against the mutable store

  /** `ws.onmessage`: one frame. */
  method OnMessage(store: NetOpsStore, f: Frame)
    modifies store
    ensures store.State() == Dispatch(old(store.State()), f)
  {
    match f
    case Unparsable(_) =>
    case Parsed(m) =>
      if m.msgType == "initial_state" {
        store.ClearNodes();
        if m.nodes.Some? {
          var ns := m.nodes.value;
          ghost var cleared := store.State();
          for i := 0 to |ns|
            invariant store.State() == AddNodes(cleared, ns[..i])
          {
            assert ns[..i + 1][..i] == ns[..i];
            store.AddNode(ns[i]);
          }
          assert ns[..|ns|] == ns;
        }
      } else if m.msgType == "node_add" {
        if m.node.Some? {
          store.AddNode(m.node.value);
        }
      } else if m.msgType == "node_update" {
        if m.node.Some? {
          store.UpdateNode(m.node.value.id, AsPatch(m.node.value));
        }
      } else if m.msgType == "node_remove" {
        if m.id.Some? && m.id.value != "" {
          store.RemoveNode(m.id.value);
        }
      } else if m.msgType == "connections_update" {
        if m.connections.Some? {
          store.SetConnections(m.connections.value);
        }
      }
  }

  /** The handler run on each frame in arrival order. */
  method OnMessages(store: NetOpsStore, frames: seq<Frame>)
    modifies store
    ensures store.State() == DispatchAll(old(store.State()), frames)
  {
    for i := 0 to |frames|
      invariant store.State() == DispatchAll(old(store.State()), frames[..i])
    {
      assert frames[..i + 1][..i] == frames[..i];
      OnMessage(store, frames[i]);
    }
    assert frames[..|frames|] == frames;
  }
}
