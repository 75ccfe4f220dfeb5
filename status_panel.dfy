/** The status panel (src/components/panels/StatusPanel.tsx): the counts it
    shows for the node list, and the connection indicator a one-second
    interval moves from "connecting" to "connected" once nodes are present.
    The interval itself is replaced by explicit calls to `Tick`, each with
    the number of nodes at that moment. */
module StatusPanel {
  import opened Collections
  import opened Topology

  function IsOnline(n: NetworkNode): bool { n.status == "online" }
  function IsOffline(n: NetworkNode): bool { n.status == "offline" }

  /** `onlineNodes`. */
  function OnlineNodes(nodes: seq<NetworkNode>): nat {
    CountWhere(nodes, IsOnline)
  }

  /** `offlineNodes`. */
  function OfflineNodes(nodes: seq<NetworkNode>): nat {
    CountWhere(nodes, IsOffline)
  }

  /** Online and offline nodes together never outnumber the nodes, and
      each count is zero exactly when no node has that status. */
  lemma StatusCounts(nodes: seq<NetworkNode>)
    ensures OnlineNodes(nodes) + OfflineNodes(nodes) <= |nodes|
    ensures OnlineNodes(nodes) > 0 <==> exists n :: n in nodes && n.status == "online"
    ensures OfflineNodes(nodes) > 0 <==> exists n :: n in nodes && n.status == "offline"
  {
    CountDisjoint(nodes, IsOnline, IsOffline);
    CountPositive(nodes, IsOnline);
    CountPositive(nodes, IsOffline);
  }

  /** A node's contribution to the connection total: `connections || 0`. */
  function ConnectionsOf(n: NetworkNode): int {
    if n.connections.Some? then n.connections.value else 0
  }

  /** `totalConnections`: the left-to-right sum of the contributions. */
  function TotalConnections(nodes: seq<NetworkNode>): int {
    if nodes == [] then 0
    else TotalConnections(nodes[..|nodes| - 1]) + ConnectionsOf(nodes[|nodes| - 1])
  }

  /** The total of two lists run one after the other is the sum of their totals. */
  lemma {:induction false} TotalConnectionsAppend(a: seq<NetworkNode>, b: seq<NetworkNode>)
    ensures TotalConnections(a + b) == TotalConnections(a) + TotalConnections(b)
  {
    if b == [] {
      assert a + b == a;
    } else {
      assert (a + b)[..|a + b| - 1] == a + b[..|b| - 1];
      TotalConnectionsAppend(a, b[..|b| - 1]);
    }
  }

  /** Nodes without a connection count add nothing, and with non-negative
      counts the total bounds each node's count. */
  lemma {:induction false} TotalConnectionsBounds(nodes: seq<NetworkNode>)
    requires forall n :: n in nodes ==> ConnectionsOf(n) >= 0
    ensures TotalConnections(nodes) >= 0
    ensures forall i :: 0 <= i < |nodes| ==> ConnectionsOf(nodes[i]) <= TotalConnections(nodes)
    ensures (forall n :: n in nodes ==> n.connections.None?) ==> TotalConnections(nodes) == 0
  {
    if nodes != [] {
      var init := nodes[..|nodes| - 1];
      assert forall n :: n in init ==> n in nodes;
      TotalConnectionsBounds(init);
      forall i | 0 <= i < |nodes|
        ensures ConnectionsOf(nodes[i]) <= TotalConnections(nodes)
      {
        if i < |init| {
          assert init[i] == nodes[i];
        }
      }
    }
  }

  /** The connection indicator's three states. */
  datatype WsStatus = Connecting | Connected | Disconnected

  /** The indicator's label. */
  function StatusLabel(s: WsStatus): string {
    if s == Connected then "CONNECTED" else "CONNECTING..."
  }

  /** The offline row is rendered only when some node is offline. */
  function ShowsOfflineRow(nodes: seq<NetworkNode>): (r: bool)
    ensures r <==> exists n :: n in nodes && n.status == "offline"
  {
    StatusCounts(nodes);
    OfflineNodes(nodes) > 0
  }

  /** The status after the interval fired with these node counts. */
  function StatusAfter(ticks: seq<nat>): WsStatus {
    if ticks == [] then Connecting
    else if ticks[|ticks| - 1] > 0 then Connected
    else StatusAfter(ticks[..|ticks| - 1])
  }

  /** The status is connected exactly when some tick saw nodes, and
      connecting otherwise: it never reverts and never disconnects. */
  lemma {:induction false} StatusAfterSpec(ticks: seq<nat>)
    ensures StatusAfter(ticks) == Connected <==> exists i :: 0 <= i < |ticks| && ticks[i] > 0
    ensures StatusAfter(ticks) != Connected ==> StatusAfter(ticks) == Connecting
  {
    if ticks != [] {
      var init := ticks[..|ticks| - 1];
      StatusAfterSpec(init);
      if exists i :: 0 <= i < |init| && init[i] > 0 {
        var i :| 0 <= i < |init| && init[i] > 0;
        assert ticks[i] > 0;
      }
      if exists i :: 0 <= i < |ticks| && ticks[i] > 0 {
        var i :| 0 <= i < |ticks| && ticks[i] > 0;
        if i < |init| {
          assert init[i] > 0;
        }
      }
    }
  }

  /** Once connected, further ticks keep it connected. */
  lemma {:induction false} StatusNeverReverts(ticks: seq<nat>, more: seq<nat>)
    requires StatusAfter(ticks) == Connected
    ensures StatusAfter(ticks + more) == Connected
  {
    if more == [] {
      assert ticks + more == ticks;
    } else {
      assert (ticks + more)[..|ticks + more| - 1] == ticks + more[..|more| - 1];
      StatusNeverReverts(ticks, more[..|more| - 1]);
    }
  }

  /** The indicator state. */
  class StatusIndicator {
    var wsStatus: WsStatus
    ghost var ticks: seq<nat>

    ghost predicate Valid()
      reads this
    {
      wsStatus == StatusAfter(ticks)
    }

    constructor ()
      ensures Valid() && ticks == [] && wsStatus == Connecting
    {
      wsStatus := Connecting;
      ticks := [];
    }

    /** One firing of the interval with `nodeCount` nodes in the store. */
    method Tick(nodeCount: nat)
      requires Valid()
      modifies this
      ensures Valid() && ticks == old(ticks) + [nodeCount]
      ensures wsStatus == (if nodeCount > 0 then Connected else old(wsStatus))
    {
      if nodeCount > 0 {
        wsStatus := Connected;
      }
      ticks := ticks + [nodeCount];
      assert ticks[..|ticks| - 1] == old(ticks);
    }
  }
}
