/** One tick of the discovery loop (`monitorConnections` in backend/main.go):
    the captured connections are counted per remote IP and create or refresh
    nodes, a `local -> ip` edge list is broadcast, and unseen nodes age to
    offline and then out of the store.  Time is integer milliseconds read
    once per tick; the geographic lookup goes through the cache with the
    network as a parameter; broadcasts are the returned event list.  Go's
    map iteration order is a free choice, so what depends on it (the order
    of the edges and of the aging events) is stated order-free. */
module Monitor {
  import opened Collections
  import opened BackendTypes
  import opened Classifier
  import opened GeoIP

  /** The store key and id of this machine's node. */
  const LocalID := "local"

  /** `30*time.Second` and `5*time.Minute`, in milliseconds. */
  const OfflineAfter := 30000
  const RemoveAfter := 300000

  /** The node describing this machine, put in the store at start-up. */
  function LocalNode(now: int): NetworkNode {
    NetworkNode(LocalID, "Local Machine (Orlando)", "192.168.1.192", "endpoint",
                Location(28.5383, -81.3792), "", "", "online", 0, "", now, now)
  }

  // -----------------------------------------------------------------------
  // The connection loop

  /** `seenIPs`: how many of the connections go to each remote IP. */
  function Counts(conns: seq<Connection>): map<string, nat>
    decreases |conns|
  {
    if conns == [] then map[]
    else
      var m := Counts(conns[..|conns| - 1]);
      var ip := conns[|conns| - 1].remoteIP;
      m[ip := (if ip in m then m[ip] else 0) + 1]
  }

  /** The connections to `ip`. */
  function ToIP(ip: string): Connection -> bool {
    (c: Connection) => c.remoteIP == ip
  }

  /** A known node seen again: just seen, online, and given the connection's
      process if it had none. */
  function Refresh(n: NetworkNode, c: Connection, now: int): NetworkNode {
    n.(lastSeen := now, status := "online",
       process := if c.process != "" && n.process == "" then c.process else n.process)
  }

  /** The node created for a new remote IP from its lookup. */
  function Discovered(c: Connection, info: GeoIPInfo, now: int): NetworkNode {
    NetworkNode(c.remoteIP, NodeName(info), c.remoteIP,
                ClassifyNode(c.remotePort, info.asn, info.owner, info.hostname),
                info.location, info.owner, info.asn, "online", 1, c.process, now, now)
  }

  /** What the connection loop works on: the nodes, the lookup cache and the
      `node_add` broadcasts so far. */
  datatype Scan = Scan(nodes: map<string, NetworkNode>, cache: map<string, GeoIPInfo>, added: seq<Event>)

  /** One connection handled: refresh a known node, or look the IP up and add
      a node when the lookup succeeds. */
  function Visit(s: Scan, c: Connection, fetch: Fetch, scan: ScanFloat, now: int): Scan {
    var ip := c.remoteIP;
    if ip in s.nodes then s.(nodes := s.nodes[ip := Refresh(s.nodes[ip], c, now)])
    else
      var (r, cache) := CachedLookup(s.cache, fetch, scan, ip);
      if r.Err? then s.(cache := cache)
      else
        var n := Discovered(c, r.value, now);
        Scan(s.nodes[ip := n], cache, s.added + [NodeAdd(n)])
  }

  /** The connections handled in order. */
  function VisitAll(s: Scan, conns: seq<Connection>, fetch: Fetch, scan: ScanFloat, now: int): Scan
    decreases |conns|
  {
    if conns == [] then s
    else Visit(VisitAll(s, conns[..|conns| - 1], fetch, scan, now), conns[|conns| - 1], fetch, scan, now)
  }

  // -----------------------------------------------------------------------
  // Edges

  /** Every node seen in the tick carries its connection count. */
  function Linked(nodes: map<string, NetworkNode>, seen: map<string, nat>): map<string, NetworkNode> {
    map ip | ip in nodes :: if ip in seen then nodes[ip].(connections := seen[ip]) else nodes[ip]
  }

  /** One `local -> ip` edge for each seen IP that has a node, and no other. */
  ghost predicate IsEdgeList(edges: seq<WSConnection>, seen: set<string>, nodes: map<string, NetworkNode>) {
    NoDuplicates(edges) &&
    forall e :: e in edges <==> e.from == LocalID && e.to in seen && e.to in nodes
  }

  // -----------------------------------------------------------------------
  // Aging

  /** Nodes other than the local one that the tick did not see are aged. */
  predicate Unseen(ip: string, seen: set<string>) {
    ip != LocalID && ip !in seen
  }

  predicate Stale(n: NetworkNode, now: int) {
    now - n.lastSeen > OfflineAfter
  }

  predicate Expired(n: NetworkNode, now: int) {
    now - n.lastSeen > RemoveAfter
  }

  /** The nodes once those in `done` have been aged: stale unseen ones are
      offline and expired unseen ones are gone. */
  function AgedPart(nodes: map<string, NetworkNode>, seen: set<string>, now: int, done: set<string>)
    : map<string, NetworkNode>
  {
    map ip | ip in nodes && !(ip in done && Unseen(ip, seen) && Expired(nodes[ip], now)) ::
      if ip in done && Unseen(ip, seen) && Stale(nodes[ip], now) then nodes[ip].(status := "offline")
      else nodes[ip]
  }

  /** The store after the aging loop. */
  function Aged(nodes: map<string, NetworkNode>, seen: set<string>, now: int): map<string, NetworkNode> {
    AgedPart(nodes, seen, now, nodes.Keys)
  }

  /** The broadcasts aging one node causes: `node_update` when it goes
      offline, then `node_remove` when it expires. */
  function AgingEvents(ip: string, n: NetworkNode, seen: set<string>, now: int): seq<Event> {
    if Unseen(ip, seen) && Stale(n, now) then
      (if n.status != "offline" then [NodeUpdate(n.(status := "offline"))] else []) +
      (if Expired(n, now) then [NodeRemove(ip)] else [])
    else []
  }

  /** The aging broadcasts of the node at a key. */
  function AgingStep(nodes: map<string, NetworkNode>, seen: set<string>, now: int): string -> seq<Event> {
    ip => if ip in nodes then AgingEvents(ip, nodes[ip], seen, now) else []
  }

  /** The aging broadcasts for the nodes visited in `order`. */
  function AgingEventsIn(order: seq<string>, nodes: map<string, NetworkNode>, seen: set<string>, now: int)
    : seq<Event>
  {
    FlatMap(order, AgingStep(nodes, seen, now))
  }

  /** `order` visits every key of `keys` exactly once. */
  ghost predicate Enumerates(order: seq<string>, keys: set<string>) {
    NoDuplicates(order) && forall ip :: ip in order <==> ip in keys
  }

  // -----------------------------------------------------------------------
  // The tick, run against the store and the cache

  /** The connection loop. */
  method VisitConnections(store: NodeStore, geo: GeoIPCache, conns: seq<Connection>,
                          fetch: Fetch, scan: ScanFloat, now: int)
    returns (seen: map<string, nat>, added: seq<Event>)
    modifies store, geo
    ensures seen == Counts(conns)
    ensures Scan(store.nodes, geo.cache, added) ==
      VisitAll(Scan(old(store.nodes), old(geo.cache), []), conns, fetch, scan, now)
  {
    seen := map[];
    added := [];
    for i := 0 to |conns|
      invariant seen == Counts(conns[..i])
      invariant Scan(store.nodes, geo.cache, added) ==
        VisitAll(Scan(old(store.nodes), old(geo.cache), []), conns[..i], fetch, scan, now)
    {
      PrefixStep(conns, i, fetch, scan, now, Scan(old(store.nodes), old(geo.cache), []));
      var ip := conns[i].remoteIP;
      seen := seen[ip := (if ip in seen then seen[ip] else 0) + 1];
      added := VisitConnection(store, geo, conns[i], fetch, scan, now, added);
    }
    assert conns[..|conns|] == conns;
  }

  /** The specifications one connection further into the capture. */
  lemma PrefixStep(conns: seq<Connection>, i: nat, fetch: Fetch, scan: ScanFloat, now: int, s0: Scan)
    requires i < |conns|
    ensures var m := Counts(conns[..i]); var ip := conns[i].remoteIP;
      Counts(conns[..i + 1]) == m[ip := (if ip in m then m[ip] else 0) + 1]
    ensures VisitAll(s0, conns[..i + 1], fetch, scan, now) ==
      Visit(VisitAll(s0, conns[..i], fetch, scan, now), conns[i], fetch, scan, now)
  {
    assert conns[..i + 1][..i] == conns[..i];
  }

  /** The body of the connection loop for one connection. */
  method VisitConnection(store: NodeStore, geo: GeoIPCache, c: Connection,
                         fetch: Fetch, scan: ScanFloat, now: int, added: seq<Event>)
    returns (added': seq<Event>)
    modifies store, geo
    ensures Scan(store.nodes, geo.cache, added') ==
      Visit(Scan(old(store.nodes), old(geo.cache), added), c, fetch, scan, now)
  {
    added' := added;
    var ip := c.remoteIP;
    if ip in store.nodes {
      var node := store.nodes[ip];
      node := node.(lastSeen := now, status := "online");
      if c.process != "" && node.process == "" {
        node := node.(process := c.process);
      }
      store.nodes := store.nodes[ip := node];
    } else {
      var r := geo.Lookup(ip, fetch, scan);
      if r.Ok? {
        var info := r.value;
        var name := GetNodeName(info);
        var nodeType := ClassifyNode(c.remotePort, info.asn, info.owner, info.hostname);
        var node := NetworkNode(ip, name, ip, nodeType, info.location, info.owner, info.asn,
                                "online", 1, c.process, now, now);
        store.nodes := store.nodes[ip := node];
        added' := added + [NodeAdd(node)];
      }
    }
  }

  /** The count-and-edge loop over `seenIPs`. */
  method LinkSeen(store: NodeStore, seen: map<string, nat>) returns (edges: seq<WSConnection>)
    modifies store
    ensures store.nodes == Linked(old(store.nodes), seen)
    ensures IsEdgeList(edges, seen.Keys, old(store.nodes))
  {
    ghost var nodes0 := store.nodes;
    edges := [];
    var pending := seen.Keys;
    while pending != {}
      invariant pending <= seen.Keys
      invariant store.nodes == Linked(nodes0, seen - pending)
      invariant IsEdgeList(edges, seen.Keys - pending, nodes0)
      decreases pending
    {
      var ip :| ip in pending;
      if ip in store.nodes {
        store.nodes := store.nodes[ip := store.nodes[ip].(connections := seen[ip])];
        edges := edges + [WSConnection(LocalID, ip)];
      }
      pending := pending - {ip};
    }
    assert seen - {} == seen;
  }

  /** The aging loop over the store, deleting as it goes; `order` is the
      order Go's map iteration happened to visit the keys in. */
  method AgeNodes(store: NodeStore, seen: set<string>, now: int)
    returns (events: seq<Event>, ghost order: seq<string>)
    modifies store
    ensures store.nodes == Aged(old(store.nodes), seen, now)
    ensures Enumerates(order, old(store.nodes).Keys)
    ensures events == AgingEventsIn(order, old(store.nodes), seen, now)
  {
    ghost var nodes0 := store.nodes;
    ghost var done: set<string> := {};
    events := [];
    order := [];
    var pending := store.nodes.Keys;
    while pending != {}
      invariant done !! pending && done + pending == nodes0.Keys
      invariant store.nodes == AgedPart(nodes0, seen, now, done)
      invariant Enumerates(order, done)
      invariant events == AgingEventsIn(order, nodes0, seen, now)
      decreases pending
    {
      var ip :| ip in pending;
      AgedPartStep(nodes0, seen, now, done, ip);
      var step := AgeNode(store, ip, seen, now);
      FlatMapSnoc(order, ip, AgingStep(nodes0, seen, now));
      events := events + step;
      done := done + {ip};
      pending := pending - {ip};
      order := order + [ip];
    }
  }

  /** The body of the aging loop for the node at `ip`. */
  method AgeNode(store: NodeStore, ip: string, seen: set<string>, now: int) returns (events: seq<Event>)
    requires ip in store.nodes
    modifies store
    ensures events == AgingEvents(ip, old(store.nodes[ip]), seen, now)
    ensures store.nodes ==
      var m := old(store.nodes); var n := m[ip];
      if Unseen(ip, seen) && Expired(n, now) then m - {ip}
      else if Unseen(ip, seen) && Stale(n, now) then m[ip := n.(status := "offline")]
      else m
  {
    events := [];
    var node := store.nodes[ip];
    if ip == LocalID {
      return;
    }
    if ip !in seen {
      if now - node.lastSeen > OfflineAfter {
        if node.status != "offline" {
          node := node.(status := "offline");
          store.nodes := store.nodes[ip := node];
          events := events + [NodeUpdate(node)];
        }
        if now - node.lastSeen > RemoveAfter {
          store.nodes := store.nodes - {ip};
          events := events + [NodeRemove(ip)];
        }
      }
    }
  }

  /** Aging one more node changes the store at that node only. */
  lemma AgedPartStep(nodes: map<string, NetworkNode>, seen: set<string>, now: int, done: set<string>, ip: string)
    requires ip in nodes && ip !in done
    ensures ip in AgedPart(nodes, seen, now, done) && AgedPart(nodes, seen, now, done)[ip] == nodes[ip]
    ensures AgedPart(nodes, seen, now, done + {ip}) ==
      var m := AgedPart(nodes, seen, now, done); var n := m[ip];
      if Unseen(ip, seen) && Expired(n, now) then m - {ip}
      else if Unseen(ip, seen) && Stale(n, now) then m[ip := n.(status := "offline")]
      else m
  {
  }

  /** One tick.  With no capture (`None`) the node table and the cache stay
      as they were and no topology event goes out.  Otherwise the broadcasts are the `node_add`s of the
      connection loop, then the edge list, then the aging broadcasts. */
  method Tick(store: NodeStore, geo: GeoIPCache, captured: Option<seq<Connection>>,
              fetch: Fetch, scan: ScanFloat, now: int)
    returns (events: seq<Event>, ghost edges: seq<WSConnection>, ghost order: seq<string>)
    modifies store, geo
    ensures captured.None? ==>
      store.nodes == old(store.nodes) && geo.cache == old(geo.cache) && events == []
    ensures captured.Some? ==>
      var seen := Counts(captured.value);
      var s := VisitAll(Scan(old(store.nodes), old(geo.cache), []), captured.value, fetch, scan, now);
      var linked := Linked(s.nodes, seen);
      geo.cache == s.cache &&
      store.nodes == Aged(linked, seen.Keys, now) &&
      IsEdgeList(edges, seen.Keys, s.nodes) &&
      Enumerates(order, linked.Keys) &&
      events == s.added + [ConnectionsUpdate(edges)] + AgingEventsIn(order, linked, seen.Keys, now)
  {
    if captured.None? {
      return [], [], [];
    }
    var seen, added := VisitConnections(store, geo, captured.value, fetch, scan, now);
    var wsConnections := LinkSeen(store, seen);
    edges := wsConnections;
    var aging;
    aging, order := AgeNodes(store, seen.Keys, now);
    events := added + [ConnectionsUpdate(wsConnections)] + aging;
  }

  // -----------------------------------------------------------------------
  // Properties of the connection loop

  /** `seenIPs` holds exactly the remote IPs of the connections, each with
      the number of connections to it. */
  lemma {:induction false} CountsSpec(conns: seq<Connection>, ip: string)
    ensures ip in Counts(conns) <==> exists i :: 0 <= i < |conns| && conns[i].remoteIP == ip
    ensures (if ip in Counts(conns) then Counts(conns)[ip] else 0) == CountWhere(conns, ToIP(ip))
    decreases |conns|
  {
    if conns != [] {
      var init := conns[..|conns| - 1];
      CountsSpec(init, ip);
      assert Filter(conns, ToIP(ip)) ==
        Filter(init, ToIP(ip)) + (if ToIP(ip)(conns[|conns| - 1]) then [conns[|conns| - 1]] else []);
      if ip in Counts(init) {
        var i :| 0 <= i < |init| && init[i].remoteIP == ip;
        assert conns[i].remoteIP == ip;
      }
      if exists i :: 0 <= i < |conns| && conns[i].remoteIP == ip {
        var i :| 0 <= i < |conns| && conns[i].remoteIP == ip;
        if i < |init| {
          assert init[i].remoteIP == ip;
        }
      }
    }
  }

  /** The position of the first connection to `ip`. */
  function FirstTo(conns: seq<Connection>, ip: string): (i: nat)
    requires ip in Counts(conns)
    ensures i < |conns| && conns[i].remoteIP == ip
    ensures forall j :: 0 <= j < i ==> conns[j].remoteIP != ip
    decreases |conns|
  {
    var init := conns[..|conns| - 1];
    if ip in Counts(init) then FirstTo(init, ip)
    else
      CountsSpec(init, ip);
      assert forall j :: 0 <= j < |init| ==> init[j] == conns[j];
      |conns| - 1
  }

  /** One connection handled, with a cache that agrees with the service. */
  lemma VisitStep(r: Scan, c: Connection, fetch: Fetch, scan: ScanFloat, now: int)
    requires Consistent(r.cache, fetch, scan)
    ensures var r' := Visit(r, c, fetch, scan, now); var ip := c.remoteIP;
      Consistent(r'.cache, fetch, scan) &&
      (ip in r'.nodes <==> ip in r.nodes || Resolve(fetch, scan, ip).Ok?) &&
      (ip in r'.nodes ==> r'.nodes[ip].lastSeen == now && r'.nodes[ip].status == "online") &&
      (ip in r.nodes ==> r'.nodes[ip] == Refresh(r.nodes[ip], c, now) && r'.added == r.added) &&
      (ip !in r.nodes ==>
        r'.added == r.added + (if Resolve(fetch, scan, ip).Ok? then [NodeAdd(r'.nodes[ip])] else [])) &&
      (ip !in r.nodes && ip in r'.nodes ==> r'.nodes[ip] == Discovered(c, Resolve(fetch, scan, ip).value, now)) &&
      (forall k :: k != ip ==> (k in r'.nodes <==> k in r.nodes)) &&
      (forall k :: k != ip && k in r.nodes ==> r'.nodes[k] == r.nodes[k])
  {
    CacheTransparent(r.cache, fetch, scan, c.remoteIP);
  }

  /** Over the connection loop, with a cache that agrees with the service:
      the cache keeps agreeing; the nodes are the earlier ones plus every
      seen IP whose lookup succeeds; every seen node is online and just seen;
      every unseen one is untouched. */
  lemma VisitAllNodes(s0: Scan, conns: seq<Connection>, fetch: Fetch, scan: ScanFloat, now: int)
    requires Consistent(s0.cache, fetch, scan)
    ensures var r := VisitAll(s0, conns, fetch, scan, now);
      Consistent(r.cache, fetch, scan) &&
      (forall ip :: ip in r.nodes <==> ip in s0.nodes || (ip in Counts(conns) && Resolve(fetch, scan, ip).Ok?)) &&
      (forall ip :: ip in r.nodes && ip in Counts(conns) ==>
        r.nodes[ip].lastSeen == now && r.nodes[ip].status == "online") &&
      (forall ip :: ip in r.nodes && ip !in Counts(conns) ==> r.nodes[ip] == s0.nodes[ip])
  {
    VisitAllKeys(s0, conns, fetch, scan, now);
    VisitAllFresh(s0, conns, fetch, scan, now);
  }

  lemma {:induction false} VisitAllKeys(s0: Scan, conns: seq<Connection>, fetch: Fetch, scan: ScanFloat, now: int)
    requires Consistent(s0.cache, fetch, scan)
    ensures var r := VisitAll(s0, conns, fetch, scan, now);
      Consistent(r.cache, fetch, scan) &&
      (forall ip :: ip in r.nodes <==> ip in s0.nodes || (ip in Counts(conns) && Resolve(fetch, scan, ip).Ok?))
    decreases |conns|
  {
    if conns != [] {
      var init := conns[..|conns| - 1];
      VisitAllKeys(s0, init, fetch, scan, now);
      VisitStep(VisitAll(s0, init, fetch, scan, now), conns[|conns| - 1], fetch, scan, now);
    }
  }

  lemma {:induction false} VisitAllFresh(s0: Scan, conns: seq<Connection>, fetch: Fetch, scan: ScanFloat, now: int)
    requires Consistent(s0.cache, fetch, scan)
    ensures var r := VisitAll(s0, conns, fetch, scan, now);
      (forall ip :: ip in r.nodes && ip in Counts(conns) ==>
        r.nodes[ip].lastSeen == now && r.nodes[ip].status == "online") &&
      (forall ip :: ip in r.nodes && ip !in Counts(conns) ==> ip in s0.nodes && r.nodes[ip] == s0.nodes[ip])
    decreases |conns|
  {
    if conns != [] {
      var init := conns[..|conns| - 1];
      VisitAllFresh(s0, init, fetch, scan, now);
      VisitAllKeys(s0, init, fetch, scan, now);
      VisitStep(VisitAll(s0, init, fetch, scan, now), conns[|conns| - 1], fetch, scan, now);
    }
  }

  /** A node known before the loop stays, changing at most its last-seen
      time, status and process: when a connection goes to it, it is just
      seen and online; otherwise it is untouched.  A process once set is
      kept, and a new one comes from a connection to that node. */
  lemma {:induction false} VisitAllKnown(s0: Scan, conns: seq<Connection>, fetch: Fetch, scan: ScanFloat, now: int, ip: string)
    requires ip in s0.nodes
    ensures var r := VisitAll(s0, conns, fetch, scan, now); var n0 := s0.nodes[ip];
      ip in r.nodes &&
      r.nodes[ip].(lastSeen := n0.lastSeen, status := n0.status, process := n0.process) == n0 &&
      (ip in Counts(conns) ==> r.nodes[ip].lastSeen == now && r.nodes[ip].status == "online") &&
      (ip !in Counts(conns) ==> r.nodes[ip] == n0) &&
      (n0.process != "" ==> r.nodes[ip].process == n0.process) &&
      (r.nodes[ip].process != n0.process ==>
        exists i :: 0 <= i < |conns| && conns[i].remoteIP == ip && conns[i].process == r.nodes[ip].process)
    decreases |conns|
  {
    if conns != [] {
      var init := conns[..|conns| - 1];
      var c := conns[|conns| - 1];
      VisitAllKnown(s0, init, fetch, scan, now, ip);
      var r := VisitAll(s0, init, fetch, scan, now);
      var r' := VisitAll(s0, conns, fetch, scan, now);
      if r'.nodes[ip].process != s0.nodes[ip].process {
        if r.nodes[ip].process != s0.nodes[ip].process {
          var i :| 0 <= i < |init| && init[i].remoteIP == ip && init[i].process == r.nodes[ip].process;
          assert conns[i] == init[i];
        } else {
          assert c.remoteIP == ip;
        }
      }
    }
  }

  /** A node the loop creates is the one built from the first connection to
      its IP and that IP's lookup, later changed at most in its last-seen
      time, status and process; it ends the loop online and just seen. */
  lemma {:induction false} VisitAllNew(s0: Scan, conns: seq<Connection>, fetch: Fetch, scan: ScanFloat, now: int, ip: string)
    requires Consistent(s0.cache, fetch, scan)
    requires ip in VisitAll(s0, conns, fetch, scan, now).nodes && ip !in s0.nodes
    ensures ip in Counts(conns) && Resolve(fetch, scan, ip).Ok?
    ensures var n := VisitAll(s0, conns, fetch, scan, now).nodes[ip];
      var d := Discovered(conns[FirstTo(conns, ip)], Resolve(fetch, scan, ip).value, now);
      n.(lastSeen := d.lastSeen, status := d.status, process := d.process) == d &&
      d.status == "online" && d.lastSeen == now && n.status == "online" && n.lastSeen == now
    decreases |conns|
  {
    VisitAllNodes(s0, conns, fetch, scan, now);
    var init := conns[..|conns| - 1];
    var c := conns[|conns| - 1];
    VisitAllNodes(s0, init, fetch, scan, now);
    var r := VisitAll(s0, init, fetch, scan, now);
    VisitStep(r, c, fetch, scan, now);
    if ip in r.nodes {
      VisitAllNew(s0, init, fetch, scan, now, ip);
      assert FirstTo(conns, ip) == FirstTo(init, ip);
    }
  }

  /** The `node_add` broadcasts of the loop: one per created node, carrying
      the node as it was created, and nothing else. */
  lemma VisitAllAdded(s0: Scan, conns: seq<Connection>, fetch: Fetch, scan: ScanFloat, now: int)
    requires Consistent(s0.cache, fetch, scan) && s0.added == []
    ensures var r := VisitAll(s0, conns, fetch, scan, now);
      (forall e :: e in r.added ==>
        e.NodeAdd? && e.node.id in r.nodes && e.node.id !in s0.nodes &&
        e.node.id in Counts(conns) && Resolve(fetch, scan, e.node.id).Ok? &&
        e.node == Discovered(conns[FirstTo(conns, e.node.id)], Resolve(fetch, scan, e.node.id).value, now)) &&
      (forall ip :: ip in r.nodes && ip !in s0.nodes ==> exists e :: e in r.added && e.NodeAdd? && e.node.id == ip) &&
      (forall i, j :: 0 <= i < j < |r.added| && r.added[i].NodeAdd? && r.added[j].NodeAdd? ==>
        r.added[i].node.id != r.added[j].node.id)
  {
    AddedShape(s0, conns, fetch, scan, now);
    AddedCovers(s0, conns, fetch, scan, now);
    AddedDistinct(s0, conns, fetch, scan, now);
  }

  lemma {:induction false} AddedShape(s0: Scan, conns: seq<Connection>, fetch: Fetch, scan: ScanFloat, now: int)
    requires Consistent(s0.cache, fetch, scan) && s0.added == []
    ensures var r := VisitAll(s0, conns, fetch, scan, now);
      forall e :: e in r.added ==>
        e.NodeAdd? && e.node.id in r.nodes && e.node.id !in s0.nodes &&
        e.node.id in Counts(conns) && Resolve(fetch, scan, e.node.id).Ok? &&
        e.node == Discovered(conns[FirstTo(conns, e.node.id)], Resolve(fetch, scan, e.node.id).value, now)
    decreases |conns|
  {
    if conns != [] {
      var init := conns[..|conns| - 1];
      AddedShape(s0, init, fetch, scan, now);
      AddedStep(s0, init, conns[|conns| - 1], fetch, scan, now);
      assert init + [conns[|conns| - 1]] == conns;
    }
  }

  lemma {:induction false} AddedCovers(s0: Scan, conns: seq<Connection>, fetch: Fetch, scan: ScanFloat, now: int)
    requires Consistent(s0.cache, fetch, scan)
    ensures var r := VisitAll(s0, conns, fetch, scan, now);
      forall ip :: ip in r.nodes && ip !in s0.nodes ==> exists e :: e in r.added && e.NodeAdd? && e.node.id == ip
    decreases |conns|
  {
    if conns != [] {
      var init := conns[..|conns| - 1];
      var c := conns[|conns| - 1];
      AddedCovers(s0, init, fetch, scan, now);
      VisitAllNodes(s0, init, fetch, scan, now);
      var r := VisitAll(s0, init, fetch, scan, now);
      VisitStep(r, c, fetch, scan, now);
      var r' := Visit(r, c, fetch, scan, now);
      forall ip | ip in r'.nodes && ip !in s0.nodes
        ensures exists e :: e in r'.added && e.NodeAdd? && e.node.id == ip
      {
        if ip in r.nodes {
          var e :| e in r.added && e.NodeAdd? && e.node.id == ip;
          assert e in r'.added;
        } else {
          assert NodeAdd(r'.nodes[ip]) in r'.added;
        }
      }
    }
  }

  lemma {:induction false} AddedDistinct(s0: Scan, conns: seq<Connection>, fetch: Fetch, scan: ScanFloat, now: int)
    requires Consistent(s0.cache, fetch, scan) && s0.added == []
    ensures var r := VisitAll(s0, conns, fetch, scan, now);
      forall i, j :: 0 <= i < j < |r.added| && r.added[i].NodeAdd? && r.added[j].NodeAdd? ==>
        r.added[i].node.id != r.added[j].node.id
    decreases |conns|
  {
    if conns != [] {
      var init := conns[..|conns| - 1];
      var c := conns[|conns| - 1];
      AddedDistinct(s0, init, fetch, scan, now);
      AddedShape(s0, init, fetch, scan, now);
      VisitAllNodes(s0, init, fetch, scan, now);
      var r := VisitAll(s0, init, fetch, scan, now);
      VisitStep(r, c, fetch, scan, now);
      var r' := Visit(r, c, fetch, scan, now);
      if |r'.added| > |r.added| {
        forall i | 0 <= i < |r.added|
          ensures r'.added[i].node.id != c.remoteIP
        {
          assert r.added[i] in r.added;
        }
      }
    }
  }

  /** The induction step of `VisitAllAdded`: broadcasts already made stay
      right, and a new one is for an IP first seen now. */
  lemma AddedStep(s0: Scan, init: seq<Connection>, c: Connection, fetch: Fetch, scan: ScanFloat, now: int)
    requires Consistent(s0.cache, fetch, scan)
    requires var r := VisitAll(s0, init, fetch, scan, now);
      forall e :: e in r.added ==>
        e.NodeAdd? && e.node.id in r.nodes && e.node.id !in s0.nodes &&
        e.node.id in Counts(init) && Resolve(fetch, scan, e.node.id).Ok? &&
        e.node == Discovered(init[FirstTo(init, e.node.id)], Resolve(fetch, scan, e.node.id).value, now)
    ensures var r := VisitAll(s0, init, fetch, scan, now); var conns := init + [c];
      var r' := Visit(r, c, fetch, scan, now);
      forall e :: e in r'.added ==>
        e.NodeAdd? && e.node.id in r'.nodes && e.node.id !in s0.nodes &&
        e.node.id in Counts(conns) && Resolve(fetch, scan, e.node.id).Ok? &&
        e.node == Discovered(conns[FirstTo(conns, e.node.id)], Resolve(fetch, scan, e.node.id).value, now)
  {
    var conns := init + [c];
    assert conns[..|conns| - 1] == init;
    var r := VisitAll(s0, init, fetch, scan, now);
    VisitAllNodes(s0, init, fetch, scan, now);
    VisitStep(r, c, fetch, scan, now);
    var r' := Visit(r, c, fetch, scan, now);
    forall e | e in r'.added
      ensures e.NodeAdd? && e.node.id in r'.nodes && e.node.id !in s0.nodes &&
        e.node.id in Counts(conns) && Resolve(fetch, scan, e.node.id).Ok? &&
        e.node == Discovered(conns[FirstTo(conns, e.node.id)], Resolve(fetch, scan, e.node.id).value, now)
    {
      if e in r.added {
        assert FirstTo(conns, e.node.id) == FirstTo(init, e.node.id);
        assert conns[FirstTo(init, e.node.id)] == init[FirstTo(init, e.node.id)];
      } else {
        assert c.remoteIP !in Counts(init);
        assert FirstTo(conns, c.remoteIP) == |conns| - 1;
      }
    }
  }

  // -----------------------------------------------------------------------
  // Properties of the edges

  /** After linking, every seen node carries the number of connections to
      it; the rest of every node, and every unseen node, is unchanged. */
  lemma LinkedCounts(nodes: map<string, NetworkNode>, conns: seq<Connection>, ip: string)
    requires ip in nodes
    ensures var l := Linked(nodes, Counts(conns));
      l.Keys == nodes.Keys &&
      l[ip].(connections := nodes[ip].connections) == nodes[ip] &&
      (ip in Counts(conns) ==> l[ip].connections == CountWhere(conns, ToIP(ip)) > 0) &&
      (ip !in Counts(conns) ==> l[ip] == nodes[ip])
  {
    CountsSpec(conns, ip);
    if ip in Counts(conns) {
      var i :| 0 <= i < |conns| && conns[i].remoteIP == ip;
      CountPositive(conns, ToIP(ip));
      assert conns[i] in conns && ToIP(ip)(conns[i]);
    }
  }

  /** An edge list has one edge per seen IP with a node: edges differ in
      their target, and there are as many as such IPs. */
  lemma {:induction false} EdgeCount(edges: seq<WSConnection>, seen: set<string>, nodes: map<string, NetworkNode>)
    requires IsEdgeList(edges, seen, nodes)
    ensures forall i, j :: 0 <= i < j < |edges| ==> edges[i].to != edges[j].to
    ensures |edges| == |seen * nodes.Keys|
    decreases |edges|
  {
    forall i, j | 0 <= i < j < |edges|
      ensures edges[i].to != edges[j].to
    {
      assert edges[i] in edges && edges[j] in edges;
    }
    if edges == [] {
      forall ip | ip in seen * nodes.Keys
        ensures WSConnection(LocalID, ip) in edges
      {
      }
      assert seen * nodes.Keys == {};
    } else {
      var init := edges[..|edges| - 1];
      var t := edges[|edges| - 1].to;
      assert edges[|edges| - 1] in edges;
      forall e
        ensures e in init <==> e.from == LocalID && e.to in seen - {t} && e.to in nodes
      {
        if e in init {
          var k :| 0 <= k < |init| && init[k] == e;
          assert edges[k] == e;
        }
        if e.from == LocalID && e.to in seen - {t} && e.to in nodes {
          assert e in edges;
          var k :| 0 <= k < |edges| && edges[k] == e;
          assert k < |init|;
          assert init[k] == e;
        }
      }
      EdgeCount(init, seen - {t}, nodes);
      assert (seen - {t}) * nodes.Keys == seen * nodes.Keys - {t};
    }
  }

  // -----------------------------------------------------------------------
  // Properties of aging

  /** A node that expires while still marked online is first announced
      offline: its `node_remove` comes right after its `node_update`, because
      the removal age exceeds the offline age. */
  lemma RemovalFollowsUpdate(order: seq<string>, nodes: map<string, NetworkNode>, seen: set<string>, now: int,
                             ip: string)
    requires Enumerates(order, nodes.Keys) && ip in nodes
    requires Unseen(ip, seen) && Expired(nodes[ip], now) && nodes[ip].status != "offline"
    ensures var ev := AgingEventsIn(order, nodes, seen, now);
      exists j :: 0 < j < |ev| &&
        ev[j - 1] == NodeUpdate(nodes[ip].(status := "offline")) && ev[j] == NodeRemove(ip)
  {
    var f := AgingStep(nodes, seen, now);
    var p :| 0 <= p < |order| && order[p] == ip;
    FlatMapAt(order, p, f);
    var pre := FlatMap(order[..p], f);
    var ev := AgingEventsIn(order, nodes, seen, now);
    assert Stale(nodes[ip], now);
    assert AgingEvents(ip, nodes[ip], seen, now) == [NodeUpdate(nodes[ip].(status := "offline")), NodeRemove(ip)];
    assert f(ip) == AgingEvents(ip, nodes[ip], seen, now);
    var j := |pre| + 1;
    assert ev[j - 1] == NodeUpdate(nodes[ip].(status := "offline")) && ev[j] == NodeRemove(ip);
  }

  /** The local node and every seen node come through aging unchanged, with
      no broadcast. */
  lemma AgedKeeps(nodes: map<string, NetworkNode>, seen: set<string>, now: int, ip: string)
    requires ip in nodes && (ip == LocalID || ip in seen)
    ensures ip in Aged(nodes, seen, now) && Aged(nodes, seen, now)[ip] == nodes[ip]
    ensures AgingEvents(ip, nodes[ip], seen, now) == []
  {
  }

  /** An unseen node: stale means offline, expired means gone; otherwise
      it is kept as it was. */
  lemma AgedUnseen(nodes: map<string, NetworkNode>, seen: set<string>, now: int, ip: string)
    requires ip in nodes && Unseen(ip, seen)
    ensures ip in Aged(nodes, seen, now) <==> now - nodes[ip].lastSeen <= RemoveAfter
    ensures ip in Aged(nodes, seen, now) ==>
      Aged(nodes, seen, now)[ip] ==
        if now - nodes[ip].lastSeen > OfflineAfter then nodes[ip].(status := "offline") else nodes[ip]
  {
  }

  /** The broadcasts aging one node can cause. */
  lemma AgingEventsOf(ip: string, n: NetworkNode, seen: set<string>, now: int, x: string)
    ensures NodeRemove(x) in AgingEvents(ip, n, seen, now) <==> x == ip && Unseen(ip, seen) && Expired(n, now)
    ensures forall e :: e in AgingEvents(ip, n, seen, now) && e.NodeUpdate? ==>
      e.node == n.(status := "offline") && Unseen(ip, seen) && Stale(n, now) && n.status != "offline"
  {
  }

  /** The `node_remove` broadcasts name exactly the nodes aging deletes. */
  lemma RemovalsMatchDeletions(order: seq<string>, nodes: map<string, NetworkNode>, seen: set<string>, now: int, ip: string)
    requires Enumerates(order, nodes.Keys)
    ensures NodeRemove(ip) in AgingEventsIn(order, nodes, seen, now) <==>
      ip in nodes && ip !in Aged(nodes, seen, now)
  {
    FlatMapMembership(order, AgingStep(nodes, seen, now), NodeRemove(ip));
    if exists k :: k in order && NodeRemove(ip) in AgingStep(nodes, seen, now)(k) {
      var k :| k in order && NodeRemove(ip) in AgingStep(nodes, seen, now)(k);
      AgingEventsOf(k, nodes[k], seen, now, ip);
    }
    if ip in nodes && ip !in Aged(nodes, seen, now) {
      assert ip in order;
      AgingEventsOf(ip, nodes[ip], seen, now, ip);
    }
  }

  /** Store keys are node ids. */
  ghost predicate WellKeyed(nodes: map<string, NetworkNode>) {
    forall ip :: ip in nodes ==> nodes[ip].id == ip
  }

  /** In a well-keyed store, a `node_update` goes out for a node exactly when
      it turns offline: unseen, stale, and not offline already. */
  lemma UpdatesMatchTransitions(order: seq<string>, nodes: map<string, NetworkNode>, seen: set<string>, now: int, ip: string)
    requires Enumerates(order, nodes.Keys) && WellKeyed(nodes) && ip in nodes
    ensures NodeUpdate(nodes[ip].(status := "offline")) in AgingEventsIn(order, nodes, seen, now) <==>
      Unseen(ip, seen) && Stale(nodes[ip], now) && nodes[ip].status != "offline"
  {
    var e := NodeUpdate(nodes[ip].(status := "offline"));
    var f := AgingStep(nodes, seen, now);
    FlatMapMembership(order, f, e);
    if exists k :: k in order && e in f(k) {
      var k :| k in order && e in f(k);
      AgingEventsOf(k, nodes[k], seen, now, k);
      assert k == ip by {
        assert e.node.id == nodes[k].id == k;
        assert e.node.id == nodes[ip].id == ip;
      }
    }
    if Unseen(ip, seen) && Stale(nodes[ip], now) && nodes[ip].status != "offline" {
      assert ip in order && e in f(ip);
    }
  }

  // -----------------------------------------------------------------------
  // Properties of a whole tick

  /** The store after a tick with the given capture. */
  function TickNodes(nodes: map<string, NetworkNode>, cache: map<string, GeoIPInfo>, conns: seq<Connection>,
                     fetch: Fetch, scan: ScanFloat, now: int): map<string, NetworkNode>
  {
    var seen := Counts(conns);
    Aged(Linked(VisitAll(Scan(nodes, cache, []), conns, fetch, scan, now).nodes, seen), seen.Keys, now)
  }

  /** A tick keeps store keys equal to node ids. */
  lemma TickWellKeyed(nodes: map<string, NetworkNode>, cache: map<string, GeoIPInfo>, conns: seq<Connection>,
                      fetch: Fetch, scan: ScanFloat, now: int)
    requires WellKeyed(nodes) && Consistent(cache, fetch, scan)
    ensures WellKeyed(TickNodes(nodes, cache, conns, fetch, scan, now))
  {
    var s0 := Scan(nodes, cache, []);
    var r := VisitAll(s0, conns, fetch, scan, now);
    forall ip | ip in r.nodes
      ensures r.nodes[ip].id == ip
    {
      if ip in nodes {
        VisitAllKnown(s0, conns, fetch, scan, now, ip);
      } else {
        VisitAllNew(s0, conns, fetch, scan, now, ip);
      }
    }
  }

  /** The node table at start-up: this machine's node alone, under its id. */
  function StartupNodes(startedAt: int): (m: map<string, NetworkNode>)
    ensures m.Keys == {LocalID} && m[LocalID].id == LocalID && m[LocalID].status == "online"
  {
    map[LocalID := LocalNode(startedAt)]
  }

  /** The first tick after start-up keeps the table keyed by node id and keeps
      this machine's node, unchanged unless the capture shows its id. */
  lemma FirstTick(startedAt: int, cache: map<string, GeoIPInfo>, conns: seq<Connection>,
                  fetch: Fetch, scan: ScanFloat, now: int)
    requires Consistent(cache, fetch, scan)
    ensures var t := TickNodes(StartupNodes(startedAt), cache, conns, fetch, scan, now);
      WellKeyed(t) && LocalID in t &&
      (LocalID !in Counts(conns) ==> t[LocalID] == LocalNode(startedAt))
  {
    var start := StartupNodes(startedAt);
    assert WellKeyed(start);
    TickWellKeyed(start, cache, conns, fetch, scan, now);
    TickKeepsLocal(start, cache, conns, fetch, scan, now);
  }

  /** The local node survives every tick, and a tick that did not see it
      leaves it as it was. */
  lemma TickKeepsLocal(nodes: map<string, NetworkNode>, cache: map<string, GeoIPInfo>, conns: seq<Connection>,
                       fetch: Fetch, scan: ScanFloat, now: int)
    requires LocalID in nodes && Consistent(cache, fetch, scan)
    ensures LocalID in TickNodes(nodes, cache, conns, fetch, scan, now)
    ensures LocalID !in Counts(conns) ==> TickNodes(nodes, cache, conns, fetch, scan, now)[LocalID] == nodes[LocalID]
  {
    var s0 := Scan(nodes, cache, []);
    var r := VisitAll(s0, conns, fetch, scan, now);
    VisitAllNodes(s0, conns, fetch, scan, now);
    var seen := Counts(conns);
    LinkedCounts(r.nodes, conns, LocalID);
    AgedKeeps(Linked(r.nodes, seen), seen.Keys, now, LocalID);
  }

  /** A tick whose capture shows a node keeps it, online, just seen, with
      its connection count; a new IP whose lookup fails is not added. */
  lemma TickSeen(nodes: map<string, NetworkNode>, cache: map<string, GeoIPInfo>, conns: seq<Connection>,
                 fetch: Fetch, scan: ScanFloat, now: int, ip: string)
    requires Consistent(cache, fetch, scan) && ip in Counts(conns)
    ensures var t := TickNodes(nodes, cache, conns, fetch, scan, now);
      (ip in t <==> ip in nodes || Resolve(fetch, scan, ip).Ok?) &&
      (ip in t ==> t[ip].status == "online" && t[ip].lastSeen == now &&
                   t[ip].connections == CountWhere(conns, ToIP(ip)))
  {
    var s0 := Scan(nodes, cache, []);
    var r := VisitAll(s0, conns, fetch, scan, now);
    VisitAllNodes(s0, conns, fetch, scan, now);
    var seen := Counts(conns);
    if ip in r.nodes {
      LinkedCounts(r.nodes, conns, ip);
      AgedKeeps(Linked(r.nodes, seen), seen.Keys, now, ip);
    }
  }
}
