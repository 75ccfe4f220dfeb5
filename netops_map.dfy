/** The map view's data preparation (src/components/map/NetOpsMap.tsx): the
    icon and colour tables, the grouping of nodes that share a location and
    the positions their markers get, and the line features drawn for the
    connections.  The location key (`toFixed(2)` of both coordinates) and
    the radial offset (`sin`/`cos` of the node's angle in its group) are
    parameters: the model keeps what is built from them, not how they are
    computed. */
module NetOpsMap {
  import opened Collections
  import opened Topology

  // -----------------------------------------------------------------------
  // Icons and colours

  /** `getDeviceIcon`: the six device types, and a question mark otherwise. */
  function GetDeviceIcon(nodeType: string): (r: string)
    ensures r == "\U{2753}" <==>
      nodeType !in {"server", "firewall", "router", "switch", "endpoint", "load-balancer"}
  {
    match nodeType
    case "server" => "\U{1F5A5}\U{FE0F}"
    case "firewall" => "\U{1F6E1}\U{FE0F}"
    case "router" => "\U{1F4E1}"
    case "switch" => "\U{1F500}"
    case "endpoint" => "\U{1F4BB}"
    case "load-balancer" => "\U{2696}\U{FE0F}"
    case _ => "\U{2753}"
  }

  datatype StatusColors = StatusColors(border: string, bg: string)

  const Grey := StatusColors("#666", "rgba(102, 102, 102, 0.2)")

  /** `getStatusColor`: offline and every unknown status share the grey. */
  function GetStatusColor(status: string): (r: StatusColors)
    ensures r == Grey <==> status !in {"online", "warning", "critical"}
  {
    match status
    case "online" => StatusColors("#00ff41", "rgba(0, 255, 65, 0.2)")
    case "warning" => StatusColors("#ffb000", "rgba(255, 176, 0, 0.2)")
    case "critical" => StatusColors("#ff0055", "rgba(255, 0, 85, 0.2)")
    case "offline" => Grey
    case _ => Grey
  }

  // -----------------------------------------------------------------------
  // Location groups

  /** The text key a location is grouped under. */
  type LocationKey = Location -> string

  /** The key of each node, in node order. */
  function KeysOf(nodes: seq<NetworkNode>, key: LocationKey): (r: seq<string>)
    ensures |r| == |nodes| && forall i :: 0 <= i < |nodes| ==> r[i] == key(nodes[i].location)
  {
    seq(|nodes|, i requires 0 <= i < |nodes| => key(nodes[i].location))
  }

  function InGroup(key: LocationKey, k: string): NetworkNode -> bool {
    (n: NetworkNode) => key(n.location) == k
  }

  /** `locationGroups`: for each key some node has, the nodes with that key
      in node order. */
  function Groups(nodes: seq<NetworkNode>, key: LocationKey): map<string, seq<NetworkNode>> {
    map k | k in KeysOf(nodes, key) :: Filter(nodes, InGroup(key, k))
  }

  /** The groups in the order the component's JavaScript `Map` holds them: by the first
      node of each key. */
  function GroupList(nodes: seq<NetworkNode>, key: LocationKey): (r: seq<seq<NetworkNode>>)
    ensures |r| == |Distinct(KeysOf(nodes, key))|
  {
    var order := Distinct(KeysOf(nodes, key));
    seq(|order|, i requires 0 <= i < |order| => Filter(nodes, InGroup(key, order[i])))
  }

  /** Every node is in the group of its own key and in no other, and each
      group keeps its nodes in node order. */
  lemma GroupsPartition(nodes: seq<NetworkNode>, key: LocationKey, n: NetworkNode)
    requires n in nodes
    ensures key(n.location) in Groups(nodes, key)
    ensures forall k :: k in Groups(nodes, key) ==> (n in Groups(nodes, key)[k] <==> k == key(n.location))
  {
    var i :| 0 <= i < |nodes| && nodes[i] == n;
    assert KeysOf(nodes, key)[i] == key(n.location);
    forall k | k in Groups(nodes, key)
      ensures n in Groups(nodes, key)[k] <==> k == key(n.location)
    {
      FilterMembership(nodes, InGroup(key, k), n);
    }
  }

  /** A node appended to the list joins the group of its key at the end. */
  lemma GroupsStep(s: seq<NetworkNode>, n: NetworkNode, key: LocationKey)
    ensures var k := key(n.location);
      var before := Groups(s, key);
      Groups(s + [n], key) == before[k := (if k in before then before[k] else []) + [n]]
  {
    var k := key(n.location);
    var before := Groups(s, key);
    var after := Groups(s + [n], key);
    var wanted := before[k := (if k in before then before[k] else []) + [n]];
    assert KeysOf(s + [n], key) == KeysOf(s, key) + [k];
    forall j | j in after
      ensures j in wanted && after[j] == wanted[j]
    {
      assert (s + [n])[..|s|] == s;
      if j != k {
        assert j in KeysOf(s, key);
      } else if k !in before {
        forall m | m in s ensures !InGroup(key, k)(m) {
          var i :| 0 <= i < |s| && s[i] == m;
          assert KeysOf(s, key)[i] == key(m.location);
        }
        FilterKeepsNone(s, InGroup(key, k));
      }
    }
    assert after.Keys == wanted.Keys;
  }

  lemma {:induction false} FilterKeepsNone<T>(s: seq<T>, p: T -> bool)
    requires forall x :: x in s ==> !p(x)
    ensures Filter(s, p) == []
  {
    if s != [] {
      FilterKeepsNone(s[..|s| - 1], p);
    }
  }

  lemma GroupByStep(nodes: seq<NetworkNode>, i: nat, key: LocationKey,
                    groups: map<string, seq<NetworkNode>>, order: seq<string>)
    requires i < |nodes|
    requires groups == Groups(nodes[..i], key)
    requires order == Distinct(KeysOf(nodes[..i], key))
    requires forall k :: k in groups <==> k in order
    ensures var n := nodes[i];
      var k := key(n.location);
      var g := if k in groups then groups[k] else [];
      var order' := if k in groups then order else order + [k];
      && groups[k := g + [n]] == Groups(nodes[..i + 1], key)
      && order' == Distinct(KeysOf(nodes[..i + 1], key))
      && forall j :: j in groups[k := g + [n]] <==> j in order'
  {
    var n := nodes[i];
    var k := key(n.location);
    DistinctSpec(KeysOf(nodes[..i], key));
    GroupsStep(nodes[..i], n, key);
    assert nodes[..i + 1] == nodes[..i] + [n];
    assert KeysOf(nodes[..i + 1], key) == KeysOf(nodes[..i], key) + [k];
  }

  /** The grouping loop: each node pushed onto the list of its key, a key's
      list created, and the key remembered, the first time it is met. */
  method GroupByLocation(nodes: seq<NetworkNode>, key: LocationKey)
    returns (groups: map<string, seq<NetworkNode>>, order: seq<string>)
    ensures groups == Groups(nodes, key)
    ensures order == Distinct(KeysOf(nodes, key))
    ensures forall k :: k in groups <==> k in order
  {
    groups := map[];
    order := [];
    var i := 0;
    while i < |nodes|
      invariant 0 <= i <= |nodes|
      invariant groups == Groups(nodes[..i], key)
      invariant order == Distinct(KeysOf(nodes[..i], key))
      invariant forall k :: k in groups <==> k in order
    {
      var n := nodes[i];
      var k := key(n.location);
      var g := if k in groups then groups[k] else [];
      var order' := if k in groups then order else order + [k];
      GroupByStep(nodes, i, key, groups, order);
      groups := groups[k := g + [n]];
      order := order';
      i := i + 1;
    }
    assert nodes[..i] == nodes;
  }

  // -----------------------------------------------------------------------
  // Marker positions

  /** The position of the node at `index` of a group of `size`, spread
      around the group's first location. */
  type Spread = (Location, nat, nat) -> Location

  /** The position writes one group makes: a lone node keeps its location;
      in a larger group every node is spread around the first one's. */
  function Writes(group: seq<NetworkNode>, spread: Spread): seq<(string, Location)> {
    if |group| == 1 then [(group[0].id, group[0].location)]
    else
      seq(|group|, j requires 0 <= j < |group| => (group[j].id, spread(group[0].location, j, |group|)))
  }

  function WritesOf(spread: Spread): seq<NetworkNode> -> seq<(string, Location)> {
    g => Writes(g, spread)
  }

  /** The map after the writes, in order: a later write to an id wins. */
  function Apply(m: map<string, Location>, writes: seq<(string, Location)>): map<string, Location> {
    if writes == [] then m
    else
      var w := writes[|writes| - 1];
      Apply(m, writes[..|writes| - 1])[w.0 := w.1]
  }

  lemma {:induction false} ApplyAppend(m: map<string, Location>, a: seq<(string, Location)>, b: seq<(string, Location)>)
    ensures Apply(m, a + b) == Apply(Apply(m, a), b)
  {
    if b == [] {
      assert a + b == a;
    } else {
      assert (a + b)[..|a + b| - 1] == a + b[..|b| - 1];
      ApplyAppend(m, a, b[..|b| - 1]);
    }
  }

  /** An id written only with one value ends with that value. */
  lemma {:induction false} ApplyValue(m: map<string, Location>, writes: seq<(string, Location)>, id: string, v: Location)
    requires (id, v) in writes
    requires forall w :: w in writes && w.0 == id ==> w.1 == v
    ensures id in Apply(m, writes) && Apply(m, writes)[id] == v
  {
    var init := writes[..|writes| - 1];
    var last := writes[|writes| - 1];
    assert forall w :: w in init ==> w in writes;
    if last.0 != id {
      assert (id, v) in init by {
        var k :| 0 <= k < |writes| && writes[k] == (id, v);
        assert init[k] == (id, v);
      }
      ApplyValue(m, init, id, v);
    }
  }

  /** Every id written gets a position. */
  lemma {:induction false} ApplyCovers(m: map<string, Location>, writes: seq<(string, Location)>, w: (string, Location))
    requires w in writes
    ensures w.0 in Apply(m, writes)
  {
    var init := writes[..|writes| - 1];
    if writes[|writes| - 1] != w {
      assert w in init by {
        var k :| 0 <= k < |writes| && writes[k] == w;
        assert init[k] == w;
      }
      ApplyCovers(m, init, w);
    }
  }

  /** `nodePositions` as built from the groups in `Map` order. */
  function Positions(nodes: seq<NetworkNode>, key: LocationKey, spread: Spread): map<string, Location> {
    Apply(map[], FlatMap(GroupList(nodes, key), WritesOf(spread)))
  }

  /** One group's writes, as the component's `forEach` over the group does them. */
  method PlaceGroup(positions: map<string, Location>, group: seq<NetworkNode>, spread: Spread)
    returns (placed: map<string, Location>)
    ensures placed == Apply(positions, Writes(group, spread))
  {
    if |group| == 1 {
      placed := positions[group[0].id := group[0].location];
      assert Writes(group, spread)[..0] == [];
    } else {
      var ws := Writes(group, spread);
      placed := positions;
      var j := 0;
      while j < |group|
        invariant 0 <= j <= |group|
        invariant placed == Apply(positions, ws[..j])
      {
        placed := placed[group[j].id := spread(group[0].location, j, |group|)];
        assert ws[..j + 1][..j] == ws[..j];
        j := j + 1;
      }
      assert ws[..j] == ws;
    }
  }

  /** The positions loop over the groups, in `Map` order. */
  method NodePositions(groupList: seq<seq<NetworkNode>>, spread: Spread)
    returns (positions: map<string, Location>)
    ensures positions == Apply(map[], FlatMap(groupList, WritesOf(spread)))
  {
    positions := map[];
    var i := 0;
    while i < |groupList|
      invariant 0 <= i <= |groupList|
      invariant positions == Apply(map[], FlatMap(groupList[..i], WritesOf(spread)))
    {
      positions := PlaceGroup(positions, groupList[i], spread);
      assert groupList[..i + 1] == groupList[..i] + [groupList[i]];
      FlatMapSnoc(groupList[..i], groupList[i], WritesOf(spread));
      ApplyAppend(map[], FlatMap(groupList[..i], WritesOf(spread)), Writes(groupList[i], spread));
      i := i + 1;
    }
    assert groupList[..i] == groupList;
  }

  /** Where a node's marker goes: its entry in `nodePositions`, if any. */
  function MarkerPosition(positions: map<string, Location>, n: NetworkNode): Location {
    if n.id in positions then positions[n.id] else n.location
  }

  /** The group a node belongs to, and its place in `Map` order. */
  lemma GroupIndex(nodes: seq<NetworkNode>, key: LocationKey, n: NetworkNode) returns (gi: nat)
    requires n in nodes
    ensures gi < |GroupList(nodes, key)|
    ensures GroupList(nodes, key)[gi] == Filter(nodes, InGroup(key, key(n.location)))
    ensures n in GroupList(nodes, key)[gi]
  {
    var keys := KeysOf(nodes, key);
    var i :| 0 <= i < |nodes| && nodes[i] == n;
    assert keys[i] == key(n.location);
    DistinctSpec(keys);
    assert key(n.location) in Distinct(keys);
    var k :| 0 <= k < |Distinct(keys)| && Distinct(keys)[k] == key(n.location);
    gi := k;
    FilterMembership(nodes, InGroup(key, key(n.location)), n);
  }

  /** Every position write is made for a node, by the group of that node's
      key, and is the node's own location when that group is alone. */
  lemma WriterOf(nodes: seq<NetworkNode>, key: LocationKey, spread: Spread, w: (string, Location))
    returns (m: NetworkNode)
    requires w in FlatMap(GroupList(nodes, key), WritesOf(spread))
    ensures m in nodes && m.id == w.0
    ensures |Filter(nodes, InGroup(key, key(m.location)))| == 1 ==> w.1 == m.location
  {
    var groups := GroupList(nodes, key);
    var order := Distinct(KeysOf(nodes, key));
    FlatMapMembership(groups, WritesOf(spread), w);
    var h :| h in groups && w in WritesOf(spread)(h);
    var hi :| 0 <= hi < |groups| && groups[hi] == h;
    var ws := Writes(h, spread);
    var j :| 0 <= j < |ws| && ws[j] == w;
    m := h[j];
    FilterMembership(nodes, InGroup(key, order[hi]), m);
  }

  /** Every node's id gets a position. */
  lemma PositionsCover(nodes: seq<NetworkNode>, key: LocationKey, spread: Spread, n: NetworkNode)
    requires n in nodes
    ensures n.id in Positions(nodes, key, spread)
  {
    var gi := GroupIndex(nodes, key, n);
    var g := GroupList(nodes, key)[gi];
    var j :| 0 <= j < |g| && g[j] == n;
    var w := Writes(g, spread)[j];
    FlatMapMembership(GroupList(nodes, key), WritesOf(spread), w);
    assert w in WritesOf(spread)(g);
    ApplyCovers(map[], FlatMap(GroupList(nodes, key), WritesOf(spread)), w);
  }

  /** A node alone in its location group, whose id no other node shares,
      keeps its own location. */
  lemma LoneNodeKeepsLocation(nodes: seq<NetworkNode>, key: LocationKey, spread: Spread, n: NetworkNode)
    requires n in nodes
    requires forall m :: m in nodes && m.id == n.id ==> m == n
    requires |Filter(nodes, InGroup(key, key(n.location)))| == 1
    ensures MarkerPosition(Positions(nodes, key, spread), n) == n.location
  {
    var ws := FlatMap(GroupList(nodes, key), WritesOf(spread));
    var gi := GroupIndex(nodes, key, n);
    var g := GroupList(nodes, key)[gi];
    assert g[0] == n;
    FlatMapMembership(GroupList(nodes, key), WritesOf(spread), (n.id, n.location));
    assert (n.id, n.location) in WritesOf(spread)(g);
    forall w | w in ws && w.0 == n.id
      ensures w.1 == n.location
    {
      var m := WriterOf(nodes, key, spread, w);
    }
    ApplyValue(map[], ws, n.id, n.location);
  }

  // -----------------------------------------------------------------------
  // Connection lines

  /** A line's two `[lng, lat]` coordinates. */
  datatype Feature = Feature(from: (real, real), to: (real, real))

  function Coordinates(n: NetworkNode): (real, real) {
    (n.location.lng, n.location.lat)
  }

  /** `nodes.find(n => n.id === id)`: the first node with the id. */
  function Find(nodes: seq<NetworkNode>, id: string): (r: Option<NetworkNode>)
    ensures r.Some? <==> exists i :: 0 <= i < |nodes| && nodes[i].id == id
    ensures r.Some? ==> exists i :: 0 <= i < |nodes| && nodes[i] == r.value && r.value.id == id &&
                                    forall j :: 0 <= j < i ==> nodes[j].id != id
  {
    if nodes == [] then None
    else if nodes[0].id == id then Some(nodes[0])
    else
      var r := Find(nodes[1..], id);
      assert forall i :: 0 < i < |nodes| ==> nodes[i] == nodes[1..][i - 1];
      if r.Some? then
        assert exists i :: 0 <= i < |nodes| && nodes[i] == r.value && r.value.id == id &&
                           forall j :: 0 <= j < i ==> nodes[j].id != id
        by {
          var i :| 0 <= i < |nodes[1..]| && nodes[1..][i] == r.value && r.value.id == id &&
            forall j :: 0 <= j < i ==> nodes[1..][j].id != id;
          assert nodes[i + 1] == r.value;
          forall j | 0 <= j < i + 1 ensures nodes[j].id != id {
            if j > 0 {
              assert nodes[j] == nodes[1..][j - 1];
            }
          }
        }
        r
      else r
  }

  /** The feature for one connection, when both of its ends are nodes. */
  function LineFeature(nodes: seq<NetworkNode>, conn: Connection): (r: Option<Feature>)
    ensures r.Some? <==> Find(nodes, conn.from).Some? && Find(nodes, conn.to).Some?
  {
    var from := Find(nodes, conn.from);
    var to := Find(nodes, conn.to);
    if from.None? || to.None? then None
    else Some(Feature(Coordinates(from.value), Coordinates(to.value)))
  }

  function LineFeatureOf(nodes: seq<NetworkNode>): Connection -> Option<Feature> {
    c => LineFeature(nodes, c)
  }

  /** The `features` list. */
  function Features(nodes: seq<NetworkNode>, conns: seq<Connection>): seq<Feature> {
    FilterMap(conns, LineFeatureOf(nodes))
  }

  function Resolvable(nodes: seq<NetworkNode>): Connection -> bool {
    c => LineFeatureOf(nodes)(c).Some?
  }

  /** The features are those of the connections whose two ends both name a
      node, in connection order, one each; each runs from the first node
      with the `from` id to the first node with the `to` id. */
  lemma FeaturesSpec(nodes: seq<NetworkNode>, conns: seq<Connection>)
    ensures var kept := Filter(conns, Resolvable(nodes));
      |Features(nodes, conns)| == |kept| &&
      forall i :: 0 <= i < |kept| ==>
        Find(nodes, kept[i].from).Some? && Find(nodes, kept[i].to).Some? &&
        Features(nodes, conns)[i] ==
          Feature(Coordinates(Find(nodes, kept[i].from).value), Coordinates(Find(nodes, kept[i].to).value))
  {
    FilterMapKeeps(conns, LineFeatureOf(nodes));
    assert Resolvable(nodes) == (c: Connection) => LineFeatureOf(nodes)(c).Some?;
  }

  /** A connection with a dangling end adds no feature, wherever it is. */
  lemma DanglingDropped(nodes: seq<NetworkNode>, before: seq<Connection>, conn: Connection, after: seq<Connection>)
    requires Find(nodes, conn.from).None? || Find(nodes, conn.to).None?
    ensures Features(nodes, before + [conn] + after) == Features(nodes, before + after)
  {
    FilterMapAppend(before + [conn], after, LineFeatureOf(nodes));
    FilterMapAppend(before, [conn], LineFeatureOf(nodes));
    FilterMapAppend(before, after, LineFeatureOf(nodes));
    assert FilterMap([conn], LineFeatureOf(nodes)) == [];
  }

  /** The line effect: nothing is done when there are no connections or no
      nodes; otherwise the map's line source is replaced by the features. */
  function ConnectionLines(nodes: seq<NetworkNode>, conns: seq<Connection>): (r: Option<seq<Feature>>)
    ensures r.None? <==> conns == [] || nodes == []
    ensures r.Some? ==> |r.value| <= |conns|
  {
    if |conns| == 0 || |nodes| == 0 then None else Some(Features(nodes, conns))
  }
}
