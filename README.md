# NetOps topology monitor — a Dafny model

NetOps shows live network connections on a world map. A Go backend runs
`ss -tan` every five seconds. It keeps the connections to public peers and
looks each new peer up in a GeoIP service. Each peer is classified as a
server, load balancer, firewall or router. The backend keeps a node table
keyed by IP and ages out peers it no longer sees. It broadcasts `node_add`,
`node_update`, `node_remove` and `connections_update` events. A React client
applies these events to a topology store. It renders the store as map
markers, connection lines, threat markers, a status panel, a filter panel
and a log terminal.

This project models the core of both halves:

- **Backend**
  - `capture.dfy`: the `ss` line parser, the address splitter, the inclusion filter with `isPrivateIP`, and the capture loop.
  - `classifier.dfy`: the node classifier and the node icon table.
  - `geoip.dfy`: the GeoIP lookup with its cache, the Org→ASN/owner split, `IsIPv6` and node naming.
  - `monitor.dfy`: one tick of the monitoring loop, as a transition of the node table that emits broadcast events.
  - `backend_types.dfy`: the shared records.
- **Client**
  - `store.dfy`: the topology store.
  - `live_update.dfy`: the WebSocket message dispatch.
  - `threat_marker.dfy`: the threat marker helpers.
  - `filters_panel.dfy`, `status_panel.dfy` and `terminal_panel.dfy`: the three panels' logic.
  - `netops_map.dfy`: the map's grouping, positioning and line building.
  - `topology.dfy`: the client records and object spread.
- **Shared**
  - `collections.dfy`: sequence helpers.
  - `text.dfy`: Go's `strings` and `strconv` functions the backend relies on, and decimal formatting.

Code that updates state in place is modelled as classes whose methods are proved against specification functions:
- the Go node table and GeoIP cache;
- the client store;
- the panels' selection lists, status indicator and log scrollback.

Loops become `while` loops with invariants. Pure transformations become functions with lemmas.

## Model

| member | source | states |
|---|---|---|
| Capture.LinesOfJoin | backend/capture.go:23-30 | newline-terminated lines (no CR, no newline inside) are read back by the scanner one for one when all are shorter than 65536 characters; otherwise exactly the lines before the first long one are read |
| Capture.LinesCons | backend/capture.go:23-30 | a line then a newline yields that line, without its carriage return, then the lines of the rest; a line of 65536 characters or more ends the scan with nothing more read |
| Capture.CaptureEndsAtLongLine | backend/capture.go:23-55 | a line too long for the scanner ends the capture: whatever follows, only the connections of the lines before it are returned, since the scanner's error is never checked |
| Capture.To4 | backend/capture.go:140 | an address has IPv4 bytes exactly when it carries the v4-in-v6 prefix, and they are its last four bytes |
| Capture.Octet | backend/capture.go:140 | a dotted-decimal field is accepted only as the canonical decimal text of its value (digits, no leading zero), and the value is those digits' value |
| Capture.FirstSeparator | backend/capture.go:140 | the separator that decides IPv4 versus IPv6 parsing is one of `.`, `:` and `%` found in the text, and there is none only when the text has none of them |
| Capture.ParseFormatIPv4 | backend/capture.go:140 | every dotted-decimal rendering of an IPv4 address parses back to that address |
| Capture.ParseIPv4Format | backend/capture.go:140 | the canonical dotted-decimal text of four bytes parses to the IPv4 address of those bytes |
| Capture.FormatIPv4Injective | backend/capture.go:140 | different IPv4 addresses have different dotted-decimal text |
| Capture.CIDRMask | backend/capture.go:171 | the mask has the requested number of bytes, its first `ones` bits set and the rest clear: 0xff before the boundary byte, the partial byte at it, 0 after |
| Capture.CIDRParsed | backend/capture.go:171 | a canonical `a.b.c.d/n` parses to the masked address with an `n`-bit mask |
| Capture.RangeParsed | backend/capture.go:164-171 | each of the three private range literals parses to the network listed for it |
| Capture.IsPrivateIP | backend/capture.go:158-178 | the loop over the range literals returns exactly the private-address predicate |
| Capture.PrivateIPv4 | backend/capture.go:158-178 | an IPv4 address is private iff it is 127/8, 169.254/16, 224.0.0/24, 10/8, 172.16/12 or 192.168/16 |
| Capture.V4Classes | backend/capture.go:159 | loopback is 127/8, link-local unicast 169.254/16, link-local multicast 224.0.0/24 for IPv4 |
| Capture.InPrivateNets | backend/capture.go:170-174 | the three parsed networks contain exactly 10/8, 172.16/12 and 192.168/16 |
| Capture.PrivateIPv6 | backend/capture.go:158-178 | a non-IPv4 address is private iff it is `::1`, link-local unicast fe80::/10 or link-local multicast ff02 scope, never through the IPv4 ranges |
| Capture.ParseAddressBracketed | backend/capture.go:96-103 | `[ip]:port` gives the bracketed text and the port |
| Capture.ParseAddressAtColon | backend/capture.go:107-113 | without brackets the last colon splits address and port, whatever colons the address holds |
| Capture.ParseAddressHostPort | backend/capture.go:107-113 | `ip:port` gives the address and the port |
| Capture.ParseAddressBadPort | backend/capture.go:107-113 | a port that is not numeric reads as 0, so `*:*` gives (`*`, 0) |
| Capture.ParseAddressDotted | backend/capture.go:116-122 | `a.b.c.d.port` is split at the last dot when three dots precede it |
| Capture.ParseAddressUnrecognised | backend/capture.go:116-124 | without brackets or colons, text whose dot count is not four gives ("", 0) |
| Capture.ShortLine | backend/capture.go:60-63 | a line with fewer than five fields gives no connection |
| Capture.ParseSsLine | backend/capture.go:59-91 | a well-formed `ss` line gives state from field 0, local from field 3 and peer from field 4 |
| Capture.ListenExcluded | backend/capture.go:150-152 | a state containing LISTEN in any letter case is never kept |
| Capture.ShouldIncludeIPv4 | backend/capture.go:128-155 | an IPv4 peer is kept iff it is not 0.0.0.0, not private and its state has no LISTEN |
| Capture.Captured | backend/capture.go:29-51 | the connections kept are never more than the lines that parsed |
| Capture.CaptureConnections | backend/capture.go:13-56 | a failed command gives an error; otherwise the loop returns exactly the kept connections of the scanned lines (up to any line too long for the scanner) in order, with the parsed count |
| Capture.CapturedSnoc | backend/capture.go:43-50 | one more line adds its kept connection, if any, and counts it if it parsed |
| Capture.CapturedAppend | backend/capture.go:29-51 | capturing two runs of lines is capturing each in turn, so line order is kept |
| Capture.CapturedMembership | backend/capture.go:29-51 | a connection is in the capture iff some line that is not a header and has a colon parses to it and it passes the filter |
| Capture.SkippedLine | backend/capture.go:33-41 | header lines and lines without a colon contribute nothing wherever they are |
| Classifier.ClassifyNode | backend/classifier.go:6-51 | the result is one of server, load-balancer, firewall, router |
| Classifier.NeverSwitchOrEndpoint | backend/classifier.go:6-51 | the classifier never yields switch or endpoint, and always a type the client knows |
| Classifier.CloudIsServer | backend/classifier.go:12-20 | an AWS, Google Cloud or Azure match gives server whatever the port |
| Classifier.CdnIsLoadBalancer | backend/classifier.go:23-31 | without a cloud match, a CDN match holds iff the result is load-balancer |
| Classifier.PortDecides | backend/classifier.go:33-50 | without a provider match the port decides: 22 firewall, 53 router, anything else server |
| Classifier.FirewallOrRouterMeansPort | backend/classifier.go:33-38 | firewall and router come only from ports 22 and 53 with no provider match |
| Classifier.CaseInsensitive | backend/classifier.go:8-9 | inputs equal after lower-casing classify alike |
| Classifier.GetNodeIcon | backend/classifier.go:54-70 | the server icon is returned iff the type is server or unknown |
| Classifier.IconsDistinct | backend/classifier.go:54-70 | the six known types have six different icons |
| GeoIP.ParseLoc | backend/geoip.go:66-72 | a `Loc` that does not split at exactly one comma into two parts keeps the location |
| GeoIP.ParseLocPair | backend/geoip.go:66-72 | `lat,lng` sets each coordinate to its scanned value, keeping the current one where scanning fails |
| GeoIP.SplitOrg | backend/geoip.go:77 | the split yields the text before the first space and, when there is a space, the text after it |
| GeoIP.AsnOwnerSplit | backend/geoip.go:76-84 | the ASN is the first word of a non-empty Org and the owner the rest, or empty |
| GeoIP.AsnOwnerOfJoin | backend/geoip.go:76-84 | splitting `asn owner` gives both back when the ASN has no space |
| GeoIP.GeoIPCache.Lookup | backend/geoip.go:37-92 | the method performs the cached lookup: a hit answers from the cache, a miss asks the service and stores only a success |
| GeoIP.CacheHit | backend/geoip.go:38-44 | a hit returns the stored entry, leaves the cache alone and does not depend on the service |
| GeoIP.CacheMiss | backend/geoip.go:46-91 | a miss returns the service's answer and inserts exactly the successful answers |
| GeoIP.CacheTransparent | backend/geoip.go:37-92 | with a consistent cache, a cached lookup answers exactly what the service would, and the cache stays consistent |
| GeoIP.ResolveErrors | backend/geoip.go:50-63 | transport failure, non-200 status and undecodable body each give their own error, in that order |
| GeoIP.IsIPv6 | backend/geoip.go:95-97 | true iff the text contains a colon |
| GeoIP.NameParts | backend/geoip.go:105-114 | every place part is non-empty |
| GeoIP.NamePartsShape | backend/geoip.go:105-114 | the parts are city, region unless empty or equal to the city, and country, in that order |
| GeoIP.GetNodeName | backend/geoip.go:100-121 | the step-by-step method returns the node name function's value |
| GeoIP.NameIsHostname | backend/geoip.go:101-103 | a non-empty host name without "unknown" is the name |
| GeoIP.NameFromPlace | backend/geoip.go:105-120 | otherwise the name is the place parts joined with ", ", or the IP when there are none; it is empty iff those are |
| Monitor.VisitConnections | backend/main.go:77-134 | the connection loop counts connections per IP and performs the per-connection spec over the capture, in order |
| Monitor.VisitConnection | backend/main.go:80-133 | one connection refreshes a known node or looks up, classifies and adds a new one, broadcasting node_add |
| Monitor.LinkSeen | backend/main.go:137-147 | every seen IP with a node gets its count, and the edge list has one local→ip edge per such IP |
| Monitor.AgeNodes | backend/main.go:153-179 | the aging loop leaves the aged table, and its events are each visited node's aging events in visiting order, every key visited once |
| Monitor.AgeNode | backend/main.go:155-177 | one node: offline with node_update on the transition, removed with node_remove when expired, only when unseen and stale |
| Monitor.Tick | backend/main.go:63-180 | a failed capture leaves the table and the cache as they were and emits no topology event; otherwise the table is the aged, linked result of the visit, and the events are the node_adds, then one connections_update, then the aging events |
| Monitor.StartupNodes | backend/main.go:17-28 | the start-up table holds only this machine's node, online, under its id |
| Monitor.FirstTick | backend/main.go:17-28 | the first tick after start-up keeps the table keyed by id and keeps this machine's node, unchanged unless the capture shows its id |
| Monitor.CountsSpec | backend/main.go:77-82 | an IP is counted iff some connection goes to it, and its count is the number of connections to it |
| Monitor.VisitAllNodes | backend/main.go:80-134 | the visit keeps every known key and adds exactly the new IPs whose lookup succeeded |
| Monitor.VisitAllKnown | backend/main.go:85-91 | a known node stays; a node a connection goes to is just seen and online, one no connection goes to is untouched; only last-seen time, status and process can change, the process filled only when empty from a connection to that node |
| Monitor.VisitAllNew | backend/main.go:98-126 | a new node exists only for a seen IP whose lookup succeeded, is built from the first connection to that IP, and ends the loop online and just seen |
| Monitor.VisitAllAdded | backend/main.go:110-132 | the node_add broadcasts name each created node once, with the node as created |
| Monitor.LinkedCounts | backend/main.go:138-141 | after linking, every seen node carries the number of connections to it |
| Monitor.EdgeCount | backend/main.go:137-147 | the edges have distinct targets and number the seen IPs that have nodes |
| Monitor.RemovalFollowsUpdate | backend/main.go:160-172 | an unseen node that expires while still marked online gets its node_update immediately followed by its node_remove |
| Monitor.AgedKeeps | backend/main.go:155-158 | the local node and every seen node come through aging unchanged |
| Monitor.AgedUnseen | backend/main.go:158-176 | an unseen node: stale means offline, expired means deleted, otherwise unchanged |
| Monitor.AgingEventsOf | backend/main.go:161-172 | aging one node emits only its node_update and node_remove |
| Monitor.RemovalsMatchDeletions | backend/main.go:170-172 | the node_remove events name exactly the keys aging deletes |
| Monitor.UpdatesMatchTransitions | backend/main.go:160-163 | a node_update goes out exactly for nodes that turn offline in this tick |
| Monitor.TickWellKeyed | backend/main.go:110-126 | a tick keeps table keys equal to node ids |
| Monitor.TickKeepsLocal | backend/main.go:155-157 | the local node survives every tick |
| Monitor.TickSeen | backend/main.go:85-141 | a node the capture shows stays, online, just seen and with its connection count |
| Topology.MergeLaws | src/lib/store.ts:59 | an empty patch changes nothing and a patch applied twice is applied once |
| Topology.MergeWholeNode | src/hooks/useWebSocket.ts:47 | merging a whole node takes its six required properties, and each of its nine optional properties when present, keeping the old value only where it is absent; merging a node into itself changes nothing |
| Store.PatchNodes | src/lib/store.ts:58-60 | the patched list has the same length |
| Store.AddNodeAppends | src/lib/store.ts:51-54 | the node is appended, earlier entries kept, duplicate ids accepted |
| Store.UpdateNodeSpec | src/lib/store.ts:56-65 | length and order kept, matching ids patched, others identical; an unknown id changes nothing; the selection is patched iff its id matches |
| Store.RemoveNodeSpec | src/lib/store.ts:67-74 | no node with the id remains and every other node keeps its multiplicity; exactly the connections not touching the id remain, each with its multiplicity; the selection clears iff it matches; zones, threats and the zone filter are unchanged |
| Store.RemoveNodeKeepsOrder | src/lib/store.ts:67-74 | removal distributes over concatenation of the node and connection lists, and a single entry survives iff it does not mention the id, so survivors keep their order |
| Store.RemoveUnknownNode | src/lib/store.ts:67-74 | removing an id nothing mentions leaves nodes and connections as they were |
| Store.ConnectionCrud | src/lib/store.ts:77-96 | addConnection appends one active connection with id `c<now>`, latency 0 and bandwidth 1000; removeConnection removes exactly the connections with the id; neither changes any other field |
| Store.SetConnectionsSpec | src/lib/store.ts:98-109 | one connection per pair in order, copying from/to with the defaults, with pairwise distinct ids; no other field changes |
| Store.ClearSpec | src/lib/store.ts:131-144 | clearNodes empties only the nodes; clearAll restores the initial state |
| Store.NetOpsStore.AddNode | src/lib/store.ts:51-54 | the store performs the addNode transition |
| Store.NetOpsStore.UpdateNode | src/lib/store.ts:56-65 | the store performs the updateNode transition |
| Store.NetOpsStore.RemoveNode | src/lib/store.ts:67-74 | the store performs the removeNode transition |
| Store.NetOpsStore.AddConnection | src/lib/store.ts:77-91 | the store performs the addConnection transition |
| Store.NetOpsStore.RemoveConnection | src/lib/store.ts:93-96 | the store performs the removeConnection transition |
| Store.NetOpsStore.SetConnections | src/lib/store.ts:98-109 | the store performs the setConnections transition |
| Store.NetOpsStore.SelectNode | src/lib/store.ts:112-115 | only the selection changes |
| Store.NetOpsStore.FilterByZone | src/lib/store.ts:117-120 | only the zone filter changes |
| Store.NetOpsStore.ClearNodes | src/lib/store.ts:131-134 | the store performs clearNodes |
| Store.NetOpsStore.ClearAll | src/lib/store.ts:136-144 | the store returns to the initial state |
| LiveUpdate.AddNodesAppends | src/hooks/useWebSocket.ts:31-33 | adding nodes one by one appends them all in order and changes nothing else |
| LiveUpdate.InitialState | src/hooks/useWebSocket.ts:27-36 | the nodes become the message's list, or empty, and nothing else changes |
| LiveUpdate.NodeAdd | src/hooks/useWebSocket.ts:38-43 | the node is appended when present; otherwise nothing changes |
| LiveUpdate.NodeUpdate | src/hooks/useWebSocket.ts:45-50 | the dispatch is updateNode with the message node as patch: stored nodes with the id are merged, others kept in place, the selection patched iff it has the id, connections, zones, threats and filter unchanged; an unknown id leaves the nodes alone |
| LiveUpdate.NodeRemove | src/hooks/useWebSocket.ts:52-57 | a non-empty id is removeNode: exactly the nodes without the id and the connections not touching it remain, zones, threats and filter unchanged, the selection cleared iff it was that node; a missing or empty id changes nothing |
| LiveUpdate.ConnectionsUpdate | src/hooks/useWebSocket.ts:59-64 | a present list is setConnections: one https connection per pair in order, latency 0, bandwidth 1000, active, pairwise distinct ids, nothing else changed; a missing list changes nothing |
| LiveUpdate.UnknownType | src/hooks/useWebSocket.ts:66-67 | an unknown type changes nothing |
| LiveUpdate.DispatchAllAppend | src/hooks/useWebSocket.ts:21-72 | frames handled in two batches give the same store as in one |
| LiveUpdate.ParseFailureIsolation | src/hooks/useWebSocket.ts:69-71 | an unparsable frame is skipped and every later frame still applies |
| LiveUpdate.OnMessage | src/hooks/useWebSocket.ts:21-72 | the handler performs the dispatch transition for one frame |
| LiveUpdate.OnMessages | src/hooks/useWebSocket.ts:21-72 | the handler run over frames in arrival order performs their dispatch in order |
| ThreatMarker.GetThreatIcon | src/components/map/ThreatMarker.tsx:12-25 | the warning icon is returned iff the type is not one of the four |
| ThreatMarker.GetThreatColor | src/components/map/ThreatMarker.tsx:28-66 | the glow is empty iff the severity is unknown |
| ThreatMarker.ThreatColorTable | src/components/map/ThreatMarker.tsx:28-66 | high and medium share amber; unknown severities share grey; red glow iff critical |
| ThreatMarker.TimeAgoJustNow | src/components/map/ThreatMarker.tsx:72-75 | "Just now" iff the difference is under a minute, future times included |
| ThreatMarker.TimeAgoMinutes | src/components/map/ThreatMarker.tsx:76 | from one minute to under an hour: whole minutes, between 1 and 59 |
| ThreatMarker.TimeAgoHours | src/components/map/ThreatMarker.tsx:78-79 | from one hour to under a day: whole hours, between 1 and 23 |
| ThreatMarker.TimeAgoDays | src/components/map/ThreatMarker.tsx:81-82 | a day or more: whole days, at least one |
| FiltersPanel.OwnersSpec | src/components/panels/FiltersPanel.tsx:9 | owners are listed once each, are exactly the non-empty owners some node has, and come in first-occurrence order |
| FiltersPanel.TypesOf | src/components/panels/FiltersPanel.tsx:10 | the list holds each node's type at the node's position |
| FiltersPanel.TypesSpec | src/components/panels/FiltersPanel.tsx:10 | types are listed once each, are exactly the nodes' types, and come in first-occurrence order |
| FiltersPanel.ToggleMembership | src/components/panels/FiltersPanel.tsx:15-25 | a toggle flips the toggled value's membership and no other |
| FiltersPanel.ToggleNoDuplicates | src/components/panels/FiltersPanel.tsx:15-25 | a toggle keeps a list free of duplicates |
| FiltersPanel.ToggleTwice | src/components/panels/FiltersPanel.tsx:15-25 | toggling an absent value twice restores the list |
| FiltersPanel.ToggleRemoves | src/components/panels/FiltersPanel.tsx:15-25 | toggling a present value removes every occurrence, keeps the rest in order and shortens the list |
| FiltersPanel.FilterSelection.ToggleOwner | src/components/panels/FiltersPanel.tsx:15-19 | the owner list is toggled, the type list untouched |
| FiltersPanel.FilterSelection.ToggleType | src/components/panels/FiltersPanel.tsx:21-25 | the type list is toggled, the owner list untouched |
| FiltersPanel.FilterSelection.Clear | src/components/panels/FiltersPanel.tsx:129-132 | both lists empty, the badge is 0 and the clear button is hidden |
| FiltersPanel.ClearShownIffBadge | src/components/panels/FiltersPanel.tsx:50-127 | the clear button shows exactly when the badge is non-zero |
| StatusPanel.StatusCounts | src/components/panels/StatusPanel.tsx:21-22 | online plus offline is at most the node count, and each is positive iff some node has that status |
| StatusPanel.TotalConnectionsAppend | src/components/panels/StatusPanel.tsx:23 | the total over two lists is the sum of their totals |
| StatusPanel.TotalConnectionsBounds | src/components/panels/StatusPanel.tsx:23 | missing counts add 0, and with non-negative counts the total is at least each node's count |
| StatusPanel.ShowsOfflineRow | src/components/panels/StatusPanel.tsx:126 | the offline row shows iff some node is offline |
| StatusPanel.StatusAfterSpec | src/components/panels/StatusPanel.tsx:6-16 | connected iff some tick saw nodes, otherwise still connecting |
| StatusPanel.StatusNeverReverts | src/components/panels/StatusPanel.tsx:11-16 | once connected, later ticks keep it connected |
| StatusPanel.StatusIndicator.Tick | src/components/panels/StatusPanel.tsx:11-16 | a tick with nodes sets connected, otherwise nothing changes, and the status stays the replay of the ticks |
| TerminalPanel.LevelOr | src/components/panels/TerminalPanel.tsx:29 | the level is never empty, and a given level is kept |
| TerminalPanel.MessageEntry | src/components/panels/TerminalPanel.tsx:26-34 | a decoded frame keeps its message and level, info standing in for a falsy one; an undecodable frame is shown verbatim at info |
| TerminalPanel.ReplayAppends | src/components/panels/TerminalPanel.tsx:62-70 | without a clear, each event appends its own entry and earlier entries stay |
| TerminalPanel.ReplayForgets | src/components/panels/TerminalPanel.tsx:72-75 | clearing forgets everything before it |
| TerminalPanel.ReplayLevels | src/components/panels/TerminalPanel.tsx:26-75 | no entry ever has an empty level |
| TerminalPanel.GetLevelPrefix | src/components/panels/TerminalPanel.tsx:86-93 | `[LOG]` iff the level is not info, warn or error |
| TerminalPanel.GetLevelColor | src/components/panels/TerminalPanel.tsx:77-84 | the green of info iff the level is neither warn nor error |
| TerminalPanel.TerminalLog.AddLog | src/components/panels/TerminalPanel.tsx:62-70 | exactly one entry is appended at the end |
| TerminalPanel.TerminalLog.OnOpen | src/components/panels/TerminalPanel.tsx:21-24 | one info entry announcing the connection is appended |
| TerminalPanel.TerminalLog.OnMessage | src/components/panels/TerminalPanel.tsx:26-34 | the frame's entry is appended |
| TerminalPanel.TerminalLog.OnError | src/components/panels/TerminalPanel.tsx:36-38 | one error entry is appended |
| TerminalPanel.TerminalLog.OnClose | src/components/panels/TerminalPanel.tsx:40-43 | one warn entry announcing the reconnect is appended |
| TerminalPanel.TerminalLog.ClearLogs | src/components/panels/TerminalPanel.tsx:72-75 | the scrollback becomes the single info entry "Terminal cleared" |
| NetOpsMap.GetDeviceIcon | src/components/map/NetOpsMap.tsx:15-25 | the question mark is returned iff the type is not one of the six |
| NetOpsMap.GetStatusColor | src/components/map/NetOpsMap.tsx:27-35 | offline and every unknown status, and only those, get the grey |
| NetOpsMap.GroupByLocation | src/components/map/NetOpsMap.tsx:76-83 | the loop builds for each key the nodes with that key in node order, with keys in first-occurrence order |
| NetOpsMap.GroupsPartition | src/components/map/NetOpsMap.tsx:76-83 | every node is in the group of its own key and in no other |
| NetOpsMap.NodePositions | src/components/map/NetOpsMap.tsx:86-103 | the loop over the groups in map order performs their position writes in order |
| NetOpsMap.PlaceGroup | src/components/map/NetOpsMap.tsx:87-102 | a lone node is written with its own location; each node of a larger group with its spread position |
| NetOpsMap.PositionsCover | src/components/map/NetOpsMap.tsx:86-103 | every node's id gets a position |
| NetOpsMap.LoneNodeKeepsLocation | src/components/map/NetOpsMap.tsx:88-107 | a node alone in its group, whose id no other node shares, is drawn at its own location |
| NetOpsMap.Find | src/components/map/NetOpsMap.tsx:258-259 | a node is found iff one has the id, and it is the first such node |
| NetOpsMap.LineFeature | src/components/map/NetOpsMap.tsx:257-273 | a connection has a feature iff both of its ends name a node |
| NetOpsMap.FeaturesSpec | src/components/map/NetOpsMap.tsx:256-274 | the features are those of the connections with both ends found, in order, each from the first from-node's `[lng, lat]` to the first to-node's |
| NetOpsMap.DanglingDropped | src/components/map/NetOpsMap.tsx:260-274 | a connection with a dangling end adds no feature wherever it is |
| NetOpsMap.ConnectionLines | src/components/map/NetOpsMap.tsx:240 | no line work without connections or without nodes |
| Text.IndexOf | backend/capture.go:97 | -1 iff the character is absent, otherwise the index of its first occurrence |
| Text.IndexOfAt | backend/capture.go:97 | the index of a character's first occurrence is what the search returns |
| Text.LastIndexOf | backend/capture.go:107-116 | -1 iff the character is absent, otherwise the index of its last occurrence |
| Text.LastIndexOfAt | backend/capture.go:107-116 | the index of a character's last occurrence is what the backward search returns |
| Text.CountChar | backend/capture.go:117 | the count is at most the length, and zero iff the character is absent |
| Text.CountCharAppend | backend/capture.go:117 | the count over two texts is the sum of the counts |
| Text.SplitOn | backend/geoip.go:67 | the pieces are one more than the separators and none contains the separator |
| Text.NatToStringInjective | src/lib/store.ts:101 | different numbers have different decimal text |
| Text.ToLowerIdempotent | backend/classifier.go:8-9 | lower-casing twice is lower-casing once |
| Text.ContainsToUpper | backend/capture.go:150 | a text containing a piece still contains it, upper-cased, after upper-casing |
| Text.NatToStringRoundTrip | src/lib/store.ts:101 | decimal text is digits only, has no leading zero and reads back as the number |
| Text.AtoiOfNatToString | backend/capture.go:101-120 | `strconv.Atoi` reads decimal text back as the number |
| Text.CanonicalDigits | backend/capture.go:140 | digits without a leading zero are the decimal text of their value |
| Text.AtoiNonNumeric | backend/capture.go:101-120 | text with a non-digit after an optional sign fails to convert, which `parseAddress` reads as 0 |
| Text.FieldsOfJoin | backend/capture.go:60 | space-joined fields without whitespace are split back one for one |
| Text.SplitOnJoin | backend/geoip.go:67 | splitting joined parts at a separator they lack gives them back |
| Text.JoinSplitOn | backend/geoip.go:67 | joining the split parts gives the text back |

## Left out

- The `ss` command, the ticker, the HTTP server and the WebSocket hubs are outside the model. The capture takes the command's output, or its failure, as input. Topology broadcasts appear only as an event list.
- The log broadcasts of the monitoring loop are not modelled (`logHub.BroadcastLog` at backend/main.go:61, 68, 74, 96, 102, 131, 166 and 175). These include the error line sent when the capture fails.
- Capture.Lines: the 64 KiB token limit counts characters, while Go's scanner counts bytes. The two agree on the ASCII text `ss` prints.
- Text.ToLower and Text.ToUpper map only ASCII letters and the two non-ASCII runes each that Go maps into ASCII (U+0130 and the Kelvin sign down, U+0131 and long s up), not all of Unicode case mapping. This is exact for the ASCII substring tests the classifier and the LISTEN filter make.
- The hub serialises each broadcast node later, by reference. Events in the model carry the node value at the moment of the call, not a later mutation.
- Concurrency is not modelled. Each tick is atomic in the model. In the backend, the WebSocket handler reads the node table without a lock (websocket.go:115) while the monitor goroutine writes it, and the GeoIP cache is guarded by an RWMutex.
- The backend reads `time.Now()` several times within a tick. The model uses one `now` per tick. Times are integer milliseconds.
- The GeoIP HTTP exchange and JSON decoding are a parameter: a function from URL to transport error, or to status and decoded record. `%f` scanning of `Loc` is also a parameter, and a failed scan leaves the coordinate as it was.
- `net.ParseIP` on IPv6 text and the IPv6 address classes are abstract parameters. IPv4 parsing, the IPv4 classes and the RFC 1918 ranges are modelled concretely.
- Go map iteration order is left unspecified. The loops pick keys nondeterministically, and their contracts hold for every order.
- The client's timestamps are parameters: `Date.now()` ids, `toLocaleTimeString` and the parsed threat timestamp, where a parse failure stands in for NaN.
- `toFixed(2)` location keys and the `sin`/`cos` radial offsets are parameters of the map model.
- The socket and timer lifecycles are not modelled: reconnect-after-5s, the status interval and terminal auto-scroll.
- `loadSampleData`, JSX rendering, map layer calls and the pure style files are not modelled: LegendPanel, NodeDetailsPanel, SecurityZone, ConnectionLine and App. The sample fixture is not part of this model.
- LiveUpdate.Dispatch: an `initial_state` frame whose `nodes` is truthy but not an array is not modelled. The client clears the nodes and then throws on `forEach`, leaving the store emptied. The backend never sends such a frame.
- TerminalPanel.MessageEntry: a JSON frame whose `level` or `message` is not a string, or whose `message` is missing, is not modelled. A decoded record carries two strings, with the empty level standing for any falsy one.
- StatusPanel.TotalConnections: JavaScript number arithmetic is modelled on unbounded integers.
- The `Disconnected` state of the status indicator is declared, as in StatusPanel, but nothing sets it.
