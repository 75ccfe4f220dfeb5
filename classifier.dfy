/** The node-type classifier (backend/classifier.go): an ordered chain of
    provider rules over the lower-cased ASN and owner text and the lower-cased
    host name, then a switch on the remote port. */
module Classifier {
  import opened Text

  /** The types the classifier can produce. */
  const ClassifiedTypes: set<string> := {"server", "load-balancer", "firewall", "router"}

  /** The node types the client knows, in the order of the icon switch. */
  const NodeTypes: seq<string> := ["server", "firewall", "router", "switch", "endpoint", "load-balancer"]

  /** The cloud rules: AWS, Google Cloud, Azure. */
  predicate CloudMatch(asnLower: string, hostLower: string) {
    Contains(asnLower, "amazon") || Contains(hostLower, "amazonaws") || Contains(asnLower, "aws") ||
    (Contains(asnLower, "google") && (Contains(hostLower, "google") || Contains(asnLower, "cloud"))) ||
    (Contains(asnLower, "microsoft") && Contains(asnLower, "azure"))
  }

  /** The CDN rules: Cloudflare, Akamai, Fastly. */
  predicate CdnMatch(asnLower: string) {
    Contains(asnLower, "cloudflare") || Contains(asnLower, "akamai") || Contains(asnLower, "fastly")
  }

  /** `ClassifyNode(port, asn, owner, hostname)`. */
  function ClassifyNode(port: int, asn: string, owner: string, hostname: string): (r: string)
    ensures r in ClassifiedTypes
  {
    var asnLower := ToLower(asn + " " + owner);
    var hostLower := ToLower(hostname);
    if Contains(asnLower, "amazon") || Contains(hostLower, "amazonaws") || Contains(asnLower, "aws") then "server"
    else if Contains(asnLower, "google") && (Contains(hostLower, "google") || Contains(asnLower, "cloud")) then "server"
    else if Contains(asnLower, "microsoft") && Contains(asnLower, "azure") then "server"
    else if Contains(asnLower, "cloudflare") then "load-balancer"
    else if Contains(asnLower, "akamai") then "load-balancer"
    else if Contains(asnLower, "fastly") then "load-balancer"
    else PortType(port)
  }

  /** The port switch: SSH, DNS, then web, database and mail ports, then the default. */
  function PortType(port: int): string {
    if port == 22 then "firewall"
    else if port == 53 then "router"
    else if port in {80, 8080, 3000, 5000, 8000} then "server"
    else if port in {443, 8443} then "server"
    else if port in {3306, 5432, 27017, 6379} then "server"
    else if port in {25, 587, 465, 143, 993, 110, 995} then "server"
    else "server"
  }

  // -----------------------------------------------------------------------
  // Properties

  /** The classifier never yields "switch" or "endpoint". */
  lemma NeverSwitchOrEndpoint(port: int, asn: string, owner: string, hostname: string)
    ensures ClassifyNode(port, asn, owner, hostname) !in {"switch", "endpoint"}
    ensures ClassifyNode(port, asn, owner, hostname) in NodeTypes
  {
    var r := ClassifyNode(port, asn, owner, hostname);
    assert r in ClassifiedTypes;
  }

  /** A cloud provider match gives "server", whatever the port. */
  lemma CloudIsServer(port: int, asn: string, owner: string, hostname: string)
    requires CloudMatch(ToLower(asn + " " + owner), ToLower(hostname))
    ensures ClassifyNode(port, asn, owner, hostname) == "server"
  {
  }

  /** A CDN match gives "load-balancer" unless a cloud rule fired first. */
  lemma CdnIsLoadBalancer(port: int, asn: string, owner: string, hostname: string)
    requires !CloudMatch(ToLower(asn + " " + owner), ToLower(hostname))
    ensures CdnMatch(ToLower(asn + " " + owner)) <==> ClassifyNode(port, asn, owner, hostname) == "load-balancer"
  {
  }

  /** With no provider match only the port decides: 22 is a firewall, 53 a
      router, every other port a server. */
  lemma PortDecides(port: int, asn: string, owner: string, hostname: string)
    requires !CloudMatch(ToLower(asn + " " + owner), ToLower(hostname))
    requires !CdnMatch(ToLower(asn + " " + owner))
    ensures ClassifyNode(port, asn, owner, hostname) ==
      if port == 22 then "firewall" else if port == 53 then "router" else "server"
  {
  }

  /** "firewall" and "router" come only from the port rules. */
  lemma FirewallOrRouterMeansPort(port: int, asn: string, owner: string, hostname: string)
    requires ClassifyNode(port, asn, owner, hostname) in {"firewall", "router"}
    ensures !CloudMatch(ToLower(asn + " " + owner), ToLower(hostname))
    ensures !CdnMatch(ToLower(asn + " " + owner))
    ensures port == 22 || port == 53
  {
  }

  /** Matching ignores case: texts that agree once lower-cased classify alike. */
  lemma CaseInsensitive(port: int, asn: string, owner: string, hostname: string,
                        asn2: string, owner2: string, hostname2: string)
    requires ToLower(asn) == ToLower(asn2) && ToLower(owner) == ToLower(owner2)
    requires ToLower(hostname) == ToLower(hostname2)
    ensures ClassifyNode(port, asn, owner, hostname) == ClassifyNode(port, asn2, owner2, hostname2)
  {
    ToLowerAppend(asn, " " + owner);
    ToLowerAppend(" ", owner);
    ToLowerAppend(asn2, " " + owner2);
    ToLowerAppend(" ", owner2);
    assert asn + " " + owner == asn + (" " + owner);
    assert asn2 + " " + owner2 == asn2 + (" " + owner2);
  }

  // -----------------------------------------------------------------------
  // Icons

  const ServerIcon := "\U{1F5A5}\U{FE0F}"
  const FirewallIcon := "\U{1F6E1}\U{FE0F}"
  const RouterIcon := "\U{1F4E1}"
  const SwitchIcon := "\U{1F500}"
  const EndpointIcon := "\U{1F4BB}"
  const LoadBalancerIcon := "\U{2696}\U{FE0F}"

  /** `GetNodeIcon(nodeType)`. */
  function GetNodeIcon(nodeType: string): (r: string)
    ensures r == ServerIcon <==> nodeType == "server" || nodeType !in NodeTypes
  {
    match nodeType
    case "server" => ServerIcon
    case "firewall" => FirewallIcon
    case "router" => RouterIcon
    case "switch" => SwitchIcon
    case "endpoint" => EndpointIcon
    case "load-balancer" => LoadBalancerIcon
    case _ => ServerIcon
  }

  /** The six known types have six different icons. */
  lemma IconsDistinct(s: string, t: string)
    requires s in NodeTypes && t in NodeTypes && s != t
    ensures GetNodeIcon(s) != GetNodeIcon(t)
  {
  }
}
