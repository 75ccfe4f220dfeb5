/** Geographic lookup and naming (backend/geoip.go).  The HTTP exchange with
    the lookup service is a function from URL to what came back; `%f`
    scanning of a coordinate is a function from text to a number, or none
    when the text does not scan. */
module GeoIP {
  import opened Collections
  import opened Text
  import opened BackendTypes

  /** The properties the service's JSON body carries. */
  datatype GeoIPRecord = GeoIPRecord(
    ip: string,
    city: string,
    region: string,
    country: string,
    loc: string,
    org: string,
    hostname: string)

  /** `GeoIPInfo`: the record plus what is derived from it (location, ASN, owner). */
  datatype GeoIPInfo = GeoIPInfo(
    ip: string,
    city: string,
    region: string,
    country: string,
    loc: string,
    org: string,
    hostname: string,
    location: Location,
    asn: string,
    owner: string)

  /** What one GET brought back: a transport error, or a status and, when the
      body decoded, the record. */
  datatype HttpResult = TransportError | Response(status: int, body: Option<GeoIPRecord>)

  type Fetch = string -> HttpResult

  /** `fmt.Sscanf(text, "%f", &x)`: the number read, or none. */
  type ScanFloat = string -> Option<real>

  /** The three ways a lookup fails. */
  datatype GeoError = RequestFailed | BadStatus(code: int) | DecodeFailed

  /** The URL a lookup requests. */
  function LookupURL(ip: string): string {
    "https://ipinfo.io/" + ip + "/json"
  }

  /** A coordinate: the scanned value, or the current one when scanning fails. */
  function ScanOr(text: string, scan: ScanFloat, current: real): real {
    match scan(text)
    case Some(x) => x
    case None => current
  }

  /** The `Loc` field: "lat,lng" sets both coordinates; any other shape
      leaves the location as it was. */
  function ParseLoc(loc: string, scan: ScanFloat, current: Location): (r: Location)
    ensures CountChar(loc, ',') != 1 ==> r == current
  {
    if loc == "" then current
    else
      var parts := SplitOn(loc, ',');
      if |parts| == 2 then Location(ScanOr(parts[0], scan, current.lat), ScanOr(parts[1], scan, current.lng))
      else current
  }

  /** A `lat,lng` pair sets each coordinate to its scanned value, keeping
      the current one where scanning fails. */
  lemma ParseLocPair(lat: string, lng: string, scan: ScanFloat, current: Location)
    requires ',' !in lat && ',' !in lng
    ensures ParseLoc(lat + "," + lng, scan, current) ==
      Location(ScanOr(lat, scan, current.lat), ScanOr(lng, scan, current.lng))
  {
    assert Join([lat, lng], ",") == lat + "," + Join([lng], ",");
    SplitOnJoin([lat, lng], ',');
  }

  /** `strings.SplitN(org, " ", 2)`: the text before the first space, and the
      rest after it when there is a space. */
  function SplitOrg(org: string): (r: (string, Option<string>))
    ensures ' ' !in r.0
    ensures r.1.None? <==> ' ' !in org
    ensures r.1.None? ==> r.0 == org
    ensures r.1.Some? ==> org == r.0 + " " + r.1.value
  {
    var i := IndexOf(org, ' ');
    if i < 0 then (org, None)
    else
      assert org == org[..i] + " " + org[i + 1..];
      (org[..i], Some(org[i + 1..]))
  }

  /** The ASN and owner a record gets: both empty without `Org`, else the
      first word and the rest. */
  function AsnOwner(org: string): (string, string) {
    if org == "" then ("", "")
    else
      var (asn, rest) := SplitOrg(org);
      (asn, if rest.Some? then rest.value else "")
  }

  /** A decoded record with its location, ASN and owner filled in. */
  function Enrich(rec: GeoIPRecord, scan: ScanFloat): GeoIPInfo {
    var (asn, owner) := AsnOwner(rec.org);
    GeoIPInfo(rec.ip, rec.city, rec.region, rec.country, rec.loc, rec.org, rec.hostname,
              ParseLoc(rec.loc, scan, Location(0.0, 0.0)), asn, owner)
  }

  /** A lookup that goes to the service. */
  function Resolve(fetch: Fetch, scan: ScanFloat, ip: string): Result<GeoIPInfo, GeoError> {
    match fetch(LookupURL(ip))
    case TransportError => Err(RequestFailed)
    case Response(status, body) =>
      if status != 200 then Err(BadStatus(status))
      else if body.None? then Err(DecodeFailed)
      else Ok(Enrich(body.value, scan))
  }

  /** `LookupGeoIP` against a cache: a hit answers from the cache, a miss
      resolves and stores the answer only when it succeeded. */
  function CachedLookup(cache: map<string, GeoIPInfo>, fetch: Fetch, scan: ScanFloat, ip: string)
    : (Result<GeoIPInfo, GeoError>, map<string, GeoIPInfo>)
  {
    if ip in cache then (Ok(cache[ip]), cache)
    else
      var r := Resolve(fetch, scan, ip);
      (r, if r.Ok? then cache[ip := r.value] else cache)
  }

  /** Every cached entry is what the service answers for its key. */
  ghost predicate Consistent(cache: map<string, GeoIPInfo>, fetch: Fetch, scan: ScanFloat) {
    forall ip :: ip in cache ==> Resolve(fetch, scan, ip) == Ok(cache[ip])
  }

  /** `IsIPv6`: the text holds a colon. */
  function IsIPv6(ip: string): (r: bool)
    ensures r <==> ':' in ip
  {
    ContainsChar(ip, ':');
    Contains(ip, ":")
  }

  /** The place parts of a name: city, region unless it repeats the city,
      country, each only when non-empty. */
  function NameParts(info: GeoIPInfo): (parts: seq<string>)
    ensures forall p :: p in parts ==> p != ""
  {
    (if info.city != "" then [info.city] else []) +
    (if info.region != "" && info.region != info.city then [info.region] else []) +
    (if info.country != "" then [info.country] else [])
  }

  /** The host name is used when it is present and does not say "unknown". */
  predicate UsableHostname(info: GeoIPInfo) {
    info.hostname != "" && !Contains(info.hostname, "unknown")
  }

  /** What `GetNodeName` returns. */
  function NodeName(info: GeoIPInfo): string {
    if UsableHostname(info) then info.hostname
    else if NameParts(info) != [] then Join(NameParts(info), ", ")
    else info.ip
  }

  /** `GetNodeName`, building the parts list step by step. */
  method GetNodeName(info: GeoIPInfo) returns (name: string)
    ensures name == NodeName(info)
  {
    if info.hostname != "" && !Contains(info.hostname, "unknown") {
      return info.hostname;
    }
    var parts: seq<string> := [];
    if info.city != "" {
      parts := parts + [info.city];
    }
    if info.region != "" && info.region != info.city {
      parts := parts + [info.region];
    }
    if info.country != "" {
      parts := parts + [info.country];
    }
    assert parts == NameParts(info);
    if |parts| > 0 {
      return Join(parts, ", ");
    }
    return info.ip;
  }

  /** The lookup cache (`geoCache`). */
  class GeoIPCache {
    var cache: map<string, GeoIPInfo>

    constructor ()
      ensures cache == map[]
    {
      cache := map[];
    }

    /** `LookupGeoIP(ip)`. */
    method Lookup(ip: string, fetch: Fetch, scan: ScanFloat) returns (r: Result<GeoIPInfo, GeoError>)
      modifies this
      ensures (r, cache) == CachedLookup(old(cache), fetch, scan, ip)
    {
      if ip in cache {
        return Ok(cache[ip]);
      }
      match fetch(LookupURL(ip))
      case TransportError =>
        return Err(RequestFailed);
      case Response(status, body) =>
        if status != 200 {
          return Err(BadStatus(status));
        }
        if body.None? {
          return Err(DecodeFailed);
        }
        var rec := body.value;
        var info := GeoIPInfo(rec.ip, rec.city, rec.region, rec.country, rec.loc, rec.org, rec.hostname,
                              Location(0.0, 0.0), "", "");
        if info.loc != "" {
          var parts := SplitOn(info.loc, ',');
          if |parts| == 2 {
            info := info.(location := Location(ScanOr(parts[0], scan, info.location.lat),
                                               ScanOr(parts[1], scan, info.location.lng)));
          }
        }
        if info.org != "" {
          var (asn, rest) := SplitOrg(info.org);
          info := info.(asn := asn);
          if rest.Some? {
            info := info.(owner := rest.value);
          }
        }
        cache := cache[ip := info];
        return Ok(info);
    }
  }

  // -----------------------------------------------------------------------
  // Properties

  /** A hit answers with the stored entry and leaves the cache alone; what
      the network would say does not matter. */
  lemma CacheHit(cache: map<string, GeoIPInfo>, fetch: Fetch, fetch2: Fetch, scan: ScanFloat, ip: string)
    requires ip in cache
    ensures CachedLookup(cache, fetch, scan, ip) == (Ok(cache[ip]), cache)
    ensures CachedLookup(cache, fetch, scan, ip) == CachedLookup(cache, fetch2, scan, ip)
  {
  }

  /** A miss stores exactly the successful answers, under the looked-up key. */
  lemma CacheMiss(cache: map<string, GeoIPInfo>, fetch: Fetch, scan: ScanFloat, ip: string)
    requires ip !in cache
    ensures var (r, c) := CachedLookup(cache, fetch, scan, ip);
      r == Resolve(fetch, scan, ip) &&
      (r.Ok? ==> c == cache[ip := r.value]) &&
      (r.Err? ==> c == cache)
  {
  }

  /** A consistent cache stays consistent and never changes an answer: the
      cache is invisible to callers. */
  lemma CacheTransparent(cache: map<string, GeoIPInfo>, fetch: Fetch, scan: ScanFloat, ip: string)
    requires Consistent(cache, fetch, scan)
    ensures CachedLookup(cache, fetch, scan, ip).0 == Resolve(fetch, scan, ip)
    ensures Consistent(CachedLookup(cache, fetch, scan, ip).1, fetch, scan)
  {
  }

  /** The error cases, in the order `LookupGeoIP` checks them. */
  lemma ResolveErrors(fetch: Fetch, scan: ScanFloat, ip: string)
    ensures fetch(LookupURL(ip)).TransportError? ==> Resolve(fetch, scan, ip) == Err(RequestFailed)
    ensures fetch(LookupURL(ip)).Response? && fetch(LookupURL(ip)).status != 200 ==>
      Resolve(fetch, scan, ip) == Err(BadStatus(fetch(LookupURL(ip)).status))
    ensures Resolve(fetch, scan, ip).Ok? <==>
      fetch(LookupURL(ip)).Response? && fetch(LookupURL(ip)).status == 200 && fetch(LookupURL(ip)).body.Some?
  {
  }

  /** The ASN is the first word of `Org` and the owner the rest, so a
      non-empty `Org` with a space is rebuilt from them. */
  lemma AsnOwnerSplit(org: string)
    ensures var (asn, owner) := AsnOwner(org);
      ' ' !in asn &&
      (' ' in org ==> org == asn + " " + owner) &&
      (' ' !in org ==> asn == org && owner == "")
  {
  }

  /** Splitting "ASN owner" gives the two back when the ASN has no space. */
  lemma AsnOwnerOfJoin(asn: string, owner: string)
    requires asn != [] && ' ' !in asn
    ensures AsnOwner(asn + " " + owner) == (asn, owner)
  {
    var org := asn + " " + owner;
    assert org[|asn|] == ' ' && org[..|asn|] == asn;
    IndexOfAt(org, ' ', |asn|);
    assert org[|asn| + 1..] == owner;
  }

  /** A usable host name is the name. */
  lemma NameIsHostname(info: GeoIPInfo)
    requires UsableHostname(info)
    ensures NodeName(info) == info.hostname
  {
  }

  /** Without one, the name is the place parts joined with ", ", or the IP
      when there are none; the name is empty only when everything it could
      be built from is. */
  lemma NameFromPlace(info: GeoIPInfo)
    requires !UsableHostname(info)
    ensures NameParts(info) != [] ==> NodeName(info) == Join(NameParts(info), ", ")
    ensures NameParts(info) == [] ==> NodeName(info) == info.ip
    ensures NodeName(info) == "" <==> info.city == "" && info.region == "" && info.country == "" && info.ip == ""
  {
    var parts := NameParts(info);
    if parts != [] {
      assert parts[0] in parts;
      JoinNonEmpty(parts, ", ");
    }
  }

  /** The place parts are city, region and country in that order, with a
      region equal to the city dropped. */
  lemma NamePartsShape(info: GeoIPInfo)
    requires info.city != "" && info.region != "" && info.country != ""
    ensures NameParts(info) ==
      if info.region == info.city then [info.city, info.country] else [info.city, info.region, info.country]
  {
  }

  lemma {:induction false} JoinNonEmpty(parts: seq<string>, sep: string)
    requires parts != [] && parts[0] != ""
    ensures Join(parts, sep) != ""
  {
    if |parts| > 1 {
      assert Join(parts, sep) == parts[0] + sep + Join(parts[1..], sep);
    }
  }
}
