/** The threat marker's pure helpers (src/components/map/ThreatMarker.tsx):
    the icon and colour tables and the "time ago" text.  The clock reading
    and the parsing of the threat's timestamp are outside the model; the
    helper receives their difference in whole milliseconds, or nothing when
    the timestamp does not parse (JavaScript then computes with NaN). */
module ThreatMarker {
  import opened Collections
  import opened Text

  /** The four threat types the client knows. */
  const ThreatTypes: set<string> := {"failed-login", "port-scan", "ddos", "intrusion"}

  /** The four severities. */
  const Severities: set<string> := {"low", "medium", "high", "critical"}

  /** The fallback icon, U+26A0 U+FE0F. */
  const WarningIcon := "\U{26A0}\U{FE0F}"

  /** `getThreatIcon(type)`. */
  function GetThreatIcon(threatType: string): (r: string)
    ensures r == WarningIcon <==> threatType !in ThreatTypes
  {
    match threatType
    case "failed-login" => "\U{1F510}"
    case "port-scan" => "\U{1F50D}"
    case "ddos" => "\U{1F4A5}"
    case "intrusion" => "\U{1F6A8}"
    case _ => WarningIcon
  }

  /** The four class names a severity colours a marker with. */
  datatype ThreatColors = ThreatColors(bg: string, border: string, text: string, glow: string)

  /** `getThreatColor(severity)`. */
  function GetThreatColor(severity: string): (r: ThreatColors)
    ensures r.glow == "" <==> severity !in Severities
  {
    match severity
    case "critical" => ThreatColors("bg-terminal-red", "border-terminal-red", "text-terminal-red", "glow-red")
    case "high" => ThreatColors("bg-terminal-amber", "border-terminal-amber", "text-terminal-amber", "glow-amber")
    case "medium" => ThreatColors("bg-terminal-amber", "border-terminal-amber", "text-terminal-amber", "glow-amber")
    case "low" => ThreatColors("bg-terminal-blue", "border-terminal-blue", "text-terminal-blue", "glow-blue")
    case _ => ThreatColors("bg-gray-500", "border-gray-500", "text-gray-500", "")
  }

  /** High and medium share the amber colours; every unknown severity gets
      the grey ones; critical, amber, low and unknown all differ. */
  lemma ThreatColorTable(severity: string)
    ensures severity in {"high", "medium"} ==> GetThreatColor(severity) == GetThreatColor("high")
    ensures severity !in Severities ==> GetThreatColor(severity) == GetThreatColor("")
    ensures severity in Severities && severity != "medium" && severity != "high" ==>
      GetThreatColor(severity).glow != GetThreatColor("high").glow
    ensures GetThreatColor(severity).glow == "glow-red" <==> severity == "critical"
  {
  }

  // -----------------------------------------------------------------------
  // Time ago

  const MsPerMinute := 60000

  /** `getTimeAgo`: whole minutes by `Math.floor(diffMs / 60000)` (Dafny's
      division by a positive divisor rounds down, as `Math.floor` does), then
      hours and days by further floors.  Without a difference every
      comparison with NaN is false and the text is "NaNd ago". */
  function TimeAgo(diffMs: Option<int>): string {
    match diffMs
    case None => "NaNd ago"
    case Some(ms) =>
      var diffMins := ms / MsPerMinute;
      if diffMins < 1 then "Just now"
      else if diffMins < 60 then NatToString(diffMins) + "m ago"
      else
        var diffHours := diffMins / 60;
        if diffHours < 24 then NatToString(diffHours) + "h ago"
        else NatToString(diffHours / 24) + "d ago"
  }

  /** Whole hours through whole minutes are whole hours of milliseconds. */
  lemma MinutesToHours(ms: int)
    requires ms >= 0
    ensures ms / MsPerMinute / 60 == ms / (60 * MsPerMinute)
  {
  }

  /** Whole days through whole hours are whole days of milliseconds. */
  lemma HoursToDays(ms: int)
    requires ms >= 0
    ensures ms / (60 * MsPerMinute) / 24 == ms / (24 * 60 * MsPerMinute)
  {
  }

  /** Anything under a minute, in the past or the future, is "Just now",
      and nothing else is. */
  lemma TimeAgoJustNow(ms: int)
    ensures TimeAgo(Some(ms)) == "Just now" <==> ms < MsPerMinute
  {
    var diffMins := ms / MsPerMinute;
    if diffMins >= 1 {
      var t := TimeAgo(Some(ms));
      assert t[|t| - 3..] == "ago";
    }
  }

  /** From one minute to under an hour: whole minutes. */
  lemma TimeAgoMinutes(ms: int)
    requires MsPerMinute <= ms < 60 * MsPerMinute
    ensures TimeAgo(Some(ms)) == NatToString(ms / MsPerMinute) + "m ago"
    ensures 1 <= ms / MsPerMinute < 60
  {
  }

  /** From one hour to under a day: whole hours. */
  lemma TimeAgoHours(ms: int)
    requires 60 * MsPerMinute <= ms < 24 * 60 * MsPerMinute
    ensures TimeAgo(Some(ms)) == NatToString(ms / (60 * MsPerMinute)) + "h ago"
    ensures 1 <= ms / (60 * MsPerMinute) < 24
  {
    MinutesToHours(ms);
  }

  /** A day or more: whole days, at least one. */
  lemma TimeAgoDays(ms: int)
    requires ms >= 24 * 60 * MsPerMinute
    ensures TimeAgo(Some(ms)) == NatToString(ms / (24 * 60 * MsPerMinute)) + "d ago"
    ensures ms / (24 * 60 * MsPerMinute) >= 1
  {
    MinutesToHours(ms);
    HoursToDays(ms);
  }
}
