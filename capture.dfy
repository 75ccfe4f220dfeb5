/** The `ss -tan` parser and the inclusion filter (backend/capture.go).  The
    output of `ss` is an input string; running the command is not modelled.
    IP addresses follow Go's `net` package: an address is 16 bytes, with an
    IPv4 address stored after the IPv4-in-IPv6 prefix.  IPv4 text is parsed
    here; IPv6 text is parsed by a function passed in. */
module Capture {
  import opened Collections
  import opened Text
  import opened BackendTypes

  // -----------------------------------------------------------------------
  // Lines of the command output (bufio.ScanLines)

  /** A line's trailing carriage return is dropped. */
  function DropCR(s: string): string {
    if |s| > 0 && s[|s| - 1] == '\r' then s[..|s| - 1] else s
  }

  /** A line as written: no newline inside and no trailing carriage return. */
  predicate PlainLine(l: string) {
    '\n' !in l && DropCR(l) == l
  }

  /** `bufio.MaxScanTokenSize`: the scanner's buffer never grows past it. */
  const MaxScanTokenSize := 65536

  /** The lines `bufio.Scanner` yields: text up to each newline, and the
      remainder when it is not empty.  A line that does not fit the buffer
      together with its newline (one of `MaxScanTokenSize` characters or
      more) makes `Scan` fail with `ErrTooLong`; the capture loop then ends,
      and since the scanner's error is never read, the lines before it are
      all that is captured. */
  function Lines(s: string): seq<string>
    decreases |s|
  {
    if s == [] then []
    else
      var i := IndexOf(s, '\n');
      var line := if i < 0 then s else s[..i];
      if |line| >= MaxScanTokenSize then []
      else if i < 0 then [DropCR(s)] else [DropCR(line)] + Lines(s[i + 1..])
  }

  /** Newline-terminated lines are read back one for one, up to the first
      line too long for the scanner. */
  lemma {:induction false} LinesOfJoin(ls: seq<string>)
    requires ls != []
    requires forall l :: l in ls ==> PlainLine(l)
    ensures (forall l :: l in ls ==> |l| < MaxScanTokenSize) ==> Lines(Join(ls, "\n") + "\n") == ls
    ensures forall k ::
      (0 <= k < |ls| && |ls[k]| >= MaxScanTokenSize && forall j :: 0 <= j < k ==> |ls[j]| < MaxScanTokenSize) ==>
        Lines(Join(ls, "\n") + "\n") == ls[..k]
  {
    var n := ShortRun(ls);
    LinesOfJoinRun(ls);
    forall k | 0 <= k < |ls| && |ls[k]| >= MaxScanTokenSize && (forall j :: 0 <= j < k ==> |ls[j]| < MaxScanTokenSize)
      ensures n == k
    {
    }
    if forall l :: l in ls ==> |l| < MaxScanTokenSize {
      assert n == |ls|;
      assert ls[..n] == ls;
    }
  }

  /** How many lines come before the first one too long for the scanner. */
  function ShortRun(ls: seq<string>): (n: nat)
    ensures n <= |ls|
    ensures forall j :: 0 <= j < n ==> |ls[j]| < MaxScanTokenSize
    ensures n < |ls| ==> |ls[n]| >= MaxScanTokenSize
  {
    if ls == [] || |ls[0]| >= MaxScanTokenSize then 0 else 1 + ShortRun(ls[1..])
  }

  /** The lines of a newline-terminated join are the run of short lines. */
  lemma {:induction false} LinesOfJoinRun(ls: seq<string>)
    requires ls != []
    requires forall l :: l in ls ==> PlainLine(l)
    ensures Lines(Join(ls, "\n") + "\n") == ls[..ShortRun(ls)]
  {
    var l, tl := ls[0], ls[1..];
    assert PlainLine(l) by { assert l in ls; }
    LinesJoinCons(ls);
    if |l| < MaxScanTokenSize && tl != [] {
      forall m | m in tl ensures PlainLine(m) {
        assert m in ls;
      }
      LinesOfJoinRun(tl);
      var k := ShortRun(tl);
      assert ShortRun(ls) == 1 + k;
      PrefixCons(ls, k);
    }
  }

  /** The first line of a newline-terminated join, then the others. */
  lemma LinesJoinCons(ls: seq<string>)
    requires ls != [] && '\n' !in ls[0]
    ensures |ls| == 1 ==>
      Lines(Join(ls, "\n") + "\n") == if |ls[0]| < MaxScanTokenSize then [DropCR(ls[0])] else []
    ensures |ls| > 1 ==>
      Lines(Join(ls, "\n") + "\n") ==
        if |ls[0]| < MaxScanTokenSize then [DropCR(ls[0])] + Lines(Join(ls[1..], "\n") + "\n") else []
  {
    var rest := if |ls| == 1 then "" else Join(ls[1..], "\n") + "\n";
    assert Join(ls, "\n") + "\n" == ls[0] + "\n" + rest;
    LinesCons(ls[0], rest);
  }

  /** A line without newline, then a newline, is read as itself without its
      carriage return, unless it is too long for the scanner, which ends the
      lines there. */
  lemma LinesCons(l: string, rest: string)
    requires '\n' !in l
    ensures Lines(l + "\n" + rest) ==
      if |l| < MaxScanTokenSize then [DropCR(l)] + Lines(rest) else []
  {
    var s := l + "\n" + rest;
    assert s[|l|] == '\n' && s[..|l|] == l;
    IndexOfAt(s, '\n', |l|);
    assert s[|l| + 1..] == rest;
  }

  /** A line too long for the scanner ends the capture: whatever follows it,
      only the connections of the lines before it are returned. */
  lemma CaptureEndsAtLongLine(ls: seq<string>, l: string, rest: string, v6: V6Parser)
    requires forall m :: m in ls ==> PlainLine(m) && |m| < MaxScanTokenSize
    requires '\n' !in l && |l| >= MaxScanTokenSize
    ensures Captured(Lines(Join(ls + [l], "\n") + "\n" + rest), v6) == Captured(ls, v6)
  {
    LinesEndAtLongLine(ls, l, rest);
  }

  lemma JoinNewlineCons(h: string, tl: seq<string>, l: string, rest: string)
    ensures Join([h] + tl + [l], "\n") + "\n" + rest == h + "\n" + (Join(tl + [l], "\n") + "\n" + rest)
  {
    assert [h] + tl + [l] == [h] + (tl + [l]);
    JoinCons(h, tl + [l], "\n");
  }

  /** The lines of a text stop before its first line too long for the scanner. */
  lemma {:induction false} LinesEndAtLongLine(ls: seq<string>, l: string, rest: string)
    requires forall m :: m in ls ==> PlainLine(m) && |m| < MaxScanTokenSize
    requires '\n' !in l && |l| >= MaxScanTokenSize
    ensures Lines(Join(ls + [l], "\n") + "\n" + rest) == ls
    decreases |ls|
  {
    if ls == [] {
      assert ls + [l] == [l];
      LinesCons(l, rest);
    } else {
      var h, tl := ls[0], ls[1..];
      assert h in ls;
      forall m | m in tl ensures PlainLine(m) && |m| < MaxScanTokenSize {
        assert m in ls;
      }
      var tail := Join(tl + [l], "\n") + "\n" + rest;
      LinesEndAtLongLine(tl, l, rest);
      JoinNewlineCons(h, tl, l, rest);
      LinesCons(h, tail);
      assert [h] + tl == ls;
    }
  }

  // -----------------------------------------------------------------------
  // IP addresses (net.IP)

  /** A byte, as an integer. */
  type Byte = x: int | 0 <= x < 256

  /** The bitwise AND of two bytes (Go's `&` on `byte`). */
  function And(x: Byte, y: Byte): Byte {
    ((x as bv8) & (y as bv8)) as int
  }

  /** `net.IP` in its 16-byte form. */
  type IP = s: seq<Byte> | |s| == 16 witness [0, 0, 0, 0, 0, 0, 0, 0, 0, 0, 0, 0, 0, 0, 0, 0]

  const V4InV6Prefix: seq<Byte> := [0, 0, 0, 0, 0, 0, 0, 0, 0, 0, 0xff, 0xff]

  const IPv6Loopback: IP := [0, 0, 0, 0, 0, 0, 0, 0, 0, 0, 0, 0, 0, 0, 0, 1]

  /** `net.IPv4(a, b, c, d)`. */
  function IPv4(a: Byte, b: Byte, c: Byte, d: Byte): IP {
    V4InV6Prefix + [a, b, c, d]
  }

  /** `ip.To4()`: the four IPv4 bytes of an IPv4 address, or none. */
  function To4(ip: IP): (r: Option<seq<Byte>>)
    ensures r.Some? <==> ip[..12] == V4InV6Prefix
    ensures r.Some? ==> |r.value| == 4 && ip == V4InV6Prefix + r.value
  {
    if ip[..12] == V4InV6Prefix then
      assert ip == ip[..12] + ip[12..];
      Some(ip[12..])
    else None
  }

  /** `ip.IsLoopback()`: 127/8, or ::1. */
  predicate IsLoopback(ip: IP) {
    match To4(ip)
    case Some(x) => x[0] == 127
    case None => ip == IPv6Loopback
  }

  /** `ip.IsLinkLocalUnicast()`: 169.254/16, or fe80::/10. */
  predicate IsLinkLocalUnicast(ip: IP) {
    match To4(ip)
    case Some(x) => x[0] == 169 && x[1] == 254
    case None => ip[0] == 0xfe && And(ip[1], 0xc0) == 0x80
  }

  /** `ip.IsLinkLocalMulticast()`: 224.0.0/24, or ff02::/16 in any scope flags. */
  predicate IsLinkLocalMulticast(ip: IP) {
    match To4(ip)
    case Some(x) => x[0] == 224 && x[1] == 0 && x[2] == 0
    case None => ip[0] == 0xff && And(ip[1], 0x0f) == 0x02
  }

  /** One dotted-decimal field: digits only, no leading zero, at most 255. */
  function Octet(f: string): (r: Option<Byte>)
    ensures r.Some? ==> f != [] && AllDigits(f) && DigitsValue(f) == r.value as int
    ensures r.Some? ==> f == NatToString(r.value as nat)
  {
    if f == [] || !AllDigits(f) || (|f| > 1 && f[0] == '0') || DigitsValue(f) > 255 then None
    else
      CanonicalDigits(f);
      Some(DigitsValue(f))
  }

  /** IPv4 text as Go's `netip` reads it: exactly four fields. */
  function ParseIPv4(s: string): Option<IP> {
    var fs := SplitOn(s, '.');
    if |fs| != 4 then None
    else
      var a, b, c, d := Octet(fs[0]), Octet(fs[1]), Octet(fs[2]), Octet(fs[3]);
      if a.Some? && b.Some? && c.Some? && d.Some? then
        Some(IPv4(a.value, b.value, c.value, d.value))
      else None
  }

  /** The first of '.', ':' and '%' in the text, which decides how it is parsed. */
  function FirstSeparator(s: string): (r: Option<char>)
    ensures r.Some? ==> r.value in s && r.value in ".:%"
    ensures r.None? ==> forall i :: 0 <= i < |s| ==> s[i] !in ".:%"
  {
    if s == [] then None
    else if s[0] in ".:%" then Some(s[0])
    else FirstSeparator(s[1..])
  }

  /** IPv6 text to an address, rejecting text with a zone; Go's parser is not
      part of this model. */
  type V6Parser = string -> Option<IP>

  /** `net.ParseIP`. */
  function ParseIP(s: string, v6: V6Parser): Option<IP> {
    match FirstSeparator(s)
    case Some('.') => ParseIPv4(s)
    case Some(':') => v6(s)
    case _ => None
  }

  /** The dotted-decimal form of an IPv4 address. */
  function FormatIPv4(a: Byte, b: Byte, c: Byte, d: Byte): string {
    Join(OctetTexts(a, b, c, d), ".")
  }

  function OctetTexts(a: Byte, b: Byte, c: Byte, d: Byte): (r: seq<string>)
    ensures |r| == 4 && forall t :: t in r ==> t != [] && AllDigits(t)
  {
    [NatToString(a), NatToString(b), NatToString(c), NatToString(d)]
  }

  lemma OctetOfNatToString(x: Byte)
    ensures Octet(NatToString(x)) == Some(x)
  {
    NatToStringRoundTrip(x as int);
  }

  lemma SplitFormatIPv4(a: Byte, b: Byte, c: Byte, d: Byte)
    ensures SplitOn(FormatIPv4(a, b, c, d), '.') == OctetTexts(a, b, c, d)
  {
    var parts := OctetTexts(a, b, c, d);
    forall t | t in parts ensures '.' !in t {
      assert AllDigits(t);
    }
    SplitOnJoin(parts, '.');
  }

  lemma ParseIPv4Format(a: Byte, b: Byte, c: Byte, d: Byte)
    ensures ParseIPv4(FormatIPv4(a, b, c, d)) == Some(IPv4(a, b, c, d))
  {
    SplitFormatIPv4(a, b, c, d);
    OctetOfNatToString(a);
    OctetOfNatToString(b);
    OctetOfNatToString(c);
    OctetOfNatToString(d);
  }

  /** The text starts with a digit and its first separator is a dot. */
  lemma FormatIPv4Shape(a: Byte, b: Byte, c: Byte, d: Byte)
    ensures var s := FormatIPv4(a, b, c, d);
      s != [] && IsDigit(s[0]) && FirstSeparator(s) == Some('.')
  {
    var parts := OctetTexts(a, b, c, d);
    var p := parts[0];
    assert p in parts;
    var s := FormatIPv4(a, b, c, d);
    assert s == p + ("." + Join(parts[1..], "."));
    assert s[|p|] == '.' && s[..|p|] == p;
    FirstSeparatorAt(s, |p|);
  }

  /** Formatted IPv4 text parses back to the same address. */
  lemma ParseFormatIPv4(a: Byte, b: Byte, c: Byte, d: Byte, v6: V6Parser)
    ensures ParseIP(FormatIPv4(a, b, c, d), v6) == Some(IPv4(a, b, c, d))
  {
    FormatIPv4Shape(a, b, c, d);
    ParseIPv4Format(a, b, c, d);
  }

  lemma {:induction false} FirstSeparatorAt(s: string, k: nat)
    requires k < |s| && s[k] in ".:%" && AllDigits(s[..k])
    ensures FirstSeparator(s) == Some(s[k])
  {
    if k > 0 {
      assert IsDigit(s[..k][0]);
      assert s[1..][..k - 1] == s[..k][1..];
      FirstSeparatorAt(s[1..], k - 1);
    }
  }

  // -----------------------------------------------------------------------
  // Private ranges (net.ParseCIDR, IPNet.Contains)

  /** A network prefix: the masked IPv4 address and the mask bytes. */
  datatype IPNet = IPNet(ip: seq<Byte>, mask: seq<Byte>) {
    /** `n.Contains(ip)`: an IPv4 address is compared byte by byte under the
        mask; an IPv6 address never matches an IPv4 network. */
    predicate Contains(addr: IP) {
      var x: seq<Byte> := if To4(addr).Some? then To4(addr).value else addr;
      |x| == |ip| == |mask| &&
      forall i :: 0 <= i < |x| ==> And(ip[i], mask[i]) == And(x[i], mask[i])
    }
  }

  /** `^byte(0xff >> n)`, the byte holding the last `n` ones of a mask (n < 8). */
  const PartialMask: seq<Byte> := [0x00, 0x80, 0xc0, 0xe0, 0xf0, 0xf8, 0xfc, 0xfe]

  /** Byte `k` of a mask whose first `ones` bits are set: all ones before the
      boundary, the partial byte at it, zero after it. */
  function MaskByte(ones: nat, k: nat): Byte {
    if ones >= 8 * (k + 1) then 0xff
    else if ones <= 8 * k then 0
    else PartialMask[ones - 8 * k]
  }

  /** `net.CIDRMask(ones, 8 * len)`: `ones` leading one bits, then zeros. */
  function CIDRMask(ones: nat, len: nat): (m: seq<Byte>)
    ensures |m| == len
    ensures forall k :: 0 <= k < len ==> m[k] == MaskByte(ones, k)
  {
    if len == 0 then []
    else if ones >= 8 then [0xff] + CIDRMask(ones - 8, len - 1)
    else [PartialMask[ones]] + CIDRMask(0, len - 1)
  }

  /** `net.ParseCIDR` on an IPv4 prefix: address, '/', and a decimal length of
      at most 32; the network keeps only the masked bits of the address. */
  function ParseCIDR(s: string): Option<IPNet> {
    var slash := IndexOf(s, '/');
    if slash < 0 then None else CIDRFrom(s[..slash], s[slash + 1..])
  }

  /** The network named by the address and length texts either side of the slash. */
  function CIDRFrom(addr: string, len: string): Option<IPNet> {
    if FirstSeparator(addr) != Some('.') || len == [] || !AllDigits(len) || DigitsValue(len) > 32 then None
    else
      match ParseIPv4(addr)
      case None => None
      case Some(a) =>
        var m := CIDRMask(DigitsValue(len), 4);
        var x := a[12..];
        Some(IPNet([And(x[0], m[0]), And(x[1], m[1]), And(x[2], m[2]), And(x[3], m[3])], m))
  }

  /** The private IPv4 ranges of section 3 of RFC 1918, as `isPrivateIP` lists them. */
  const PrivateRanges: seq<string> := ["10.0.0.0/8", "172.16.0.0/12", "192.168.0.0/16"]

  /** The networks those literals denote; `RangeParsed` proves it. */
  const PrivateNets: seq<IPNet> := [
    IPNet([10, 0, 0, 0], [0xff, 0, 0, 0]),
    IPNet([172, 16, 0, 0], [0xff, 0xf0, 0, 0]),
    IPNet([192, 168, 0, 0], [0xff, 0xff, 0, 0])]

  /** What `isPrivateIP` decides. */
  predicate IsPrivate(ip: IP) {
    IsLoopback(ip) || IsLinkLocalUnicast(ip) || IsLinkLocalMulticast(ip) ||
    exists k :: 0 <= k < |PrivateNets| && PrivateNets[k].Contains(ip)
  }

  /** `isPrivateIP`: the three address classes, then each range literal
      parsed and matched in order. */
  method IsPrivateIP(ip: IP) returns (b: bool)
    ensures b == IsPrivate(ip)
  {
    if IsLoopback(ip) || IsLinkLocalUnicast(ip) || IsLinkLocalMulticast(ip) {
      return true;
    }
    for k := 0 to |PrivateRanges|
      invariant forall j :: 0 <= j < k ==> !PrivateNets[j].Contains(ip)
    {
      RangeParsed(k);
      var subnet := ParseCIDR(PrivateRanges[k]);
      if subnet.Some? && subnet.value.Contains(ip) {
        return true;
      }
      forall j | 0 <= j < k + 1 ensures !PrivateNets[j].Contains(ip) {
        if j == k {
          assert !PrivateNets[k].Contains(ip);
        }
      }
    }
    return false;
  }

  /** Each range literal parses to the network listed for it. */
  lemma RangeParsed(k: nat)
    requires k < |PrivateRanges|
    ensures |PrivateNets| == |PrivateRanges|
    ensures ParseCIDR(PrivateRanges[k]) == Some(PrivateNets[k])
  {
    if k == 0 {
      RangeParsed0();
    } else if k == 1 {
      RangeParsed1();
    } else {
      RangeParsed2();
    }
  }

  lemma RangeParsed0()
    ensures ParseCIDR(PrivateRanges[0]) == Some(PrivateNets[0])
  {
    RangeText0();
    AndFacts(0);
    AndFacts(10);
    assert CIDRMask(8, 4) == [0xff, 0, 0, 0];
    CIDRParsed(PrivateRanges[0], "10.0.0.0", "8", 10, 0, 0, 0, 8);
  }

  lemma RangeParsed1()
    ensures ParseCIDR(PrivateRanges[1]) == Some(PrivateNets[1])
  {
    RangeText1();
    AndFacts(0);
    AndFacts(16);
    AndFacts(172);
    assert CIDRMask(12, 4) == [0xff, 0xf0, 0, 0];
    CIDRParsed(PrivateRanges[1], "172.16.0.0", "12", 172, 16, 0, 0, 12);
  }

  lemma RangeParsed2()
    ensures ParseCIDR(PrivateRanges[2]) == Some(PrivateNets[2])
  {
    RangeText2();
    AndFacts(0);
    AndFacts(168);
    AndFacts(192);
    assert CIDRMask(16, 4) == [0xff, 0xff, 0, 0];
    CIDRParsed(PrivateRanges[2], "192.168.0.0", "16", 192, 168, 0, 0, 16);
  }

  lemma RangeText0()
    ensures FormatIPv4(10, 0, 0, 0) == "10.0.0.0" && NatToString(8) == "8"
    ensures PrivateRanges[0] == "10.0.0.0" + "/" + "8"
  {
    assert NatToString(10) == "10";
    assert NatToString(0) == "0";
    assert OctetTexts(10, 0, 0, 0) == ["10", "0", "0", "0"];
    assert Join(["10", "0", "0", "0"], ".") == "10.0.0.0";
  }

  lemma RangeText1()
    ensures FormatIPv4(172, 16, 0, 0) == "172.16.0.0" && NatToString(12) == "12"
    ensures PrivateRanges[1] == "172.16.0.0" + "/" + "12"
  {
    OctetTexts1();
    assert Join(["172", "16", "0", "0"], ".") == "172.16.0.0";
  }

  lemma OctetTexts1()
    ensures OctetTexts(172, 16, 0, 0) == ["172", "16", "0", "0"]
  {
    assert NatToString(172) == "172";
    assert NatToString(16) == "16";
    assert NatToString(0) == "0";
  }

  lemma RangeText2()
    ensures FormatIPv4(192, 168, 0, 0) == "192.168.0.0" && NatToString(16) == "16"
    ensures PrivateRanges[2] == "192.168.0.0" + "/" + "16"
  {
    OctetTexts2();
    assert Join(["192", "168", "0", "0"], ".") == "192.168.0.0";
  }

  lemma OctetTexts2()
    ensures OctetTexts(192, 168, 0, 0) == ["192", "168", "0", "0"]
  {
    assert NatToString(192) == "192";
    assert NatToString(168) == "168";
    assert NatToString(0) == "0";
  }

  /** A canonical dotted-decimal address and prefix length parse to the
      masked network. */
  lemma CIDRParsed(s: string, addr: string, len: string, a: Byte, b: Byte, c: Byte, d: Byte, n: nat)
    requires FormatIPv4(a, b, c, d) == addr
    requires NatToString(n) == len && n <= 32
    requires s == addr + "/" + len
    ensures var m := CIDRMask(n, 4);
      ParseCIDR(s) == Some(IPNet([And(a, m[0]), And(b, m[1]), And(c, m[2]), And(d, m[3])], m))
  {
    SlashSplit(s, addr, len, a, b, c, d);
    assert ParseCIDR(s) == CIDRFrom(addr, len);
    FormatIPv4Shape(a, b, c, d);
    ParseIPv4Format(a, b, c, d);
    NatToStringRoundTrip(n);
    assert IPv4(a, b, c, d)[12..] == [a, b, c, d];
  }

  /** The slash of a formatted prefix is the one after the address. */
  lemma SlashSplit(s: string, addr: string, len: string, a: Byte, b: Byte, c: Byte, d: Byte)
    requires FormatIPv4(a, b, c, d) == addr && s == addr + "/" + len
    ensures IndexOf(s, '/') == |addr| && s[..|addr|] == addr && s[|addr| + 1..] == len
  {
    var parts := OctetTexts(a, b, c, d);
    forall x | x in parts ensures '/' !in x {
      assert AllDigits(x);
    }
    JoinNoChar(parts, ".", '/');
    assert s[|addr|] == '/' && s[..|addr|] == addr;
    IndexOfAt(s, '/', |addr|);
    assert s[|addr| + 1..] == len;
  }

  lemma {:induction false} JoinNoChar(parts: seq<string>, sep: string, c: char)
    requires c !in sep && forall x :: x in parts ==> c !in x
    ensures c !in Join(parts, sep)
  {
    if |parts| > 1 {
      assert parts[0] in parts;
      JoinNoChar(parts[1..], sep, c);
    } else if |parts| == 1 {
      assert parts[0] in parts;
    }
  }

  /** The IPv4 addresses `isPrivateIP` accepts, octet by octet. */
  predicate PrivateOctets(a: Byte, b: Byte, c: Byte) {
    a == 127 || (a == 169 && b == 254) || (a == 224 && b == 0 && c == 0) ||
    a == 10 || (a == 172 && 16 <= b < 32) || (a == 192 && b == 168)
  }

  /** The masks the private ranges use, applied to one byte. */
  lemma AndFacts(b: Byte)
    ensures And(b, 0xff) == b && And(b, 0) == 0
    ensures And(b, 0xf0) == 0x10 <==> 16 <= b < 32
  {
    var v := b as bv8;
    assert v & (0xff as Byte as bv8) == v;
    assert v & (0 as Byte as bv8) == 0;
    assert v as int == b;
  }

  /** Containment of an IPv4 address, byte by byte. */
  lemma ContainsIPv4(n: IPNet, a: Byte, b: Byte, c: Byte, d: Byte)
    requires |n.ip| == 4 && |n.mask| == 4
    ensures n.Contains(IPv4(a, b, c, d)) <==>
      And(n.ip[0], n.mask[0]) == And(a, n.mask[0]) && And(n.ip[1], n.mask[1]) == And(b, n.mask[1]) &&
      And(n.ip[2], n.mask[2]) == And(c, n.mask[2]) && And(n.ip[3], n.mask[3]) == And(d, n.mask[3])
  {
    var ip := IPv4(a, b, c, d);
    assert ip[..12] == V4InV6Prefix;
    var x := [a, b, c, d];
    assert To4(ip).value == x;
  }

  lemma PrivateIPv4(a: Byte, b: Byte, c: Byte, d: Byte)
    ensures IsPrivate(IPv4(a, b, c, d)) <==> PrivateOctets(a, b, c)
  {
    var ip := IPv4(a, b, c, d);
    V4Classes(a, b, c, d);
    InPrivateNets(a, b, c, d);
    if exists k :: 0 <= k < |PrivateNets| && PrivateNets[k].Contains(ip) {
      var k :| 0 <= k < |PrivateNets| && PrivateNets[k].Contains(ip);
      assert k == 0 || k == 1 || k == 2;
    }
    if PrivateOctets(a, b, c) && !IsLoopback(ip) && !IsLinkLocalUnicast(ip) && !IsLinkLocalMulticast(ip) {
      var k := if a == 10 then 0 else if a == 172 then 1 else 2;
      assert PrivateNets[k].Contains(ip);
    }
  }

  /** The loopback and link-local classes of an IPv4 address, octet by octet. */
  lemma V4Classes(a: Byte, b: Byte, c: Byte, d: Byte)
    ensures IsLoopback(IPv4(a, b, c, d)) <==> a == 127
    ensures IsLinkLocalUnicast(IPv4(a, b, c, d)) <==> a == 169 && b == 254
    ensures IsLinkLocalMulticast(IPv4(a, b, c, d)) <==> a == 224 && b == 0 && c == 0
  {
    var ip := IPv4(a, b, c, d);
    assert ip[..12] == V4InV6Prefix;
    assert To4(ip) == Some([a, b, c, d]);
  }

  /** Which of the three private networks hold an IPv4 address. */
  lemma InPrivateNets(a: Byte, b: Byte, c: Byte, d: Byte)
    ensures PrivateNets[0].Contains(IPv4(a, b, c, d)) <==> a == 10
    ensures PrivateNets[1].Contains(IPv4(a, b, c, d)) <==> a == 172 && 16 <= b < 32
    ensures PrivateNets[2].Contains(IPv4(a, b, c, d)) <==> a == 192 && b == 168
  {
    AndFacts(a);
    AndFacts(b);
    AndFacts(c);
    AndFacts(d);
    InPrivateNet0(a, b, c, d);
    InPrivateNet1(a, b, c, d);
    InPrivateNet2(a, b, c, d);
  }

  lemma InPrivateNet0(a: Byte, b: Byte, c: Byte, d: Byte)
    requires And(a, 0xff) == a && And(b, 0) == 0 && And(c, 0) == 0 && And(d, 0) == 0
    ensures PrivateNets[0].Contains(IPv4(a, b, c, d)) <==> a == 10
  {
    AndFacts(10);
    AndFacts(0);
    ContainsIPv4(PrivateNets[0], a, b, c, d);
  }

  lemma InPrivateNet1(a: Byte, b: Byte, c: Byte, d: Byte)
    requires And(a, 0xff) == a && (And(b, 0xf0) == 0x10 <==> 16 <= b < 32)
    requires And(c, 0) == 0 && And(d, 0) == 0
    ensures PrivateNets[1].Contains(IPv4(a, b, c, d)) <==> a == 172 && 16 <= b < 32
  {
    AndFacts(172);
    AndFacts(16);
    AndFacts(0);
    ContainsIPv4(PrivateNets[1], a, b, c, d);
  }

  lemma InPrivateNet2(a: Byte, b: Byte, c: Byte, d: Byte)
    requires And(a, 0xff) == a && And(b, 0xff) == b && And(c, 0) == 0 && And(d, 0) == 0
    ensures PrivateNets[2].Contains(IPv4(a, b, c, d)) <==> a == 192 && b == 168
  {
    AndFacts(192);
    AndFacts(168);
    AndFacts(0);
    ContainsIPv4(PrivateNets[2], a, b, c, d);
  }

  /** An IPv6 address is private only as loopback or link-local; the IPv4
      ranges never contain it. */
  lemma PrivateIPv6(ip: IP)
    requires To4(ip).None?
    ensures IsPrivate(ip) <==>
      ip == IPv6Loopback || (ip[0] == 0xfe && And(ip[1], 0xc0) == 0x80) ||
      (ip[0] == 0xff && And(ip[1], 0x0f) == 0x02)
  {
  }

  // -----------------------------------------------------------------------
  // Lines to connections

  /** `parseAddress`: `[ip]:port`, then `ip:port` at the last colon, then
      `ip.port` at the last dot when three dots precede it; ("", 0) otherwise. */
  function ParseAddress(addr: string): (string, int) {
    var closeBracket := IndexOf(addr, ']');
    if |addr| > 0 && addr[0] == '[' && closeBracket > 0 then
      var rest := addr[closeBracket + 1..];
      var portStr := if |rest| > 0 && rest[0] == ':' then rest[1..] else rest;
      (addr[1..closeBracket], Atoi(portStr))
    else
      var lastColon := LastIndexOf(addr, ':');
      if lastColon > 0 then (addr[..lastColon], Atoi(addr[lastColon + 1..]))
      else
        var lastDot := LastIndexOf(addr, '.');
        if lastDot > 0 && CountChar(addr[..lastDot], '.') == 3 then
          (addr[..lastDot], Atoi(addr[lastDot + 1..]))
        else ("", 0)
  }

  /** `parseNetstatLine`: state, local and peer address from the whitespace
      fields; nothing unless both addresses give an IP. */
  function ParseNetstatLine(line: string): Option<Connection> {
    var fields := Fields(line);
    if |fields| < 5 then None
    else
      var state, localAddr, remoteAddr := fields[0], fields[3], fields[4];
      if localAddr == "" || remoteAddr == "" then None
      else
        var (localIP, localPort) := ParseAddress(localAddr);
        var (remoteIP, remotePort) := ParseAddress(remoteAddr);
        if localIP == "" || remoteIP == "" then None
        else Some(Connection(localIP, localPort, remoteIP, remotePort, state, ""))
  }

  /** `shouldInclude`: drops loopback and wildcard peers, peers that do not
      parse or are private, and listening sockets. */
  predicate ShouldInclude(conn: Connection, v6: V6Parser) {
    if conn.remoteIP in {"127.0.0.1", "::1", "localhost"} then false
    else if conn.remoteIP in {"", "0.0.0.0", "*", "::"} then false
    else
      match ParseIP(conn.remoteIP, v6)
      case None => false
      case Some(ip) => !IsPrivate(ip) && !Contains(ToUpper(conn.state), "LISTEN")
  }

  predicate IsHeader(line: string) {
    Contains(line, "State") && Contains(line, "Recv-Q")
  }

  /** The connection a line contributes before filtering: none for the
      header, for a line without ':' and for a line that does not parse. */
  function Candidate(line: string): Option<Connection> {
    if IsHeader(line) || !Contains(line, ":") then None else ParseNetstatLine(line)
  }

  /** The connection a line contributes after filtering. */
  function Kept(line: string, v6: V6Parser): Option<Connection> {
    var c := Candidate(line);
    if c.Some? && ShouldInclude(c.value, v6) then c else None
  }

  function KeepFn(v6: V6Parser): string -> Option<Connection> {
    line => Kept(line, v6)
  }

  /** How many lines gave a connection. */
  function ParsedCount(lines: seq<string>): nat {
    |FilterMap(lines, Candidate)|
  }

  /** The connections kept from the lines, in line order; never more than
      the lines that parsed. */
  function Captured(lines: seq<string>, v6: V6Parser): (r: seq<Connection>)
    ensures |r| <= ParsedCount(lines)
  {
    FilterMapCovers(lines, KeepFn(v6), Candidate);
    FilterMap(lines, KeepFn(v6))
  }

  /** `CaptureConnections` after the command: none when `ss` failed, else the
      kept connections and the debug counters. */
  method CaptureConnections(ssOutput: Option<string>, v6: V6Parser)
    returns (r: Option<seq<Connection>>, lineCount: nat, parsedCount: nat, includedCount: nat)
    ensures ssOutput.None? ==> r.None?
    ensures ssOutput.Some? ==>
      var lines := Lines(ssOutput.value);
      r == Some(Captured(lines, v6)) && lineCount == |lines| &&
      parsedCount == ParsedCount(lines) && includedCount == |r.value|
  {
    lineCount, parsedCount, includedCount := 0, 0, 0;
    if ssOutput.None? {
      return None, 0, 0, 0;
    }
    var lines := Lines(ssOutput.value);
    var connections: seq<Connection> := [];
    for i := 0 to |lines|
      invariant connections == Captured(lines[..i], v6)
      invariant lineCount == i && parsedCount == ParsedCount(lines[..i])
      invariant includedCount == |connections|
    {
      CapturedSnoc(lines, i, v6);
      var line := lines[i];
      lineCount := lineCount + 1;
      if Contains(line, "State") && Contains(line, "Recv-Q") {
        continue;
      }
      if !Contains(line, ":") {
        continue;
      }
      var conn := ParseNetstatLine(line);
      if conn.Some? {
        parsedCount := parsedCount + 1;
        if ShouldInclude(conn.value, v6) {
          connections := connections + [conn.value];
          includedCount := includedCount + 1;
        }
      }
    }
    assert lines[..|lines|] == lines;
    r := Some(connections);
  }

  /** One more line adds its kept connection, if any, and counts it if it parsed. */
  lemma CapturedSnoc(lines: seq<string>, i: nat, v6: V6Parser)
    requires i < |lines|
    ensures var k := Kept(lines[i], v6);
      Captured(lines[..i + 1], v6) == Captured(lines[..i], v6) + (if k.Some? then [k.value] else [])
    ensures ParsedCount(lines[..i + 1]) == ParsedCount(lines[..i]) + (if Candidate(lines[i]).Some? then 1 else 0)
  {
    assert lines[..i + 1][..i] == lines[..i];
  }

  // -----------------------------------------------------------------------
  // Properties of the capture

  /** Capturing two runs of lines is capturing each in turn. */
  lemma CapturedAppend(a: seq<string>, b: seq<string>, v6: V6Parser)
    ensures Captured(a + b, v6) == Captured(a, v6) + Captured(b, v6)
  {
    FilterMapAppend(a, b, KeepFn(v6));
  }

  /** A connection is kept exactly when some line yields it and it passes the filter. */
  lemma CapturedMembership(lines: seq<string>, v6: V6Parser, c: Connection)
    ensures c in Captured(lines, v6) <==>
      (exists i :: 0 <= i < |lines| && Candidate(lines[i]) == Some(c)) && ShouldInclude(c, v6)
  {
    FilterMapMembership(lines, KeepFn(v6), c);
    if c in Captured(lines, v6) {
      var i :| 0 <= i < |lines| && KeepFn(v6)(lines[i]) == Some(c);
      assert Candidate(lines[i]) == Some(c);
    }
    if (exists i :: 0 <= i < |lines| && Candidate(lines[i]) == Some(c)) && ShouldInclude(c, v6) {
      var i :| 0 <= i < |lines| && Candidate(lines[i]) == Some(c);
      assert KeepFn(v6)(lines[i]) == Some(c);
    }
  }

  /** Header lines and lines without a colon contribute nothing. */
  lemma SkippedLine(a: seq<string>, line: string, b: seq<string>, v6: V6Parser)
    requires IsHeader(line) || !Contains(line, ":")
    ensures Captured(a + [line] + b, v6) == Captured(a + b, v6)
  {
    CapturedAppend(a + [line], b, v6);
    CapturedAppend(a, [line], v6);
    CapturedAppend(a, b, v6);
    assert Captured([line], v6) == [] by {
      assert [line][..0] == [];
      assert Kept(line, v6).None?;
    }
  }

  /** A line with fewer than five fields gives nothing. */
  lemma ShortLine(line: string)
    requires |Fields(line)| < 5
    ensures ParseNetstatLine(line).None? && Candidate(line).None?
  {
  }

  /** `[ip]:port` gives the bracketed text and the port. */
  lemma ParseAddressBracketed(ip: string, port: nat)
    requires ']' !in ip && port <= MaxInt64
    ensures ParseAddress("[" + ip + "]:" + NatToString(port)) == (ip, port)
  {
    var digits := NatToString(port);
    var s := "[" + ip + "]:" + digits;
    assert IndexOf(s, ']') == |ip| + 1 by {
      assert s[|ip| + 1] == ']' && s[..|ip| + 1] == "[" + ip;
      IndexOfAt(s, ']', |ip| + 1);
    }
    assert s[1..|ip| + 1] == ip;
    assert s[|ip| + 2..] == ":" + digits;
    assert (":" + digits)[1..] == digits;
    AtoiOfNatToString(port);
  }

  /** The last colon separates address and port, whatever colons the address holds. */
  lemma ParseAddressAtColon(ip: string, portStr: string)
    requires ip != [] && ip[0] != '[' && ':' !in portStr
    ensures ParseAddress(ip + ":" + portStr) == (ip, Atoi(portStr))
  {
    var s := ip + ":" + portStr;
    assert s[|ip|] == ':' && s[|ip| + 1..] == portStr && s[..|ip|] == ip;
    assert LastIndexOf(s, ':') == |ip|;
  }

  /** `ip:port` gives the address and the port. */
  lemma ParseAddressHostPort(ip: string, port: nat)
    requires ip != [] && ip[0] != '[' && port <= MaxInt64
    ensures ParseAddress(ip + ":" + NatToString(port)) == (ip, port)
  {
    assert AllDigits(NatToString(port));
    ParseAddressAtColon(ip, NatToString(port));
    AtoiOfNatToString(port);
  }

  /** A port that does not start with a digit or sign reads as 0; `*:*` is ("*", 0). */
  lemma ParseAddressBadPort(ip: string, portStr: string)
    requires ip != [] && ip[0] != '[' && ':' !in portStr
    requires portStr != [] && !IsDigit(portStr[0]) && portStr[0] != '-' && portStr[0] != '+'
    ensures ParseAddress(ip + ":" + portStr) == (ip, 0)
    ensures ParseAddress("*:*") == ("*", 0)
  {
    assert "*:*" == "*" + ":" + "*";
    ParseAddressAtColon(ip, portStr);
    AtoiNonNumeric(portStr, 0);
    ParseAddressAtColon("*", "*");
    AtoiNonNumeric("*", 0);
  }

  /** `a.b.c.d.port`: the dot form is read only when three dots precede the last one. */
  lemma ParseAddressDotted(ip: string, port: nat)
    requires ip != [] && ip[0] != '[' && ':' !in ip && CountChar(ip, '.') == 3
    requires port <= MaxInt64
    ensures ParseAddress(ip + "." + NatToString(port)) == (ip, port)
  {
    var digits := NatToString(port);
    var s := ip + "." + digits;
    assert ':' !in digits && '.' !in digits by {
      assert AllDigits(digits);
    }
    assert ':' !in s;
    assert s[|ip|] == '.' && s[|ip| + 1..] == digits && s[..|ip|] == ip;
    LastIndexOfAt(s, '.', |ip|);
    AtoiOfNatToString(port);
  }

  /** Without brackets or colons, a text whose dot count is not four gives ("", 0). */
  lemma ParseAddressUnrecognised(addr: string)
    requires (addr == [] || addr[0] != '[') && ':' !in addr && CountChar(addr, '.') != 4
    ensures ParseAddress(addr) == ("", 0)
  {
    assert LastIndexOf(addr, ':') == -1;
    var lastDot := LastIndexOf(addr, '.');
    if lastDot > 0 {
      CountCharAtLast(addr, '.', lastDot);
    }
  }

  /** An `ss` line made of whitespace-separated fields, with `ip:port`
      addresses, gives the connection those fields describe. */
  lemma ParseSsLine(state: string, recvQ: string, sendQ: string,
                    localIP: string, localPort: nat, remoteIP: string, remotePort: nat,
                    extra: seq<string>)
    requires forall f :: f in [state, recvQ, sendQ, localIP, remoteIP] + extra ==> f != [] && NoSpace(f)
    requires localIP != [] && remoteIP != [] && localIP[0] != '[' && remoteIP[0] != '['
    requires localPort <= MaxInt64 && remotePort <= MaxInt64
    ensures var fs := [state, recvQ, sendQ, localIP + ":" + NatToString(localPort),
                       remoteIP + ":" + NatToString(remotePort)] + extra;
      ParseNetstatLine(Join(fs, " ")) == Some(Connection(localIP, localPort, remoteIP, remotePort, state, ""))
  {
    var local := localIP + ":" + NatToString(localPort);
    var remote := remoteIP + ":" + NatToString(remotePort);
    var fs := [state, recvQ, sendQ, local, remote] + extra;
    assert Fields(Join(fs, " ")) == fs by {
      var given := [state, recvQ, sendQ, localIP, remoteIP] + extra;
      assert localIP in given && remoteIP in given;
      NoSpaceAddress(localIP, localPort);
      NoSpaceAddress(remoteIP, remotePort);
      forall f | f in fs ensures f != [] && NoSpace(f) {
        if f != local && f != remote {
          assert f in given;
        }
      }
      FieldsOfJoin(fs);
    }
    assert fs[0] == state && fs[3] == local && fs[4] == remote;
    ParseAddressHostPort(localIP, localPort);
    ParseAddressHostPort(remoteIP, remotePort);
  }

  lemma NoSpaceAddress(ip: string, port: nat)
    requires NoSpace(ip)
    ensures NoSpace(ip + ":" + NatToString(port))
  {
    var d := NatToString(port);
    assert AllDigits(d);
    var s := ip + ":" + d;
    forall i | 0 <= i < |s| ensures !IsSpace(s[i]) {
      if i > |ip| {
        assert s[i] == d[i - |ip| - 1];
        assert IsDigit(d[i - |ip| - 1]);
      }
    }
  }

  /** A listening socket is never kept, whatever the case of "listen" in its state. */
  lemma ListenExcluded(conn: Connection, sub: string, v6: V6Parser)
    requires Contains(conn.state, sub) && ToUpper(sub) == "LISTEN"
    ensures !ShouldInclude(conn, v6)
  {
    ContainsToUpper(conn.state, sub);
  }

  /** For an IPv4 peer the filter keeps exactly the public, non-zero addresses
      of sockets that are not listening. */
  lemma ShouldIncludeIPv4(conn: Connection, a: Byte, b: Byte, c: Byte, d: Byte, v6: V6Parser)
    requires conn.remoteIP == FormatIPv4(a, b, c, d)
    ensures ShouldInclude(conn, v6) <==>
      !PrivateOctets(a, b, c) && !(a == 0 && b == 0 && c == 0 && d == 0) &&
      !Contains(ToUpper(conn.state), "LISTEN")
  {
    var s := conn.remoteIP;
    FormatIPv4Shape(a, b, c, d);
    assert s != "::1" && s != "localhost" && s != "" && s != "*" && s != "::";
    FormattedLiterals();
    if s == "127.0.0.1" {
      FormatIPv4Injective(a, b, c, d, 127, 0, 0, 1);
    }
    if s == "0.0.0.0" {
      FormatIPv4Injective(a, b, c, d, 0, 0, 0, 0);
    }
    ParseFormatIPv4(a, b, c, d, v6);
    PrivateIPv4(a, b, c, d);
  }

  lemma FormattedLiterals()
    ensures FormatIPv4(127, 0, 0, 1) == "127.0.0.1"
    ensures FormatIPv4(0, 0, 0, 0) == "0.0.0.0"
  {
    assert NatToString(127) == "127";
    assert NatToString(1) == "1";
    assert NatToString(0) == "0";
  }

  /** Dotted-decimal text determines the address it was formatted from. */
  lemma FormatIPv4Injective(a: Byte, b: Byte, c: Byte, d: Byte, a2: Byte, b2: Byte, c2: Byte, d2: Byte)
    requires FormatIPv4(a, b, c, d) == FormatIPv4(a2, b2, c2, d2)
    ensures a == a2 && b == b2 && c == c2 && d == d2
  {
    ParseIPv4Format(a, b, c, d);
    ParseIPv4Format(a2, b2, c2, d2);
    assert IPv4(a, b, c, d)[12..] == [a, b, c, d];
    assert IPv4(a2, b2, c2, d2)[12..] == [a2, b2, c2, d2];
  }
}
