/**
 The SSDP reply of the server (server/quick_ssdp.c) and the parsers with which the client
 takes it apart (client/DialDiscovery.cpp).
 */
module Ssdp {
  import opened Wrappers
  import opened CStrings
  import opened Numbers

  // -------------------------------------------------------------- the server's side

  const EOL := "\r\n"

  // ssdp_reply, with texts in the places of its four conversions.
  function BeforeUuid(ip: string, port: string): string {
    "HTTP/1.1 200 OK" + (EOL
    + ("LOCATION: " + (("http://" + (ip + (":" + (port + "/dd.xml")))) + (EOL + BetweenLines()))))
  }

  function BetweenLines(): string {
    "CACHE-CONTROL: max-age=1800\r\n" + ("EXT:\r\n" + ("BOOTID.UPNP.ORG: 1\r\n"
    + ("SERVER: Linux/2.6 UPnP/1.1 " + ("quick_ssdp/1.1\r\n" + (SearchTarget() + "\r\nUSN: uuid:")))))
  }

  function SearchTarget(): string { "ST: urn:dial-" + "multiscreen-org:service:dial:1" }

  function AfterUuid(): string { "::urn:dial-" + "multiscreen-org:service:dial:1\r\n" }

  function ReplyText(ip: string, port: string, uuid: string, wakeup: string): string {
    BeforeUuid(ip, port) + (uuid + (AfterUuid() + (wakeup + EOL)))
  }

  // wakeup_header
  function WakeupText(mac: string, timeout: string): string {
    "WAKEUP: " + ("MAC=" + (mac + (";" + ("Timeout=" + (timeout + EOL)))))
  }

  // sizeof of the two format strings: the texts with their conversions, and a NUL.
  function SizeofReplyFormat(): nat { |ReplyText("%s", "%d", "%s", "%s")| + 1 }
  function SizeofWakeupFormat(): nat { |WakeupText("%s", "%d")| + 1 }

  const HW_ADDRSTRLEN := 18
  const STR_TIMEOUTLEN := 6
  const INET_ADDRSTRLEN := 16

  // snprintf into a buffer of this size: what the buffer holds.
  function Snprintf(size: nat, text: string): string
    requires size > 0
  {
    if |text| < size then text else text[..size - 1]
  }

  function WakeupBufSize(): nat { SizeofWakeupFormat() + HW_ADDRSTRLEN + STR_TIMEOUTLEN }
  function SendBufSize(): nat { SizeofReplyFormat() + INET_ADDRSTRLEN + 256 + 256 + WakeupBufSize() }

  // What handle_mcast sends; the wakeup header is there when Wake-on-LAN is configured.
  function SentReply(ip: string, port: nat, uuid: string, wakeOnLan: bool, mac: string, timeout: int): string {
    var wakeup :=
      if wakeOnLan && timeout > -1 then Snprintf(WakeupBufSize(), WakeupText(mac, Decimal(timeout))) else "";
    Snprintf(SendBufSize(), ReplyText(ip, Decimal(port), uuid, wakeup))
  }

  /** No buffer cuts the reply off, whatever dotted IPv4 address, port, uuid, hardware
      address and timeout go into it. */
  lemma NeverTruncated(ip: string, port: nat, uuid: string, mac: string, timeout: nat)
    requires |ip| < INET_ADDRSTRLEN && port < 65536 && |uuid| <= 255 && |mac| <= 17 && timeout <= 32767
    ensures SentReply(ip, port, uuid, true, mac, timeout)
         == ReplyText(ip, Decimal(port), uuid, WakeupText(mac, Decimal(timeout)))
    ensures SentReply(ip, port, uuid, false, mac, timeout) == ReplyText(ip, Decimal(port), uuid, "")
  {
    DecimalIsDigits(port);
    DecimalIsDigits(timeout);
    var w := WakeupText(mac, Decimal(timeout));
    WakeupSize(mac, Decimal(timeout));
    WakeupSize("%s", "%d");
    ReplySize("%s", "%d", "%s", "%s");
    ReplySize(ip, Decimal(port), uuid, w);
    ReplySize(ip, Decimal(port), uuid, "");
  }

  lemma WakeupSize(mac: string, timeout: string)
    ensures |WakeupText(mac, timeout)| == 23 + |mac| + |timeout|
  {
  }

  lemma ReplySize(ip: string, port: string, uuid: string, wakeup: string)
    ensures |ReplyText(ip, port, uuid, wakeup)|
         == 46 + |BetweenLines()| + |AfterUuid()| + |ip| + |port| + |uuid| + |wakeup|
  {
    hide BetweenLines, AfterUuid;
  }

  // -------------------------------------------------------------- the client's side

  // std::string::find with a start position.
  function FindFrom(s: string, w: string, from: nat): Option<nat>
    requires from <= |s|
  {
    match IndexOf(s[from..], w)
    case None => None
    case Some(i) => Some(from + i)
  }

  lemma FindFromIs(s: string, w: string, from: nat, i: nat)
    requires from <= i <= |s| && w <= s[i..]
    requires forall k :: from <= k < i ==> !(w <= s[k..])
    ensures FindFrom(s, w, from) == Some(i)
  {
    var t := s[from..];
    assert t[i - from..] == s[i..];
    forall k | 0 <= k < i - from ensures !(w <= t[k..]) {
      assert t[k..] == s[from + k..];
    }
    IndexOfIs(t, w, i - from);
  }

  const LOCATION := "LOCATION: "

  // getLocation from a position behind a line break.
  function LocationIn(t: string): string
    decreases |t|
  {
    match IndexOf(t, EOL)
    case None => ""
    case Some(i) =>
      IndexOfFinds(t, EOL);
      var line := t[..i];
      if IndexOf(line, LOCATION).Some? then
        IndexOfFinds(line, LOCATION);
        line[|LOCATION|..]
      else LocationIn(t[i + 2..])
  }

  // One line: the location it gives, or the text behind it.
  lemma LocationStep(t: string)
    ensures match IndexOf(t, EOL)
      case None => LocationIn(t) == ""
      case Some(i) =>
        && i + 2 <= |t|
        && if IndexOf(t[..i], LOCATION).Some? then i >= 10 && LocationIn(t) == t[..i][10..]
           else LocationIn(t) == LocationIn(t[i + 2..])
  {
    hide IndexOf;
    IndexOfFinds(t, EOL);
    if IndexOf(t, EOL).Some? {
      IndexOfFinds(t[..IndexOf(t, EOL).value], LOCATION);
    }
  }

  /** getLocation: its loop over the lines of the response. */
  method GetLocation(response: string) returns (url: string)
    ensures url == LocationIn(response)
  {
    hide IndexOf, LocationIn;
    var prev := 0;
    var index := FindFrom(response, EOL, 0);
    assert response[0..] == response;
    LocationStep(response);
    while index.Some?
      invariant prev <= |response| && index == FindFrom(response, EOL, prev)
      invariant LocationIn(response) == LocationIn(response[prev..])
      invariant index == None ==> LocationIn(response) == ""
      decreases |response| - prev
    {
      ghost var t, i := response[prev..], index.value - prev;
      LocationStep(t);
      var line := response[prev..index.value];
      assert line == t[..i] && t[i + 2..] == response[index.value + 2..];
      if IndexOf(line, LOCATION).Some? {
        return line[10..];
      }
      prev := index.value + 2;
      index := FindFrom(response, EOL, prev);
      LocationStep(response[prev..]);
    }
    return "";
  }

  const WAKEUP := "WAKEUP:"

  // The text from behind `key`, searched for behind the first "WAKEUP:", up to `end`.
  function Field(response: string, key: string, end: string): Option<string> {
    match IndexOf(response, WAKEUP)
    case None => None
    case Some(index) =>
      IndexOfFinds(response, WAKEUP);
      match FindFrom(response, key, index)
      case None => None
      case Some(at) =>
        IndexOfFinds(response[index..], key);
        var start := at + |key|;
        match FindFrom(response, end, start)
        case None => None
        case Some(stop) =>
          IndexOfFinds(response[start..], end);
          Some(response[start..stop])
  }

  function GetMac(response: string): string {
    match Field(response, "MAC=", ";")
    case None => ""
    case Some(mac) => mac
  }

  // The conversion from long to int.
  function ToInt(x: int): int {
    (x + 0x8000_0000) % 0x1_0000_0000 - 0x8000_0000
  }

  function GetTimeout(response: string): int {
    match Field(response, "Timeout=", EOL)
    case None => 0
    case Some(text) => ToInt(StrToLL(text))
  }

  // ------------------------------------------------------------------ the round trip

  // Dotted decimal text, and the text of a hardware address.
  ghost predicate DottedText(ip: string) {
    forall i :: 0 <= i < |ip| ==> IsDigit(ip[i]) || ip[i] == '.'
  }

  ghost predicate MacText(mac: string) {
    |mac| == 17 && forall i :: 0 <= i < |mac| ==> IsXDigit(mac[i]) || mac[i] == ':'
  }

  function LocationOf(ip: string, port: string): string {
    "http://" + (ip + (":" + (port + "/dd.xml")))
  }

  // A line of the response, its end, and the text behind it.
  lemma LineAt(line: string, rest: string)
    requires '\r' !in line
    ensures var t := line + (EOL + rest);
      IndexOf(t, EOL) == Some(|line|) && t[..|line|] == line && t[|line| + 2..] == rest
  {
    var t := line + (EOL + rest);
    assert t[|line|..] == EOL + rest;
    forall k | 0 <= k < |line|
      ensures !(EOL <= t[k..])
    {
      assert t[k..][0] == line[k];
    }
    IndexOfIs(t, EOL, |line|);
  }

  lemma {:induction false} NotIn(s: string, w: string)
    requires w != "" && w[0] !in s
    ensures IndexOf(s, w) == None
  {
    if s != "" {
      NotIn(s[1..], w);
      assert w[0] != s[0];
    }
  }

  lemma StatusLine()
    ensures '\r' !in "HTTP/1.1 200 OK" && IndexOf("HTTP/1.1 200 OK", LOCATION) == None
  {
    hide IndexOf;
    NotIn("HTTP/1.1 200 OK", LOCATION);
  }

  lemma LocationRecovered(url: string, rest: string)
    requires '\r' !in url
    ensures LocationIn("HTTP/1.1 200 OK" + (EOL + ((LOCATION + url) + (EOL + rest)))) == url
  {
    hide IndexOf, LocationIn;
    var first, line := "HTTP/1.1 200 OK", LOCATION + url;
    var more := line + (EOL + rest);
    StatusLine();
    LineAt(first, EOL + rest);
    LineAt(first, more);
    LocationStep(first + (EOL + more));
    assert '\r' !in LOCATION;
    LineAt(line, rest);
    LocationStep(more);
    LocationFirst(url);
  }

  lemma LocationFirst(url: string)
    ensures IndexOf(LOCATION + url, LOCATION).Some? && (LOCATION + url)[|LOCATION|..] == url
  {
    var line := LOCATION + url;
    assert line[0..] == line && LOCATION <= line;
    IndexOfIs(line, LOCATION, 0);
  }

  lemma LocationParts(ip: string, port: string, tail: string)
    ensures BeforeUuid(ip, port) + tail
         == "HTTP/1.1 200 OK" + (EOL + ((LOCATION + LocationOf(ip, port)) + (EOL + (BetweenLines() + tail))))
  {
    hide BetweenLines;
    Regroup("HTTP/1.1 200 OK", EOL, LOCATION, LocationOf(ip, port), BetweenLines(), tail);
  }

  lemma Regroup(a: string, e: string, l: string, u: string, b: string, t: string)
    ensures (a + (e + (l + (u + (e + b))))) + t == a + (e + ((l + u) + (e + (b + t))))
  {
    assert (u + (e + b)) + t == u + (e + (b + t));
    assert (l + (u + (e + b))) + t == (l + u) + (e + (b + t));
  }

  lemma PlainLocation(ip: string, port: nat)
    requires DottedText(ip)
    ensures '\r' !in LocationOf(ip, Decimal(port))
  {
    DecimalIsDigits(port);
  }

  // A uuid in which the client would take a field for one of the wakeup header's.
  ghost predicate Misleads(uuid: string, key: string) {
    exists i: nat, j: nat :: i <= j && OccursAt(uuid, WAKEUP, i) && OccursAt(uuid, key, j)
  }

  // s is a reply: the text before the uuid, the uuid, the text up to the key, and the rest.
  ghost predicate Parts(s: string, a: string, uuid: string, mid: string, key: string, rest: string) {
    s == a + (uuid + (mid + (key + rest)))
  }

  lemma PartsAt(s: string, a: string, uuid: string, mid: string, key: string, rest: string)
    requires Parts(s, a, uuid, mid, key, rest)
    ensures var b := |a| + |uuid|; var q := b + |mid|;
      && q + |key| <= |s| && s[..|a|] == a && s[|a|..b] == uuid && s[b..q] == mid
      && OccursAt(s, key, q) && s[q + |key|..] == rest
  {
    var pre := a + uuid;
    assert s == pre + (mid + (key + rest));
    assert s == (pre + mid) + (key + rest);
    assert s == ((pre + mid) + key) + rest;
  }

  // No key between the first "WAKEUP:" and the end of the uuid.
  lemma NoKeyInUuid(s: string, a: nat, uuid: string, key: string, index: nat, k: nat)
    requires a + |uuid| < |s| && s[a..a + |uuid|] == uuid && s[a + |uuid|] == ':'
    requires key != "" && ':' !in key && key[0] !in WAKEUP && !Misleads(uuid, key)
    requires a <= index <= k < a + |uuid| && OccursAt(s, WAKEUP, index)
    ensures !OccursAt(s, key, k)
  {
    var b := a + |uuid|;
    OccursChar(s, key, k, 0);
    if k + |key| > b {
      OccursChar(s, key, k, b - k);
    } else if index + 7 <= b {
      OccursInside(s, uuid, a, WAKEUP, index - a);
      OccursInside(s, uuid, a, key, k - a);
    } else {
      OccursChar(s, WAKEUP, index, k - index);
    }
  }

  lemma FirstWakeup(s: string, a: nat, w: nat)
    requires OccursAt(s, WAKEUP, w) && forall k :: 0 <= k < a ==> !OccursAt(s, WAKEUP, k)
    ensures match IndexOf(s, WAKEUP)
      case None => false
      case Some(index) => a <= index <= w < |s| && OccursAt(s, WAKEUP, index)
  {
    hide IndexOf;
    IndexOfFinds(s, WAKEUP);
    OccursIsPrefix(s, WAKEUP, w);
    if IndexOf(s, WAKEUP).Some? {
      OccursIsPrefix(s, WAKEUP, IndexOf(s, WAKEUP).value);
    }
  }

  lemma KeyFound(s: string, a: string, uuid: string, mid: string, key: string, rest: string, w: nat)
    requires Parts(s, a, uuid, mid, key, rest) && key != "" && ':' !in key && key[0] !in WAKEUP && key[0] !in mid
    requires mid != "" && mid[0] == ':' && !Misleads(uuid, key)
    requires forall k :: 0 <= k < |a| ==> !OccursAt(s, WAKEUP, k)
    requires OccursAt(s, WAKEUP, w) && w <= |a| + |uuid| + |mid|
    ensures var q := |a| + |uuid| + |mid|;
      IndexOf(s, WAKEUP).Some? && IndexOf(s, WAKEUP).value <= |s|
      && FindFrom(s, key, IndexOf(s, WAKEUP).value) == Some(q)
  {
    hide IndexOf, Parts, Misleads, FindFrom, OccursAt;
    PartsAt(s, a, uuid, mid, key, rest);
    var b, q := |a| + |uuid|, |a| + |uuid| + |mid|;
    FirstWakeup(s, |a|, w);
    var index := IndexOf(s, WAKEUP).value;
    assert s[b] == s[b..q][0];
    forall k | index <= k < q
      ensures !(key <= s[k..])
    {
      OccursIsPrefix(s, key, k);
      if k < b {
        NoKeyInUuid(s, |a|, uuid, key, index, k);
      } else {
        OccursChar(s, key, k, 0);
        assert s[k] == s[b..q][k - b];
      }
    }
    OccursIsPrefix(s, key, q);
    FindFromIs(s, key, index, q);
  }

  // The value behind the key, up to the end mark.
  lemma FieldFound(s: string, a: string, uuid: string, mid: string, key: string,
                   value: string, end: string, rest: string, w: nat)
    requires Parts(s, a, uuid, mid, key, value + (end + rest))
      && key != "" && ':' !in key && key[0] !in WAKEUP && key[0] !in mid
    requires mid != "" && mid[0] == ':' && !Misleads(uuid, key)
    requires forall k :: 0 <= k < |a| ==> !OccursAt(s, WAKEUP, k)
    requires OccursAt(s, WAKEUP, w) && w <= |a| + |uuid| + |mid|
    requires end != "" && end[0] !in value
    ensures Field(s, key, end) == Some(value)
  {
    hide IndexOf, Parts, Misleads, FindFrom;
    KeyFound(s, a, uuid, mid, key, value + (end + rest), w);
    PartsAt(s, a, uuid, mid, key, value + (end + rest));
    var start := |a| + |uuid| + |mid| + |key|;
    var t := s[start..];
    assert s[start + |value|..] == t[|value|..] == end + rest;
    forall k | start <= k < start + |value|
      ensures !(end <= s[k..])
    {
      assert s[k..][0] == s[k] == t[k - start] == value[k - start];
    }
    FindFromIs(s, end, start, start + |value|);
    assert s[start..start + |value|] == t[..|value|] == value;
  }

  // No "KE" in a text: so no "WAKEUP:" either.
  ghost predicate NoKE(s: string) {
    forall j :: 0 <= j < |s| - 1 ==> !(s[j] == 'K' && s[j + 1] == 'E')
  }

  lemma NoKEConcat(s: string, t: string)
    requires NoKE(s) && NoKE(t) && (t == "" || t[0] != 'E')
    ensures NoKE(s + t)
  {
    var u := s + t;
    forall j | 0 <= j < |u| - 1
      ensures !(u[j] == 'K' && u[j + 1] == 'E')
    {
      if j + 1 < |s| {
        assert u[j] == s[j] && u[j + 1] == s[j + 1];
      } else if j >= |s| {
        assert u[j] == t[j - |s|] && u[j + 1] == t[j + 1 - |s|];
      }
    }
  }

  lemma NoWakeupBefore(s: string, a: string, k: nat)
    requires |a| <= |s| && s[..|a|] == a && NoKE(a) && a != "" && a[|a| - 1] == ':' && k < |a|
    ensures !OccursAt(s, WAKEUP, k)
  {
    OccursChar(s, WAKEUP, k, 0);
    OccursChar(s, WAKEUP, k, 1);
    OccursChar(s, WAKEUP, k, 2);
    OccursChar(s, WAKEUP, k, 3);
    assert s[|a| - 1] == s[..|a|][|a| - 1] == ':';
    if k + 3 < |a| {
      assert s[k + 2] == a[k + 2] && s[k + 3] == a[k + 3];
    }
  }

  lemma LinePieces()
    ensures NoKE("CACHE-CONTROL: max-age=1800\r\n") && NoKE("EXT:\r\n") && NoKE("BOOTID.UPNP.ORG: 1\r\n")
    ensures NoKE("SERVER: Linux/2.6 UPnP/1.1 ") && NoKE("quick_ssdp/1.1\r\n") && NoKE("\r\nUSN: uuid:")
    ensures NoKE("ST: urn:dial-") && NoKE("multiscreen-org:service:dial:1")
  {
  }

  lemma BetweenHasNoKE()
    ensures NoKE(BetweenLines()) && BetweenLines() != "" && BetweenLines()[0] == 'C'
    ensures BetweenLines()[|BetweenLines()| - 1] == ':'
  {
    hide NoKE;
    LinePieces();
    NoKEConcat("ST: urn:dial-", "multiscreen-org:service:dial:1");
    var a, b := SearchTarget() + "\r\nUSN: uuid:", "quick_ssdp/1.1\r\n";
    NoKEConcat(SearchTarget(), "\r\nUSN: uuid:");
    NoKEConcat(b, a);
    var c := "SERVER: Linux/2.6 UPnP/1.1 " + (b + a);
    NoKEConcat("SERVER: Linux/2.6 UPnP/1.1 ", b + a);
    NoKEConcat("BOOTID.UPNP.ORG: 1\r\n", c);
    NoKEExt("BOOTID.UPNP.ORG: 1\r\n" + c);
  }

  // The one line that starts with an 'E' follows a line break.
  lemma NoKEExt(t: string)
    requires NoKE(t) && (t == "" || t[0] != 'E')
    ensures NoKE("CACHE-CONTROL: max-age=1800\r\n" + ("EXT:\r\n" + t))
  {
    assert NoKE("CACHE-CONTROL: max-age=1800\r\n" + "EXT:\r\n");
    NoKEConcat("CACHE-CONTROL: max-age=1800\r\n" + "EXT:\r\n", t);
    assert ("CACHE-CONTROL: max-age=1800\r\n" + "EXT:\r\n") + t == "CACHE-CONTROL: max-age=1800\r\n" + ("EXT:\r\n" + t);
  }

  lemma UrlHasNoK(ip: string, port: nat)
    requires DottedText(ip)
    ensures 'K' !in LocationOf(ip, Decimal(port)) && LocationOf(ip, Decimal(port))[0] == 'h'
  {
    DecimalIsDigits(port);
  }

  lemma NoKIsNoKE(s: string)
    requires 'K' !in s
    ensures NoKE(s)
  {
  }

  lemma StartHasNoKE(ip: string, port: nat)
    requires DottedText(ip)
    ensures var a := BeforeUuid(ip, Decimal(port)); NoKE(a) && a != "" && a[|a| - 1] == ':'
  {
    hide NoKE, BetweenLines, LocationOf, DottedText;
    var url, between := LocationOf(ip, Decimal(port)), BetweenLines();
    BetweenHasNoKE();
    UrlHasNoK(ip, port);
    NoKIsNoKE(url);
    NoKIsNoKE(EOL);
    NoKIsNoKE(LOCATION);
    assert NoKE("HTTP/1.1 200 OK") by { StatusLineHasNoKE(); }
    NoKEConcat(EOL, between);
    NoKEConcat(url, EOL + between);
    NoKEConcat(LOCATION, url + (EOL + between));
    NoKEConcat(EOL, LOCATION + (url + (EOL + between)));
    NoKEConcat("HTTP/1.1 200 OK", EOL + (LOCATION + (url + (EOL + between))));
    StartIs(ip, Decimal(port));
    LastOf("HTTP/1.1 200 OK", EOL, LOCATION, url, between);
  }

  lemma LastOf(a: string, e: string, l: string, u: string, b: string)
    requires b != ""
    ensures var t := a + (e + (l + (u + (e + b)))); t != "" && t[|t| - 1] == b[|b| - 1]
  {
  }

  lemma StatusLineHasNoKE()
    ensures NoKE("HTTP/1.1 200 OK")
  {
  }

  lemma StartIs(ip: string, port: string)
    ensures BeforeUuid(ip, port)
         == "HTTP/1.1 200 OK" + (EOL + (LOCATION + (LocationOf(ip, port) + (EOL + BetweenLines()))))
  {
    hide BetweenLines;
  }

  // The reply with its wakeup header, cut up for one of the header's fields.
  function MidMac(): string { AfterUuid() + "WAKEUP: " }

  function MidTimeout(mac: string): string { AfterUuid() + ("WAKEUP: " + ("MAC=" + (mac + ";"))) }

  lemma MacParts(ip: string, port: string, uuid: string, mac: string, timeout: string)
    ensures Parts(ReplyText(ip, port, uuid, WakeupText(mac, timeout)), BeforeUuid(ip, port), uuid, MidMac(), "MAC=",
                  mac + (";" + ("Timeout=" + (timeout + (EOL + EOL)))))
  {
    hide BeforeUuid, AfterUuid;
    RegroupMac(AfterUuid(), "WAKEUP: ", "MAC=", mac, ";", "Timeout=", timeout, EOL);
  }

  lemma RegroupMac(b: string, w: string, k: string, m: string, c: string, l: string, t: string, e: string)
    ensures b + ((w + (k + (m + (c + (l + (t + e)))))) + e) == (b + w) + (k + (m + (c + (l + (t + (e + e))))))
  {
    assert (l + (t + e)) + e == l + (t + (e + e));
    assert (m + (c + (l + (t + e)))) + e == m + (c + (l + (t + (e + e))));
    assert (w + (k + (m + (c + (l + (t + e)))))) + e == w + (k + (m + (c + (l + (t + (e + e))))));
  }

  lemma TimeoutParts(ip: string, port: string, uuid: string, mac: string, timeout: string)
    ensures Parts(ReplyText(ip, port, uuid, WakeupText(mac, timeout)), BeforeUuid(ip, port),
                  uuid, MidTimeout(mac), "Timeout=",
                  timeout + (EOL + EOL))
  {
    hide BeforeUuid, AfterUuid;
    RegroupMac(AfterUuid(), "WAKEUP: ", "MAC=", mac, ";", "Timeout=", timeout, EOL);
    RegroupTimeout(AfterUuid(), "WAKEUP: ", "MAC=", mac, ";", "Timeout=" + (timeout + (EOL + EOL)));
  }

  lemma RegroupTimeout(b: string, w: string, k: string, m: string, c: string, r: string)
    ensures (b + w) + (k + (m + (c + r))) == (b + (w + (k + (m + c)))) + r
  {
    assert k + (m + (c + r)) == (k + (m + c)) + r;
  }

  lemma UrnChars()
    ensures "::urn:dial-"[0] == ':' && 'M' !in "::urn:dial-" && 'T' !in "::urn:dial-"
  {
  }

  lemma ServiceChars()
    ensures 'M' !in "multiscreen-org:service:dial:1\r\n" && 'T' !in "multiscreen-org:service:dial:1\r\n"
  {
  }

  lemma AfterUuidChars()
    ensures var t := AfterUuid(); |t| > 0 && t[0] == ':' && 'M' !in t && 'T' !in t
  {
    UrnChars();
    ServiceChars();
    Neither("::urn:dial-", "multiscreen-org:service:dial:1\r\n", 'M');
    Neither("::urn:dial-", "multiscreen-org:service:dial:1\r\n", 'T');
  }

  lemma Neither(s: string, t: string, c: char)
    requires c !in s && c !in t
    ensures c !in s + t
  {
  }

  lemma MacChars(mac: string)
    requires MacText(mac)
    ensures 'T' !in mac && ';' !in mac
  {
  }

  // Where the wakeup header starts.
  lemma WakeupAt(s: string, a: string, uuid: string, mid: string, key: string, rest: string, more: string)
    requires Parts(s, a, uuid, mid, key, rest) && mid == AfterUuid() + (WAKEUP + more)
    ensures var w := |a| + |uuid| + |AfterUuid()|; OccursAt(s, WAKEUP, w) && w <= |a| + |uuid| + |mid|
  {
    hide AfterUuid, Parts;
    PartsAt(s, a, uuid, mid, key, rest);
    var b := |a| + |uuid|;
    assert mid[|AfterUuid()|..|AfterUuid()| + 7] == WAKEUP;
    OccursInside(s, mid, b, WAKEUP, |AfterUuid()|);
  }

  lemma NoWakeupBeforeUuid(s: string, ip: string, port: nat, uuid: string, mid: string, key: string, rest: string)
    requires DottedText(ip) && Parts(s, BeforeUuid(ip, Decimal(port)), uuid, mid, key, rest)
    ensures forall k :: 0 <= k < |BeforeUuid(ip, Decimal(port))| ==> !OccursAt(s, WAKEUP, k)
  {
    hide NoKE, Parts, BeforeUuid, OccursAt;
    var a := BeforeUuid(ip, Decimal(port));
    StartHasNoKE(ip, port);
    PartsAt(s, a, uuid, mid, key, rest);
    forall k | 0 <= k < |a|
      ensures !OccursAt(s, WAKEUP, k)
    {
      NoWakeupBefore(s, a, k);
    }
  }

  lemma MacRecovered(ip: string, port: nat, uuid: string, mac: string, timeout: nat)
    requires DottedText(ip) && MacText(mac) && !Misleads(uuid, "MAC=")
    ensures GetMac(ReplyText(ip, Decimal(port), uuid, WakeupText(mac, Decimal(timeout)))) == mac
  {
    hide Parts, ReplyText, BeforeUuid, AfterUuid, Misleads, Field, OccursAt, MacText, DottedText;
    var s, a := ReplyText(ip, Decimal(port), uuid, WakeupText(mac, Decimal(timeout))), BeforeUuid(ip, Decimal(port));
    var rest := "Timeout=" + (Decimal(timeout) + (EOL + EOL));
    MacParts(ip, Decimal(port), uuid, mac, Decimal(timeout));
    NoWakeupBeforeUuid(s, ip, port, uuid, MidMac(), "MAC=", mac + (";" + rest));
    assert "WAKEUP: " == WAKEUP + " ";
    WakeupAt(s, a, uuid, MidMac(), "MAC=", mac + (";" + rest), " ");
    AfterUuidChars();
    MacChars(mac);
    FieldFound(s, a, uuid, MidMac(), "MAC=", mac, ";", rest, |a| + |uuid| + |AfterUuid()|);
  }

  lemma TimeoutField(ip: string, port: nat, uuid: string, mac: string, value: string)
    requires DottedText(ip) && MacText(mac) && AllDigits(value) && !Misleads(uuid, "Timeout=")
    ensures Field(ReplyText(ip, Decimal(port), uuid, WakeupText(mac, value)), "Timeout=", EOL) == Some(value)
  {
    hide Parts, ReplyText, BeforeUuid, AfterUuid, Misleads, Field, OccursAt, MacText, DottedText, MidTimeout;
    var s, a := ReplyText(ip, Decimal(port), uuid, WakeupText(mac, value)), BeforeUuid(ip, Decimal(port));
    var mid, more := MidTimeout(mac), " " + ("MAC=" + (mac + ";"));
    TimeoutParts(ip, Decimal(port), uuid, mac, value);
    NoWakeupBeforeUuid(s, ip, port, uuid, mid, "Timeout=", value + (EOL + EOL));
    MidTimeoutIs(mac);
    WakeupAt(s, a, uuid, mid, "Timeout=", value + (EOL + EOL), more);
    AfterUuidChars();
    MacChars(mac);
    TimeoutMid(mac);
    FieldFound(s, a, uuid, mid, "Timeout=", value, EOL, EOL, |a| + |uuid| + |AfterUuid()|);
  }

  lemma MidTimeoutIs(mac: string)
    ensures MidTimeout(mac) == AfterUuid() + (WAKEUP + (" " + ("MAC=" + (mac + ";"))))
  {
    hide AfterUuid;
    assert "WAKEUP: " == WAKEUP + " ";
    assert "WAKEUP: " + ("MAC=" + (mac + ";")) == WAKEUP + (" " + ("MAC=" + (mac + ";")));
  }

  lemma TimeoutRecovered(ip: string, port: nat, uuid: string, mac: string, timeout: nat)
    requires DottedText(ip) && MacText(mac) && timeout <= 32767 && !Misleads(uuid, "Timeout=")
    ensures GetTimeout(ReplyText(ip, Decimal(port), uuid, WakeupText(mac, Decimal(timeout)))) == timeout
  {
    hide ReplyText, WakeupText, Misleads, Field, MacText, DottedText;
    DecimalIsDigits(timeout);
    TimeoutField(ip, port, uuid, mac, Decimal(timeout));
    StrToLLReadsBack(timeout);
  }

  lemma TimeoutMid(mac: string)
    requires 'T' !in mac && 'T' !in AfterUuid() && AfterUuid() != ""
    ensures 'T' !in MidTimeout(mac) && MidTimeout(mac) != "" && MidTimeout(mac)[0] == AfterUuid()[0]
  {
    hide AfterUuid;
    assert 'T' !in "WAKEUP: " && 'T' !in "MAC=";
  }

  // ------------------------------------------------------------ a misleading uuid

  // The text up to the end mark.
  function UpTo(s: string, end: string): Option<string> {
    match IndexOf(s, end)
    case None => None
    case Some(n) =>
      IndexOfFinds(s, end);
      Some(s[..n])
  }

  // The text behind the first key that follows the first "WAKEUP:" of the uuid.
  function TailIn(uuid: string, key: string): Option<string> {
    match IndexOf(uuid, WAKEUP)
    case None => None
    case Some(i) =>
      IndexOfFinds(uuid, WAKEUP);
      match FindFrom(uuid, key, i)
      case None => None
      case Some(j) =>
        IndexOfFinds(uuid[i..], key);
        Some(uuid[j + |key|..])
  }

  // What is searched for from a position on is found when it occurs there.
  lemma FoundFrom(s: string, w: string, from: nat, k: nat)
    requires from <= k && OccursAt(s, w, k)
    ensures k <= |s| && FindFrom(s, w, from).Some? && FindFrom(s, w, from).value <= k
  {
    hide IndexOf, OccursAt;
    OccursFits(s, w, k);
    OccursIsPrefix(s, w, k);
    assert s[from..][k - from..] == s[k..];
    IndexOfFinds(s[from..], w);
  }

  lemma FoundOccurs(s: string, w: string, from: nat)
    requires from <= |s| && FindFrom(s, w, from).Some?
    ensures var k := FindFrom(s, w, from).value; from <= k <= |s| && OccursAt(s, w, k)
  {
    hide IndexOf, OccursAt;
    var k := FindFrom(s, w, from).value;
    IndexOfFinds(s[from..], w);
    assert s[from..][k - from..] == s[k..];
    OccursIsPrefix(s, w, k);
  }

  lemma MisleadsIs(uuid: string, key: string)
    ensures Misleads(uuid, key) <==> TailIn(uuid, key).Some?
  {
    hide IndexOf, OccursAt, FindFrom;
    IndexOfFinds(uuid, WAKEUP);
    var first := FindFrom(uuid, WAKEUP, 0);
    assert first == IndexOf(uuid, WAKEUP) by { WholeIsFrom(uuid, WAKEUP); }
    if Misleads(uuid, key) {
      var i: nat, j: nat :| i <= j && OccursAt(uuid, WAKEUP, i) && OccursAt(uuid, key, j);
      FoundFrom(uuid, WAKEUP, 0, i);
      FoundFrom(uuid, key, first.value, j);
    }
    if first.Some? && FindFrom(uuid, key, first.value).Some? {
      FoundOccurs(uuid, WAKEUP, 0);
      FoundOccurs(uuid, key, first.value);
    }
  }

  lemma WholeIsFrom(s: string, w: string)
    ensures FindFrom(s, w, 0) == IndexOf(s, w)
  {
    assert s[0..] == s;
  }

  lemma OccursFits(s: string, w: string, k: nat)
    ensures OccursAt(s, w, k) ==> k <= |s|
  {
  }

  // What is found first in a part of a text is found first in the text.
  lemma FirstInside(a: string, t: string, more: string, w: string, i: nat)
    requires IndexOf(t, w) == Some(i)
    requires forall k :: 0 <= k < |a| ==> !(w <= (a + (t + more))[k..])
    ensures IndexOf(a + (t + more), w) == Some(|a| + i)
    ensures i <= |t| && w <= t[i..]
  {
    hide IndexOf;
    var s, n := a + (t + more), |a| + i;
    IndexOfFinds(t, w);
    assert s[n..] == t[i..] + more;
    forall k | 0 <= k < n
      ensures !(w <= s[k..])
    {
      if k >= |a| {
        assert s[k..] == t[k - |a|..] + more;
        assert !(w <= t[k - |a|..]);
      }
    }
    IndexOfIs(s, w, n);
  }

  // The field that a misled client takes from a reply.
  lemma MisledField(a: string, uuid: string, more: string, key: string, end: string)
    requires TailIn(uuid, key).Some?
    requires forall k :: 0 <= k < |a| ==> !(WAKEUP <= (a + (uuid + more))[k..])
    ensures Field(a + (uuid + more), key, end) == UpTo(TailIn(uuid, key).value + more, end)
  {
    hide IndexOf;
    var s, i := a + (uuid + more), IndexOf(uuid, WAKEUP).value;
    FirstInside(a, uuid, more, WAKEUP, i);
    var index := |a| + i;
    var j := IndexOf(uuid[i..], key).value;
    assert s[index..] == "" + (uuid[i..] + more);
    FirstInside("", uuid[i..], more, key, j);
    var start := index + j + |key|;
    assert s[start..] == uuid[i + j + |key|..] + more;
    IndexOfFinds(s[start..], end);
    assert FindFrom(s, key, index) == Some(index + j);
    if IndexOf(s[start..], end).Some? {
      var n := IndexOf(s[start..], end).value;
      assert s[start..start + n] == s[start..][..n];
    }
  }

  lemma NoWakeupPrefix(s: string, a: string)
    requires |a| <= |s| && forall k :: 0 <= k < |a| ==> !OccursAt(s, WAKEUP, k)
    ensures forall k :: 0 <= k < |a| ==> !(WAKEUP <= s[k..])
  {
    hide OccursAt;
    forall k | 0 <= k < |a|
      ensures !(WAKEUP <= s[k..])
    {
      OccursIsPrefix(s, WAKEUP, k);
    }
  }

  // What follows the uuid in a reply.
  function AfterWakeup(wakeup: string): string { AfterUuid() + (wakeup + EOL) }

  lemma MisledReply(ip: string, port: nat, uuid: string, mac: string, timeout: nat, key: string, end: string)
    requires DottedText(ip) && TailIn(uuid, key).Some?
    ensures var wakeup := WakeupText(mac, Decimal(timeout));
      Field(ReplyText(ip, Decimal(port), uuid, wakeup), key, end)
        == UpTo(TailIn(uuid, key).value + AfterWakeup(wakeup), end)
  {
    hide BeforeUuid, AfterUuid, TailIn, Field, UpTo, OccursAt, Parts, DottedText;
    var wakeup := WakeupText(mac, Decimal(timeout));
    var s, a := ReplyText(ip, Decimal(port), uuid, wakeup), BeforeUuid(ip, Decimal(port));
    var rest := mac + (";" + ("Timeout=" + (Decimal(timeout) + (EOL + EOL))));
    MacParts(ip, Decimal(port), uuid, mac, Decimal(timeout));
    NoWakeupBeforeUuid(s, ip, port, uuid, MidMac(), "MAC=", rest);
    assert s == a + (uuid + AfterWakeup(wakeup));
    NoWakeupPrefix(s, a);
    MisledField(a, uuid, AfterWakeup(wakeup), key, end);
  }

  // The end mark is one that the tail holds, or lies behind the first "u" of the "::urn:".
  lemma UpToSemicolon(tail: string, more: string, mac: string)
    requires MacText(mac) && |more| > 2 && more[0] == ':' && more[1] == ':' && more[2] == 'u'
    ensures UpTo(tail + more, ";") == Some(mac) <==> UpTo(tail, ";") == Some(mac)
  {
    hide IndexOf;
    IndexOfFinds(tail, ";");
    IndexOfFinds(tail + more, ";");
    match IndexOf(tail, ";")
    case Some(n) =>
      assert "" + (tail + more) == tail + more;
      FirstInside("", tail, more, ";", n);
      assert (tail + more)[..n] == tail[..n];
    case None =>
      if IndexOf(tail + more, ";").Some? {
        var n := IndexOf(tail + more, ";").value;
        assert (tail + more)[n..][0] == ';';
        forall k | 0 <= k < |tail|
          ensures tail[k] != ';'
        {
          assert !(";" <= tail[k..]) && tail[k..][0] == tail[k];
        }
        assert (tail + more)[..n][|tail| + 2] == 'u';
      }
  }

  lemma AfterUuidStart(wakeup: string)
    ensures var t := AfterWakeup(wakeup); |t| > 2 && t[0] == ':' && t[1] == ':' && t[2] == 'u'
  {
    var t := AfterUuid();
    assert t[0] == ':' && t[1] == ':' && t[2] == 'u';
  }

  lemma MisledMac(ip: string, port: nat, uuid: string, mac: string, timeout: nat)
    requires DottedText(ip) && MacText(mac) && TailIn(uuid, "MAC=").Some?
    ensures GetMac(ReplyText(ip, Decimal(port), uuid, WakeupText(mac, Decimal(timeout)))) == mac <==>
      UpTo(TailIn(uuid, "MAC=").value, ";") == Some(mac)
  {
    hide ReplyText, AfterWakeup, TailIn, UpTo, Field, MacText, DottedText, WakeupText;
    var wakeup := WakeupText(mac, Decimal(timeout));
    MisledReply(ip, port, uuid, mac, timeout, "MAC=", ";");
    AfterUuidStart(wakeup);
    UpToSemicolon(TailIn(uuid, "MAC=").value, AfterWakeup(wakeup), mac);
    assert mac != "" by { MacLength(mac); }
  }

  // The line that the client reads a timeout from when the uuid misleads it.
  function LineFrom(tail: string): string {
    match UpTo(tail, EOL)
    case Some(text) => text
    case None => tail + ("::urn:dial-" + "multiscreen-org:service:dial:1")
  }

  lemma LineOfReply(tail: string, wakeup: string)
    ensures UpTo(tail + AfterWakeup(wakeup), EOL) == Some(LineFrom(tail))
  {
    hide IndexOf;
    var urn := "::urn:dial-" + "multiscreen-org:service:dial:1";
    var more := AfterWakeup(wakeup);
    IndexOfFinds(tail, EOL);
    match IndexOf(tail, EOL)
    case Some(n) =>
      assert "" + (tail + more) == tail + more;
      FirstInside("", tail, more, EOL, n);
      assert (tail + more)[..n] == tail[..n];
    case None =>
      UrnLine(wakeup + EOL);
      NoBreakBefore(tail, urn, EOL, wakeup + EOL);
  }

  lemma UrnLine(rest: string)
    ensures AfterUuid() + rest == ("::urn:dial-" + "multiscreen-org:service:dial:1") + (EOL + rest)
    ensures var urn := "::urn:dial-" + "multiscreen-org:service:dial:1"; '\r' !in urn && urn != "" && urn[0] == ':'
  {
    assert "multiscreen-org:service:dial:1\r\n" == "multiscreen-org:service:dial:1" + EOL;
    assert '\r' !in "::urn:dial-" && '\r' !in "multiscreen-org:service:dial:1";
    Neither("::urn:dial-", "multiscreen-org:service:dial:1", '\r');
  }

  // An end mark of two characters that is not in the tail is first found behind the urn.
  lemma NoBreakBefore(tail: string, urn: string, end: string, rest: string)
    requires |end| == 2 && IndexOf(tail, end) == None && end[0] !in urn && urn != "" && urn[0] != end[1]
    ensures var t := tail + (urn + (end + rest));
      IndexOf(t, end) == Some(|tail| + |urn|) && t[..|tail| + |urn|] == tail + urn
  {
    hide IndexOf;
    var line := tail + urn;
    var t, n := line + (end + rest), |line|;
    assert t == tail + (urn + (end + rest));
    IndexOfFinds(tail, end);
    assert t[n..] == end + rest;
    forall k | 0 <= k < n
      ensures !(end <= t[k..])
    {
      PairAt(t, end, k);
      if k < |tail| {
        PairAt(tail, end, k);
      }
    }
    IndexOfIs(t, end, n);
  }

  lemma PairAt(s: string, end: string, k: nat)
    requires k < |s| && |end| == 2
    ensures end <= s[k..] <==> k + 1 < |s| && s[k] == end[0] && s[k + 1] == end[1]
  {
    var t := s[k..];
    if |t| >= 2 {
      assert t[0] == s[k] && t[1] == s[k + 1];
    }
  }

  lemma MisledTimeout(ip: string, port: nat, uuid: string, mac: string, timeout: nat)
    requires DottedText(ip) && TailIn(uuid, "Timeout=").Some?
    ensures GetTimeout(ReplyText(ip, Decimal(port), uuid, WakeupText(mac, Decimal(timeout))))
         == ToInt(StrToLL(LineFrom(TailIn(uuid, "Timeout=").value)))
  {
    hide ReplyText, AfterWakeup, TailIn, UpTo, Field, DottedText, WakeupText, LineFrom, StrToLL, ToInt;
    MisledReply(ip, port, uuid, mac, timeout, "Timeout=", EOL);
    LineOfReply(TailIn(uuid, "Timeout=").value, WakeupText(mac, Decimal(timeout)));
  }

  /** One uuid that does mislead the client: it takes an empty hardware address. */
  lemma MisleadingUuid(ip: string, port: nat, mac: string, timeout: nat) returns (uuid: string)
    requires DottedText(ip) && MacText(mac)
    ensures |uuid| <= 255 && GetMac(ReplyText(ip, Decimal(port), uuid, WakeupText(mac, Decimal(timeout)))) == "" != mac
  {
    uuid := "WAKEUP:MAC=;";
    FirstTail();
    hide ReplyText, AfterWakeup, UpTo, Field, MacText, DottedText, WakeupText, TailIn;
    var wakeup := WakeupText(mac, Decimal(timeout));
    MisledReply(ip, port, uuid, mac, timeout, "MAC=", ";");
    EndsAtOnce(AfterWakeup(wakeup));
    MacLength(mac);
  }

  lemma FirstTail()
    ensures TailIn("WAKEUP:MAC=;", "MAC=") == Some(";")
  {
    var uuid := "WAKEUP:MAC=;";
    assert uuid[0..] == uuid && WAKEUP <= uuid;
    IndexOfIs(uuid, WAKEUP, 0);
    assert uuid[7..] == "MAC=;" && "MAC=" <= uuid[7..];
    forall k | 0 <= k < 7
      ensures !("MAC=" <= uuid[k..])
    {
      assert uuid[k..][0] == uuid[k] != 'M';
    }
    FindFromIs(uuid, "MAC=", 0, 7);
    assert uuid[11..] == ";";
  }

  lemma EndsAtOnce(more: string)
    ensures UpTo(";" + more, ";") == Some("")
  {
    var t := ";" + more;
    assert t[0..] == t && ";" <= t;
    IndexOfIs(t, ";", 0);
  }

  // What the client takes for the hardware address and for the timeout is what was sent.
  ghost predicate MacComesBack(uuid: string, mac: string) {
    Misleads(uuid, "MAC=") ==> TailIn(uuid, "MAC=").Some? && UpTo(TailIn(uuid, "MAC=").value, ";") == Some(mac)
  }

  ghost predicate TimeoutComesBack(uuid: string, timeout: nat) {
    Misleads(uuid, "Timeout=") ==>
      TailIn(uuid, "Timeout=").Some? && ToInt(StrToLL(LineFrom(TailIn(uuid, "Timeout=").value))) == timeout
  }

  /** The client recovers the location from the reply as the server put it in; and the hardware
      address and the timeout exactly when the uuid holds no "WAKEUP:" with such a field behind
      it, or happens to repeat the value there. */
  lemma ReplyRoundTrip(ip: string, port: nat, uuid: string, mac: string, timeout: nat)
    requires DottedText(ip) && |ip| < INET_ADDRSTRLEN && port < 65536 && |uuid| <= 255
    requires MacText(mac) && timeout <= 32767
    ensures var reply := SentReply(ip, port, uuid, true, mac, timeout);
      && LocationIn(reply) == LocationOf(ip, Decimal(port))
      && (GetMac(reply) == mac <==> MacComesBack(uuid, mac))
      && (GetTimeout(reply) == timeout <==> TimeoutComesBack(uuid, timeout))
      && ((forall i: nat :: !OccursAt(uuid, WAKEUP, i)) ==> GetMac(reply) == mac && GetTimeout(reply) == timeout)
  {
    hide ReplyText, WakeupText, SentReply, Misleads, GetMac, GetTimeout, LocationIn, DottedText, MacText, LocationOf;
    hide TailIn, UpTo, LineFrom, StrToLL, ToInt;
    assert |mac| <= 17 by { MacLength(mac); }
    NeverTruncated(ip, port, uuid, mac, timeout);
    var wakeup := WakeupText(mac, Decimal(timeout));
    ReplyLocation(ip, port, uuid, wakeup);
    MisleadsIs(uuid, "MAC=");
    MisleadsIs(uuid, "Timeout=");
    assert Misleads(uuid, "MAC=") || Misleads(uuid, "Timeout=") ==> exists i: nat :: OccursAt(uuid, WAKEUP, i) by {
      WakeupMisleads(uuid, "MAC=");
      WakeupMisleads(uuid, "Timeout=");
    }
    if Misleads(uuid, "MAC=") {
      MisledMac(ip, port, uuid, mac, timeout);
    } else {
      MacRecovered(ip, port, uuid, mac, timeout);
    }
    if Misleads(uuid, "Timeout=") {
      MisledTimeout(ip, port, uuid, mac, timeout);
    } else {
      TimeoutRecovered(ip, port, uuid, mac, timeout);
    }
  }

  lemma WakeupMisleads(uuid: string, key: string)
    ensures Misleads(uuid, key) ==> exists i: nat :: OccursAt(uuid, WAKEUP, i)
  {
  }

  lemma MacLength(mac: string)
    requires MacText(mac)
    ensures |mac| == 17
  {
  }

  lemma ReplyLocation(ip: string, port: nat, uuid: string, wakeup: string)
    requires DottedText(ip)
    ensures LocationIn(ReplyText(ip, Decimal(port), uuid, wakeup)) == LocationOf(ip, Decimal(port))
  {
    hide BeforeUuid, BetweenLines, AfterUuid, LocationIn, LocationOf;
    var tail := uuid + (AfterUuid() + (wakeup + EOL));
    LocationParts(ip, Decimal(port), tail);
    PlainLocation(ip, port);
    LocationRecovered(LocationOf(ip, Decimal(port)), BetweenLines() + tail);
  }
}
