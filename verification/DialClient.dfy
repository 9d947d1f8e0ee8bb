/**
 The client's view of one server (client/DialServer.cpp): it takes the endpoint of an
 application from a status reply and builds the URLs for stopping and hiding from it.
 */
module DialClient {
  import opened Wrappers
  import opened CStrings
  import opened DialApps
  import opened RequestHead
  import opened RequestParser
  import opened RequestRoundTrip
  import opened RequestRouting
  import opened Routing
  import opened Connection
  import opened StatusReply
  import Registry
  import UrlLib

  // --------------------------------------------------------------- getStatus

  // What getStatus finds in a body: nothing, an endpoint, or the end of the string where the
  // quote should be (an out_of_range exception).
  datatype Href = NoHref | OutOfRange | EndPoint(text: string)

  function IsQuoteMark(): char -> bool { c => c == '"' }

  function HrefOf(body: string): Href {
    match IndexOf(body, HREF)
    case None => NoHref
    case Some(found) =>
      var start := found + |HREF| + 1;
      if start > |body| then OutOfRange
      else EndPoint(body[start..Span(body, start, IsQuoteMark())])
  }

  class DialServer {
    const location: string
    const appsUrl: string
    const macAddr: string
    const wakeUpTimeout: int
    var found: bool
    var stopEndPoint: string

    constructor (location: string, appsUrl: string, macAddr: string, wakeUpTimeout: int)
      ensures this.location == location && this.appsUrl == appsUrl
      ensures this.macAddr == macAddr && this.wakeUpTimeout == wakeUpTimeout
      ensures found && stopEndPoint == ""
    {
      this.location, this.appsUrl, this.macAddr, this.wakeUpTimeout := location, appsUrl, macAddr, wakeUpTimeout;
      found, stopEndPoint := true, "";
    }

    /** getStatus on a reply: the endpoint changes only when the body has an href. */
    method GetStatus(responseBody: string) returns (threw: bool)
      modifies this`stopEndPoint
      ensures threw <==> HrefOf(responseBody) == OutOfRange
      ensures stopEndPoint == EndPointAfter(responseBody, old(stopEndPoint))
    {
      threw := false;
      var found := IndexOf(responseBody, HREF);
      if found.Some? {
        var hrefStart := found.value + 5 + 1;
        if hrefStart > |responseBody| {
          return true;
        }
        var tmp := responseBody[hrefStart..];
        var hrefEnd := Span(tmp, 0, IsQuoteMark());
        SpanShift(responseBody, hrefStart, IsQuoteMark());
        stopEndPoint := responseBody[hrefStart..hrefStart + hrefEnd];
      }
    }

    /** stopApplication: the URL of its DELETE request, unless getStatus throws; after the
        server's reply for an application that is not stopped, the URL that ends with /run. */
    method StopApplication(application: string, statusBody: string) returns (url: Option<string>)
      modifies this`stopEndPoint
      ensures url == if HrefOf(statusBody) == OutOfRange then None
                     else Some(StopUrl(appsUrl, application, EndPointAfter(statusBody, old(stopEndPoint))))
      ensures Lacks(application, HREF) && LinksRun(statusBody, application) ==>
        url == Some(WithQuery(appsUrl + (application + RUN_URI), CLIENT_QUERY))
    {
      hide HrefOf, Lacks, StopUrl, HideUrl, WithQuery, LinksRun;
      if Lacks(application, HREF) && LinksRun(statusBody, application) {
        RunIsLinked(application, statusBody);
      }
      RunUrls(appsUrl, application);
      var threw := GetStatus(statusBody);
      return if threw then None else Some(StopUrl(appsUrl, application, stopEndPoint));
    }

    /** hideApplication: the URL of its POST request; after such a reply, it ends with
        /run/hide. */
    method HideApplication(application: string, statusBody: string) returns (url: Option<string>)
      modifies this`stopEndPoint
      ensures url == if HrefOf(statusBody) == OutOfRange then None
                     else Some(HideUrl(appsUrl, application, EndPointAfter(statusBody, old(stopEndPoint))))
      ensures Lacks(application, HREF) && LinksRun(statusBody, application) ==>
        url == Some(WithQuery(appsUrl + (application + (RUN_URI + HIDE_URI)), CLIENT_QUERY))
    {
      hide HrefOf, Lacks, StopUrl, HideUrl, WithQuery, LinksRun;
      if Lacks(application, HREF) && LinksRun(statusBody, application) {
        RunIsLinked(application, statusBody);
      }
      RunUrls(appsUrl, application);
      var threw := GetStatus(statusBody);
      return if threw then None else Some(HideUrl(appsUrl, application, stopEndPoint));
    }
  }

  // The body starts as the server's reply for this application does, up to its link; that reply
  // may be cut off behind it.
  ghost predicate LinksRun(body: string, name: string) {
    exists canStop: bool, s: Status :: UpToLink(name, canStop, s) <= body
  }

  /** What the client receives of the server's reply links to "run", for any application that
      is not shown as stopped, when origin and name come from a request that the server takes. */
  lemma StatusReplyLinksRun(apps: seq<App>, name: string, canStop: bool, origin: Option<string>, reply: Reply)
    requires Registry.Index(apps, name) < |apps| && reply.shown.Some? && reply.shown.value != Stopped
    requires |OriginText(origin)| + |name| <= MAX_REQUEST_SIZE
    ensures LinksRun(BodyReceived(Registry.SentTo(apps, name, canStop, origin, reply), origin), name)
  {
    hide StatusBody, DataText, Capped, UpToLink, StatusHead, Printed, BodyReceived;
    var a := apps[Registry.Index(apps, name)];
    LinkFits(name, canStop, reply.shown.value, origin);
    LinkArrives(name, canStop, reply.shown.value, Capped(DataText(a.dialData)), origin);
  }

  lemma RunIsLinked(name: string, body: string)
    requires Lacks(name, HREF) && LinksRun(body, name)
    ensures HrefOf(body) == EndPoint("run")
  {
    hide HrefOf, Lacks, UpToLink;
    var canStop: bool, s: Status :| UpToLink(name, canStop, s) <= body;
    var u := UpToLink(name, canStop, s);
    assert body == u + body[|u|..];
    EndPointOfLink(name, canStop, s, body[|u|..]);
  }

  // The endpoint that getStatus leaves behind.
  function EndPointAfter(body: string, before: string): string {
    if HrefOf(body).EndPoint? then HrefOf(body).text else before
  }

  function StopUrl(appsUrl: string, application: string, endPoint: string): string {
    WithQuery(appsUrl + (application + ("/" + endPoint)), CLIENT_QUERY)
  }

  function HideUrl(appsUrl: string, application: string, endPoint: string): string {
    WithQuery(appsUrl + (application + ("/" + endPoint + "/hide")), CLIENT_QUERY)
  }

  lemma RunUrls(appsUrl: string, name: string)
    ensures StopUrl(appsUrl, name, "run") == WithQuery(appsUrl + (name + RUN_URI), CLIENT_QUERY)
    ensures HideUrl(appsUrl, name, "run") == WithQuery(appsUrl + (name + (RUN_URI + HIDE_URI)), CLIENT_QUERY)
  {
    hide WithQuery;
    assert "/" + "run" == RUN_URI;
  }

  // sendCommand's query parameter.
  const CLIENT_QUERY := Some("clientDialVer=" + "2.1")

  lemma SpanShift(s: string, from: nat, stop: char -> bool)
    requires from <= |s|
    ensures Span(s[from..], 0, stop) == Span(s, from, stop) - from
  {
    SpanStops(s, from, stop);
    var e := Span(s, from, stop);
    SpanIs(s[from..], 0, stop, e - from);
  }

  // ------------------------------------------------------------ the first href

  // No 'f' of the text is its last character or followed by '='.
  ghost predicate NoHrefInside(s: string) {
    forall j :: 0 <= j < |s| && s[j] == 'f' ==> j + 1 < |s| && s[j + 1] != '='
  }

  lemma NoHrefConcat(s: string, t: string)
    requires NoHrefInside(s) && NoHrefInside(t)
    ensures NoHrefInside(s + t)
  {
    var u := s + t;
    forall j | 0 <= j < |u| && u[j] == 'f'
      ensures j + 1 < |u| && u[j + 1] != '='
    {
      if j < |s| {
        assert s[j] == 'f' && u[j + 1] == s[j + 1];
      } else {
        assert t[j - |s|] == 'f';
      }
    }
  }

  ghost predicate Lacks(s: string, w: string) {
    forall k :: 0 <= k <= |s| ==> !(w <= s[k..])
  }

  // A body with a link, cut up: the start, the name, the middle up to the href, the rest.
  ghost predicate Parts(s: string, p: string, name: string, m: string, rest: string) {
    s == p + (name + (m + (HREF + rest)))
  }

  // Nothing before the link looks like an href, unless the name does.
  lemma FirstHref(s: string, p: string, name: string, m: string, rest: string)
    requires Parts(s, p, name, m, rest)
    requires NoHrefInside(p) && NoHrefInside(m) && Lacks(name, HREF)
    requires p != "" && p[|p| - 1] == '>' && m != "" && m[0] == '<' && m[|m| - 1] == ' '
    ensures IndexOf(s, HREF) == Some(|p| + |name| + |m|)
  {
    hide NoHrefInside, Lacks, IndexOf, Parts;
    var n := |p| + |name| + |m|;
    HrefIsThere(s, p, name, m, rest);
    forall k | 0 <= k < n
      ensures !(HREF <= s[k..])
    {
      NotBefore(p, name, m, rest, s, k);
    }
    IndexOfIs(s, HREF, n);
  }

  lemma HrefIsThere(s: string, p: string, name: string, m: string, rest: string)
    requires Parts(s, p, name, m, rest)
    ensures |p| + |name| + |m| <= |s| && HREF <= s[|p| + |name| + |m|..]
  {
    var pre := p + (name + m);
    assert s == pre + (HREF + rest);
    assert (pre + (HREF + rest))[|pre|..] == HREF + rest;
  }

  lemma HrefAt(s: string, k: nat)
    requires k <= |s|
    ensures HREF <= s[k..] <==>
      k + 4 < |s| && s[k] == 'h' && s[k + 1] == 'r' && s[k + 2] == 'e' && s[k + 3] == 'f' && s[k + 4] == '='
  {
    var t := s[k..];
    if |t| >= 5 {
      assert t[0] == s[k] && t[1] == s[k + 1] && t[2] == s[k + 2] && t[3] == s[k + 3] && t[4] == s[k + 4];
    }
  }

  // An href that starts in `name` and ends there is one of the name's.
  lemma HrefInName(name: string, s: string, a: nat, i: nat)
    requires Lacks(name, HREF) && i + 4 < |name| && a + |name| <= |s| && s[a..a + |name|] == name
    ensures !(HREF <= s[a + i..])
  {
    assert !(HREF <= name[i..]);
    HrefAt(name, i);
    HrefAt(s, a + i);
    SameChar(name, s, a, i);
    SameChar(name, s, a, i + 1);
    SameChar(name, s, a, i + 2);
    SameChar(name, s, a, i + 3);
    SameChar(name, s, a, i + 4);
  }

  lemma SameChar(t: string, s: string, a: nat, i: nat)
    requires i < |t| && a + |t| <= |s| && s[a..a + |t|] == t
    ensures s[a + i] == t[i]
  {
    assert s[a..a + |t|][i] == s[a + i];
  }

  lemma NotBefore(p: string, name: string, m: string, rest: string, s: string, k: nat)
    requires NoHrefInside(p) && NoHrefInside(m) && Lacks(name, HREF)
    requires p != "" && p[|p| - 1] == '>' && m != "" && m[0] == '<' && m[|m| - 1] == ' '
    requires Parts(s, p, name, m, rest) && k < |p| + |name| + |m| <= |s|
    ensures !(HREF <= s[k..])
  {
    hide Lacks;
    HrefAt(s, k);
    var a, b := |p|, |p| + |name|;
    var n := b + |m|;
    assert s[a - 1] == '>' && s[b] == '<' && s[n - 1] == ' ';
    if k + 4 < a {
      assert s[k + 3] == p[k + 3] && s[k + 4] == p[k + 4];
    } else if a <= k && k + 4 < b {
      assert s[a..b] == name;
      HrefInName(name, s, a, k - a);
    } else if b <= k && k + 4 < n {
      assert s[k + 3] == m[k + 3 - b] && s[k + 4] == m[k + 4 - b];
    }
  }

  lemma StartPieces()
    ensures NoHrefInside("<?xml version=\"1.0\" ") && NoHrefInside("encoding=\"UTF-8\"?>\r\n")
    ensures NoHrefInside("<service xmlns=\"urn:dial-") && NoHrefInside("multiscreen-org:schemas:dial\" ")
    ensures NoHrefInside("dialVer=\"2.2\">\r\n") && NoHrefInside("  <name>")
  {
  }

  lemma StartHasNoHref()
    ensures NoHrefInside(ReplyStart()) && ReplyStart() != "" && ReplyStart()[|ReplyStart()| - 1] == '>'
  {
    hide NoHrefInside;
    StartPieces();
    var d, e := "multiscreen-org:schemas:dial\" ", "dialVer=\"2.2\">\r\n";
    NoHrefConcat(e, "  <name>");
    NoHrefConcat(d, e + "  <name>");
    NoHrefConcat("<service xmlns=\"urn:dial-", d + (e + "  <name>"));
    NoHrefConcat("encoding=\"UTF-8\"?>\r\n", "<service xmlns=\"urn:dial-" + (d + (e + "  <name>")));
    NoHrefConcat("<?xml version=\"1.0\" ",
                 "encoding=\"UTF-8\"?>\r\n" + ("<service xmlns=\"urn:dial-" + (d + (e + "  <name>"))));
  }

  // The middle of the reply and the start of the link.
  function BeforeHref(canStop: bool, s: Status): string {
    ReplyMiddle(canStop, s) + LinkStart()
  }

  lemma OptionPieces(canStop: bool)
    ensures NoHrefInside("</name>\r\n  <options allowStop=\"") && NoHrefInside(AllowStopText(canStop))
  {
  }

  lemma StatePieces(s: Status)
    ensures NoHrefInside("\"/>\r\n  <state>") && NoHrefInside(StateText(s))
  {
  }

  lemma LinkPieces()
    ensures NoHrefInside("</state>\r\n") && NoHrefInside(LinkStart())
  {
  }

  lemma MiddleHasNoHref(canStop: bool, s: Status)
    ensures var m := BeforeHref(canStop, s);
      NoHrefInside(m) && m != "" && m[0] == '<' && m[|m| - 1] == ' '
  {
    hide NoHrefInside, AllowStopText, StateText;
    OptionPieces(canStop);
    StatePieces(s);
    LinkPieces();
    var a, b, c := "</name>\r\n  <options allowStop=\"", AllowStopText(canStop), "\"/>\r\n  <state>";
    var d, e := StateText(s), "</state>\r\n";
    NoHrefConcat(d, e);
    NoHrefConcat(c, d + e);
    NoHrefConcat(b, c + (d + e));
    NoHrefConcat(a, b + (c + (d + e)));
    NoHrefConcat(a + (b + (c + (d + e))), LinkStart());
  }

  /** From a reply that goes on in any way behind its link, and for a name that does not itself
      hold an href, the client takes the endpoint "run". */
  lemma EndPointOfLink(name: string, canStop: bool, s: Status, after: string)
    requires Lacks(name, HREF)
    ensures HrefOf(UpToLink(name, canStop, s) + after) == EndPoint("run")
  {
    hide NoHrefInside, Lacks, ReplyStart, BeforeHref, IndexOf, HrefOf, UpToLink, IsQuoteMark;
    var p, m := ReplyStart(), BeforeHref(canStop, s);
    var body := UpToLink(name, canStop, s) + after;
    StartHasNoHref();
    MiddleHasNoHref(canStop, s);
    LinkedParts(name, canStop, s, after);
    FirstHref(body, p, name, m, "\"run\"" + after);
    QuotedRun();
    EndPointAt(p, name, m, "run", "\"run\"", after);
    HrefOfIs(body, |p| + |name| + |m|, "run");
  }

  /** In particular from the whole reply for an application that is not stopped. */
  lemma EndPointIsRun(name: string, canStop: bool, s: Status, additionalData: string)
    requires s != Stopped && Lacks(name, HREF)
    ensures HrefOf(StatusBody(name, canStop, s, additionalData)) == EndPoint("run")
  {
    hide Lacks, HrefOf, UpToLink, StatusBody;
    var u, body := UpToLink(name, canStop, s), StatusBody(name, canStop, s, additionalData);
    BodyIsLinked(name, canStop, s, additionalData);
    assert body == u + body[|u|..];
    EndPointOfLink(name, canStop, s, body[|u|..]);
  }

  lemma QuotedRun()
    ensures "\"run\"" == ['"'] + "run" + ['"'] && '"' !in "run"
  {
  }

  lemma HrefOfIs(body: string, n: nat, text: string)
    requires IndexOf(body, HREF) == Some(n) && n + |HREF| + 1 <= |body|
    requires var start := n + |HREF| + 1; body[start..Span(body, start, IsQuoteMark())] == text
    ensures HrefOf(body) == EndPoint(text)
  {
    hide IndexOf;
  }

  lemma LinkedParts(name: string, canStop: bool, s: Status, after: string)
    ensures UpToLink(name, canStop, s) + after
         == ReplyStart() + (name + (BeforeHref(canStop, s) + (HREF + ("\"run\"" + after))))
  {
    hide ReplyStart, ReplyMiddle, LinkStart;
    Regroup(ReplyStart(), name, BeforeHref(canStop, s), HREF, "\"run\"", after);
  }

  lemma Regroup(a: string, b: string, c: string, d: string, e: string, f: string)
    ensures (a + (b + (c + (d + e)))) + f == a + (b + (c + (d + (e + f))))
  {
    assert (c + (d + e)) + f == c + (d + (e + f));
  }

  // The text between the quotes after an href.
  lemma EndPointAt(p: string, name: string, m: string, text: string, quoted: string, after: string)
    requires '"' !in text && quoted == ['"'] + text + ['"']
    ensures var body := p + (name + (m + (HREF + (quoted + after)))); var start := |p| + |name| + |m| + |HREF| + 1;
      start <= |body| && body[start..Span(body, start, IsQuoteMark())] == text
  {
    var body := p + (name + (m + (HREF + (quoted + after))));
    var start := |p| + |name| + |m| + |HREF| + 1;
    assert body[start - 1..start - 1 + |quoted|] == quoted;
    assert forall k :: start - 1 <= k < start + |text| + 1 ==> body[k] == quoted[k - (start - 1)];
    SpanIs(body, start, IsQuoteMark(), start + |text|);
    assert body[start..start + |text|] == text;
  }

  // The requests that the client then writes for stopping and for hiding.
  function StopRequest(name: string, hs: seq<Header>): RequestInfo {
    AppRequest(name, RunTail, CLIENT_QUERY, "DELETE", hs)
  }

  function HideRequest(name: string, hs: seq<Header>): RequestInfo {
    AppRequest(name, HideTail, CLIENT_QUERY, "POST", hs)
  }

  /** After the reply for an application that is not stopped, the client's URLs are those of
      its requests for stopping and hiding; and these requests get to the handlers of that
      application, however the network cuts their bytes, exactly when its name has no space and
      no blank line and does not start with two dots, the origin is allowed, and the head is one
      that the engine takes. */
  lemma StopAndHideReachTheApp(host: string, name: string, statusBody: string, before: string, hs: seq<Header>,
                               sent: string, broken: bool, bufsiz: nat, local: bool, allowed: string -> bool)
    requires PlainName(name) && Lacks(name, HREF) && LinksRun(statusBody, name) && AllWellFormed(hs)
    ensures var endPoint := EndPointAfter(statusBody, before);
      && StopUrl(host + APPS_URI, name, endPoint) == host + StopRequest(name, hs).uri
      && HideUrl(host + APPS_URI, name, endPoint) == host + HideRequest(name, hs).uri
    ensures var r := StopRequest(name, hs);
      AlwaysArrives(Sent(r, sent), broken, bufsiz, name, RunTail, "DELETE", local, allowed) <==>
      NameWorks(name) && allowed(name) && LengthIsGood(hs) && Receivable(r, sent, bufsiz)
    ensures var r := HideRequest(name, hs);
      AlwaysArrives(Sent(r, sent), broken, bufsiz, name, HideTail, "POST", local, allowed) <==>
      NameWorks(name) && allowed(name) && LengthIsGood(hs) && Receivable(r, sent, bufsiz)
  {
    hide Lacks, PlainName, LinksRun, HrefOf, AppPath, WithQuery, AllWellFormed, StopUrl, HideUrl;
    RunIsLinked(name, statusBody);
    UrlPaths(host, name);
    StopRequestArrives(name, hs, sent, broken, bufsiz, local, allowed);
    HideRequestArrives(name, hs, sent, broken, bufsiz, local, allowed);
  }

  lemma StopRequestArrives(name: string, hs: seq<Header>, sent: string, broken: bool, bufsiz: nat, local: bool,
                           allowed: string -> bool)
    requires PlainName(name) && AllWellFormed(hs)
    ensures var r := StopRequest(name, hs);
      AlwaysArrives(Sent(r, sent), broken, bufsiz, name, RunTail, "DELETE", local, allowed) <==>
      NameWorks(name) && allowed(name) && LengthIsGood(hs) && Receivable(r, sent, bufsiz)
  {
    hide PlainName, AllWellFormed, HasHead, AlwaysArrives, AppRequest, LengthIsGood, Receivable;
    QueryIsFree();
    ReachedHoweverCut(name, RunTail, CLIENT_QUERY, "DELETE", hs, sent, broken, bufsiz, local, allowed);
  }

  lemma HideRequestArrives(name: string, hs: seq<Header>, sent: string, broken: bool, bufsiz: nat, local: bool,
                           allowed: string -> bool)
    requires PlainName(name) && AllWellFormed(hs)
    ensures var r := HideRequest(name, hs);
      AlwaysArrives(Sent(r, sent), broken, bufsiz, name, HideTail, "POST", local, allowed) <==>
      NameWorks(name) && allowed(name) && LengthIsGood(hs) && Receivable(r, sent, bufsiz)
  {
    hide PlainName, AllWellFormed, HasHead, AlwaysArrives, AppRequest, LengthIsGood, Receivable;
    QueryIsFree();
    ReachedHoweverCut(name, HideTail, CLIENT_QUERY, "POST", hs, sent, broken, bufsiz, local, allowed);
  }

  lemma QueryIsFree()
    ensures Free(CLIENT_QUERY.value, " ") && !QueryHasBlankLine(CLIENT_QUERY)
  {
  }

  lemma UrlPaths(host: string, name: string)
    ensures StopUrl(host + APPS_URI, name, "run") == host + WithQuery(AppPath(name, RunTail), CLIENT_QUERY)
    ensures HideUrl(host + APPS_URI, name, "run") == host + WithQuery(AppPath(name, HideTail), CLIENT_QUERY)
  {
    hide AppPath, WithQuery, StopUrl, HideUrl;
    RunUrls(host + APPS_URI, name);
    InHost(host, name, RunTail);
    InHost(host, name, HideTail);
    QueryBehind(host, AppPath(name, RunTail));
    QueryBehind(host, AppPath(name, HideTail));
  }

  lemma InHost(host: string, name: string, t: Tail)
    ensures (host + APPS_URI) + (name + TailText(t)) == host + AppPath(name, t)
  {
    hide TailText;
  }

  lemma QueryBehind(host: string, path: string)
    ensures WithQuery(host + path, CLIENT_QUERY) == host + WithQuery(path, CLIENT_QUERY)
  {
    var q := "?" + CLIENT_QUERY.value;
    assert (host + path) + q == host + (path + q);
  }

  // ------------------------------------------------------------ the client's version

  /** This client says version 2.1 in its queries, so the server shows it hidden applications; one
      that says an older version, or nothing, is an old client. */
  lemma ClientVersion(atof: string -> real, version: string)
    requires '&' !in version
    ensures UrlLib.ParseParam(CLIENT_QUERY.value, "clientDialVer") == Some("2.1")
    ensures atof("2.1") == 2.1 ==> !Registry.OldClient(CLIENT_QUERY, atof)
    ensures Registry.OldClient(None, atof)
    ensures Registry.OldClient(Some("clientDialVer" + ("=" + (version + ""))), atof) <==> atof(version) < 2.09
  {
    hide UrlLib.ParseParam;
    VersionRead("2.1");
    VersionRead(version);
    assert CLIENT_QUERY.value == "clientDialVer" + ("=" + ("2.1" + ""));
  }

  lemma VersionRead(version: string)
    requires '&' !in version
    ensures UrlLib.ParseParam("clientDialVer" + ("=" + (version + "")), "clientDialVer") == Some(version)
  {
    hide UrlLib.ParseParam;
    var q := "clientDialVer" + ("=" + (version + ""));
    assert "" + q == q && '=' !in "clientDialVer";
    UrlLib.ParamFound("", "clientDialVer", version, "");
  }
}
