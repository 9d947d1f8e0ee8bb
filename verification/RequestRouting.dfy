/**
 From the bytes of a request to the handler of an application: the head detector and the
 request-line parser of server/mongoose.c find the URI that request_handler
 (server/dial_server.c) routes by.
 */
module RequestRouting {
  import opened Wrappers
  import opened CStrings
  import opened UriPath
  import opened RequestHead
  import opened RequestParser
  import opened HttpEngine
  import opened Connection
  import opened RequestRoundTrip
  import opened Routing

  // The request for a URL of an application, as a client sends it.
  function AppRequest(name: string, t: Tail, query: Option<string>, requestMethod: string,
                      hs: seq<Header>): RequestInfo
  {
    RequestInfo(requestMethod, WithQuery(AppPath(name, t), query), "1.1", hs)
  }

  // ------------------------------------------------------------ a URI that is cut short

  // The text that the parser sees: a method, a URI without spaces, and what follows.
  function LineStart(requestMethod: string, uri: string, rest: string): string {
    requestMethod + (" " + (uri + rest))
  }

  // A URI ends at a space.
  lemma UriBeforeSpace(requestMethod: string, uri: string, rest: string)
    requires IsValidHttpMethod(requestMethod) && uri != "" && Free(uri, " ") && rest != "" && rest[0] == ' '
    ensures var line := CutRequestLine(LineStart(requestMethod, uri, rest));
      line.requestMethod == requestMethod && line.uri == uri
  {
    var t, u := LineStart(requestMethod, uri, rest), uri + rest;
    SpanIs(t, 0, NotSpace(), 0);
    assert t[0..] == t;
    CutWord(requestMethod, " ", u, " ", " ");
    SpanIs(u, 0, StopAt(" "), |uri|);
    assert u[..|uri|] == uri;
  }

  // A URI that the end of the text cuts off has no version behind it.
  lemma UriBeforeNul(requestMethod: string, uri: string, rest: string)
    requires IsValidHttpMethod(requestMethod) && uri != "" && Free(uri, " ") && rest != "" && rest[0] == NUL
    ensures ParseHead(LineStart(requestMethod, uri, rest)) == None
  {
    var t, u := LineStart(requestMethod, uri, rest), uri + rest;
    SpanIs(t, 0, NotSpace(), 0);
    assert t[0..] == t;
    CutWord(requestMethod, " ", u, " ", " ");
    SpanIs(u, 0, StopAt(" "), |uri|);
    assert u[|uri|..] == rest;
    SpanIs(rest, 0, StopAt(CRLF), 0);
  }

  function AfterUri(r: RequestInfo, body: string): string {
    " " + (("HTTP/" + r.httpVersion) + (CRLF + RenderHeaders(r.headers, "\r" + ("\n" + body))))
  }

  // The bytes that are sent start with the method and the URI.
  lemma SentStart(r: RequestInfo, body: string)
    ensures Sent(r, body) == LineStart(r.requestMethod, r.uri, AfterUri(r, body))
    ensures AfterUri(r, body) != "" && AfterUri(r, body)[0] == ' '
  {
  }

  lemma SentChars(r: RequestInfo, body: string)
    requires IsValidHttpMethod(r.requestMethod)
    ensures var data, off := Sent(r, body), |r.requestMethod| + 1;
      && off + |r.uri| < |data| && data[..off] == r.requestMethod + " " && data[off + |r.uri|] == ' '
      && (forall k :: 0 <= k < off ==> data[k] != '\n')
      && (forall j :: 0 <= j < |r.uri| ==> data[off + j] == r.uri[j])
  {
    hide Sent, AfterUri;
    SentStart(r, body);
    var data, off, m := Sent(r, body), |r.requestMethod| + 1, r.requestMethod + " ";
    assert '\n' !in m;
    assert data == m + (r.uri + AfterUri(r, body));
    assert data[..off] == m;
    assert forall k :: 0 <= k < off ==> data[k] == m[k];
  }

  // The head ends in the URI, whose characters before that are no spaces: nothing is parsed.
  lemma CutByTheEnd(r: RequestInfo, body: string, n: nat, info: Option<RequestInfo>)
    requires IsValidHttpMethod(r.requestMethod) && |r.requestMethod| + 2 < n <= |Sent(r, body)|
    requires n - 1 <= |r.requestMethod| + 1 + |r.uri| && Free(r.uri[..n - 2 - |r.requestMethod|], " ")
    requires ParsedFrom(Sent(r, body), n, info)
    ensures info == None
  {
    hide Sent, ParseHead, Free;
    SentChars(r, body);
    var data, m, off := Sent(r, body), r.requestMethod, |r.requestMethod| + 1;
    var rest :| rest != "" && rest[0] == NUL && info == ParseHead(data[..n - 1] + rest);
    var u := r.uri[..n - 1 - off];
    assert data[..n - 1] == data[..off] + u;
    assert ((m + " ") + u) + rest == LineStart(m, u, rest);
    UriBeforeNul(m, u, rest);
  }

  // The head goes on past the first space of the URI: the parser knows what is before it.
  lemma CutByASpace(r: RequestInfo, body: string, k: nat, n: nat, info: Option<RequestInfo>)
    requires IsValidHttpMethod(r.requestMethod) && 0 < k < |r.uri| && r.uri[k] == ' ' && Free(r.uri[..k], " ")
    requires |r.requestMethod| + 1 + k < n - 1 < |Sent(r, body)| && ParsedFrom(Sent(r, body), n, info)
    ensures info.Some? ==> info.value.requestMethod == r.requestMethod && info.value.uri == r.uri[..k]
  {
    hide Sent, CutRequestLine, Acceptable, StoredHeaders, Free;
    SentChars(r, body);
    var data, m, off := Sent(r, body), r.requestMethod, |r.requestMethod| + 1;
    var rest :| rest != "" && rest[0] == NUL && info == ParseHead(data[..n - 1] + rest);
    var u, more := r.uri[..k], data[off + k..n - 1] + rest;
    assert data[off + k] == r.uri[k] == more[0];
    assert data[..off + k] == data[..off] + u;
    assert data[..n - 1] == data[..off + k] + data[off + k..n - 1];
    assert data[..n - 1] + rest == ((m + " ") + u) + more == LineStart(m, u, more);
    UriBeforeSpace(m, u, more);
  }

  // The first k characters of the URI are free of spaces; then there is one, or the head ends
  // before: the parser knows at most these k characters.
  lemma UriIsCut(r: RequestInfo, body: string, k: nat, n: nat, info: Option<RequestInfo>)
    requires IsValidHttpMethod(r.requestMethod) && 0 < k <= |r.uri| && Free(r.uri[..k], " ")
    requires |r.requestMethod| + 2 < n <= |Sent(r, body)| && ParsedFrom(Sent(r, body), n, info)
    requires n - 1 <= |r.requestMethod| + 1 + k || (k < |r.uri| && r.uri[k] == ' ')
    ensures n - 1 <= |r.requestMethod| + 1 + k ==> info == None
    ensures info.Some? ==> info.value.requestMethod == r.requestMethod && info.value.uri == r.uri[..k]
  {
    hide Sent, ParsedFrom;
    if n - 1 <= |r.requestMethod| + 1 + k {
      var u := r.uri[..n - 2 - |r.requestMethod|];
      assert forall i :: 0 <= i < |u| ==> u[i] == r.uri[..k][i];
      CutByTheEnd(r, body, n, info);
    } else {
      CutByASpace(r, body, k, n, info);
    }
  }

  // A head does not end before the URI has started.
  lemma HeadPastMethod(r: RequestInfo, body: string, n: nat)
    requires IsValidHttpMethod(r.requestMethod) && r.uri != "" && r.uri[0] != '\n' && IsHead(Sent(r, body), n)
    ensures |r.requestMethod| + 2 < n <= |Sent(r, body)|
  {
    hide Sent, IsValidHttpMethod;
    var data := Sent(r, body);
    SentChars(r, body);
    HeadBounds(data, n);
    var i: nat :| FirstBlankLine(data, i) && n == BlankLineEnd(data, i);
    assert data[|r.requestMethod| + 1] == r.uri[0];
  }

  // A blank line in the URI ends the head there.
  lemma HeadEndsInUri(r: RequestInfo, body: string, n: nat)
    requires IsValidHttpMethod(r.requestMethod) && HasHead(r.uri) && IsHead(Sent(r, body), n)
    ensures n - 1 <= |r.requestMethod| + 1 + |r.uri|
  {
    hide Sent, IsValidHttpMethod;
    var data, off := Sent(r, body), |r.requestMethod| + 1;
    SentChars(r, body);
    var k: nat :| BlankLineAt(r.uri, k);
    assert data[off + k] == r.uri[k] && data[off + (k + 1)] == r.uri[k + 1];
    assert k + 2 < |r.uri| ==> data[off + (k + 2)] == r.uri[k + 2];
    assert BlankLineAt(data, off + k);
  }

  // ------------------------------------------------------------------- names and URIs

  // A text between two others has the blank lines of the three.
  lemma BlankLineInParts(a: string, s: string, b: string)
    requires '\n' !in a && (b == "" || (b[0] != '\n' && b[0] != '\r'))
    ensures HasHead(a + (s + b)) <==> HasHead(s) || HasHead(b)
  {
    var t, off := a + (s + b), |a| + |s|;
    assert forall i :: 0 <= i < |a| ==> t[i] != '\n';
    assert forall i :: 0 <= i < |s| ==> t[|a| + i] == s[i];
    assert forall i :: 0 <= i < |b| ==> t[off + i] == b[i];
    forall i: nat | BlankLineAt(t, i)
      ensures HasHead(s) || HasHead(b)
    {
      assert if i < off then BlankLineAt(s, i - |a|) else BlankLineAt(b, i - off);
    }
    forall i: nat | BlankLineAt(s, i)
      ensures HasHead(t)
    {
      assert BlankLineAt(t, |a| + i);
    }
    forall i: nat | BlankLineAt(b, i)
      ensures HasHead(t)
    {
      assert BlankLineAt(t, off + i);
    }
  }

  lemma TailsHaveNoBreak(t: Tail)
    ensures var s := TailText(t); '\n' !in s && (s == "" || s[0] == '/')
  {
  }

  lemma NoBreakNoBlankLine(s: string)
    requires '\n' !in s
    ensures !HasHead(s)
  {
  }

  ghost predicate QueryHasBlankLine(query: Option<string>) {
    query.Some? && HasHead(query.value)
  }

  lemma UriBlankLine(name: string, t: Tail, query: Option<string>)
    ensures HasHead(WithQuery(AppPath(name, t), query)) <==> HasHead(name) || QueryHasBlankLine(query)
  {
    hide HasHead, TailText;
    TailsHaveNoBreak(t);
    assert '\n' !in APPS_URI;
    var tail := TailText(t);
    match query
    case None =>
      BlankLineInParts(APPS_URI, name, tail);
      NoBreakNoBlankLine(tail);
    case Some(q) =>
      var pre := tail + "?";
      assert q + "" == q;
      BlankLineInParts(pre, q, "");
      NoBreakNoBlankLine("");
      BlankLineInParts(APPS_URI, name, pre + q);
      assert (APPS_URI + (name + tail)) + ("?" + q) == APPS_URI + (name + (pre + q));
  }

  lemma SpaceInUri(name: string, t: Tail, query: Option<string>, j: nat)
    requires PlainName(name) && j < |name| && name[j] == ' ' && ' ' !in name[..j]
    ensures var uri, k := WithQuery(AppPath(name, t), query), |APPS_URI| + j;
      k < |uri| && uri[k] == ' ' && uri[..k] == APPS_URI + name[..j] && Free(uri[..k], " ")
  {
    hide TailText;
    var uri, k := WithQuery(AppPath(name, t), query), |APPS_URI| + j;
    assert uri[..k] == APPS_URI + name[..j];
    assert forall i :: 0 <= i < j ==> PlainChar(name[i]) && name[..j][i] == name[i];
  }

  lemma UriStart(name: string, t: Tail, query: Option<string>)
    ensures var uri := WithQuery(AppPath(name, t), query); uri != "" && uri[0] == '/'
  {
  }

  lemma NoSpaceInUri(name: string, t: Tail, query: Option<string>)
    requires PlainName(name) && ' ' !in name && (query.Some? ==> Free(query.value, " "))
    ensures Free(WithQuery(AppPath(name, t), query), " ")
  {
    assert Free(name, " ") by {
      assert forall i :: 0 <= i < |name| ==> PlainChar(name[i]);
    }
    assert Free(TailText(t), " ");
    assert Free(APPS_URI, " ");
  }

  // --------------------------------------------------------------- what is reached

  // The engine accepts the request and it gets to the handler it is meant for.
  ghost predicate Reaches(info: Option<RequestInfo>, name: string, t: Tail, requestMethod: string, local: bool,
                          allowed: string -> bool)
  {
    && Judge(info) == Accepted
    && Some(Dispatch(HandledPath(info.value.uri), info.value.requestMethod, local, allowed))
    == Intended(name, t, requestMethod)
  }

  // What a name has to be for its URLs to lead to it: no space, no blank line, no dots at first.
  ghost predicate NameWorks(name: string) {
    ' ' !in name && !HasHead(name) && !(".." <= name)
  }

  // And the query must not break the head.
  ghost predicate CanBeReached(name: string, query: Option<string>) {
    NameWorks(name) && !QueryHasBlankLine(query)
  }

  // The headers that the parser keeps give a length that the engine does not refuse.
  predicate LengthIsGood(hs: seq<Header>) {
    !BadContentLength(KeptHeaders(hs))
  }

  function KeptHeaders(hs: seq<Header>): seq<Header> {
    Kept16(RequestInfo("", "", "", hs)).headers
  }

  lemma {:induction false} NotReached(name: string, t: Tail, query: Option<string>, requestMethod: string,
                                      hs: seq<Header>, body: string, n: nat, info: Option<RequestInfo>, local: bool,
                                      allowed: string -> bool)
    requires PlainName(name) && Intended(name, t, requestMethod).Some? && (query.Some? ==> Free(query.value, " "))
    requires var data := Sent(AppRequest(name, t, query, requestMethod, hs), body);
      IsHead(data, n) && 0 < n <= |data| && ParsedFrom(data, n, info)
    requires ' ' in name || HasHead(name) || QueryHasBlankLine(query)
    ensures !Reaches(info, name, t, requestMethod, local, allowed)
  {
    hide PlainName, AppPath, WithQuery, HandledPath, Dispatch, Free, ParsedFrom, IsHead, HasHead, Sent;
    var r := AppRequest(name, t, query, requestMethod, hs);
    IntendedIsValid(name, t, requestMethod);
    UriStart(name, t, query);
    HeadPastMethod(r, body, n);
    if ' ' in name {
      var j := First(name, ' ').value;
      SpaceInUri(name, t, query, j);
      UriIsCut(r, body, |APPS_URI| + j, n, info);
      CutNameIsNotReached(name, t, j, requestMethod, local, allowed);
    } else {
      UriBlankLine(name, t, query);
      HeadEndsInUri(r, body, n);
      NoSpaceInUri(name, t, query);
      assert r.uri[..|r.uri|] == r.uri;
      UriIsCut(r, body, |r.uri|, n, info);
    }
  }

  lemma IntendedIsValid(name: string, t: Tail, requestMethod: string)
    requires Intended(name, t, requestMethod).Some?
    ensures IsValidHttpMethod(requestMethod)
  {
  }

  // The request as a whole is one that `RequestRoundTrip` sends.
  lemma RequestIsWritable(name: string, t: Tail, query: Option<string>, requestMethod: string, hs: seq<Header>)
    requires PlainName(name) && Intended(name, t, requestMethod).Some? && AllWellFormed(hs)
    requires query.Some? ==> Free(query.value, " ")
    requires ' ' !in name && !HasHead(name) && !QueryHasBlankLine(query)
    ensures Writable(AppRequest(name, t, query, requestMethod, hs))
  {
    hide PlainName, AppPath, WithQuery, Free, HasHead, AllWellFormed;
    IntendedIsValid(name, t, requestMethod);
    UriStart(name, t, query);
    UriBlankLine(name, t, query);
    NoSpaceInUri(name, t, query);
    VersionIsFree();
  }

  lemma VersionIsFree()
    ensures Free("1.1", CRLF)
  {
  }

  // With the whole head, the request is judged by its length and routed by its name.
  lemma WholeHeadReaches(name: string, t: Tail, query: Option<string>, requestMethod: string, hs: seq<Header>,
                         local: bool, allowed: string -> bool)
    requires PlainName(name) && Intended(name, t, requestMethod).Some?
    ensures Reaches(Some(Kept16(AppRequest(name, t, query, requestMethod, hs))), name, t, requestMethod, local, allowed)
       <==> LengthIsGood(hs) && !(".." <= name) && Permits(name, t, local, allowed)
  {
    hide PlainName, AppPath, WithQuery, HandledPath, Dispatch, BadContentLength, Permits;
    EveryNameIsReached(name, t, query, requestMethod, local, allowed);
  }

  /** From the bytes: wherever the engine finds the end of the head, and whatever it makes of it,
      the request that a client writes for a plain name gets to the intended handler, with this
      name, exactly when the name has no space and no blank line and does not start with two
      dots, the query has no blank line, the Content-Length is good and the checks pass. */
  lemma SentNameIsReached(name: string, t: Tail, query: Option<string>, requestMethod: string, hs: seq<Header>,
                          body: string, n: nat, info: Option<RequestInfo>, local: bool, allowed: string -> bool)
    requires PlainName(name) && Intended(name, t, requestMethod).Some?
    requires AllWellFormed(hs) && (query.Some? ==> Free(query.value, " "))
    requires var data := Sent(AppRequest(name, t, query, requestMethod, hs), body);
      IsHead(data, n) && 0 < n <= |data| && ParsedFrom(data, n, info)
    ensures Reaches(info, name, t, requestMethod, local, allowed) <==>
      CanBeReached(name, query) && LengthIsGood(hs) && Permits(name, t, local, allowed)
  {
    hide PlainName, Reaches, LengthIsGood, Free, ParsedFrom, IsHead, HasHead, Sent, HeadLen, AllWellFormed, Permits;
    hide AppRequest;
    if ' ' in name || HasHead(name) || QueryHasBlankLine(query) {
      NotReached(name, t, query, requestMethod, hs, body, n, info, local, allowed);
    } else {
      var r := AppRequest(name, t, query, requestMethod, hs);
      RequestIsWritable(name, t, query, requestMethod, hs);
      RenderedHeadEnds(r, body);
      HeadIsUnique(Sent(r, body), HeadLen(r), n);
      SentIsParsedBack(r, body, info);
      WholeHeadReaches(name, t, query, requestMethod, hs, local, allowed);
    }
  }

  // ---------------------------------------------------- however the network cuts the stream

  // The engine finds a head in this stream, and what it parses reaches the handler.
  ghost predicate Arrives(feed: Feed, bufsiz: nat, name: string, t: Tail, requestMethod: string, local: bool,
                          allowed: string -> bool)
  {
    var n := ReadLoop("", feed, bufsiz).requestLen;
    && 0 < n <= |feed.data| && IsHead(feed.data, n)
    && forall info :: ParsedFrom(feed.data, n, info) ==> Reaches(info, name, t, requestMethod, local, allowed)
  }

  // It does so in whatever pieces the data come.
  ghost predicate AlwaysArrives(data: string, broken: bool, bufsiz: nat, name: string, t: Tail, requestMethod: string,
                                local: bool, allowed: string -> bool)
  {
    forall sizes: seq<nat> :: Arrives(Feed(data, sizes, broken), bufsiz, name, t, requestMethod, local, allowed)
  }

  lemma SomethingIsParsed(data: string, n: nat) returns (info: Option<RequestInfo>)
    requires 0 < n <= |data|
    ensures ParsedFrom(data, n, info)
  {
    var rest := [NUL];
    info := ParseHead(data[..n - 1] + rest);
    assert rest != "" && rest[0] == NUL && info == ParseHead(data[..n - 1] + rest);
  }

  // What arrives in one piece meets the conditions on name and length, and has its whole head
  // in the buffer.
  lemma ArrivesWhole(name: string, t: Tail, query: Option<string>, requestMethod: string, hs: seq<Header>,
                     body: string, feed: Feed, bufsiz: nat, local: bool, allowed: string -> bool)
    requires PlainName(name) && Intended(name, t, requestMethod).Some?
    requires AllWellFormed(hs) && (query.Some? ==> Free(query.value, " "))
    requires feed.data == Sent(AppRequest(name, t, query, requestMethod, hs), body)
    requires Arrives(feed, bufsiz, name, t, requestMethod, local, allowed)
    ensures CanBeReached(name, query) && LengthIsGood(hs) && Permits(name, t, local, allowed)
    ensures var r := AppRequest(name, t, query, requestMethod, hs);
      && HeadLen(r) == ReadLoop("", feed, bufsiz).requestLen <= bufsiz && IsHead(Sent(r, body), HeadLen(r))
  {
    hide PlainName, Reaches, LengthIsGood, Free, ParsedFrom, IsHead, HasHead, Sent, HeadLen, AllWellFormed, Permits;
    hide AppRequest, ReadLoop;
    var r, n := AppRequest(name, t, query, requestMethod, hs), ReadLoop("", feed, bufsiz).requestLen;
    var info := SomethingIsParsed(feed.data, n);
    SentNameIsReached(name, t, query, requestMethod, hs, body, n, info, local, allowed);
    RequestIsWritable(name, t, query, requestMethod, hs);
    RenderedHeadEnds(r, body);
    HeadIsUnique(Sent(r, body), HeadLen(r), n);
    HeadReceived(feed, bufsiz);
  }

  // A control character in the head: some way of cutting the stream has no answer.
  lemma SpoiledDoesNotArrive(data: string, n: nat, broken: bool, bufsiz: nat) returns (sizes: seq<nat>)
    requires IsHead(data, n) && n <= bufsiz && Spoiled(data, n - 1)
    ensures ReadLoop("", Feed(data, sizes, broken), bufsiz).requestLen == -1
  {
    hide ReadLoop, RequestLen, IsHead;
    HeadInWindow(data, n, bufsiz);
    LastIsLineFeed(data, n);
    SegmentationTheorem(data, broken, bufsiz);
    var a: seq<nat>, b: seq<nat> :| HeadFound(data, a, broken, bufsiz) != HeadFound(data, b, broken, bufsiz);
    assert "" + data == data && RequestLen("") == 0 by { NothingFound(); }
    ReadLoopOnWindow(data, "", Feed(data, a, broken), bufsiz);
    ReadLoopOnWindow(data, "", Feed(data, b, broken), bufsiz);
    sizes := if HeadFound(data, a, broken, bufsiz) == -1 then a else b;
  }

  lemma ArrivesEachWay(name: string, t: Tail, query: Option<string>, requestMethod: string, hs: seq<Header>,
                       body: string, feed: Feed, bufsiz: nat, local: bool, allowed: string -> bool)
    requires PlainName(name) && Intended(name, t, requestMethod).Some?
    requires AllWellFormed(hs) && (query.Some? ==> Free(query.value, " "))
    requires feed.data == Sent(AppRequest(name, t, query, requestMethod, hs), body)
    requires CanBeReached(name, query) && LengthIsGood(hs) && Permits(name, t, local, allowed)
    requires Receivable(AppRequest(name, t, query, requestMethod, hs), body, bufsiz)
    ensures Arrives(feed, bufsiz, name, t, requestMethod, local, allowed)
  {
    hide PlainName, Reaches, LengthIsGood, Free, ParsedFrom, IsHead, HasHead, Sent, HeadLen, AllWellFormed, Permits;
    hide AppRequest, ReadLoop, Spoiled;
    var r := AppRequest(name, t, query, requestMethod, hs);
    RequestIsWritable(name, t, query, requestMethod, hs);
    HeadIsAlwaysFound(r, body, feed, bufsiz);
    HeadReceived(feed, bufsiz);
    var n := ReadLoop("", feed, bufsiz).requestLen;
    forall info | ParsedFrom(feed.data, n, info)
      ensures Reaches(info, name, t, requestMethod, local, allowed)
    {
      SentNameIsReached(name, t, query, requestMethod, hs, body, n, info, local, allowed);
    }
  }

  /** However the network cuts the stream: the request gets to the intended handler for every
      way of cutting it exactly when, besides, its head fits the buffer and holds no disallowed
      control character. */
  lemma ReachedHoweverCut(name: string, t: Tail, query: Option<string>, requestMethod: string, hs: seq<Header>,
                          body: string, broken: bool, bufsiz: nat, local: bool, allowed: string -> bool)
    requires PlainName(name) && Intended(name, t, requestMethod).Some?
    requires AllWellFormed(hs) && (query.Some? ==> Free(query.value, " "))
    ensures var r := AppRequest(name, t, query, requestMethod, hs);
      AlwaysArrives(Sent(r, body), broken, bufsiz, name, t, requestMethod, local, allowed) <==>
      && CanBeReached(name, query) && LengthIsGood(hs) && Permits(name, t, local, allowed)
      && Receivable(r, body, bufsiz)
  {
    hide PlainName, CanBeReached, LengthIsGood, Free, IsHead, Sent, HeadLen, AllWellFormed, Permits, AppRequest;
    hide Arrives, Spoiled;
    var r := AppRequest(name, t, query, requestMethod, hs);
    var data := Sent(r, body);
    if AlwaysArrives(data, broken, bufsiz, name, t, requestMethod, local, allowed) {
      var whole := Feed(data, [], broken);
      assert Arrives(whole, bufsiz, name, t, requestMethod, local, allowed);
      ArrivesWhole(name, t, query, requestMethod, hs, body, whole, bufsiz, local, allowed);
      if Spoiled(data, HeadLen(r) - 1) {
        var sizes := SpoiledDoesNotArrive(data, HeadLen(r), broken, bufsiz);
        NothingArrives(Feed(data, sizes, broken), bufsiz, name, t, requestMethod, local, allowed);
      }
    } else {
      var sizes: seq<nat> :| !Arrives(Feed(data, sizes, broken), bufsiz, name, t, requestMethod, local, allowed);
      if CanBeReached(name, query) && LengthIsGood(hs) && Permits(name, t, local, allowed) &&
         Receivable(r, body, bufsiz) {
        ArrivesEachWay(name, t, query, requestMethod, hs, body, Feed(data, sizes, broken), bufsiz, local, allowed);
      }
    }
  }

  lemma NothingArrives(feed: Feed, bufsiz: nat, name: string, t: Tail, requestMethod: string, local: bool,
                       allowed: string -> bool)
    requires ReadLoop("", feed, bufsiz).requestLen == -1
    ensures !Arrives(feed, bufsiz, name, t, requestMethod, local, allowed)
  {
  }

  /** What the engine does with the bytes: it only ever gets a request to the intended handler
      when the conditions on name, query, length and permission hold, and always does when the
      head fits and has no control character, too. */
  method PrepareNamed(conn: HttpConnection, ghost name: string, ghost t: Tail, ghost query: Option<string>,
                      ghost requestMethod: string, ghost hs: seq<Header>, ghost body: string, ghost local: bool,
                      ghost allowed: string -> bool)
    returns (verdict: Verdict, ri: InfoRef, queryAt: Option<nat>, ghost info: Option<RequestInfo>)
    requires conn.Valid() && PlainName(name) && Intended(name, t, requestMethod).Some?
    requires AllWellFormed(hs) && (query.Some? ==> Free(query.value, " "))
    requires conn.sock.feed.data == Sent(AppRequest(name, t, query, requestMethod, hs), body)
    modifies conn, conn.buf, conn.sock
    ensures verdict == Accepted && Reaches(info, name, t, requestMethod, local, allowed) ==>
      CanBeReached(name, query) && LengthIsGood(hs) && Permits(name, t, local, allowed)
    ensures (CanBeReached(name, query) && LengthIsGood(hs) && Permits(name, t, local, allowed) &&
             Receivable(AppRequest(name, t, query, requestMethod, hs), body, conn.buf.Length)) ==>
      verdict == Accepted && Reaches(info, name, t, requestMethod, local, allowed)
  {
    hide PlainName, LengthIsGood, Free, ParsedFrom, IsHead, HasHead, Sent, HeadLen, AllWellFormed, Permits;
    hide AppRequest, ReadLoop, Spoiled, SeesRequest, BodyReady, CanBeReached, Receivable;
    ghost var feed, bufsiz := conn.sock.feed, conn.buf.Length;
    verdict, ri, queryAt, info := Prepare(conn);
    if verdict != TooLarge413 && verdict != Closed {
      SentNameIsReached(name, t, query, requestMethod, hs, body, conn.requestLen, info, local, allowed);
    } else if CanBeReached(name, query) && LengthIsGood(hs) && Permits(name, t, local, allowed) &&
              Receivable(AppRequest(name, t, query, requestMethod, hs), body, bufsiz) {
      ArrivesEachWay(name, t, query, requestMethod, hs, body, feed, bufsiz, local, allowed);
      assert false;
    }
  }

  // ------------------------------------------------------------------- names that fail

  // A control character of the name is one of the head.
  lemma ControlInName(name: string, t: Tail, query: Option<string>, requestMethod: string, hs: seq<Header>,
                      body: string, bufsiz: nat, i: nat)
    requires Intended(name, t, requestMethod).Some? && i < |name| && Disallowed(name[i])
    ensures !Receivable(AppRequest(name, t, query, requestMethod, hs), body, bufsiz)
  {
    hide Sent, RenderHead, TailText, Disallowed;
    var r := AppRequest(name, t, query, requestMethod, hs);
    IntendedIsValid(name, t, requestMethod);
    SentChars(r, body);
    HeadHoldsUri(r);
    assert r.uri[|APPS_URI| + i] == name[i];
    var k := |requestMethod| + 1 + (|APPS_URI| + i);
    assert Disallowed(Sent(r, body)[k]) && k < HeadLen(r) - 1;
  }

  lemma HeadHoldsUri(r: RequestInfo)
    ensures |r.requestMethod| + 1 + |r.uri| < HeadLen(r) - 1
  {
  }

  /** Three plain names without a space and without dots that do not reach their handler: the
      head of the first ends in the name, the second is refused when its bytes come one by one,
      and no buffer holds the head of the third when it is smaller. */
  lemma NamesThatFail(t: Tail, query: Option<string>, requestMethod: string, hs: seq<Header>, body: string,
                      broken: bool, bufsiz: nat, local: bool, allowed: string -> bool, long: string)
    requires Intended("a", t, requestMethod).Some? && AllWellFormed(hs) && (query.Some? ==> Free(query.value, " "))
    requires PlainName(long) && HeadLen(AppRequest(long, t, query, requestMethod, hs)) > bufsiz
    ensures var blank, control := "a\n\nb", "\t";
      && PlainName(blank) && PlainName(control)
      && (forall name :: name in {blank, control, long} ==>
            !AlwaysArrives(Sent(AppRequest(name, t, query, requestMethod, hs), body), broken, bufsiz, name, t,
                           requestMethod, local, allowed))
  {
    hide Sent, HeadLen, AllWellFormed, AlwaysArrives, Permits, LengthIsGood, AppRequest, Free;
    var blank, control := "a\n\nb", "\t";
    assert BlankLineAt(blank, 1);
    ControlInName(control, t, query, requestMethod, hs, body, bufsiz, 0);
    ReachedHoweverCut(blank, t, query, requestMethod, hs, body, broken, bufsiz, local, allowed);
    ReachedHoweverCut(control, t, query, requestMethod, hs, body, broken, bufsiz, local, allowed);
    IntendedForAll(long, t, requestMethod);
    ReachedHoweverCut(long, t, query, requestMethod, hs, body, broken, bufsiz, local, allowed);
  }

  lemma IntendedForAll(name: string, t: Tail, requestMethod: string)
    requires Intended("a", t, requestMethod).Some?
    ensures Intended(name, t, requestMethod).Some?
  {
  }
}
