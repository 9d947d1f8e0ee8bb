/**
 One connection from its first byte to the end of its body (process_new_connection in
 server/mongoose.c): receive the head, parse it, check it, rewrite the URI, let the
 callback read the body, and discard what the callback left.
 */
module HttpEngine {
  import opened Wrappers
  import opened CStrings
  import opened Numbers
  import opened RequestHead
  import opened RequestParser
  import opened UriPath
  import opened Connection

  // --------------------------------------------------------------- headers

  function ToLower(c: char): char {
    if IsUpper(c) then (c as int + 32) as char else c
  }

  // mg_strcasecmp(a, b) == 0 on C strings.
  predicate SameIgnoringCase(a: string, b: string) {
    |a| == |b| && forall i :: 0 <= i < |a| ==> ToLower(a[i]) == ToLower(b[i])
  }

  // get_header: the value of the first header with this name, in any case.
  function GetHeader(hs: seq<Header>, name: string): Option<string> {
    if hs == [] then None
    else if SameIgnoringCase(name, hs[0].name) then Some(hs[0].value)
    else GetHeader(hs[1..], name)
  }

  // conn->content_len of a request with these headers.
  function ContentLength(hs: seq<Header>): int {
    match GetHeader(hs, "Content-Length")
    case None => -1
    case Some(v) => StrToLL(v)
  }

  // The request is refused for its Content-Length.
  predicate BadContentLength(hs: seq<Header>) {
    GetHeader(hs, "Content-Length").Some? && ContentLength(hs) < 0
  }

  // The k-th header is the first one with this name, letters in either case.
  ghost predicate FirstNamed(hs: seq<Header>, name: string, k: nat) {
    k < |hs| && SameLetters(name, hs[k].name) && forall j :: 0 <= j < k ==> !SameLetters(name, hs[j].name)
  }

  // The same text but for the case of letters, by their ASCII codes.
  ghost predicate SameLetters(a: string, b: string) {
    |a| == |b| && forall i :: 0 <= i < |a| ==> SameLetter(a[i] as int, b[i] as int)
  }

  ghost predicate SameLetter(a: int, b: int) {
    a == b || (65 <= a <= 90 && b == a + 32) || (65 <= b <= 90 && a == b + 32)
  }

  lemma SameLettersIs(a: string, b: string)
    ensures SameIgnoringCase(a, b) <==> SameLetters(a, b)
  {
  }

  /** get_header gives the value of the first header with the name, in whatever case. */
  lemma {:induction false} GetHeaderIsFirst(hs: seq<Header>, name: string)
    ensures match GetHeader(hs, name)
      case None => forall k: nat :: !FirstNamed(hs, name, k)
      case Some(v) => exists k: nat :: FirstNamed(hs, name, k) && hs[k].value == v
  {
    hide SameIgnoringCase, SameLetters;
    if hs != [] {
      SameLettersIs(name, hs[0].name);
      var rest := hs[1..];
      assert forall j :: 1 <= j < |hs| ==> hs[j] == rest[j - 1];
      GetHeaderIsFirst(rest, name);
      if SameLetters(name, hs[0].name) {
        assert FirstNamed(hs, name, 0);
      } else if GetHeader(rest, name).Some? {
        var k: nat :| FirstNamed(rest, name, k) && rest[k].value == GetHeader(rest, name).value;
        FirstNamedLater(hs, name, k);
      } else {
        forall k: nat
          ensures !FirstNamed(hs, name, k)
        {
          if k > 0 {
            FirstNamedLater(hs, name, k - 1);
          }
        }
      }
    }
  }

  lemma FirstNamedLater(hs: seq<Header>, name: string, k: nat)
    requires hs != [] && !SameLetters(name, hs[0].name)
    ensures FirstNamed(hs, name, k + 1) <==> FirstNamed(hs[1..], name, k)
  {
    hide SameLetters;
    var rest := hs[1..];
    assert forall j :: 0 <= j < |rest| ==> rest[j] == hs[j + 1];
    if FirstNamed(hs, name, k + 1) {
      forall j | 0 <= j < k
        ensures !SameLetters(name, rest[j].name)
      {
        assert rest[j] == hs[j + 1];
      }
    }
    if FirstNamed(rest, name, k) {
      forall j | 0 <= j < k + 1
        ensures !SameLetters(name, hs[j].name)
      {
        assert j > 0 ==> hs[j] == rest[j - 1];
      }
    }
  }

  // The header says this length.
  ghost predicate SaysLength(hs: seq<Header>, minus: bool, n: nat) {
    exists k: nat, ws: string, rest: string ::
      && FirstNamed(hs, "Content-Length", k) && WhiteSpace(ws)
      && (rest == "" || !IsDigit(rest[0]))
      && hs[k].value == ws + (SignText(minus, false) + (Decimal(n) + rest))
  }

  /** The first Content-Length header counts: a negative number is refused, any other one is the
      length, up to the largest long long. */
  lemma ContentLengthMeans(hs: seq<Header>, minus: bool, n: nat)
    requires SaysLength(hs, minus, n)
    ensures ContentLength(hs) == Saturated(Signed(minus, n))
    ensures BadContentLength(hs) <==> minus && n > 0
  {
    hide Decimal, StrToLL, Saturated, SignText;
    var k: nat, ws: string, rest: string :|
      && FirstNamed(hs, "Content-Length", k) && WhiteSpace(ws)
      && (rest == "" || !IsDigit(rest[0]))
      && hs[k].value == ws + (SignText(minus, false) + (Decimal(n) + rest));
    GetHeaderIsFirst(hs, "Content-Length");
    OneFirst(hs, "Content-Length");
    StrToLLMeans(ws, minus, false, n, rest);
    SaturatedSign(Signed(minus, n));
  }

  lemma OneFirst(hs: seq<Header>, name: string)
    ensures forall j: nat, k: nat :: FirstNamed(hs, name, j) && FirstNamed(hs, name, k) ==> j == k
  {
  }

  lemma SaturatedSign(x: int)
    ensures Saturated(x) < 0 <==> x < 0
  {
  }

  /** Without the header there is no length, and nothing is refused. */
  lemma NoContentLength(hs: seq<Header>)
    requires forall k: nat :: !FirstNamed(hs, "Content-Length", k)
    ensures ContentLength(hs) == -1 && !BadContentLength(hs)
  {
    GetHeaderIsFirst(hs, "Content-Length");
  }

  method FindHeader(buf: array<char>, refs: seq<HeaderRef>, ghost hs: seq<Header>, ghost p: nat, name: string)
    returns (value: Option<string>)
    requires HeadersAt(buf[..], refs, hs, p)
    ensures value == GetHeader(hs, name)
  {
    var i := 0;
    while i < |refs|
      invariant 0 <= i <= |refs|
      invariant GetHeader(hs, name) == GetHeader(hs[i..], name)
    {
      assert HeaderAt(buf[..], refs[i], hs[i], p);
      HoldsIsCStr(buf[..], refs[i].name, hs[i].name);
      HoldsIsCStr(buf[..], refs[i].value, hs[i].value);
      if SameIgnoringCase(name, CStr(buf[..], refs[i].name)) {
        return Some(CStr(buf[..], refs[i].value));
      }
      assert hs[i..][1..] == hs[i + 1..];
      i := i + 1;
    }
    return None;
  }

  // ------------------------------------------------------------ the request

  datatype Verdict = TooLarge413 | Closed | Bad400 | Version505 | Accepted

  // The text the parser sees: the head with its last byte replaced by NUL, then whatever
  // else is in the buffer.
  ghost predicate ParsedFrom(data: string, n: nat, info: Option<RequestInfo>)
    requires 0 < n <= |data|
  {
    exists rest: string :: rest != "" && rest[0] == NUL && info == ParseHead(data[..n - 1] + rest)
  }

  lemma ParsedFromText(data: string, n: nat, text: string)
    requires 0 < n <= |data| && n <= |text| && text[..n - 1] == data[..n - 1] && text[n - 1] == NUL
    ensures ParsedFrom(data, n, ParseHead(text))
  {
    var rest := text[n - 1..];
    assert text == data[..n - 1] + rest;
  }

  // t is s from position n on.
  ghost predicate SameFrom(s: string, t: string, n: nat) {
    |t| == |s| && forall k :: n <= k < |s| ==> t[k] == s[k]
  }

  // s[lo..hi], or nothing.
  function Part(s: string, lo: int, hi: int): string {
    if 0 <= lo < hi <= |s| then s[lo..hi] else ""
  }

  lemma PartStays(s: string, t: string, n: nat, lo: int, hi: int)
    requires SameFrom(s, t, n) && n <= lo
    ensures Part(s, lo, hi) == Part(t, lo, hi)
  {
  }

  lemma InBufferIs(conn: HttpConnection)
    requires conn.Valid()
    ensures conn.InBuffer() == Part(conn.buf[..], conn.requestLen + conn.consumedContent, conn.dataLen)
  {
  }

  // NUL-terminates the head, which takes the first n bytes of the buffer, and parses it.
  method ParseReceived(buf: array<char>, n: nat, ghost data: string)
    returns (status: bool, ri: InfoRef, ghost info: Option<RequestInfo>)
    requires 0 < n <= |data| && n <= buf.Length && buf[..n] == data[..n]
    modifies buf
    ensures ParsedFrom(data, n, info)
    ensures status <==> info.Some?
    ensures status ==> InfoAt(buf[..], ri, info.value, n - 1)
    ensures SameFrom(old(buf[..]), buf[..], n)
  {
    hide ParseHead, ParsedFrom;
    buf[n - 1] := NUL;
    ghost var text := buf[..];
    info := ParseHead(text);
    ParsedFromText(data, n, text);
    status, ri := ParseHttpRequest(buf, n - 1);
  }

  // Reads of `size` bytes in all gave `body`, and c is left to deliver.
  ghost predicate Got(b: Body, size: nat, body: string, c: Body) {
    body == Prefix(b.Pending(), size) && |body| <= |b.Unread()| && c == b.After(|body|)
  }

  lemma GotNothing(b: Body)
    ensures Got(b, 0, "", b)
  {
    AfterNothing(b);
  }

  lemma GotOne(b: Body, size: nat, n: nat, d0: string, d1: string)
    requires n == Min(size, |b.Pending()|) && n <= |b.Unread()| && Copied(d0, d1, 0, b.Pending()[..n])
    ensures Got(b, size, d1[..n], b.After(n))
  {
  }

  lemma GotMore(b: Body, size: nat, piece: string, c: Body, more: nat, rest: string, d: Body, body: string)
    requires Got(b, size, piece, c) && Got(c, more, rest, d) && body == piece + rest
    ensures Got(b, size + more, body, d)
  {
    AfterLeavesRest(b, |piece|);
    PrefixJoin(b.Pending(), size, more);
    AfterTwice(b, |piece|, c, |rest|, |body|);
  }

  // One mg_read of `size` bytes.
  method ReadPiece(conn: HttpConnection, size: nat) returns (piece: string)
    requires conn.Valid() && size <= INT_MAX
    modifies conn`consumedContent, conn.sock
    ensures conn.Valid() && Got(old(conn.ToDeliver()), size, piece, conn.ToDeliver())
  {
    hide Copied, Prefix, Body.Pending, Body.Unread, Body.After;
    ghost var b := conn.ToDeliver();
    var dst := new char[size];
    ghost var d := dst[..];
    var n := conn.MgRead(dst, 0, size);
    GotOne(b, size, n, d, dst[..]);
    piece := dst[..][..n];
  }

  /** Stands for any user callback, one that calls mg_read with these sizes: it gets the
      body from its start, as much as it asks for and as there is. */
  method RunCallback(conn: HttpConnection, sizes: seq<nat>) returns (body: string)
    requires conn.Valid() && forall i :: 0 <= i < |sizes| ==> sizes[i] <= INT_MAX
    modifies conn`consumedContent, conn.sock
    ensures conn.Valid() && Got(old(conn.ToDeliver()), Sum(sizes), body, conn.ToDeliver())
    decreases |sizes|
  {
    hide Prefix, Body.Pending, Body.Unread, Body.After;
    ghost var b := conn.ToDeliver();
    body := "";
    GotNothing(b);
    if sizes != [] {
      var piece := ReadPiece(conn, sizes[0]);
      ghost var c := conn.ToDeliver();
      var rest := RunCallback(conn, sizes[1..]);
      body := piece + rest;
      GotMore(b, sizes[0], piece, c, Sum(sizes[1..]), rest, conn.ToDeliver(), body);
    }
  }

  // Finds the Content-Length and refuses a negative one.
  method SetContentLength(conn: HttpConnection, refs: seq<HeaderRef>, ghost hs: seq<Header>, ghost p: nat)
    returns (ok: bool)
    requires conn.Valid() && conn.contentLen == -1 && conn.consumedContent == 0
    requires HeadersAt(conn.buf[..], refs, hs, p)
    modifies conn`contentLen
    ensures ok <==> !BadContentLength(hs)
    ensures ok ==> conn.Valid() && conn.contentLen == ContentLength(hs)
  {
    var cl := FindHeader(conn.buf, refs, hs, p, "Content-Length");
    conn.contentLen := if cl.None? then -1 else StrToLL(cl.value);
    ok := cl.None? || conn.contentLen >= 0;
  }

  // The body was served: b was to be delivered, the callback asked for `size` bytes and got `body`, the rest of the
  // request was dropped and `unread` is left of the stream.
  ghost predicate Served(b: Body, size: nat, body: string, unread: string) {
    body == Prefix(b.Pending(), size) && |b.Pending()| <= |b.Unread()| && unread == b.Unread()[|b.Pending()|..]
  }

  lemma ServedAll(b: Body, size: nat, body: string, c: Body, d: Body)
    requires Got(b, size, body, c)
    requires |c.Pending()| <= |c.Unread()| && d == c.After(|c.Pending()|)
    ensures Served(b, size, body, d.Unread())
  {
    var k := |body|;
    AfterLeavesRest(b, k);
    AfterTwice(b, k, c, |c.Pending()|, |b.Pending()|);
    AfterLeavesRest(b, |b.Pending()|);
  }

  // The callback, and the discarding of what it left.
  method ServeBody(conn: HttpConnection, sizes: seq<nat>) returns (body: string)
    requires conn.Valid() && forall i :: 0 <= i < |sizes| ==> sizes[i] <= INT_MAX
    modifies conn`consumedContent, conn.sock
    ensures conn.Valid() && Served(old(conn.ToDeliver()), Sum(sizes), body, conn.ToDeliver().Unread())
  {
    ghost var b := conn.ToDeliver();
    body := RunCallback(conn, sizes);
    ghost var c := conn.ToDeliver();
    conn.DiscardCurrentRequest();
    ServedAll(b, Sum(sizes), body, c, conn.ToDeliver());
  }

  // The body of a request whose head is data[..n].
  function BodyOf(data: string, n: nat, hs: seq<Header>): string
    requires n <= |data|
  {
    Prefix(data[n..], ContentLength(hs))
  }

  // t is s but for the characters from a on and before b.
  ghost predicate SameOutside(s: string, t: string, a: nat, b: nat) {
    |t| == |s| && forall k :: 0 <= k < |s| && (k < a || b <= k) ==> t[k] == s[k]
  }

  // The query is at its offset, if the URI has one.
  ghost predicate QueryAt(text: string, query: Option<nat>, uri: string) {
    match RawQuery(uri)
    case None => query == None
    case Some(q) => query.Some? && HoldsAt(text, query.value, q)
  }

  // handle_request up to the call of the callback: the URI becomes the handled path.
  method RewriteUri(conn: HttpConnection, off: nat, ghost uri: string) returns (query: Option<nat>)
    requires conn.Valid() && off + |uri| < conn.requestLen && HoldsAt(conn.buf[..], off, uri)
    modifies conn.buf
    ensures conn.Valid() && conn.ToDeliver() == old(conn.ToDeliver())
    ensures HoldsAt(conn.buf[..], off, HandledPath(uri)) && QueryAt(conn.buf[..], query, uri)
    ensures SameOutside(old(conn.buf[..]), conn.buf[..], off, off + |uri|)
  {
    hide HandledPath, QueryAt, HoldsAt, SameOutside;
    ghost var s, z := conn.buf[..], off + |uri|;
    InBufferIs(conn);
    query := RewriteInPlace(conn.buf, off, uri);
    OutsideIsBehind(s, conn.buf[..], off, z);
    InBufferIs(conn);
    PartStays(s, conn.buf[..], z, conn.requestLen + conn.consumedContent, conn.dataLen);
  }

  // The same on the buffer alone.
  method RewriteInPlace(buf: array<char>, off: nat, ghost uri: string) returns (query: Option<nat>)
    requires HoldsAt(buf[..], off, uri)
    modifies buf
    ensures HoldsAt(buf[..], off, HandledPath(uri)) && QueryAt(buf[..], query, uri)
    ensures SameOutside(old(buf[..]), buf[..], off, off + |uri|)
  {
    hide HandledPath, RawQuery;
    ghost var s, z := buf[..], off + |uri|;
    assert buf[off..z] == s[off..z] == uri;
    query := HandleUri(buf, off, z);
    assert s[off..z] == uri;
  }

  lemma OutsideIsBehind(s: string, t: string, a: nat, b: nat)
    requires SameOutside(s, t, a, b)
    ensures SameFrom(s, t, b)
  {
  }

  // What the callback finds in the buffer: the strings of the request, with the handled path in
  // place of the URI, and the query.
  ghost predicate SeesRequest(text: string, ri: InfoRef, query: Option<nat>, info: RequestInfo, z: nat) {
    && HoldsAt(text, ri.requestMethod, info.requestMethod)
    && HoldsAt(text, ri.uri, HandledPath(info.uri)) && QueryAt(text, query, info.uri)
    && HoldsAt(text, ri.httpVersion, info.httpVersion)
    && HeadersAt(text, ri.headers, info.headers, z)
  }

  lemma HoldsOutside(s: string, t: string, a: nat, b: nat, off: nat, w: string)
    requires HoldsAt(s, off, w) && SameOutside(s, t, a, b) && (off + |w| < a || b <= off)
    ensures HoldsAt(t, off, w)
  {
    assert t[off..off + |w|] == s[off..off + |w|];
  }

  // Rewriting the URI leaves the method, the version and the headers alone.
  lemma RequestStays(s: string, t: string, ri: InfoRef, info: RequestInfo, z: nat, query: Option<nat>)
    requires InfoAt(s, ri, info, z) && SameOutside(s, t, ri.uri, ri.uri + |info.uri|)
    requires HoldsAt(t, ri.uri, HandledPath(info.uri)) && QueryAt(t, query, info.uri)
    ensures SeesRequest(t, ri, query, info, z)
  {
    hide HandledPath, QueryAt, HoldsAt, SameOutside;
    var a, b := ri.uri, ri.uri + |info.uri|;
    HoldsOutside(s, t, a, b, ri.requestMethod, info.requestMethod);
    HoldsOutside(s, t, a, b, ri.httpVersion, info.httpVersion);
    assert HeadersAt(s, ri.headers, info.headers, z);
    forall i | 0 <= i < |info.headers|
      ensures HeaderAt(t, ri.headers[i], info.headers[i], z)
    {
      assert HeaderAt(s, ri.headers[i], info.headers[i], z);
      HoldsOutside(s, t, a, b, ri.headers[i].name, info.headers[i].name);
      HoldsOutside(s, t, a, b, ri.headers[i].value, info.headers[i].value);
    }
  }

  // The body of a request is the first part of what is to be delivered.
  lemma BodyIsPending(b: Body, data: string, n: nat, hs: seq<Header>)
    requires n <= |data| && b.Unread() == data[n..] && b.left == ContentLength(hs)
    ensures b.Pending() == BodyOf(data, n, hs)
  {
  }

  // The body of the request is what is to be delivered, and the stream goes on behind it.
  ghost predicate BodyReady(b: Body, data: string, n: int, hs: seq<Header>) {
    0 < n <= |data| && b.Unread() == data[n..] && b.Pending() == BodyOf(data, n, hs)
  }

  // What follows the check of the HTTP version, up to the call of the callback.
  method PrepareParsed(conn: HttpConnection, ri: InfoRef, ghost info: RequestInfo, ghost data: string)
    returns (verdict: Verdict, query: Option<nat>)
    requires conn.Valid() && conn.contentLen == -1 && conn.consumedContent == 0
    requires 0 < conn.requestLen <= |data| && conn.ToDeliver().Unread() == data[conn.requestLen..]
    requires InfoAt(conn.buf[..], ri, info, conn.requestLen - 1)
    modifies conn`contentLen, conn.buf
    ensures verdict == (if BadContentLength(info.headers) then Bad400 else Accepted)
    ensures verdict == Accepted ==>
      && conn.Valid() && SeesRequest(conn.buf[..], ri, query, info, conn.requestLen - 1)
      && BodyReady(conn.ToDeliver(), data, conn.requestLen, info.headers)
  {
    hide HandledPath, BadContentLength, BodyOf, HeadersAt, ContentLength, Body.Pending, QueryAt;
    query := None;
    ghost var s, unread := conn.buf[..], conn.ToDeliver().Unread();
    var ok := SetContentLength(conn, ri.headers, info.headers, conn.requestLen - 1);
    if !ok {
      return Bad400, query;
    }
    assert conn.buf[..] == s && conn.ToDeliver().Unread() == unread;
    BodyIsPending(conn.ToDeliver(), data, conn.requestLen, info.headers);
    query := RewriteUri(conn, ri.uri, info.uri);
    RequestStays(s, conn.buf[..], ri, info, conn.requestLen - 1, query);
    return Accepted, query;
  }

  // The head data[..n] has been received and parsed: `text` is the buffer, and `unread` what
  // is left of the stream.
  ghost predicate HeadParsed(data: string, n: int, text: string, unread: string, status: bool,
                             ri: InfoRef, info: Option<RequestInfo>)
  {
    && 0 < n <= |data| && IsHead(data, n) && unread == data[n..]
    && ParsedFrom(data, n, info)
    && (status ==> info.Some? && InfoAt(text, ri, info.value, n - 1))
    && (info.Some? ==> status)
  }

  // Parsing the head does not touch the part of the body that came in with it.
  method ParseHeadOf(conn: HttpConnection, ghost data: string)
    returns (status: bool, ri: InfoRef, ghost info: Option<RequestInfo>)
    requires conn.Valid() && 0 < conn.requestLen <= |data|
    requires conn.buf[..conn.requestLen] == data[..conn.requestLen]
    modifies conn.buf
    ensures conn.Valid() && conn.ToDeliver() == old(conn.ToDeliver())
    ensures ParsedFrom(data, conn.requestLen, info) && (status <==> info.Some?)
    ensures status ==> InfoAt(conn.buf[..], ri, info.value, conn.requestLen - 1)
  {
    hide ParseHead, IsHead, ReadLoop;
    ghost var s := conn.buf[..];
    InBufferIs(conn);
    status, ri, info := ParseReceived(conn.buf, conn.requestLen, data);
    InBufferIs(conn);
    PartStays(s, conn.buf[..], conn.requestLen, conn.requestLen + conn.consumedContent, conn.dataLen);
  }

  // Receives the head and parses it.
  method ReceiveParsed(conn: HttpConnection)
    returns (outcome: Outcome, ri: InfoRef, ghost info: Option<RequestInfo>, status: bool)
    requires conn.Valid()
    modifies conn, conn.buf, conn.sock
    ensures outcome == HeadReady <==> ReadLoop("", old(conn.sock.feed), conn.buf.Length).requestLen > 0
    ensures outcome == RequestTooLarge <==>
      var r := ReadLoop("", old(conn.sock.feed), conn.buf.Length); r.requestLen == 0 && |r.buf| == conn.buf.Length
    ensures outcome == HeadReady ==> conn.Valid() && conn.contentLen == -1
    ensures outcome == HeadReady ==>
      HeadParsed(old(conn.sock.feed.data), conn.requestLen, conn.buf[..], conn.ToDeliver().Unread(), status, ri, info)
  {
    hide ParseHead, IsHead, ReadLoop;
    ri, info, status := InfoRef(0, 0, 0, []), None, false;
    outcome := conn.ReceiveHead();
    if outcome == HeadReady {
      HeadBounds(old(conn.sock.feed.data), conn.requestLen);
      status, ri, info := ParseHeadOf(conn, old(conn.sock.feed.data));
    }
  }

  // The answer to a head that parsed to `info`.
  function Judge(info: Option<RequestInfo>): Verdict {
    if info.None? then Bad400
    else if info.value.httpVersion != "1.0" && info.value.httpVersion != "1.1" then Version505
    else if BadContentLength(info.value.headers) then Bad400
    else Accepted
  }

  // What follows the parsing of the head.
  method PrepareRequest(conn: HttpConnection, status: bool, ri: InfoRef, ghost info: Option<RequestInfo>,
                        ghost data: string)
    returns (verdict: Verdict, query: Option<nat>)
    requires conn.Valid() && conn.contentLen == -1 && conn.requestLen > 0
    requires HeadParsed(data, conn.requestLen, conn.buf[..], conn.ToDeliver().Unread(), status, ri, info)
    modifies conn`contentLen, conn.buf
    ensures verdict == Judge(info)
    ensures verdict == Accepted ==>
      && conn.Valid() && SeesRequest(conn.buf[..], ri, query, info.value, conn.requestLen - 1)
      && BodyReady(conn.ToDeliver(), data, conn.requestLen, info.value.headers)
  {
    hide ParseHead, IsHead, ReadLoop, SeesRequest, BodyReady, ParsedFrom, BadContentLength, HeadersAt, HeadersFrom;
    verdict, query := Bad400, None;
    if status {
      HoldsIsCStr(conn.buf[..], ri.httpVersion, info.value.httpVersion);
      var version := CStr(conn.buf[..], ri.httpVersion);
      if version != "1.0" && version != "1.1" {
        verdict := Version505;
      } else {
        verdict, query := PrepareParsed(conn, ri, info.value, data);
      }
    }
  }

  /** process_new_connection and handle_request up to the call of the callback: 413 is the
      answer exactly when the buffer is full without a head; an accepted request was parsed
      from the head of the byte stream, its strings are in place, the URI decoded and cleaned,
      and the body to be delivered is what follows the head. */
  method Prepare(conn: HttpConnection)
    returns (verdict: Verdict, ri: InfoRef, query: Option<nat>, ghost info: Option<RequestInfo>)
    requires conn.Valid()
    modifies conn, conn.buf, conn.sock
    ensures var r := ReadLoop("", old(conn.sock.feed), conn.buf.Length);
      && (verdict == TooLarge413 <==> r.requestLen == 0 && |r.buf| == conn.buf.Length)
      && (verdict == TooLarge413 || verdict == Closed <==> r.requestLen <= 0)
    ensures var data, n := old(conn.sock.feed.data), conn.requestLen;
      verdict != TooLarge413 && verdict != Closed ==>
      0 < n <= |data| && IsHead(data, n) && ParsedFrom(data, n, info) && verdict == Judge(info)
    ensures verdict == Accepted ==>
      && conn.Valid() && SeesRequest(conn.buf[..], ri, query, info.value, conn.requestLen - 1)
      && BodyReady(conn.ToDeliver(), old(conn.sock.feed.data), conn.requestLen, info.value.headers)
  {
    hide ParseHead, IsHead, ReadLoop, SeesRequest, BodyReady;
    var outcome, status;
    query := None;
    outcome, ri, info, status := ReceiveParsed(conn);
    if outcome != HeadReady {
      verdict := if outcome == RequestTooLarge then TooLarge413 else Closed;
    } else {
      verdict, query := PrepareRequest(conn, status, ri, info, old(conn.sock.feed.data));
    }
  }

  // A request whose head is data[..n]: what a callback that asks for `size` bytes of the body was
  // given and what is left.
  ghost predicate Delivered(data: string, n: int, info: RequestInfo, size: nat, body: string, unread: string) {
    && 0 < n <= |data|
    && var all := BodyOf(data, n, info.headers);
    body == Prefix(all, size) && unread == data[n..][|all|..]
  }

  /** process_new_connection: the callback of an accepted request finds its strings, with the
      decoded and cleaned path in place of the URI, and is given the body's first bytes,
      exactly those after the head; afterwards exactly the bytes after the body are left. */
  method ProcessNewConnection(conn: HttpConnection, sizes: seq<nat>)
    returns (verdict: Verdict, ri: InfoRef, query: Option<nat>, ghost info: Option<RequestInfo>, body: string)
    requires conn.Valid() && forall i :: 0 <= i < |sizes| ==> sizes[i] <= INT_MAX
    modifies conn, conn.buf, conn.sock
    ensures var r := ReadLoop("", old(conn.sock.feed), conn.buf.Length);
      && (verdict == TooLarge413 <==> r.requestLen == 0 && |r.buf| == conn.buf.Length)
      && (verdict == TooLarge413 || verdict == Closed <==> r.requestLen <= 0)
    ensures var data, n := old(conn.sock.feed.data), conn.requestLen;
      verdict != TooLarge413 && verdict != Closed ==>
      0 < n <= |data| && IsHead(data, n) && ParsedFrom(data, n, info) && verdict == Judge(info)
    ensures verdict == Accepted ==>
      && conn.Valid() && SeesRequest(conn.buf[..], ri, query, info.value, conn.requestLen - 1)
      && Delivered(old(conn.sock.feed.data), conn.requestLen, info.value, Sum(sizes), body, conn.ToDeliver().Unread())
  {
    hide ParseHead, IsHead, ReadLoop, SeesRequest, BodyOf, Body.Pending, Prefix, ParsedFrom;
    body := "";
    verdict, ri, query, info := Prepare(conn);
    if verdict == Accepted {
      body := ServeBody(conn, sizes);
    }
  }
}
