/**
 The DIAL server as a whole on one connection: process_new_connection (server/mongoose.c)
 with request_handler (server/dial_server.c) as its callback, from the bytes that a client
 sends to the registered applications.
 */
module DialService {
  import opened Wrappers
  import opened CStrings
  import opened UriPath
  import opened RequestHead
  import opened RequestParser
  import opened Connection
  import opened HttpEngine
  import opened RequestRoundTrip
  import opened DialApps
  import opened Registry
  import opened Routing
  import opened RequestHandler

  // The strings of the headers, as request_handler reads them from the buffer.
  method ReadHeaders(buf: array<char>, refs: seq<HeaderRef>, ghost hs: seq<Header>, ghost z: nat)
    returns (headers: seq<Header>)
    requires HeadersAt(buf[..], refs, hs, z)
    ensures headers == hs
  {
    headers := [];
    var i := 0;
    while i < |refs|
      invariant i <= |refs| && headers == hs[..i]
    {
      assert HeaderAt(buf[..], refs[i], hs[i], z);
      HoldsIsCStr(buf[..], refs[i].name, hs[i].name);
      HoldsIsCStr(buf[..], refs[i].value, hs[i].value);
      headers := headers + [Header(CStr(buf[..], refs[i].name), CStr(buf[..], refs[i].value))];
      i := i + 1;
    }
  }

  // The strings that the callback finds.
  method ReadRequest(buf: array<char>, ri: InfoRef, query: Option<nat>, ghost info: RequestInfo, ghost z: nat)
    returns (requestMethod: string, uri: string, queryText: Option<string>, headers: seq<Header>)
    requires SeesRequest(buf[..], ri, query, info, z)
    ensures requestMethod == info.requestMethod && uri == HandledPath(info.uri)
    ensures queryText == RawQuery(info.uri) && headers == info.headers
  {
    hide HandledPath, RawQuery, HoldsAt;
    HoldsIsCStr(buf[..], ri.requestMethod, info.requestMethod);
    HoldsIsCStr(buf[..], ri.uri, HandledPath(info.uri));
    requestMethod, uri, queryText := CStr(buf[..], ri.requestMethod), CStr(buf[..], ri.uri), None;
    if query.Some? {
      HoldsIsCStr(buf[..], query.value, RawQuery(info.uri).value);
      queryText := Some(CStr(buf[..], query.value));
    }
    headers := ReadHeaders(buf, ri.headers, info.headers, z);
  }

  // request_handler on the strings that it finds in the buffer.
  method HandleBuffered(server: DialServer, conn: HttpConnection, ri: InfoRef, query: Option<nat>, env: Surroundings,
                        ghost info: RequestInfo, ghost z: nat)
    returns (answer: Answer, ghost body: string)
    requires server.Valid() && conn.Valid() && conn.buf !in server.Buffers()
    requires SeesRequest(conn.buf[..], ri, query, info, z)
    modifies conn`consumedContent, conn.sock, server`model, server`files, server.nodes, server.Buffers()
    ensures server.Valid() && conn.Valid()
    ensures HandledRequest(server.nodes, old((server.model, server.files)), info, env, body, answer,
                           (server.model, server.files))
    ensures AllPermitted(server.nodes, old(server.model), server.model, info.requestMethod, env, answer)
    ensures Got(old(conn.ToDeliver()), BytesAsked(old(server.model), answer.action), body, conn.ToDeliver())
  {
    hide SeesRequest, HandledPath, RawQuery, Got, Handled, BytesAsked, AllPermitted;
    var requestMethod, uri, queryText, headers := ReadRequest(conn.buf, ri, query, info, z);
    answer, body := HandleRequest(server, conn, uri, queryText, requestMethod, headers, env);
  }

  // request_handler, and the discarding of what it left unread.
  method ServeReady(server: DialServer, conn: HttpConnection, ri: InfoRef, query: Option<nat>, env: Surroundings,
                    ghost info: RequestInfo, ghost z: nat)
    returns (answer: Answer, ghost body: string)
    requires server.Valid() && conn.Valid() && conn.buf !in server.Buffers()
    requires SeesRequest(conn.buf[..], ri, query, info, z)
    modifies conn`consumedContent, conn.sock, server`model, server`files, server.nodes, server.Buffers()
    ensures server.Valid() && conn.Valid()
    ensures HandledRequest(server.nodes, old((server.model, server.files)), info, env, body, answer,
                           (server.model, server.files))
    ensures AllPermitted(server.nodes, old(server.model), server.model, info.requestMethod, env, answer)
    ensures Served(old(conn.ToDeliver()), BytesAsked(old(server.model), answer.action), body, conn.ToDeliver().Unread())
  {
    hide Prefix, SeesRequest, Body.Pending, Body.Unread, Got, HandledRequest, BytesAsked, AllPermitted;
    ghost var b, apps := conn.ToDeliver(), server.model;
    answer, body := HandleBuffered(server, conn, ri, query, env, info, z);
    ghost var c := conn.ToDeliver();
    Discard(server, conn);
    ServedAll(b, BytesAsked(apps, answer.action), body, c, conn.ToDeliver());
  }

  // The request has been handled on its decoded and cleaned path and its query.
  ghost predicate HandledRequest(nodes: seq<DialApp>, before: (seq<App>, map<string, string>), info: RequestInfo,
                                 env: Surroundings, body: string, answer: Answer,
                                 after: (seq<App>, map<string, string>))
  {
    Handled(nodes, before, HandledPath(info.uri), RawQuery(info.uri), info.requestMethod, info.headers, env, body,
            answer, after)
  }

  // Discarding leaves the applications alone.
  method Discard(server: DialServer, conn: HttpConnection)
    requires server.Valid() && conn.Valid()
    modifies conn`consumedContent, conn.sock
    ensures server.Valid() && conn.Valid()
    ensures var c := old(conn.ToDeliver()); var n := |c.Pending()|;
      n <= |c.Unread()| && conn.ToDeliver() == c.After(n)
  {
    hide Prefix, Body.Pending, Body.Unread, Body.After;
    conn.DiscardCurrentRequest();
  }

  // Receiving and parsing leaves the applications alone.
  method Receive(server: DialServer, conn: HttpConnection)
    returns (verdict: Verdict, ri: InfoRef, query: Option<nat>, ghost info: Option<RequestInfo>)
    requires server.Valid() && conn.Valid() && conn.buf !in server.Buffers()
    modifies conn, conn.buf, conn.sock
    ensures server.Valid()
    ensures HeadAnswered(old(conn.sock.feed), conn.buf.Length, conn.requestLen, verdict, info)
    ensures verdict == Accepted ==>
      && conn.Valid() && SeesRequest(conn.buf[..], ri, query, info.value, conn.requestLen - 1)
      && BodyReady(conn.ToDeliver(), old(conn.sock.feed.data), conn.requestLen, info.value.headers)
  {
    hide ParseHead, IsHead, ReadLoop, SeesRequest, BodyReady, ParsedFrom;
    verdict, ri, query, info := Prepare(conn);
  }

  // What the engine makes of the head: which refusal, or what the first n bytes parse to.
  ghost predicate HeadAnswered(feed: Feed, bufsiz: nat, n: int, verdict: Verdict, info: Option<RequestInfo>) {
    var r := ReadLoop("", feed, bufsiz);
    && (verdict == TooLarge413 <==> r.requestLen == 0 && |r.buf| == bufsiz)
    && (verdict == TooLarge413 || verdict == Closed <==> r.requestLen <= 0)
    && (verdict != TooLarge413 && verdict != Closed ==>
        && 0 < n <= |feed.data| && IsHead(feed.data, n) && ParsedFrom(feed.data, n, info)
        && verdict == Judge(info))
  }

  /** One request, from any stream of bytes to the applications: a request that the engine
      refuses changes nothing; else the action is the routing of the handled path, with the
      origin check of the registry, and has its effect with the body that follows the head, as
      far as it asks for it; no application changes without permission, and what follows the
      body is left. */
  method ServeAny(server: DialServer, conn: HttpConnection, env: Surroundings)
    returns (verdict: Verdict, answer: Answer, ghost info: Option<RequestInfo>, ghost body: string)
    requires server.Valid() && conn.Valid() && conn.buf !in server.Buffers()
    modifies conn, conn.buf, conn.sock, server`model, server`files, server.nodes, server.Buffers()
    ensures server.Valid() && HeadAnswered(old(conn.sock.feed), conn.buf.Length, conn.requestLen, verdict, info)
    ensures verdict != Accepted ==> server.model == old(server.model) && server.files == old(server.files)
    ensures verdict == Accepted ==>
      && HandledRequest(server.nodes, old((server.model, server.files)), info.value, env, body, answer,
                        (server.model, server.files))
      && AllPermitted(server.nodes, old(server.model), server.model, info.value.requestMethod, env, answer)
    ensures verdict == Accepted ==>
      && conn.Valid()
      && Delivered(old(conn.sock.feed.data), conn.requestLen, info.value,
                   BytesAsked(old(server.model), answer.action), body, conn.ToDeliver().Unread())
  {
    hide Prefix, SeesRequest, Body.Pending, Body.Unread, BodyOf, ParsedFrom, IsHead, ReadLoop;
    hide HandledRequest, AllPermitted, BytesAsked;
    answer, body := Answer(ErrorReply(400), Plainly(400), "", false, None), "";
    var ri, query;
    verdict, ri, query, info := Receive(server, conn);
    if verdict == Accepted {
      answer, body := ServeReady(server, conn, ri, query, env, info.value, conn.requestLen - 1);
    }
  }

  // What the engine answers to a request that a client has written.
  lemma SentIsAnswered(r: RequestInfo, sent: string, feed: Feed, bufsiz: nat, n: int, verdict: Verdict,
                       info: Option<RequestInfo>)
    requires Writable(r) && Receivable(r, sent, bufsiz) && feed.data == Sent(r, sent)
    requires HeadAnswered(feed, bufsiz, n, verdict, info)
    ensures n == HeadLen(r) <= |Sent(r, sent)| && info == Some(Kept16(r)) && verdict == Judge(info)
  {
    hide IsHead, RenderHead, ReadLoop, ParsedFrom, WellFormed, Free, Receivable, HasHead, Sent, HeadLen, Judge, Kept16;
    HeadIsAlwaysFound(r, sent, feed, bufsiz);
    RenderedHeadEnds(r, sent);
    BodyFollows(r, sent);
    HeadIsUnique(Sent(r, sent), HeadLen(r), n);
    SentIsParsedBack(r, sent, info);
  }

  lemma SentIsDelivered(r: RequestInfo, sent: string, size: nat, body: string, unread: string)
    requires Delivered(Sent(r, sent), HeadLen(r), Kept16(r), size, body, unread)
    ensures body == Prefix(BodySent(r, sent), size)
    ensures |BodySent(r, sent)| <= |sent| && unread == sent[|BodySent(r, sent)|..]
  {
    hide RenderHead, ContentLength;
    BodyFollows(r, sent);
  }

  /** The same for a request that a client has written: it is the request that is handled, with
      the body that was sent. */
  method Serve(server: DialServer, conn: HttpConnection, env: Surroundings, ghost r: RequestInfo, ghost sent: string)
    returns (verdict: Verdict, answer: Answer, ghost body: string)
    requires server.Valid() && conn.Valid() && conn.buf !in server.Buffers()
    requires Writable(r) && Receivable(r, sent, conn.buf.Length) && conn.sock.feed.data == Sent(r, sent)
    modifies conn, conn.buf, conn.sock, server`model, server`files, server.nodes, server.Buffers()
    ensures server.Valid() && verdict == Judge(Some(Kept16(r)))
    ensures verdict != Accepted ==> server.model == old(server.model) && server.files == old(server.files)
    ensures verdict == Accepted ==>
      && HandledRequest(server.nodes, old((server.model, server.files)), Kept16(r), env, body, answer,
                        (server.model, server.files))
      && AllPermitted(server.nodes, old(server.model), server.model, r.requestMethod, env, answer)
      && body == Prefix(BodySent(r, sent), BytesAsked(old(server.model), answer.action))
      && conn.Valid() && conn.ToDeliver().Unread() == sent[|BodySent(r, sent)|..]
  {
    hide Prefix, Judge, RenderHead, Body.Unread, BodySent, Delivered, HeadAnswered;
    hide HandledRequest, AllPermitted, BytesAsked, Sent, Writable, Receivable;
    ghost var feed, apps, info := conn.sock.feed, server.model, None;
    verdict, answer, info, body := ServeAny(server, conn, env);
    SentIsAnswered(r, sent, feed, conn.buf.Length, conn.requestLen, verdict, info);
    if verdict == Accepted {
      SentIsDelivered(r, sent, BytesAsked(apps, answer.action), body, conn.ToDeliver().Unread());
    }
  }
}
