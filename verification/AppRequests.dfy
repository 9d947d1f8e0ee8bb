/**
 The requests that a DIAL client makes of an application, each from the bytes that are sent to
 the answer and to what it leaves behind (the handlers of server/dial_server.c, called as
 `DialService` says).
 */
module AppRequests {
  import opened Wrappers
  import opened CStrings
  import opened UriPath
  import opened RequestHead
  import opened RequestParser
  import opened Connection
  import opened HttpEngine
  import opened RequestRoundTrip
  import DialData
  import opened DialApps
  import opened Registry
  import opened Routing
  import opened Peer
  import opened RequestHandler
  import opened RequestRouting
  import opened StatusReply
  import opened StatusReader
  import opened DialService

  // ---------------------------------------------------------- stop, hide and status

  // A request for an application, as a client writes it, that the engine takes.
  ghost predicate IsRequest(r: RequestInfo, name: string, t: Tail, query: Option<string>, requestMethod: string) {
    && PlainName(name) && NameWorks(name) && Intended(name, t, requestMethod).Some?
    && r == AppRequest(name, t, query, requestMethod, r.headers)
    && |r.headers| <= MAX_HEADERS && AllWellFormed(r.headers) && LengthIsGood(r.headers)
    && !QueryHasBlankLine(query) && (query.Some? ==> Free(query.value, " "))
  }

  lemma AllHeadersKept(r: RequestInfo)
    requires |r.headers| <= MAX_HEADERS
    ensures Kept16(r) == r
  {
  }

  lemma RequestIsAccepted(r: RequestInfo, name: string, t: Tail, query: Option<string>, requestMethod: string)
    requires IsRequest(r, name, t, query, requestMethod)
    ensures Writable(r) && Judge(Some(Kept16(r))) == Accepted
  {
    hide PlainName, Intended, AllWellFormed, Free, HasHead, BadContentLength, Writable, AppPath, WithQuery;
    RequestIsWritable(name, t, query, requestMethod, r.headers);
    AllHeadersKept(r);
    AllHeadersKept(RequestInfo("", "", "", r.headers));
  }

  // What a handled request leads to.
  lemma ActionArrives(nodes: seq<DialApp>, before: (seq<App>, map<string, string>), r: RequestInfo, env: Surroundings,
                      body: string, answer: Answer, after: (seq<App>, map<string, string>), name: string, t: Tail,
                      query: Option<string>, requestMethod: string)
    requires IsRequest(r, name, t, query, requestMethod)
    requires HandledRequest(nodes, before, Kept16(r), env, body, answer, after)
    ensures answer.action == if MayCall(nodes, answer.origin, name) && (t == DataTail ==> IsLocal(env.peer))
                             then Intended(name, t, requestMethod).value else ErrorReply(403)
  {
    hide PlainName, AllWellFormed, Free, HasHead, LengthIsGood, AppPath, WithQuery, HandledPath, RawQuery, Dispatch;
    hide Effect, FilesAfter, OriginIs, MayCall, SentBy, IsLocal;
    AllHeadersKept(r);
    EveryNameIsReached(name, t, query, requestMethod, IsLocal(env.peer), Permission(nodes, answer.origin));
  }

  // The answer to a stop, and what it leaves behind.
  ghost predicate StopAnswered(nodes: seq<DialApp>, was: seq<App>, apps: seq<App>, name: string, statusCb: Status,
                               answer: Answer)
  {
    if MayCall(nodes, answer.origin, name) then
      StopDone(was, name, statusCb, apps, answer.reply) && (answer.stopped <==> answer.reply == Plainly(200))
    else answer.reply == Plainly(403) && apps == was && !answer.stopped
  }

  lemma StopArrives(nodes: seq<DialApp>, before: (seq<App>, map<string, string>), r: RequestInfo, env: Surroundings,
                    body: string, answer: Answer, after: (seq<App>, map<string, string>), name: string,
                    query: Option<string>)
    requires IsRequest(r, name, RunTail, query, "DELETE")
    requires HandledRequest(nodes, before, Kept16(r), env, body, answer, after)
    ensures StopAnswered(nodes, before.0, after.0, name, env.cb.status, answer) && after.1 == before.1
  {
    hide IsRequest, Dispatch, MayCall, ServeList, StopDone, OriginIs, HandledPath, RawQuery, SentBy, Kept16;
    ActionArrives(nodes, before, r, env, body, answer, after, name, RunTail, query, "DELETE");
    ListStop(before.0, name, env.cb.status);
  }

  /** A stop, from the bytes that the client sends to the application: when its origin is
      permitted, 200 exactly for an application that is registered, is not the system's and is not
      stopped yet, and then it is told to stop and is Stopped; 403 and no change without
      permission. */
  method StopApp(server: DialServer, conn: HttpConnection, env: Surroundings, ghost r: RequestInfo, ghost sent: string,
                 ghost name: string, ghost query: Option<string>)
    returns (answer: Answer)
    requires server.Valid() && conn.Valid() && conn.buf !in server.Buffers()
    requires IsRequest(r, name, RunTail, query, "DELETE") && Receivable(r, sent, conn.buf.Length)
    requires conn.sock.feed.data == Sent(r, sent)
    modifies conn, conn.buf, conn.sock, server`model, server`files, server.nodes, server.Buffers()
    ensures server.Valid() && server.files == old(server.files)
    ensures StopAnswered(server.nodes, old(server.model), server.model, name, env.cb.status, answer)
  {
    hide IsRequest, Receivable, Sent, Writable, Judge, Kept16, HandledRequest, AllPermitted, BytesAsked, Prefix;
    hide BodySent, Body.Unread, StopAnswered;
    ghost var before, nodes := (server.model, server.files), server.nodes;
    RequestIsAccepted(r, name, RunTail, query, "DELETE");
    var verdict;
    ghost var body;
    verdict, answer, body := DialService.Serve(server, conn, env, r, sent);
    StopArrives(nodes, before, r, env, body, answer, (server.model, server.files), name, query);
  }

  ghost predicate HideAnswered(nodes: seq<DialApp>, was: seq<App>, apps: seq<App>, name: string, cb: Callbacks,
                               answer: Answer)
  {
    if MayCall(nodes, answer.origin, name) then HideDone(was, name, cb.status, cb.hide_, apps, answer.reply)
    else answer.reply == Plainly(403) && apps == was
  }

  lemma HideArrives(nodes: seq<DialApp>, before: (seq<App>, map<string, string>), r: RequestInfo, env: Surroundings,
                    body: string, answer: Answer, after: (seq<App>, map<string, string>), name: string,
                    query: Option<string>)
    requires IsRequest(r, name, HideTail, query, "POST")
    requires HandledRequest(nodes, before, Kept16(r), env, body, answer, after)
    ensures HideAnswered(nodes, before.0, after.0, name, env.cb, answer) && after.1 == before.1
  {
    hide IsRequest, Dispatch, MayCall, ServeList, HideDone, OriginIs, HandledPath, RawQuery, SentBy, Kept16;
    ActionArrives(nodes, before, r, env, body, answer, after, name, HideTail, query, "POST");
    ListHide(before.0, name, env.cb.status, env.cb.hide_);
  }

  /** A hide, from the bytes to the application: 200 exactly for an application that runs or is
      hidden and whose hide_cb hides it, and then it is hidden. */
  method HideTheApp(server: DialServer, conn: HttpConnection, env: Surroundings, ghost r: RequestInfo,
                    ghost sent: string, ghost name: string, ghost query: Option<string>)
    returns (answer: Answer)
    requires server.Valid() && conn.Valid() && conn.buf !in server.Buffers()
    requires IsRequest(r, name, HideTail, query, "POST") && Receivable(r, sent, conn.buf.Length)
    requires conn.sock.feed.data == Sent(r, sent)
    modifies conn, conn.buf, conn.sock, server`model, server`files, server.nodes, server.Buffers()
    ensures server.Valid() && server.files == old(server.files)
    ensures HideAnswered(server.nodes, old(server.model), server.model, name, env.cb, answer)
  {
    hide IsRequest, Receivable, Sent, Writable, Judge, Kept16, HandledRequest, AllPermitted, BytesAsked, Prefix;
    hide BodySent, Body.Unread, HideAnswered;
    ghost var before, nodes := (server.model, server.files), server.nodes;
    RequestIsAccepted(r, name, HideTail, query, "POST");
    var verdict;
    ghost var body;
    verdict, answer, body := DialService.Serve(server, conn, env, r, sent);
    HideArrives(nodes, before, r, env, body, answer, (server.model, server.files), name, query);
  }

  lemma QueryIsKept(name: string, t: Tail, query: Option<string>)
    requires PlainName(name)
    ensures RawQuery(WithQuery(AppPath(name, t), query)) == query
  {
    hide AppPath;
    var path, uri := AppPath(name, t), WithQuery(AppPath(name, t), query);
    PathUndecoded(name, t);
    assert forall i :: 0 <= i < |path| ==> uri[i] == path[i];
    SpanIs(uri, 0, IsQuestionMark(), |path|);
    if query.Some? {
      assert uri[|path| + 1..] == query.value;
    }
  }

  // What a client of this version is told of the application.
  function Told(statusCb: Status, oldClient: bool): string {
    if statusCb == Running then "running" else if statusCb == Hide && !oldClient then "hidden" else "stopped"
  }

  // The answer to a status request, and what it leaves behind.
  ghost predicate StatusAnswered(nodes: seq<DialApp>, was: seq<App>, apps: seq<App>, name: string,
                                 query: Option<string>, env: Surroundings, answer: Answer)
  {
    if !MayCall(nodes, answer.origin, name) then answer.reply == Plainly(403) && apps == was
    else
      var i := Index(was, name);
      if i == |was| then answer.reply == Plainly(404) && apps == was
      else
        && answer.reply.code == 200 && apps == was[i := was[i].(state := env.cb.status)]
        && ('<' !in name && |OriginText(answer.origin)| + |name| <= MAX_REQUEST_SIZE ==>
            StateRead(BodyReceived(answer.sent, answer.origin))
              == Some(Told(env.cb.status, OldClient(query, env.atof))))
  }

  lemma ListStatus(apps: seq<App>, name: string, oldClient: bool, statusCb: Status)
    ensures var (after, reply) := ServeList(apps, GetStatus(name, oldClient), Results(statusCb, Stopped));
      var i := Index(apps, name);
      if i == |apps| then reply == Plainly(404) && after == apps
      else reply.code == 200 && after == apps[i := apps[i].(state := statusCb)]
  {
  }

  lemma StatusArrives(nodes: seq<DialApp>, before: (seq<App>, map<string, string>), r: RequestInfo, env: Surroundings,
                      body: string, answer: Answer, after: (seq<App>, map<string, string>), name: string,
                      query: Option<string>)
    requires IsRequest(r, name, NoTail, query, "GET")
    requires HandledRequest(nodes, before, Kept16(r), env, body, answer, after)
    ensures StatusAnswered(nodes, before.0, after.0, name, query, env, answer) && after.1 == before.1
  {
    hide Dispatch, MayCall, ServeList, OriginIs, HandledPath, RawQuery, SentTo, Kept16, OldClient, Index, AppPath;
    hide WithQuery, StateRead, BodyReceived, OriginText, NameWorks, AllWellFormed, LengthIsGood, Free, PlainName;
    ActionArrives(nodes, before, r, env, body, answer, after, name, NoTail, query, "GET");
    QueryIsKept(name, NoTail, query);
    AllHeadersKept(r);
    var oldClient := OldClient(query, env.atof);
    ListStatus(before.0, name, oldClient, env.cb.status);
    if MayCall(nodes, answer.origin, name) && Index(before.0, name) < |before.0| &&
       '<' !in name && |OriginText(answer.origin)| + |name| <= MAX_REQUEST_SIZE {
      ClientReadsState(before.0, name, oldClient, env.cb.status, env.cb.canStop, answer.origin);
    }
  }

  /** A status request, from the bytes to what the client reads: its state is what status_cb says,
      told as the client's version has it. */
  method StatusOf(server: DialServer, conn: HttpConnection, env: Surroundings, ghost r: RequestInfo,
                  ghost sent: string, ghost name: string, ghost query: Option<string>)
    returns (answer: Answer)
    requires server.Valid() && conn.Valid() && conn.buf !in server.Buffers()
    requires IsRequest(r, name, NoTail, query, "GET") && Receivable(r, sent, conn.buf.Length)
    requires conn.sock.feed.data == Sent(r, sent)
    modifies conn, conn.buf, conn.sock, server`model, server`files, server.nodes, server.Buffers()
    ensures server.Valid() && server.files == old(server.files)
    ensures StatusAnswered(server.nodes, old(server.model), server.model, name, query, env, answer)
  {
    hide IsRequest, Receivable, Sent, Writable, Judge, Kept16, HandledRequest, AllPermitted, BytesAsked, Prefix;
    hide BodySent, Body.Unread, StatusAnswered;
    ghost var before, nodes := (server.model, server.files), server.nodes;
    RequestIsAccepted(r, name, NoTail, query, "GET");
    var verdict;
    ghost var body;
    verdict, answer, body := DialService.Serve(server, conn, env, r, sent);
    StatusArrives(nodes, before, r, env, body, answer, (server.model, server.files), name, query);
  }

  // ------------------------------------------------------------------- launch and data

  // The request carries this payload, with the length it says; more may follow.
  ghost predicate Carries(r: RequestInfo, sent: string, payload: string) {
    ContentLength(r.headers) == |payload| && payload <= sent
  }

  lemma PayloadIsRead(r: RequestInfo, payload: string, sent: string, size: nat)
    requires |r.headers| <= MAX_HEADERS && Carries(r, sent, payload)
    ensures Prefix(BodySent(r, sent), size) == Prefix(payload, size)
  {
    hide ContentLength;
    AllHeadersKept(r);
    assert BodySent(r, sent) == payload;
  }

  // The answer to a start, and what it leaves behind: 404, 413 or 400 and no change, or the state
  // that start_cb returns, with its code, and the payload for Running.
  ghost predicate StartDone(was: seq<App>, name: string, payload: string, startCb: Status, apps: seq<App>,
                            reply: Reply)
  {
    var i := Index(was, name);
    if i == |was| then reply == Plainly(404) && apps == was
    else if |payload| > 4096 then reply == Plainly(413) && apps == was
    else if !Printable(payload) then reply == Plainly(400) && apps == was
    else
      && |apps| == |was| && apps == was[i := apps[i]]
      && Launched(was[i], apps[i], payload, startCb) && reply == Plainly(CodeOf(startCb))
  }

  ghost predicate Launched(a: App, b: App, payload: string, startCb: Status) {
    && b == a.(state := startCb, payload := b.payload)
    && (if startCb == Running then IsStored(b.payload, payload) else b.payload == a.payload)
  }

  // The codes for what start_cb may return.
  function CodeOf(startCb: Status): nat {
    match startCb
    case Running => 201
    case ErrorUnauth => 401
    case ErrorForbidden => 403
    case ErrorNotImplemented => 501
    case Stopped | Hide | Error => 503
  }

  lemma ListStart(apps: seq<App>, name: string, body: string, startCb: Status)
    ensures var (after, reply) := ServeList(apps, Start(name, body), Results(startCb, Stopped));
      StartDone(apps, name, body, startCb, after, reply)
  {
    PrintableIs(body);
    hide BadPayload, Printable;
    var i := Index(apps, name);
    if i < |apps| {
      assert apps[i := apps[i]] == apps;
      if StartCheck(body) == None {
        assert Padded(body)[..|body|] == body;
      }
    }
  }

  // A payload that is cut off is too long either way.
  lemma CutStart(was: seq<App>, name: string, payload: string, startCb: Status, apps: seq<App>, reply: Reply)
    requires StartDone(was, name, Prefix(payload, START_BODY_SIZE), startCb, apps, reply)
    ensures StartDone(was, name, payload, startCb, apps, reply)
  {
    hide Index, Launched, Printable;
    assert |payload| <= START_BODY_SIZE ==> Prefix(payload, START_BODY_SIZE) == payload;
  }

  ghost predicate StartAnswered(nodes: seq<DialApp>, was: seq<App>, apps: seq<App>, name: string, payload: string,
                                startCb: Status, answer: Answer)
  {
    if MayCall(nodes, answer.origin, name) then StartDone(was, name, payload, startCb, apps, answer.reply)
    else answer.reply == Plainly(403) && apps == was
  }

  lemma StartArrives(nodes: seq<DialApp>, before: (seq<App>, map<string, string>), r: RequestInfo, sent: string,
                     env: Surroundings, body: string, answer: Answer, after: (seq<App>, map<string, string>),
                     name: string, query: Option<string>, payload: string)
    requires IsRequest(r, name, NoTail, query, "POST") && Carries(r, sent, payload)
    requires HandledRequest(nodes, before, Kept16(r), env, body, answer, after)
    requires body == Prefix(BodySent(r, sent), BytesAsked(before.0, answer.action))
    ensures StartAnswered(nodes, before.0, after.0, name, payload, env.cb.start, answer) && after.1 == before.1
  {
    hide Dispatch, MayCall, ServeList, OriginIs, HandledPath, RawQuery, SentBy, Kept16, Launched, Prefix;
    hide Printable, BodySent, Carries, PlainName, NameWorks, AllWellFormed, LengthIsGood, Free, AppPath, WithQuery;
    ActionArrives(nodes, before, r, env, body, answer, after, name, NoTail, query, "POST");
    PayloadIsRead(r, payload, sent, START_BODY_SIZE);
    ListStart(before.0, name, body, env.cb.start);
    if MayCall(nodes, answer.origin, name) && Index(before.0, name) < |before.0| {
      CutStart(before.0, name, payload, env.cb.start, after.0, answer.reply);
    }
  }

  /** A launch, from the bytes that the client sends to the application: when its origin is
      permitted, the one that is named gets exactly the payload that was sent, is in the state that
      start_cb returns, and the code is that state's; 413 exactly for more than 4096 bytes, 400
      exactly for bytes that are not printable; nothing else changes. */
  method Launch(server: DialServer, conn: HttpConnection, env: Surroundings, ghost r: RequestInfo, ghost sent: string,
                ghost name: string, ghost query: Option<string>, ghost payload: string)
    returns (answer: Answer)
    requires server.Valid() && conn.Valid() && conn.buf !in server.Buffers()
    requires IsRequest(r, name, NoTail, query, "POST") && Carries(r, sent, payload)
    requires Receivable(r, sent, conn.buf.Length) && conn.sock.feed.data == Sent(r, sent)
    modifies conn, conn.buf, conn.sock, server`model, server`files, server.nodes, server.Buffers()
    ensures server.Valid() && server.files == old(server.files)
    ensures StartAnswered(server.nodes, old(server.model), server.model, name, payload, env.cb.start, answer)
  {
    hide IsRequest, Receivable, Sent, Writable, Judge, Kept16, HandledRequest, AllPermitted, BytesAsked, Prefix;
    hide BodySent, Body.Unread, StartAnswered, Carries;
    ghost var before, nodes := (server.model, server.files), server.nodes;
    RequestIsAccepted(r, name, NoTail, query, "POST");
    var verdict;
    ghost var body;
    verdict, answer, body := DialService.Serve(server, conn, env, r, sent);
    StartArrives(nodes, before, r, sent, env, body, answer, (server.model, server.files), name, query, payload);
  }

  // The answer to a data request with this text, and what it leaves behind.
  ghost predicate DataDone(before: (seq<App>, map<string, string>), name: string, text: string,
                           after: (seq<App>, map<string, string>), reply: Reply)
  {
    var i := Index(before.0, name);
    if i == |before.0| then reply == Plainly(404) && after == before
    else if |text| > 4096 then reply == Plainly(413) && after == before
    else if !Printable(text) then reply == Plainly(400) && after == before
    else
      && reply == Plainly(200)
      && after.0 == before.0[i := before.0[i].(dialData := DialData.Parsed(Some(text)))]
      && after.1 == before.1[name := DialData.Stored(DialData.Parsed(Some(text)))]
  }

  lemma ListData(before: (seq<App>, map<string, string>), name: string, query: Option<string>, body: string,
                 usePayload: bool, after: (seq<App>, map<string, string>), reply: Reply)
    requires (after.0, reply) == ServeList(before.0, SetData(name, query, body, usePayload), NO_RESULTS)
    requires FilesAfter(before.1, after.1, CallData(name, usePayload), before.0, after.0, reply)
    ensures DataDone(before, name, RequestData(query, body, usePayload), after, reply)
  {
    PrintableIs(RequestData(query, body, usePayload));
    hide BadPayload, Printable, DialData.Parsed, DialData.Stored;
    var i := Index(before.0, name);
    if i < |before.0| {
      assert before.0[i := before.0[i]] == before.0;
    }
  }

  ghost predicate DataAnswered(nodes: seq<DialApp>, before: (seq<App>, map<string, string>),
                               after: (seq<App>, map<string, string>), name: string, text: string, peer: Address,
                               answer: Answer)
  {
    if MayCall(nodes, answer.origin, name) && IsLocal(peer) then DataDone(before, name, text, after, answer.reply)
    else answer.reply == Plainly(403) && after == before
  }

  // The text of a data request: the first bytes of a POST's payload, or the query of a GET.
  function TextOf(post: bool, query: Option<string>, payload: string): string {
    if post then Prefix(payload, 4096) else if query.Some? then query.value else ""
  }

  function MethodOf(post: bool): string { if post then "POST" else "GET" }

  lemma DataArrives(nodes: seq<DialApp>, before: (seq<App>, map<string, string>), r: RequestInfo, sent: string,
                    env: Surroundings, body: string, answer: Answer, after: (seq<App>, map<string, string>),
                    name: string, query: Option<string>, payload: string, post: bool)
    requires IsRequest(r, name, DataTail, query, MethodOf(post)) && Carries(r, sent, payload)
    requires HandledRequest(nodes, before, Kept16(r), env, body, answer, after)
    requires body == Prefix(BodySent(r, sent), BytesAsked(before.0, answer.action))
    ensures DataAnswered(nodes, before, after, name, TextOf(post, query, payload), env.peer, answer)
  {
    hide Dispatch, MayCall, ServeList, OriginIs, HandledPath, RawQuery, SentBy, Kept16, FilesAfter, Index, IsLocal;
    hide BodySent, Carries, AppPath, WithQuery, PlainName, NameWorks, AllWellFormed, LengthIsGood, Free, DataDone;
    ActionArrives(nodes, before, r, env, body, answer, after, name, DataTail, query, MethodOf(post));
    PayloadIsRead(r, payload, sent, DIAL_DATA_MAX_PAYLOAD);
    QueryIsKept(name, DataTail, query);
    AllHeadersKept(r);
    if MayCall(nodes, answer.origin, name) && IsLocal(env.peer) {
      ListData(before, name, query, body, post, after, answer.reply);
      if Index(before.0, name) == |before.0| {
        NothingThere(before, name, RequestData(query, body, post), TextOf(post, query, payload), after, answer.reply);
      } else {
        SameText(query, body, payload, post);
      }
    } else {
      NoFiles(before, answer.action, after, answer.reply);
    }
  }

  lemma NothingThere(before: (seq<App>, map<string, string>), name: string, s: string, t: string,
                     after: (seq<App>, map<string, string>), reply: Reply)
    requires Index(before.0, name) == |before.0| && DataDone(before, name, s, after, reply)
    ensures DataDone(before, name, t, after, reply)
  {
  }

  lemma SameText(query: Option<string>, body: string, payload: string, post: bool)
    requires post ==> body == Prefix(payload, DIAL_DATA_MAX_PAYLOAD)
    ensures RequestData(query, body, post) == TextOf(post, query, payload)
  {
  }

  lemma NoFiles(before: (seq<App>, map<string, string>), a: Action, after: (seq<App>, map<string, string>),
                reply: Reply)
    requires a.ErrorReply? && FilesAfter(before.1, after.1, a, before.0, after.0, reply)
    ensures after.1 == before.1
  {
  }

  /** A data request of the application, from the bytes to its list and its file: 403 unless the
      peer passes for the local host and the origin is permitted; else the pairs of the text become
      its data, with 200, or 413 or 400 and no change. */
  method SetDataOf(server: DialServer, conn: HttpConnection, env: Surroundings, ghost r: RequestInfo,
                   ghost sent: string, ghost name: string, ghost query: Option<string>, ghost payload: string,
                   ghost post: bool)
    returns (answer: Answer)
    requires server.Valid() && conn.Valid() && conn.buf !in server.Buffers()
    requires IsRequest(r, name, DataTail, query, MethodOf(post)) && Carries(r, sent, payload)
    requires Receivable(r, sent, conn.buf.Length) && conn.sock.feed.data == Sent(r, sent)
    modifies conn, conn.buf, conn.sock, server`model, server`files, server.nodes, server.Buffers()
    ensures server.Valid()
    ensures DataAnswered(server.nodes, old((server.model, server.files)), (server.model, server.files), name,
                         TextOf(post, query, payload), env.peer, answer)
  {
    hide IsRequest, Receivable, Sent, Writable, Judge, Kept16, HandledRequest, AllPermitted, BytesAsked, Prefix;
    hide BodySent, Body.Unread, DataAnswered, Carries, TextOf, MethodOf;
    ghost var before, nodes := (server.model, server.files), server.nodes;
    RequestIsAccepted(r, name, DataTail, query, MethodOf(post));
    var verdict;
    ghost var body;
    verdict, answer, body := DialService.Serve(server, conn, env, r, sent);
    DataArrives(nodes, before, r, sent, env, body, answer, (server.model, server.files), name, query, payload, post);
  }
}
