/**
 request_handler of server/dial_server.c: it looks up the origin, routes the request, makes
 the checks and calls the handler of the application.
 */
module RequestHandler {
  import opened Wrappers
  import opened RequestParser
  import opened Peer
  import opened Connection
  import opened HttpEngine
  import opened DialApps
  import opened Registry
  import opened Routing
  import Origins

  // ------------------------------------------------------------------ the origin

  predicate NamesOrigin(name: string) {
    name == "Origin" || name == "origin"
  }

  // The word with its first letter in either case, and no other letter.
  ghost predicate SaysOrigin(name: string) {
    |name| == 6 && (name[0] == 'O' || name[0] == 'o') && name[1..] == "rigin"
  }

  // The value of the last header with that name, if there is one.
  ghost predicate OriginIs(hs: seq<Header>, origin: Option<string>) {
    match origin
    case None => forall i :: 0 <= i < |hs| ==> !SaysOrigin(hs[i].name)
    case Some(v) => exists i :: 0 <= i < |hs| && LastOrigin(hs, i) && hs[i].value == v
  }

  ghost predicate LastOrigin(hs: seq<Header>, i: nat)
    requires i < |hs|
  {
    SaysOrigin(hs[i].name) && forall j :: i < j < |hs| ==> !SaysOrigin(hs[j].name)
  }

  /** The header loop of request_handler: a later header wins. */
  method FindOrigin(headers: seq<Header>) returns (origin: Option<string>)
    ensures OriginIs(headers, origin)
  {
    origin := None;
    var i := 0;
    while i < |headers|
      invariant i <= |headers| && OriginIs(headers[..i], origin)
    {
      if NamesOrigin(headers[i].name) {
        origin := Some(headers[i].value);
        assert LastOrigin(headers[..i + 1], i);
      } else if origin.Some? {
        ghost var k :| 0 <= k < i && LastOrigin(headers[..i], k) && headers[..i][k].value == origin.value;
        assert LastOrigin(headers[..i + 1], k);
      }
      i := i + 1;
    }
    assert headers[..i] == headers;
  }

  // What is_allowed_origin is for: the list of an application that asks for nothing, or that
  // has a candidate for this origin: for https one with the same host, port rules and a
  // starred label included, else the same text or its start up to a star.
  ghost predicate Accepts(cors: string, origin: string) {
    cors == "" || exists c: string, at: nat :: Origins.IsCandidate(cors, c, at) && Fits(origin, c)
  }

  ghost predicate Fits(origin: string, candidate: string) {
    if Origins.HTTPS_PROTO <= origin then Origins.HostAllowed(origin, candidate)
    else if |candidate| > 1 && candidate[|candidate| - 1] == '*' then
      Origins.GoesOn(origin, candidate[..|candidate| - 1])
    else origin == candidate
  }

  lemma MatchesIsFits(origin: string, candidate: string)
    ensures Origins.Matches(origin, candidate) <==> Fits(origin, candidate)
  {
    hide Origins.HostMatches, Origins.HostAllowed, Origins.OriginMatches, Origins.GoesOn;
    Origins.HostMatchesIsAllowed(origin, candidate);
    Origins.OriginMatchesIsAllowed(origin, candidate);
  }

  /** The comparison that the server makes is the one that is meant. */
  lemma AllowsIsAccepts(cors: string, origin: string)
    ensures Allows(cors, origin) <==> Accepts(cors, origin)
  {
    hide Origins.Matches, Fits, Origins.Split, Origins.IsCandidate;
    if Origins.SomeMatches(origin, Origins.Split(cors)) {
      var c :| c in Origins.Split(cors) && Origins.Matches(origin, c);
      Origins.SplitIsCandidates(cors, c);
      MatchesIsFits(origin, c);
    }
    forall c: string, at: nat | Origins.IsCandidate(cors, c, at) && Fits(origin, c)
      ensures Origins.SomeMatches(origin, Origins.Split(cors))
    {
      Origins.SplitIsCandidates(cors, c);
      MatchesIsFits(origin, c);
    }
  }

  // A request without an origin is not a cross-origin request.
  ghost predicate NoOrigin(origin: Option<string>) {
    origin == None || origin == Some("")
  }

  // The request may be made for this name: some application of that name accepts its origin.
  ghost predicate MayCall(nodes: seq<DialApp>, origin: Option<string>, name: string) {
    NoOrigin(origin) ||
    exists i :: 0 <= i < |nodes| && nodes[i].name == name && Accepts(nodes[i].corsAllowedOrigin, origin.value)
  }

  ghost function Permission(nodes: seq<DialApp>, origin: Option<string>): string -> bool {
    n => MayCall(nodes, origin, n)
  }

  method CheckOrigin(server: DialServer, origin: Option<string>, name: string) returns (ok: bool)
    requires server.Valid()
    ensures ok <==> MayCall(server.nodes, origin, name)
  {
    hide Allows, Accepts;
    ok := true;
    if origin.Some? {
      ok := server.IsAllowedOrigin(origin, name);
      forall i | 0 <= i < |server.nodes|
        ensures Allows(server.nodes[i].corsAllowedOrigin, origin.value)
           <==> Accepts(server.nodes[i].corsAllowedOrigin, origin.value)
      {
        AllowsIsAccepts(server.nodes[i].corsAllowedOrigin, origin.value);
      }
    }
  }

  // ------------------------------------------------------------- the decision

  // What a handler answers without calling a handler of an application.
  function Answered(a: Action): Reply {
    match a
    case ErrorReply(code) => Plainly(code)
    case _ => Plainly(204)
  }

  // The application whose handler is called, if one is.
  function Called(a: Action): Option<string> {
    match a
    case CallStart(n) => Some(n)
    case CallStatus(n) => Some(n)
    case CallStop(n) => Some(n)
    case CallHide(n) => Some(n)
    case CallData(n, _) => Some(n)
    case OptionsReply(_) => None
    case ErrorReply(_) => None
  }

  // The checks and the choice of a handler.
  method Decide(server: DialServer, uri: string, requestMethod: string, peer: Address, origin: Option<string>)
    returns (action: Action)
    requires server.Valid()
    ensures action == Dispatch(uri, requestMethod, IsLocal(peer), Permission(server.nodes, origin))
  {
    hide BranchOf, MayCall, IsLocal;
    var branch := BranchOf(uri);
    if branch.NoBranch? {
      return ErrorReply(404);
    }
    if branch.DataBranch? && !IsLocal(peer) {
      return ErrorReply(403);
    }
    var allowed := CheckOrigin(server, origin, branch.name);
    if !allowed {
      return ErrorReply(403);
    }
    match branch
    case RunBranch(n) =>
      if requestMethod == "OPTIONS" {
        action := OptionsReply("DELETE, OPTIONS");
      } else if n != "" && requestMethod == "DELETE" {
        action := CallStop(n);
      } else {
        action := ErrorReply(501);
      }
    case AppBranch(n) =>
      if requestMethod == "OPTIONS" {
        action := OptionsReply("GET, POST, OPTIONS");
      } else if requestMethod == "POST" {
        action := CallStart(n);
      } else if requestMethod == "GET" {
        action := CallStatus(n);
      } else {
        action := ErrorReply(501);
      }
    case HideBranch(n) =>
      if requestMethod == "OPTIONS" {
        action := OptionsReply("POST, OPTIONS");
      } else if n != "" && requestMethod == "POST" {
        action := CallHide(n);
      } else {
        action := ErrorReply(501);
      }
    case DataBranch(n) =>
      if requestMethod == "OPTIONS" {
        action := OptionsReply("POST, OPTIONS");
      } else {
        action := CallData(n, requestMethod == "POST");
      }
  }

  // ------------------------------------------------------------- the call

  // What the callbacks of the addressed application return when they are called.
  datatype Callbacks = Callbacks(start: Status, status: Status, canStop: bool, hide_: Status)

  // The request of a call, as the sequential model has it.
  function RequestOf(a: Action, query: Option<string>, body: string, atof: string -> real): Option<Request> {
    match a
    case CallStart(n) => Some(Start(n, body))
    case CallStatus(n) => Some(GetStatus(n, OldClient(query, atof)))
    case CallStop(n) => Some(Stop(n))
    case CallHide(n) => Some(HideApp(n))
    case CallData(n, usePayload) => Some(SetData(n, query, body, usePayload))
    case OptionsReply(_) => None
    case ErrorReply(_) => None
  }

  function ResultsOf(a: Action, cb: Callbacks): Results {
    if a.CallStart? then Results(cb.start, Stopped)
    else if a.CallStatus? || a.CallStop? then Results(cb.status, Stopped)
    else if a.CallHide? then Results(cb.status, cb.hide_)
    else NO_RESULTS
  }

  // The applications and the reply after an action.
  ghost function Effect(apps: seq<App>, a: Action, query: Option<string>, body: string, atof: string -> real,
                        cb: Callbacks): (seq<App>, Reply)
  {
    match RequestOf(a, query, body, atof)
    case None => (apps, Answered(a))
    case Some(q) => ServeList(apps, q, ResultsOf(a, cb))
  }

  // How much of the request's body an action asks for.
  function BytesAsked(apps: seq<App>, a: Action): nat {
    if Called(a).None? || Index(apps, Called(a).value) == |apps| then 0
    else if a.CallStart? then START_BODY_SIZE
    else if a.CallData? && a.usePayload then DIAL_DATA_MAX_PAYLOAD
    else 0
  }

  // The files after an action, which finds the application in the list `was` and leaves it in
  // the list `apps`.
  ghost predicate FilesAfter(before: map<string, string>, files: map<string, string>, a: Action, was: seq<App>,
                             apps: seq<App>, reply: Reply)
  {
    files == if a.CallData? && Index(was, a.app) < |apps| then Filed(before, apps[Index(was, a.app)], reply) else before
  }

  // What is sent for a status request.
  function SentBy(apps: seq<App>, a: Action, origin: Option<string>, reply: Reply, cb: Callbacks): string {
    if a.CallStatus? then SentTo(apps, a.app, cb.canStop, origin, reply) else ""
  }

  // The calls that read no body.
  method CallWithoutBody(server: DialServer, action: Action, query: Option<string>, origin: Option<string>,
                         atof: string -> real, cb: Callbacks)
    returns (reply: Reply, sent: string, stopped: bool)
    requires server.Valid() && (action.CallStatus? || action.CallStop? || action.CallHide?)
    modifies server`model, server.nodes`state
    ensures server.Valid() && (server.model, reply) == Effect(old(server.model), action, query, "", atof, cb)
    ensures sent == SentBy(old(server.model), action, origin, reply, cb)
    ensures stopped <==> action.CallStop? && reply == Plainly(200)
  {
    hide ServeList, SentTo, StopDone, HideDone;
    sent, stopped := "", false;
    match action
    case CallStatus(n) => reply, sent := server.HandleStatus(n, query, atof, cb.status, cb.canStop, origin);
    case CallStop(n) => reply, stopped := server.HandleStop(n, cb.status);
    case CallHide(n) => reply := server.HandleHide(n, cb.status, cb.hide_);
  }

  // The calls that may read the body.
  method CallWithBody(server: DialServer, conn: HttpConnection, action: Action, query: Option<string>,
                      atof: string -> real, cb: Callbacks)
    returns (reply: Reply, ghost body: string)
    requires server.Valid() && conn.Valid() && conn.buf !in server.Buffers()
    requires action.CallStart? || action.CallData?
    modifies server`model, server`files, server.nodes, server.Buffers(), conn`consumedContent, conn.sock
    ensures server.Valid() && conn.Valid()
    ensures (server.model, reply) == Effect(old(server.model), action, query, body, atof, cb)
    ensures Got(old(conn.ToDeliver()), BytesAsked(old(server.model), action), body, conn.ToDeliver())
    ensures FilesAfter(old(server.files), server.files, action, old(server.model), server.model, reply)
  {
    hide ServeList, Got, Filed, Index;
    match action
    case CallStart(n) => reply, body := server.HandleStart(conn, n, cb.start);
    case CallData(n, usePayload) => reply, body := server.HandleDialData(conn, n, query, usePayload);
  }

  method Perform(server: DialServer, conn: HttpConnection, action: Action, query: Option<string>,
                 origin: Option<string>, atof: string -> real, cb: Callbacks)
    returns (reply: Reply, sent: string, stopped: bool, ghost body: string)
    requires server.Valid() && conn.Valid() && conn.buf !in server.Buffers()
    modifies server`model, server`files, server.nodes, server.Buffers(), conn`consumedContent, conn.sock
    ensures server.Valid() && conn.Valid()
    ensures (server.model, reply) == Effect(old(server.model), action, query, body, atof, cb)
    ensures Got(old(conn.ToDeliver()), BytesAsked(old(server.model), action), body, conn.ToDeliver())
    ensures FilesAfter(old(server.files), server.files, action, old(server.model), server.model, reply)
    ensures sent == SentBy(old(server.model), action, origin, reply, cb)
    ensures stopped <==> action.CallStop? && reply == Plainly(200)
  {
    hide ServeList, Got, Filed, Index, SentTo;
    ghost var b := conn.ToDeliver();
    sent, stopped, body := "", false, "";
    GotNothing(b);
    match action
    case CallStart(_) | CallData(_, _) => reply, body := CallWithBody(server, conn, action, query, atof, cb);
    case CallStatus(_) | CallStop(_) | CallHide(_) =>
      reply, sent, stopped := CallWithoutBody(server, action, query, origin, atof, cb);
      assert conn.ToDeliver() == b;
    case OptionsReply(_) => reply := Plainly(204);
    case ErrorReply(code) => reply := Plainly(code);
  }

  // ------------------------------------------------------------- who may change what

  ghost predicate SameNames(nodes: seq<DialApp>, apps: seq<App>) {
    |nodes| == |apps| && forall i :: 0 <= i < |nodes| ==> nodes[i].name == apps[i].name
  }

  // What has to hold of a request that changes the i-th application from a to b.
  ghost predicate ChangePermitted(node: DialApp, a: App, b: App, requestMethod: string, peer: Address,
                                  origin: Option<string>)
  {
    && (NoOrigin(origin) || Accepts(node.corsAllowedOrigin, origin.value))
    && (b.dialData != a.dialData ==> IsLocal(peer))
    && (b.payload != a.payload ==> requestMethod == "POST" && b.state == Running)
    && b.name == a.name
  }

  // An action that may be made for a name may be made for the application of that name.
  lemma OwnListAccepts(nodes: seq<DialApp>, origin: Option<string>, i: nat)
    requires Separate(nodes) && i < |nodes| && MayCall(nodes, origin, nodes[i].name)
    ensures NoOrigin(origin) || Accepts(nodes[i].corsAllowedOrigin, origin.value)
  {
    hide Accepts;
    if !NoOrigin(origin) {
      var k :| 0 <= k < |nodes| && nodes[k].name == nodes[i].name && Accepts(nodes[k].corsAllowedOrigin, origin.value);
      assert k != i ==> if k < i then Differ(nodes[k], nodes[i]) else Differ(nodes[i], nodes[k]);
    }
  }

  lemma CalledIsPermitted(uri: string, requestMethod: string, local: bool, allowed: string -> bool)
    ensures var a := Dispatch(uri, requestMethod, local, allowed);
      && (Called(a).Some? ==> allowed(Called(a).value) && requestMethod != "OPTIONS")
      && (a.CallData? ==> local) && (a.CallStart? ==> requestMethod == "POST")
  {
    hide BranchOf;
  }

  // What a call leaves alone of the application.
  lemma CallChanges(app: App, q: Request, r: Results)
    ensures var b := After(app, q, r).0;
      && b.name == app.name
      && (b.dialData != app.dialData ==> q.SetData?)
      && (b.payload != app.payload ==> q.Start? && b.state == Running)
  {
    hide Padded, BadPayload;
  }

  lemma CallPermitted(nodes: seq<DialApp>, i: nat, app: App, a: Action, q: Request, r: Results, requestMethod: string,
                      peer: Address, origin: Option<string>)
    requires Separate(nodes) && i < |nodes| && MayCall(nodes, origin, nodes[i].name)
    requires (q.SetData? ==> IsLocal(peer)) && (q.Start? ==> requestMethod == "POST")
    ensures ChangePermitted(nodes[i], app, After(app, q, r).0, requestMethod, peer, origin)
  {
    hide MayCall, Accepts, After, NoOrigin, IsLocal;
    OwnListAccepts(nodes, origin, i);
    CallChanges(app, q, r);
  }

  /** Whatever is requested: an application changes only when it is the one that is addressed
      and its own origin list accepts the request's origin; its DIAL data only for the local
      host, and its payload only when it is started by a POST. */
  lemma ChangesArePermitted(nodes: seq<DialApp>, apps: seq<App>, uri: string, requestMethod: string, peer: Address,
                            origin: Option<string>, query: Option<string>, body: string, atof: string -> real,
                            cb: Callbacks)
    requires Separate(nodes) && SameNames(nodes, apps)
    ensures var a := Dispatch(uri, requestMethod, IsLocal(peer), Permission(nodes, origin));
      var after := Effect(apps, a, query, body, atof, cb).0;
      && |after| == |apps|
      && forall i :: 0 <= i < |apps| && after[i] != apps[i] ==>
           Called(a) == Some(apps[i].name) && ChangePermitted(nodes[i], apps[i], after[i], requestMethod, peer, origin)
  {
    hide MayCall, After, ChangePermitted, Separate, Dispatch, IsLocal;
    var a := Dispatch(uri, requestMethod, IsLocal(peer), Permission(nodes, origin));
    CalledIsPermitted(uri, requestMethod, IsLocal(peer), Permission(nodes, origin));
    match RequestOf(a, query, body, atof)
    case None =>
    case Some(q) =>
      var i := Index(apps, q.app);
      if i < |apps| {
        CallPermitted(nodes, i, apps[i], a, q, ResultsOf(a, cb), requestMethod, peer, origin);
      }
  }

  // What a request meets: the peer's address, and the callbacks' results.
  datatype Surroundings = Surroundings(peer: Address, atof: string -> real, cb: Callbacks)

  // `stopped` says whether the application's stop_cb was called.
  datatype Answer = Answer(action: Action, reply: Reply, sent: string, stopped: bool, origin: Option<string>)

  // A request for this path and query has been handled, with this part of its body.
  ghost predicate Handled(nodes: seq<DialApp>, before: (seq<App>, map<string, string>), uri: string,
                          query: Option<string>, requestMethod: string, headers: seq<Header>, env: Surroundings,
                          body: string, answer: Answer, after: (seq<App>, map<string, string>))
  {
    && OriginIs(headers, answer.origin)
    && answer.action == Dispatch(uri, requestMethod, IsLocal(env.peer), Permission(nodes, answer.origin))
    && (after.0, answer.reply) == Effect(before.0, answer.action, query, body, env.atof, env.cb)
    && FilesAfter(before.1, after.1, answer.action, before.0, after.0, answer.reply)
    && answer.sent == SentBy(before.0, answer.action, answer.origin, answer.reply, env.cb)
    && (answer.stopped <==> answer.action.CallStop? && answer.reply == Plainly(200))
  }

  // Every change is permitted.
  ghost predicate AllPermitted(nodes: seq<DialApp>, before: seq<App>, after: seq<App>, requestMethod: string,
                               env: Surroundings, answer: Answer)
  {
    && |nodes| == |before| == |after|
    && (Called(answer.action).Some? ==> MayCall(nodes, answer.origin, Called(answer.action).value))
    && forall i :: 0 <= i < |before| && after[i] != before[i] ==>
         && Called(answer.action) == Some(before[i].name)
         && ChangePermitted(nodes[i], before[i], after[i], requestMethod, env.peer, answer.origin)
  }

  /** request_handler on a request whose URI is already the handled path. */
  method HandleRequest(server: DialServer, conn: HttpConnection, uri: string, query: Option<string>,
                       requestMethod: string, headers: seq<Header>, env: Surroundings)
    returns (answer: Answer, ghost body: string)
    requires server.Valid() && conn.Valid() && conn.buf !in server.Buffers()
    modifies server`model, server`files, server.nodes, server.Buffers(), conn`consumedContent, conn.sock
    ensures server.Valid() && conn.Valid()
    ensures Got(old(conn.ToDeliver()), BytesAsked(old(server.model), answer.action), body, conn.ToDeliver())
    ensures Handled(server.nodes, old((server.model, server.files)), uri, query, requestMethod, headers, env, body,
                    answer, (server.model, server.files))
    ensures AllPermitted(server.nodes, old(server.model), server.model, requestMethod, env, answer)
  {
    hide IsLocal, Dispatch, Effect, Got, BytesAsked, FilesAfter, ChangePermitted, OriginIs, MayCall, SentBy;
    var origin := FindOrigin(headers);
    var action := Decide(server, uri, requestMethod, env.peer, origin);
    CalledIsPermitted(uri, requestMethod, IsLocal(env.peer), Permission(server.nodes, origin));
    NamesAreSame(server);
    ghost var apps := server.model;
    var reply, sent, stopped;
    reply, sent, stopped, body := Perform(server, conn, action, query, origin, env.atof, env.cb);
    answer := Answer(action, reply, sent, stopped, origin);
    ChangesArePermitted(server.nodes, apps, uri, requestMethod, env.peer, origin, query, body, env.atof, env.cb);
  }

  lemma NamesAreSame(server: DialServer)
    requires server.Valid()
    ensures Separate(server.nodes) && SameNames(server.nodes, server.model)
  {
    forall i | 0 <= i < |server.nodes|
      ensures server.nodes[i].name == server.model[i].name
    {
      assert server.nodes[i].Value() == server.model[i];
    }
  }
}
