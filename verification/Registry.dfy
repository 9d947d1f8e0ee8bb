/**
 The DIAL server's list of applications and its request handlers, on the heap: find_app,
 DIAL_register_app, DIAL_unregister_app, DIAL_get_payload, is_allowed_origin and the five
 handle_* functions of server/dial_server.c.
 */
module Registry {
  import opened Wrappers
  import opened CStrings
  import opened DialData
  import opened LaunchQuery
  import opened DialApps
  import opened StatusReply
  import Origins
  import UrlLib
  import opened Connection
  import opened HttpEngine

  const CORS_SIZE := 256

  // ----------------------------------------------------------------- one application

  class DialApp {
    const name: string
    const useAdditionalData: bool
    const corsAllowedOrigin: string
    const payload: array<char>
    var state: Status
    var dialData: seq<Param>
    var next: DialApp?

    ghost function Value(): App
      reads this`state, this`dialData, payload
    {
      App(name, state, payload[..], dialData)
    }

    lemma ValueIs()
      ensures Value().name == name && Value().state == state && Value().dialData == dialData
    {
    }

    constructor (name: string, useAdditionalData: bool, corsAllowedOrigin: string, dialData: seq<Param>, next: DialApp?)
      ensures fresh(payload) && payload.Length == DIAL_MAX_PAYLOAD
      ensures this.name == name && this.useAdditionalData == useAdditionalData
      ensures this.corsAllowedOrigin == corsAllowedOrigin
      ensures state == Stopped && this.dialData == dialData && this.next == next
    {
      this.name, this.useAdditionalData, this.corsAllowedOrigin := name, useAdditionalData, corsAllowedOrigin;
      payload := new char[DIAL_MAX_PAYLOAD];
      state, this.dialData, this.next := Stopped, dialData, next;
    }

    // memset and memcpy of the payload.
    method StorePayload(body: array<char>, bodySize: nat)
      requires body != payload && bodySize <= body.Length && bodySize <= DIAL_MAX_PAYLOAD == payload.Length
      modifies payload
      ensures payload[..] == Padded(body[..bodySize])
    {
      forall i | 0 <= i < DIAL_MAX_PAYLOAD {
        payload[i] := NUL;
      }
      forall i | 0 <= i < bodySize {
        payload[i] := body[i];
      }
      assert payload[..] == Padded(body[..bodySize]);
    }

    // handle_app_start from the size check on; start_cb returns startCb.
    method StartWith(body: array<char>, bodySize: nat, startCb: Status) returns (reply: Reply)
      requires payload.Length == DIAL_MAX_PAYLOAD && body != payload && bodySize <= body.Length
      modifies this`state, payload
      ensures (Value(), reply) == AfterStart(old(Value()), body[..bodySize], Results(startCb, Stopped))
    {
      if bodySize > DIAL_MAX_PAYLOAD {
        return Plainly(413);
      }
      var bad := IsBadPayload(body, bodySize);
      assert bad == BadPayload(body[..bodySize]);
      if bad {
        return Plainly(400);
      }
      state := startCb;
      if state == Running {
        StorePayload(body, bodySize);
        return Plainly(201);
      } else if state == ErrorForbidden {
        return Plainly(403);
      } else if state == ErrorUnauth {
        return Plainly(401);
      } else if state == ErrorNotImplemented {
        return Plainly(501);
      }
      return Plainly(503);
    }

    // handle_app_status from the call of status_cb on.
    method ShowStatus(oldClient: bool, statusCb: Status) returns (reply: Reply)
      modifies this`state
      ensures (Value(), reply) == AfterStatus(old(Value()), oldClient, Results(statusCb, Stopped))
    {
      state := statusCb;
      var localState := state;
      if oldClient && localState == Hide {
        localState := Stopped;
      }
      return Reply(200, Some(localState));
    }

    // handle_app_stop after the check for the system application; `called` says whether stop_cb
    // was called.
    method StopIt(statusCb: Status) returns (reply: Reply, called: bool)
      requires name != SYSTEM_APP
      modifies this`state
      ensures (Value(), reply) == AfterStop(old(Value()), Results(statusCb, Stopped))
      ensures state == Stopped && reply == Plainly(if called then 200 else 404) && (called <==> statusCb != Stopped)
    {
      state, called := statusCb, false;
      if state == Stopped {
        return Plainly(404), called;
      }
      called := true;
      state := Stopped;
      return Plainly(200), called;
    }

    // handle_app_hide; hide_cb returns hideCb.
    method HideIt(statusCb: Status, hideCb: Status) returns (reply: Reply)
      modifies this`state
      ensures (Value(), reply) == AfterHide(old(Value()), Results(statusCb, hideCb))
    {
      state := statusCb;
      if state != Running && state != Hide {
        return Plainly(404);
      }
      if hideCb != Hide {
        return Plainly(501);
      }
      state := Hide;
      return Plainly(200);
    }

    // handle_dial_data from isBadPayload on; `body` is a C string of nread characters, unless
    // it has NULs, and then it is rejected.  The file is written when the reply is 200.
    method SetDialData(body: array<char>, nread: nat) returns (reply: Reply, file: Option<string>)
      requires nread < body.Length && body[nread] == NUL && nread <= DIAL_DATA_MAX_PAYLOAD
      modifies this`dialData
      ensures (Value(), reply) == AfterData(old(Value()), Some(body[..nread]), "", false)
      ensures file == if reply.code == 200 then Some(Stored(dialData)) else None
    {
      var bad := IsBadPayload(body, nread);
      assert bad == BadPayload(body[..nread]);
      if bad {
        return Plainly(400), None;
      }
      PrintableCStr(body[..], nread);
      dialData := [];
      dialData := ParseParams(Some(CStr(body[..], 0)));
      var text := StoreDialData(dialData);
      return Plainly(200), Some(text);
    }
  }

  lemma PrintableCStr(s: string, n: nat)
    requires n < |s| && s[n] == NUL && !BadPayload(s[..n])
    ensures CStr(s, 0) == s[..n]
  {
    assert forall k :: 0 <= k < n ==> IsPrint(s[..n][k]) && s[k] == s[..n][k];
    SpanIs(s, 0, IsNul(), n);
    assert s[0..n] == s[..n];
  }

  // ------------------------------------------------------------------ the list, as values

  // The place of the application with this name, or the end of the list.
  function Index(apps: seq<App>, name: string): (i: nat)
    ensures i <= |apps| && (i < |apps| ==> apps[i].name == name)
    ensures forall k :: 0 <= k < i ==> apps[k].name != name
  {
    if apps == [] then 0
    else if apps[0].name == name then 0
    else
      assert forall k :: 1 <= k < |apps| ==> apps[k] == apps[1..][k - 1];
      1 + Index(apps[1..], name)
  }

  // A request served by the list.
  ghost function ServeList(apps: seq<App>, q: Request, r: Results): (seq<App>, Reply) {
    var i := Index(apps, q.app);
    if i == |apps| then (apps, Plainly(if q.Stop? && q.app == SYSTEM_APP then 403 else 404))
    else var (a, reply) := After(apps[i], q, r); (apps[i := a], reply)
  }

  // The applications by name.
  ghost function ByName(apps: seq<App>): map<string, App> {
    map n | n in (set i | 0 <= i < |apps| :: apps[i].name) :: apps[Index(apps, n)]
  }

  lemma ByNameIs(apps: seq<App>, n: string)
    ensures n in ByName(apps) <==> Index(apps, n) < |apps|
    ensures n in ByName(apps) ==> ByName(apps)[n] == apps[Index(apps, n)]
  {
    var i := Index(apps, n);
    if i < |apps| {
      assert apps[i].name == n;
    }
  }

  lemma IndexOfUpdate(apps: seq<App>, i: nat, a: App, n: string)
    requires i < |apps| && a.name == apps[i].name
    ensures Index(apps[i := a], n) == Index(apps, n)
  {
    IndexIs(apps[i := a], n, Index(apps, n));
  }

  /** The list serves a request as the map of applications in the interleaving model does. */
  lemma ListRefinesMap(apps: seq<App>, files: map<string, string>, q: Request, r: Results)
    ensures var (after, reply) := ServeList(apps, q, r);
      var (w, reply1) := Serve(World(ByName(apps), files), q, r);
      && reply == reply1 && ByName(after) == w.apps
      && (var i := Index(apps, q.app);
          w.files == if q.SetData? && i < |apps| then Filed(files, after[i], reply) else files)
  {
    hide ByName, After, Stored;
    var i := Index(apps, q.app);
    ByNameIs(apps, q.app);
    if i < |apps| {
      var (a, reply) := After(apps[i], q, r);
      AfterKeepsName(apps[i], q, r);
      var after := apps[i := a];
      forall n: string
        ensures n in ByName(after) <==> n in ByName(apps)[q.app := a]
        ensures n in ByName(after) ==> ByName(after)[n] == ByName(apps)[q.app := a][n]
      {
        ByNameIs(apps, n);
        ByNameIs(after, n);
        IndexOfUpdate(apps, i, a, n);
      }
    }
  }

  lemma AfterKeepsName(a: App, q: Request, r: Results)
    ensures After(a, q, r).0.name == a.name
  {
  }

  // s without its i-th element.
  function Removed<T>(s: seq<T>, i: nat): seq<T>
    requires i < |s|
  {
    s[..i] + s[i + 1..]
  }

  lemma RemovedSize<T>(s: seq<T>, i: nat)
    requires i < |s|
    ensures |Removed(s, i)| == |s| - 1
  {
  }

  lemma RemovedAt<T>(s: seq<T>, i: nat, k: nat)
    requires i < |s| && k < |s| - 1
    ensures |Removed(s, i)| == |s| - 1
    ensures k < i ==> Removed(s, i)[k] == s[k]
    ensures k >= i ==> Removed(s, i)[k] == s[k + 1]
  {
  }

  // ----------------------------------------------------------------- the list, on the heap

  ghost function At(nodes: seq<DialApp>, i: nat): DialApp? {
    if i < |nodes| then nodes[i] else null
  }

  // The nodes are linked in this order, from the head on.
  ghost predicate Chain(nodes: seq<DialApp>, head: DialApp?)
    reads nodes`next
  {
    head == At(nodes, 0) && forall i :: 0 <= i < |nodes| ==> LinkOk(nodes, i)
  }

  ghost predicate LinkOk(nodes: seq<DialApp>, i: nat)
    requires i < |nodes|
    reads nodes`next
  {
    nodes[i].next == At(nodes, i + 1)
  }

  // No two applications are the same, share a buffer or share a name.
  ghost predicate Separate(nodes: seq<DialApp>) {
    && (forall i :: 0 <= i < |nodes| ==>
          nodes[i].payload.Length == DIAL_MAX_PAYLOAD && NoNul(nodes[i].corsAllowedOrigin))
    && (forall i, j :: 0 <= i < j < |nodes| ==> Differ(nodes[i], nodes[j]))
  }

  ghost predicate Differ(a: DialApp, b: DialApp) {
    a != b && a.payload != b.payload && a.name != b.name
  }

  lemma SeparateRemoved(nodes: seq<DialApp>, i: nat)
    requires Separate(nodes) && i < |nodes|
    ensures Separate(Removed(nodes, i))
  {
    hide Removed, Differ, NoNul;
    var rest := Removed(nodes, i);
    RemovedSize(nodes, i);
    forall k | 0 <= k < |rest|
      ensures rest[k].payload.Length == DIAL_MAX_PAYLOAD && NoNul(rest[k].corsAllowedOrigin)
    {
      RemovedAt(nodes, i, k);
    }
    forall j, k | 0 <= j < k < |rest|
      ensures Differ(rest[j], rest[k])
    {
      RemovedAt(nodes, i, j);
      RemovedAt(nodes, i, k);
    }
  }

  lemma SeparateAppended(nodes: seq<DialApp>, a: DialApp)
    requires Separate(nodes) && a.payload.Length == DIAL_MAX_PAYLOAD && NoNul(a.corsAllowedOrigin)
    requires forall i :: 0 <= i < |nodes| ==> Differ(nodes[i], a)
    ensures Separate(nodes + [a])
  {
    hide Differ, NoNul;
  }

  class DialServer {
    var apps: DialApp?
    var files: map<string, string>   // the files of the DIAL data directory
    ghost var nodes: seq<DialApp>    // the list, from its head on
    ghost var model: seq<App>        // what its applications hold

    ghost predicate Linked()
      reads this`apps, this`nodes, nodes`next
    {
      Chain(nodes, apps)
    }

    // What the i-th link of the list points to.
    ghost function Link(i: nat): DialApp?
      reads this`nodes
    {
      At(nodes, i)
    }

    ghost predicate Modelled()
      reads this`nodes, this`model, nodes, Buffers()
    {
      |model| == |nodes| && forall i :: 0 <= i < |nodes| ==> nodes[i].Value() == model[i]
    }

    ghost predicate Valid()
      reads this, nodes, Buffers()
    {
      Linked() && Separate(nodes) && Modelled()
    }

    ghost function Buffers(): set<array<char>>
      reads this`nodes
    {
      set i | 0 <= i < |nodes| :: nodes[i].payload
    }

    constructor ()
      ensures Valid() && model == [] && files == map[]
    {
      apps, files, nodes, model := null, map[], [], [];
    }

    /** find_app: the link to the application with this name, or the link at the list's
        end.  The link is &ds->apps when `prev` is null, else &prev->next. */
    method FindApp(appName: string) returns (prev: DialApp?, app: DialApp?, ghost i: nat)
      requires Valid()
      ensures i == Index(model, appName) && app == Link(i)
      ensures prev == if i == 0 then null else nodes[i - 1]
    {
      prev, app, i := null, apps, 0;
      while app != null
        invariant i <= |nodes| && app == Link(i)
        invariant prev == if i == 0 then null else nodes[i - 1]
        invariant forall k :: 0 <= k < i ==> model[k].name != appName
        decreases |nodes| - i
      {
        assert app.Value() == model[i] && LinkOk(nodes, i);
        if app.name == appName {
          IndexIs(model, appName, i);
          return;
        }
        prev, app, i := app, app.next, i + 1;
      }
      IndexIs(model, appName, i);
    }

    /** DIAL_register_app: 0 when the name is taken; -1 for a missing or over-long origin list,
        and then the mutex stays locked; else the new application becomes the last one, stopped,
        with the DIAL data of its file. */
    method Register(appName: string, useAdditionalData: bool, corsAllowedOrigin: Option<string>)
      returns (r: int, unlocked: bool)
      requires Valid() && (corsAllowedOrigin.Some? ==> NoNul(corsAllowedOrigin.value))
      modifies this`apps, this`nodes, this`model, nodes`next
      ensures Valid() && r in {-1, 0, 1} && (unlocked <==> r != -1)
      ensures r == 0 <==> Index(old(model), appName) < |old(model)|
      ensures r == -1 <==> Index(old(model), appName) == |old(model)| && !FitsOriginField(corsAllowedOrigin)
      ensures r != 1 ==> nodes == old(nodes) && model == old(model)
      ensures r == 1 ==> |nodes| == |old(nodes)| + 1 && var a := nodes[|old(nodes)|];
        && fresh(a) && nodes == old(nodes) + [a] && model == old(model) + [a.Value()]
        && a.useAdditionalData == useAdditionalData && a.corsAllowedOrigin == corsAllowedOrigin.value
      ensures r == 1 ==> |model| == |old(model)| + 1 && var a := model[|old(model)|];
        && a.name == appName && a.state == Stopped
        && a.dialData == if appName in files then Retrieved(files[appName]) else []
    {
      hide Retrieved, Index, Separate, DialApp.Value;
      var prev, app;
      ghost var i;
      prev, app, i := FindApp(appName);
      if app != null {
        return 0, true;
      }
      var data := [];
      if appName in files {
        data := RetrieveDialData(files[appName]);
      }
      if !FitsOriginField(corsAllowedOrigin) {
        return -1, false;
      }
      var a := new DialApp(appName, useAdditionalData, corsAllowedOrigin.value, data, app);
      LinkAtEnd(prev, a);
      a.ValueIs();
      return 1, true;
    }

    // *ptr = app, where ptr is the link at the end of the list.
    method LinkAtEnd(prev: DialApp?, a: DialApp)
      requires Valid() && prev == if |nodes| == 0 then null else nodes[|nodes| - 1]
      requires a !in nodes && a.payload !in Buffers() && a.next == null
      requires a.payload.Length == DIAL_MAX_PAYLOAD && NoNul(a.corsAllowedOrigin)
      requires Index(model, a.name) == |model|
      modifies this`apps, this`nodes, this`model, nodes`next
      ensures Valid() && nodes == old(nodes) + [a] && model == old(model) + [a.Value()]
    {
      hide Index, Separate, DialApp.Value;
      if prev == null {
        apps := a;
      } else {
        prev.next := a;
      }
      NamesDiffer(a);
      SeparateAppended(nodes, a);
      nodes, model := nodes + [a], model + [a.Value()];
      LinkAppended(a);
    }

    // A new application differs from those that do not have its name.
    lemma NamesDiffer(a: DialApp)
      requires Modelled() && Index(model, a.name) == |model| && a !in nodes && a.payload !in Buffers()
      ensures forall i :: 0 <= i < |nodes| ==> Differ(nodes[i], a)
    {
      forall i | 0 <= i < |nodes|
        ensures Differ(nodes[i], a)
      {
        assert nodes[i].Value() == model[i] && nodes[i].payload in Buffers();
      }
    }

    // a has been linked behind the last application.
    twostate lemma LinkAppended(new a: DialApp)
      requires old(Linked()) && old(Separate(nodes)) && nodes == old(nodes) + [a] && a.next == null
      requires old(nodes) == [] ==> apps == a
      requires old(nodes) != [] ==> apps == old(apps) && old(nodes)[|old(nodes)| - 1].next == a
      requires forall n :: n in old(nodes) && n != old(nodes)[|old(nodes)| - 1] ==> n.next == old(n.next)
      ensures Linked()
    {
      forall k | 0 <= k < |nodes|
        ensures LinkOk(nodes, k)
      {
        if k < |old(nodes)| {
          assert nodes[k] == old(nodes)[k] && old(LinkOk(nodes, k));
        }
      }
    }

    /** DIAL_unregister_app: takes the named application out of the list and leaves the
        others as they are, in their order. */
    method Unregister(appName: string) returns (r: int)
      requires Valid()
      modifies this`apps, this`nodes, this`model, nodes`next
      ensures Valid() && r in {0, 1}
      ensures var i := Index(old(model), appName);
        && (r == 0 <==> i == |old(model)|)
        && (r == 0 ==> nodes == old(nodes) && model == old(model))
        && (r == 1 ==> nodes == Removed(old(nodes), i) && model == Removed(old(model), i))
    {
      hide Removed, Index, DialApp.Value, Separate;
      var prev, app;
      ghost var i;
      prev, app, i := FindApp(appName);
      if app == null {
        return 0;
      }
      if prev == null {
        apps := app.next;
      } else {
        prev.next := app.next;
      }
      SeparateRemoved(nodes, i);
      nodes, model := Removed(nodes, i), Removed(model, i);
      LinksRemoved(i);
      ModelRemoved(i);
      return 1;
    }

    // The links of the list without its i-th application.
    twostate lemma LinksRemoved(i: nat)
      requires old(Linked()) && old(Separate(nodes)) && i < |old(nodes)| && nodes == Removed(old(nodes), i)
      requires apps == if i == 0 then old(nodes[0].next) else old(apps)
      requires i > 0 ==> old(nodes)[i - 1].next == old(nodes[i].next)
      requires forall n :: n in old(nodes) && (i == 0 || n != old(nodes)[i - 1]) ==> n.next == old(n.next)
      ensures Linked()
    {
      hide Removed;
      HeadRemoved(i);
      ghost var was := old(nodes);
      RemovedSize(was, i);
      forall k | 0 <= k < |nodes|
        ensures LinkOk(nodes, k)
      {
        ghost var j := k + 1;
        RemovedAt(was, i, k);
        if j < |nodes| {
          RemovedAt(was, i, j);
        }
        assert old(LinkOk(nodes, k)) && old(LinkOk(nodes, i));
        if j > i {
          assert old(LinkOk(nodes, j));
        }
      }
    }

    twostate lemma HeadRemoved(i: nat)
      requires old(Linked()) && i < |old(nodes)| && nodes == Removed(old(nodes), i)
      ensures (if i == 0 then old(nodes[0].next) else old(apps)) == At(nodes, 0)
    {
      hide Removed;
      RemovedSize(old(nodes), i);
      assert old(LinkOk(nodes, 0));
      if |nodes| > 0 {
        RemovedAt(old(nodes), i, 0);
      }
    }

    twostate lemma ModelRemoved(i: nat)
      requires old(Modelled()) && i < |old(nodes)|
      requires nodes == Removed(old(nodes), i) && model == Removed(old(model), i)
      requires forall n :: n in old(nodes) ==> n.Value() == old(n.Value())
      ensures Modelled()
    {
      hide Removed, DialApp.Value;
      RemovedSize(old(nodes), i);
      RemovedSize(old(model), i);
      forall k | 0 <= k < |nodes|
        ensures nodes[k].Value() == model[k]
      {
        RemovedAt(old(nodes), i, k);
        RemovedAt(old(model), i, k);
      }
    }

    // DIAL_get_payload
    method GetPayload(appName: string) returns (payload: array?<char>)
      requires Valid()
      ensures var i := Index(model, appName);
        if i == |model| then payload == null else payload != null && payload[..] == model[i].payload
    {
      var prev, app;
      ghost var i;
      prev, app, i := FindApp(appName);
      assert app != null ==> app.Value() == model[i];
      payload := if app == null then null else app.payload;
    }

    /** is_allowed_origin: no origin, or an application of that name that allows every origin
        or lists a matching one. */
    method IsAllowedOrigin(origin: Option<string>, appName: string) returns (allowed: bool)
      requires Valid()
      ensures origin == None || origin == Some("") ==> allowed
      ensures origin != None && origin != Some("") ==> (allowed <==> SomeAppAllows(appName, origin.value))
    {
      hide Allows;
      if origin.None? || origin.value == "" {
        return true;
      }
      var app := apps;
      ghost var i := 0;
      while app != null
        invariant i <= |nodes| && app == Link(i)
        invariant forall k :: 0 <= k < i ==>
          nodes[k].name != appName || !Allows(nodes[k].corsAllowedOrigin, origin.value)
        decreases |nodes| - i
      {
        assert LinkOk(nodes, i);
        if app.name == appName {
          var listed := AllowsOrigin(app.corsAllowedOrigin, origin.value);
          if listed {
            return true;
          }
        }
        app, i := app.next, i + 1;
      }
      return false;
    }

    ghost predicate SomeAppAllows(appName: string, origin: string)
      reads this
    {
      exists i :: 0 <= i < |nodes| && nodes[i].name == appName && Allows(nodes[i].corsAllowedOrigin, origin)
    }

    method AllowsOrigin(cors: string, origin: string) returns (r: bool)
      requires NoNul(cors)
      ensures r == Allows(cors, origin)
    {
      r := cors == "";
      if !r {
        r := Origins.IsUriInList(Some(origin), Some(cors));
      }
    }

    // ---------------------------------------------------------------- the handlers

    // The state of one application has changed, and nothing else of the list.
    twostate lemma OnlyOneChanged(i: nat)
      requires old(Valid()) && i < |nodes| && nodes == old(nodes) && apps == old(apps)
      requires model == old(model)[i := nodes[i].Value()]
      requires forall n :: n in nodes ==> n.next == old(n.next)
      requires forall n :: n in nodes && n != nodes[i] ==> n.Value() == old(n.Value())
      ensures Valid()
    {
      hide DialApp.Value;
    }

    // The i-th application and its buffer are nobody else's.
    lemma OwnBuffer(i: nat)
      requires Valid() && i < |nodes|
      ensures nodes[i].payload in Buffers() && nodes[i].Value() == model[i]
      ensures forall n :: n in nodes && n != nodes[i] ==> n.payload != nodes[i].payload
    {
      forall k | 0 <= k < |nodes| && k != i
        ensures nodes[k].payload != nodes[i].payload
      {
        assert if k < i then Differ(nodes[k], nodes[i]) else Differ(nodes[i], nodes[k]);
      }
    }

    // start_cb for the i-th application, and what follows.
    method StartApp(app: DialApp, ghost i: nat, bytes: array<char>, bodySize: nat, startCb: Status)
      returns (reply: Reply)
      requires Valid() && i < |nodes| && app == nodes[i] && bodySize <= bytes.Length && bytes !in Buffers()
      modifies this`model, app`state, app.payload
      ensures Valid()
      ensures (model, reply) ==
        Updated(old(model), i, AfterStart(old(model)[i], bytes[..bodySize], Results(startCb, Stopped)))
    {
      hide AfterStart, Differ;
      OwnBuffer(i);
      reply := app.StartWith(bytes, bodySize, startCb);
      model := model[i := app.Value()];
      OnlyOneChanged(i);
    }

    // mg_read of the body, which leaves the list alone.
    method ReadStartBody(conn: HttpConnection) returns (bytes: array<char>, bodySize: nat)
      requires Valid() && conn.Valid()
      modifies conn`consumedContent, conn.sock
      ensures Valid() && conn.Valid() && bytes !in Buffers() && bytes != conn.buf && bodySize <= bytes.Length
      ensures Got(old(conn.ToDeliver()), START_BODY_SIZE, bytes[..bodySize], conn.ToDeliver())
    {
      hide Got;
      bytes := new char[START_BODY_SIZE + 1](_ => NUL);
      bodySize := ReadInto(conn, bytes, START_BODY_SIZE);
    }

    /** handle_app_start, from the lookup to the reply: the body is the first part of the
        request's body, up to 5121 bytes of it. */
    method HandleStart(conn: HttpConnection, appName: string, startCb: Status)
      returns (reply: Reply, ghost body: string)
      requires Valid() && conn.Valid() && conn.buf !in Buffers()
      modifies this`model, nodes, Buffers(), conn`consumedContent, conn.sock
      ensures Valid() && (model, reply) == ServeList(old(model), Start(appName, body), Results(startCb, Stopped))
      ensures conn.Valid()
      ensures var size := if Index(old(model), appName) < |old(model)| then START_BODY_SIZE else 0;
        Got(old(conn.ToDeliver()), size, body, conn.ToDeliver())
    {
      hide AfterStart, Got, Index, Separate, LinkOk, DialApp.Value;
      var prev, app;
      ghost var i;
      body := "";
      prev, app, i := FindApp(appName);
      if app == null {
        GotNothing(conn.ToDeliver());
        return Plainly(404), body;
      }
      var bytes, bodySize := ReadStartBody(conn);
      body := bytes[..bodySize];
      ghost var delivered := conn.ToDeliver();
      reply := StartApp(app, i, bytes, bodySize, startCb);
      assert conn.ToDeliver() == delivered;
    }

    // The text for the DIAL data of the i-th application.
    method AppDataText(app: DialApp, ghost i: nat) returns (text: string)
      requires Valid() && i < |nodes| && app == nodes[i]
      ensures text == Capped(DataText(model[i].dialData))
    {
      hide Capped, DataText;
      var inside;
      text, inside := BuildDataText(app.dialData);
      assert app.Value() == model[i];
    }

    // The text, the callback and the reply for the i-th application.
    method StatusOfApp(app: DialApp, ghost i: nat, oldClient: bool, statusCb: Status, canStop: bool,
                       origin: Option<string>)
      returns (reply: Reply, sent: string)
      requires Valid() && i < |nodes| && app == nodes[i]
      modifies this`model, app`state
      ensures Valid() && reply.shown.Some?
      ensures (model, reply) ==
        Updated(old(model), i, AfterStatus(old(model)[i], oldClient, Results(statusCb, Stopped)))
      ensures var a := old(model)[i];
        sent == ReplySent(a.name, canStop, reply.shown.value, a.dialData, origin)
    {
      hide Differ, Capped, DataText, StatusBody, StatusHead, Printed;
      OwnBuffer(i);
      var dialData := AppDataText(app, i);
      reply := app.ShowStatus(oldClient, statusCb);
      sent := Printed(StatusHead(origin) + StatusBody(app.name, canStop, reply.shown.value, dialData));
      model := model[i := app.Value()];
      OnlyOneChanged(i);
    }

    /** handle_app_status: the client's version is parameter clientDialVer of the query, as the
        C library's atof reads it, or 0; status_cb returns statusCb and sets canStop; the reply
        is sent as far as it fits mg_printf's buffer. */
    method HandleStatus(appName: string, query: Option<string>, atof: string -> real, statusCb: Status, canStop: bool,
                        origin: Option<string>)
      returns (reply: Reply, sent: string)
      requires Valid()
      modifies this`model, nodes`state
      ensures Valid()
      ensures (model, reply) ==
        ServeList(old(model), GetStatus(appName, OldClient(query, atof)), Results(statusCb, Stopped))
      ensures sent == SentTo(old(model), appName, canStop, origin, reply)
    {
      hide Index, Differ, UrlLib.ParseParam, ReplySent, DialApp.Value, AfterStatus, Separate, LinkOk;
      var clientVersion := 0.0;
      if query.Some? {
        var text := UrlLib.ParseParam(query.value, "clientDialVer");
        if text.Some? {
          clientVersion := atof(text.value);
        }
      }
      var prev, app;
      ghost var i;
      prev, app, i := FindApp(appName);
      if app == null {
        return Plainly(404), "";
      }
      reply, sent := StatusOfApp(app, i, clientVersion < 2.09, statusCb, canStop, origin);
    }

    /** handle_app_stop: the system application is refused before the lookup; else an application
        that is registered and not yet stopped is told to stop. */
    method HandleStop(appName: string, statusCb: Status) returns (reply: Reply, called: bool)
      requires Valid()
      modifies this`model, nodes`state
      ensures Valid()
      ensures (model, reply) == ServeList(old(model), Stop(appName), Results(statusCb, Stopped))
      ensures StopDone(old(model), appName, statusCb, model, reply) && (called <==> reply == Plainly(200))
    {
      hide Index, Differ, DialApp.Value, ServeList, StopDone;
      called := false;
      ListStop(model, appName, statusCb);
      if appName == SYSTEM_APP {
        SystemIsRefused(model, Results(statusCb, Stopped));
        return Plainly(403), called;
      }
      var prev, app;
      ghost var i;
      prev, app, i := FindApp(appName);
      StopOne(model, appName, Results(statusCb, Stopped));
      if app == null {
        return Plainly(404), called;
      }
      OwnBuffer(i);
      app.ValueIs();
      reply, called := app.StopIt(statusCb);
      model := model[i := app.Value()];
      OnlyOneChanged(i);
    }

    /** handle_app_hide */
    method HandleHide(appName: string, statusCb: Status, hideCb: Status) returns (reply: Reply)
      requires Valid()
      modifies this`model, nodes`state
      ensures Valid()
      ensures (model, reply) == ServeList(old(model), HideApp(appName), Results(statusCb, hideCb))
      ensures HideDone(old(model), appName, statusCb, hideCb, model, reply)
    {
      hide AfterHide, Index, Differ, HideDone;
      ListHide(model, appName, statusCb, hideCb);
      var prev, app;
      ghost var i;
      prev, app, i := FindApp(appName);
      if app == null {
        return Plainly(404);
      }
      OwnBuffer(i);
      reply := app.HideIt(statusCb, hideCb);
      model := model[i := app.Value()];
      OnlyOneChanged(i);
    }

    // The data of the request, which leaves the list alone.
    method ReadRequestData(conn: HttpConnection, query: Option<string>, usePayload: bool)
      returns (bytes: array<char>, nread: nat)
      requires Valid() && conn.Valid() && (!usePayload && query.Some? ==> |query.value| <= DIAL_DATA_MAX_PAYLOAD)
      modifies conn`consumedContent, conn.sock
      ensures Valid() && nread < bytes.Length && bytes[nread] == NUL && nread <= DIAL_DATA_MAX_PAYLOAD
      ensures DataOf(query, bytes[..nread], usePayload) == bytes[..nread]
      ensures conn.Valid() && TookData(old(conn.ToDeliver()), usePayload, bytes[..nread], conn.ToDeliver())
    {
      hide DataOf, Got, Prefix, Body.Pending, Body.Unread, Body.After;
      bytes, nread := ReadData(conn, query, usePayload);
    }

    // What handle_dial_data does with the data for the i-th application.
    method SetAppData(app: DialApp, ghost i: nat, bytes: array<char>, nread: nat) returns (reply: Reply)
      requires Valid() && i < |nodes| && app == nodes[i]
      requires nread < bytes.Length && bytes[nread] == NUL && nread <= DIAL_DATA_MAX_PAYLOAD
      modifies this`model, this`files, app`dialData
      ensures Valid()
      ensures (model, reply) == Updated(old(model), i, AfterData(old(model)[i], Some(bytes[..nread]), "", false))
      ensures files == Filed(old(files), model[i], reply)
    {
      hide AfterData, Differ, Stored;
      OwnBuffer(i);
      var file;
      reply, file := app.SetDialData(bytes, nread);
      model := model[i := app.Value()];
      if file.Some? {
        files := files[app.name := file.value];
      }
      OnlyOneChanged(i);
    }

    // handle_dial_data from the lookup on.
    method DataForApp(conn: HttpConnection, app: DialApp, ghost i: nat, query: Option<string>, usePayload: bool)
      returns (reply: Reply, ghost body: string)
      requires Valid() && conn.Valid() && i < |nodes| && app == nodes[i]
      modifies this`model, this`files, app`dialData, conn`consumedContent, conn.sock
      ensures Valid() && conn.Valid()
      ensures Got(old(conn.ToDeliver()), if usePayload then DIAL_DATA_MAX_PAYLOAD else 0, body, conn.ToDeliver())
      ensures (model, reply) == Updated(old(model), i, AfterData(old(model)[i], query, body, usePayload))
      ensures files == Filed(old(files), model[i], reply)
    {
      hide AfterData, Index, Separate, DataOf, Stored, LinkOk, DialApp.Value;
      hide Prefix, Body.Pending, Body.Unread, Body.After;
      body := "";
      if !usePayload && query.Some? && |query.value| > DIAL_DATA_MAX_PAYLOAD {
        TooMuchData(model[i], query.value, body);
        assert model[i := model[i]] == model;
        GotNothing(conn.ToDeliver());
        return Plainly(413), body;
      }
      ghost var before := conn.ToDeliver();
      var bytes, nread := ReadRequestData(conn, query, usePayload);
      ghost var data, delivered := bytes[..nread], conn.ToDeliver();
      body := if usePayload then data else "";
      GotNothing(before);
      DataIsTheBody(query, data, body, usePayload);
      SameData(model[i], data, query, body, usePayload);
      reply := SetAppData(app, i, bytes, nread);
      assert conn.ToDeliver() == delivered;
    }

    /** handle_dial_data: the list is replaced in memory and in the application's file. */
    method HandleDialData(conn: HttpConnection, appName: string, query: Option<string>, usePayload: bool)
      returns (reply: Reply, ghost body: string)
      requires Valid() && conn.Valid()
      modifies this`model, this`files, nodes`dialData, conn`consumedContent, conn.sock
      ensures Valid() && conn.Valid()
      ensures (model, reply) == ServeList(old(model), SetData(appName, query, body, usePayload), NO_RESULTS)
      ensures var i := Index(old(model), appName);
        && files == (if i < |model| then Filed(old(files), model[i], reply) else old(files))
        && var size := if i < |model| && usePayload then DIAL_DATA_MAX_PAYLOAD else 0;
        Got(old(conn.ToDeliver()), size, body, conn.ToDeliver())
    {
      hide AfterData, Index, Separate, DataOf, Stored, LinkOk, DialApp.Value, Filed;
      hide Prefix, Body.Pending, Body.Unread, Body.After;
      var prev, app;
      ghost var i;
      prev, app, i := FindApp(appName);
      if app == null {
        GotNothing(conn.ToDeliver());
        return Plainly(404), "";
      }
      reply, body := DataForApp(conn, app, i, query, usePayload);
    }
  }

  // The files after a data request: that of the application is written for the reply 200.
  function Filed(files: map<string, string>, a: App, reply: Reply): map<string, string> {
    if reply.code == 200 then files[a.name := Stored(a.dialData)] else files
  }

  // The data of a request is all that counts.
  lemma SameData(a: App, data: string, query: Option<string>, body: string, usePayload: bool)
    requires DataOf(query, body, usePayload) == data
    ensures AfterData(a, Some(data), "", false) == AfterData(a, query, body, usePayload)
  {
  }

  // Without a payload the body does not count.
  lemma DataIsTheBody(query: Option<string>, data: string, body: string, usePayload: bool)
    requires DataOf(query, data, usePayload) == data && (usePayload ==> body == data)
    ensures DataOf(query, body, usePayload) == data
  {
  }

  lemma TooMuchData(a: App, query: string, body: string)
    requires |query| > DIAL_DATA_MAX_PAYLOAD
    ensures AfterData(a, Some(query), body, false) == (a, Plainly(413))
  {
  }

  lemma SystemIsRefused(apps: seq<App>, r: Results)
    ensures ServeList(apps, Stop(SYSTEM_APP), r) == (apps, Plainly(403))
  {
    var i := Index(apps, SYSTEM_APP);
    if i < |apps| {
      assert apps[i := apps[i]] == apps;
    }
  }

  // What a stop does to the list: 403 exactly for "system", 404 exactly for another name that is
  // not registered or is stopped already, else 200; and but for 403 the application is stopped.
  ghost predicate StopDone(was: seq<App>, name: string, statusCb: Status, apps: seq<App>, reply: Reply) {
    var i := Index(was, name);
    && (reply == Plainly(403) <==> name == "system")
    && (reply == Plainly(404) <==> name != "system" && (i == |was| || statusCb == Stopped))
    && (reply == Plainly(200) <==> name != "system" && i < |was| && statusCb != Stopped)
    && apps == if name != "system" && i < |was| then was[i := was[i].(state := Stopped)] else was
  }

  // What a hide does: 404 exactly for a name that is not registered or an application that does
  // not run, else 200 exactly when hide_cb hides it, and then it is hidden, else 501.
  ghost predicate HideDone(was: seq<App>, name: string, statusCb: Status, hideCb: Status, apps: seq<App>,
                           reply: Reply)
  {
    var i := Index(was, name);
    var runs := i < |was| && (statusCb == Running || statusCb == Hide);
    && (reply == Plainly(404) <==> !runs)
    && (reply == Plainly(200) <==> runs && hideCb == Hide)
    && (reply == Plainly(501) <==> runs && hideCb != Hide)
    && apps == if i == |was| then was else was[i := was[i].(state := if runs && hideCb == Hide then Hide else statusCb)]
  }

  lemma ListStop(apps: seq<App>, name: string, statusCb: Status)
    ensures var (after, reply) := ServeList(apps, Stop(name), Results(statusCb, Stopped));
      StopDone(apps, name, statusCb, after, reply)
  {
    var i := Index(apps, name);
    if i < |apps| {
      assert apps[i := apps[i]] == apps;
    }
  }

  lemma ListHide(apps: seq<App>, name: string, statusCb: Status, hideCb: Status)
    ensures var (after, reply) := ServeList(apps, HideApp(name), Results(statusCb, hideCb));
      HideDone(apps, name, statusCb, hideCb, after, reply)
  {
  }

  // A stop of another application than the system's.
  lemma StopOne(apps: seq<App>, name: string, r: Results)
    requires name != SYSTEM_APP
    ensures var i := Index(apps, name);
      ServeList(apps, Stop(name), r)
        == if i == |apps| then (apps, Plainly(404)) else Updated(apps, i, AfterStop(apps[i], r))
  {
  }

  // The list with another i-th application, and the reply.
  function Updated(apps: seq<App>, i: nat, r: (App, Reply)): (seq<App>, Reply)
    requires i < |apps|
  {
    (apps[i := r.0], r.1)
  }

  // Clients that say they are older than version 2.1, or say nothing.
  predicate OldClient(query: Option<string>, atof: string -> real) {
    query.None? || UrlLib.ParseParam(query.value, "clientDialVer").None?
    || atof(UrlLib.ParseParam(query.value, "clientDialVer").value) < 2.09
  }

  // The bytes that are sent for a status request that is answered 200.
  function SentTo(apps: seq<App>, name: string, canStop: bool, origin: Option<string>, reply: Reply): string {
    var i := Index(apps, name);
    if i == |apps| || reply.shown.None? then ""
    else ReplySent(name, canStop, reply.shown.value, apps[i].dialData, origin)
  }

  // An origin list that DIAL_register_app accepts.
  predicate FitsOriginField(corsAllowedOrigin: Option<string>) {
    corsAllowedOrigin.Some? && |corsAllowedOrigin.value| < CORS_SIZE
  }

  // The origins that an application accepts.
  ghost predicate Allows(cors: string, origin: string) {
    cors == "" || Origins.SomeMatches(origin, Origins.Split(cors))
  }

  // mg_read of the data when the payload is used; nothing is read else.
  ghost predicate TookData(b: Body, usePayload: bool, data: string, c: Body) {
    if usePayload then Got(b, DIAL_DATA_MAX_PAYLOAD, data, c) else c == b
  }

  // The data of a request for /dial_data: strncpy of the query, or mg_read of the body.
  method ReadData(conn: HttpConnection, query: Option<string>, usePayload: bool)
    returns (bytes: array<char>, nread: nat)
    requires conn.Valid() && (!usePayload && query.Some? ==> |query.value| <= DIAL_DATA_MAX_PAYLOAD)
    modifies conn`consumedContent, conn.sock
    ensures fresh(bytes) && nread < bytes.Length && bytes[nread] == NUL && nread <= DIAL_DATA_MAX_PAYLOAD
    ensures DataOf(query, bytes[..nread], usePayload) == bytes[..nread]
    ensures conn.Valid() && TookData(old(conn.ToDeliver()), usePayload, bytes[..nread], conn.ToDeliver())
  {
    hide Prefix, Body.Pending, Body.Unread, Body.After;
    bytes, nread := new char[DIAL_DATA_MAX_PAYLOAD + 2](_ => NUL), 0;
    if usePayload {
      nread := ReadInto(conn, bytes, DIAL_DATA_MAX_PAYLOAD);
    } else if query.Some? {
      nread := |query.value|;
      forall i | 0 <= i < nread {
        bytes[i] := query.value[i];
      }
    }
    ghost var got := bytes[..nread];
    bytes[nread] := NUL;
    assert bytes[..nread] == got;
    assert !usePayload ==> bytes[..nread] == if query.Some? then query.value else "";
  }

  // mg_read of at most `size` bytes to the start of a buffer.
  method ReadInto(conn: HttpConnection, bytes: array<char>, size: nat) returns (n: nat)
    requires conn.Valid() && bytes != conn.buf && size < bytes.Length && size <= INT_MAX
    modifies conn`consumedContent, conn.sock, bytes
    ensures conn.Valid() && n <= size && Got(old(conn.ToDeliver()), size, bytes[..n], conn.ToDeliver())
    ensures forall k :: n <= k < bytes.Length ==> bytes[k] == old(bytes[k])
  {
    hide Prefix, Body.Pending, Body.Unread, Body.After;
    ghost var b, d := conn.ToDeliver(), bytes[..];
    n := conn.MgRead(bytes, 0, size);
    GotOne(b, size, n, d, bytes[..]);
    assert bytes[..][..n] == bytes[..n];
  }

  lemma IndexIs(apps: seq<App>, name: string, i: nat)
    requires i <= |apps| && (i < |apps| ==> apps[i].name == name)
    requires forall k :: 0 <= k < i ==> apps[k].name != name
    ensures Index(apps, name) == i
  {
  }
}
