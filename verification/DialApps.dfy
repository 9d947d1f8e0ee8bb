/**
 What the five request handlers of server/dial_server.c do to the addressed application,
 as functions of its state, the request and what the application's callbacks return.
 */
module DialApps {
  import opened Wrappers
  import opened CStrings
  import opened DialData
  import opened LaunchQuery

  // DIALStatus
  datatype Status = Stopped | Hide | Running | ErrorNotImplemented | ErrorForbidden | ErrorUnauth | Error

  // One DIALApp, without its place in the list.
  datatype App = App(name: string, state: Status, payload: string, dialData: seq<Param>)

  // The registered applications by name, and the files of the DIAL data directory.
  datatype World = World(apps: map<string, App>, files: map<string, string>)

  // A request as its handler gets it: `body` is what mg_read delivers.
  datatype Request =
    | Start(app: string, body: string)
    | GetStatus(app: string, oldClient: bool)
    | Stop(app: string)
    | HideApp(app: string)
    | SetData(app: string, query: Option<string>, body: string, usePayload: bool)

  // What the callbacks return: start_cb or status_cb, then hide_cb.
  datatype Results = Results(first: Status, second: Status)

  // For requests that call no callback.
  const NO_RESULTS := Results(Stopped, Stopped)

  // The HTTP status code, and for a status request the state that is shown.
  datatype Reply = Reply(code: nat, shown: Option<Status>)

  function Plainly(code: nat): Reply { Reply(code, None) }

  const START_BODY_SIZE := DIAL_MAX_PAYLOAD + DIAL_MAX_ADDITIONALURL + 1
  const DIAL_DATA_MAX_PAYLOAD := 4096
  const SYSTEM_APP := "system"

  predicate BadPayload(s: string) {
    exists i :: 0 <= i < |s| && !IsPrint(s[i])
  }

  // memset and memcpy into the payload field.
  function Zeros(n: nat): string { seq(n, _ => NUL) }

  function Padded(body: string): string
    requires |body| <= DIAL_MAX_PAYLOAD
  {
    body + Zeros(DIAL_MAX_PAYLOAD - |body|)
  }

  // The error check before an application is started.
  function StartCheck(body: string): Option<nat> {
    if |body| > DIAL_MAX_PAYLOAD then Some(413) else if BadPayload(body) then Some(400) else None
  }

  function StartCode(s: Status): nat {
    match s
    case Running => 201
    case ErrorForbidden => 403
    case ErrorUnauth => 401
    case ErrorNotImplemented => 501
    case Stopped | Hide | Error => 503
  }

  function AfterStart(a: App, body: string, r: Results): (App, Reply) {
    match StartCheck(body)
    case Some(code) => (a, Plainly(code))
    case None =>
      var b := a.(state := r.first);
      (if r.first == Running then b.(payload := Padded(body)) else b, Plainly(StartCode(r.first)))
  }

  // Clients before version 2.1 do not know the hidden state.
  function Shown(s: Status, oldClient: bool): Status {
    if oldClient && s == Hide then Stopped else s
  }

  function AfterStatus(a: App, oldClient: bool, r: Results): (App, Reply) {
    (a.(state := r.first), Reply(200, Some(Shown(r.first, oldClient))))
  }

  function AfterStop(a: App, r: Results): (App, Reply) {
    if a.name == SYSTEM_APP then (a, Plainly(403))
    else if r.first == Stopped then (a.(state := Stopped), Plainly(404))
    else (a.(state := Stopped), Plainly(200))
  }

  function AfterHide(a: App, r: Results): (App, Reply) {
    var b := a.(state := r.first);
    if r.first != Running && r.first != Hide then (b, Plainly(404))
    else if r.second != Hide then (b, Plainly(501))
    else (b.(state := Hide), Plainly(200))
  }

  // The data of a request for /dial_data, or the code of its rejection.
  function DataOf(query: Option<string>, body: string, usePayload: bool): string {
    if usePayload then (if |body| <= DIAL_DATA_MAX_PAYLOAD then body else body[..DIAL_DATA_MAX_PAYLOAD])
    else if query.None? then "" else query.value
  }

  function DataCheck(query: Option<string>, body: string, usePayload: bool): Option<nat> {
    var data := DataOf(query, body, usePayload);
    if |data| > DIAL_DATA_MAX_PAYLOAD then Some(413) else if BadPayload(data) then Some(400) else None
  }

  ghost function AfterData(a: App, query: Option<string>, body: string, usePayload: bool): (App, Reply) {
    match DataCheck(query, body, usePayload)
    case Some(code) => (a, Plainly(code))
    case None => (a.(dialData := Parsed(Some(DataOf(query, body, usePayload)))), Plainly(200))
  }

  ghost function After(a: App, q: Request, r: Results): (App, Reply) {
    match q
    case Start(_, body) => AfterStart(a, body, r)
    case GetStatus(_, old_) => AfterStatus(a, old_, r)
    case Stop(_) => AfterStop(a, r)
    case HideApp(_) => AfterHide(a, r)
    case SetData(_, query, body, usePayload) => AfterData(a, query, body, usePayload)
  }

  // The world with another state of this application.
  function Put(w: World, name: string, a: App): World {
    w.(apps := w.apps[name := a])
  }

  lemma PutSame(w: World, name: string)
    requires name in w.apps
    ensures Put(w, name, w.apps[name]) == w
  {
    assert w.apps[name := w.apps[name]] == w.apps;
  }

  lemma PutTwice(w: World, name: string, a: App, b: App)
    ensures Put(Put(w, name, a), name, b) == Put(w, name, b)
    ensures name in Put(w, name, a).apps && Put(w, name, a).apps[name] == a && Put(w, name, a).files == w.files
  {
    assert w.apps[name := a][name := b] == w.apps[name := b];
  }

  // A request served alone.
  ghost function Serve(w: World, q: Request, r: Results): (World, Reply) {
    if q.app !in w.apps then
      (w, Plainly(if q.Stop? && q.app == SYSTEM_APP then 403 else 404))
    else
      var (a, reply) := After(w.apps[q.app], q, r);
      var v := Put(w, q.app, a);
      (if q.SetData? && reply.code == 200 then v.(files := v.files[q.app := Stored(a.dialData)]) else v, reply)
  }

  // Names in the map are the applications' own.
  ghost predicate Named(w: World) {
    forall n :: n in w.apps ==> w.apps[n].name == n
  }

  /** A request touches the addressed application only, and of the files only that one's. */
  lemma OnlyAddressedChanges(w: World, q: Request, r: Results)
    ensures var v := Serve(w, q, r).0;
      && v.apps.Keys == w.apps.Keys
      && (forall n :: n in w.apps && n != q.app ==> v.apps[n] == w.apps[n])
      && (forall n :: n != q.app ==> (n in v.files <==> n in w.files))
      && (forall n :: n in w.files && n != q.app ==> v.files[n] == w.files[n])
      && (Named(w) ==> Named(v))
  {
  }

  // ------------------------------------------- what the handlers answer, and leave behind

  // Every byte is printable ASCII.
  ghost predicate Printable(s: string) {
    forall i :: 0 <= i < |s| ==> 32 <= s[i] as int <= 126
  }

  // The payload field holds this text and zeros.
  ghost predicate IsStored(payload: string, body: string) {
    && |body| <= |payload| == 4096 && payload[..|body|] == body
    && forall i :: |body| <= i < 4096 ==> payload[i] as int == 0
  }

  // The world in which only this application has changed, to a.
  ghost predicate OnlyNow(w: World, v: World, name: string, a: App) {
    name in w.apps && v == w.(apps := w.apps[name := a])
  }

  /** A start: 404 for a name that is not registered, 413 and 400 for a payload that is too long
      or not printable, and then nothing changes; else the state is what start_cb returns and
      decides the code, and the payload is stored, with zeros behind it, for Running only. */
  lemma StartMeans(w: World, name: string, body: string, r: Results)
    ensures var (v, reply) := Serve(w, Start(name, body), r);
      && (reply == Plainly(404) <==> name !in w.apps)
      && (reply == Plainly(413) <==> name in w.apps && |body| > 4096)
      && (reply == Plainly(400) <==> name in w.apps && |body| <= 4096 && !Printable(body))
      && (if name !in w.apps || |body| > 4096 || !Printable(body) then v == w
          else
            && OnlyNow(w, v, name, v.apps[name])
            && v.apps[name].state == r.first && v.apps[name].dialData == w.apps[name].dialData
            && (r.first == Running ==> reply == Plainly(201) && IsStored(v.apps[name].payload, body))
            && (r.first != Running ==> v.apps[name].payload == w.apps[name].payload)
            && (r.first == ErrorForbidden ==> reply == Plainly(403))
            && (r.first == ErrorUnauth ==> reply == Plainly(401))
            && (r.first == ErrorNotImplemented ==> reply == Plainly(501))
            && (r.first == Stopped || r.first == Hide || r.first == Error ==> reply == Plainly(503)))
  {
    PrintableIs(body);
    hide BadPayload, Printable;
    if name in w.apps && StartCheck(body) == None {
      assert Padded(body)[..|body|] == body;
    } else if name in w.apps {
      PutSame(w, name);
    }
  }

  lemma PrintableIs(body: string)
    ensures Printable(body) <==> !BadPayload(body)
  {
  }

  /** A status request: the state is what status_cb returns; it is shown, but a client below
      version 2.1 is shown a hidden application as stopped. */
  lemma StatusMeans(w: World, name: string, oldClient: bool, r: Results)
    ensures var (v, reply) := Serve(w, GetStatus(name, oldClient), r);
      if name !in w.apps then v == w && reply == Plainly(404)
      else
        && OnlyNow(w, v, name, w.apps[name].(state := r.first))
        && reply == Reply(200, Some(if r.first == Hide && oldClient then Stopped else r.first))
  {
  }

  /** A stop: 403 exactly for "system"; 404 exactly for another name that is not registered or
      whose status_cb says Stopped; else 200; and but for 403 a registered application is
      stopped afterwards. */
  lemma StopMeans(w: World, name: string, r: Results)
    requires Named(w)
    ensures var (v, reply) := Serve(w, Stop(name), r);
      && (reply == Plainly(403) <==> name == "system")
      && (reply == Plainly(404) <==> name != "system" && (name !in w.apps || r.first == Stopped))
      && (reply == Plainly(200) <==> name != "system" && name in w.apps && r.first != Stopped)
      && (if name != "system" && name in w.apps then OnlyNow(w, v, name, w.apps[name].(state := Stopped)) else v == w)
  {
    if name in w.apps {
      PutSame(w, name);
    }
  }

  /** A hide: 404 exactly for a name that is not registered, or whose status_cb says neither
      Running nor Hide; else 200 exactly when hide_cb returns Hide, and then the application is
      hidden; else 501, and its state is what status_cb said. */
  lemma HideMeans(w: World, name: string, r: Results)
    ensures var (v, reply) := Serve(w, HideApp(name), r);
      && (reply == Plainly(404) <==> name !in w.apps || (r.first != Running && r.first != Hide))
      && (reply == Plainly(200) <==> name in w.apps && (r.first == Running || r.first == Hide) && r.second == Hide)
      && (reply == Plainly(501) <==> name in w.apps && (r.first == Running || r.first == Hide) && r.second != Hide)
      && (if name !in w.apps then v == w
          else OnlyNow(w, v, name, w.apps[name].(state := if reply == Plainly(200) then Hide else r.first)))
  {
  }

  // The text of a data request.
  function RequestData(query: Option<string>, body: string, usePayload: bool): string {
    if usePayload then (if |body| > 4096 then body[..4096] else body)
    else if query.Some? then query.value else ""
  }

  /** A data request: 413 and 400 for a text that is too long or not printable, and then nothing
      changes; else 200, and the pairs of the text become the application's data, in memory and
      in its file. */
  lemma DataMeans(w: World, name: string, query: Option<string>, body: string, usePayload: bool, r: Results)
    requires Named(w)
    ensures var (v, reply) := Serve(w, SetData(name, query, body, usePayload), r);
      var data := RequestData(query, body, usePayload);
      && (reply == Plainly(404) <==> name !in w.apps)
      && (reply == Plainly(413) <==> name in w.apps && |data| > 4096)
      && (reply == Plainly(400) <==> name in w.apps && |data| <= 4096 && !Printable(data))
      && (reply == Plainly(200) <==> name in w.apps && |data| <= 4096 && Printable(data))
      && (if reply != Plainly(200) then v == w
          else
            && v.apps == w.apps[name := w.apps[name].(dialData := Parsed(Some(data)))]
            && v.files == w.files[name := Stored(Parsed(Some(data)))])
  {
    var data := RequestData(query, body, usePayload);
    PrintableIs(data);
    hide BadPayload, Printable, Parsed, Stored;
    if name in w.apps {
      PutSame(w, name);
    }
  }

  /** The stored payload is a C string exactly when it is shorter than the field: one of
      4096 characters fills the field and has no NUL after it. */
  lemma PayloadIsTerminated(body: string)
    requires StartCheck(body) == None
    ensures NUL in Padded(body) <==> |body| < DIAL_MAX_PAYLOAD
    ensures |body| < DIAL_MAX_PAYLOAD ==> CStr(Padded(body), 0) == body
  {
    var p := Padded(body);
    assert forall i :: 0 <= i < |body| ==> IsPrint(body[i]) && p[i] == body[i];
    if |body| < DIAL_MAX_PAYLOAD {
      assert p[|body|] == NUL;
      SpanIs(p, 0, IsNul(), |body|);
      assert p[0..|body|] == body;
    }
  }
}
