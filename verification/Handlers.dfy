/**
 Concurrent requests to the DIAL server (the five handlers of server/dial_server.c): each
 runs on a worker thread of its own, in small steps, under the server's mutex.  The model
 interleaves the steps of any number of threads; callbacks return anything.
 */
module Handlers {
  import opened Wrappers
  import opened CStrings
  import opened DialData
  import opened LaunchQuery
  import opened DialApps

  // Where a thread is.
  datatype Pc =
    | Idle
    | Wanting(q: Request)             // before ds_lock
    | Holding(q: Request, at: Place)  // holds the mutex
    | Done(entry: nat)                // answered; `entry` is the request's place in the log

  // Where the holder of the mutex is.
  datatype Place =
    | Finding                         // find_app
    | Checking                        // size and isBadPayload
    | CallStart
    | Zeroing                         // state is Running, memset of the payload next
    | Copying                         // memcpy of the payload next
    | CallStatus
    | Deciding(first: Status)         // status_cb has returned `first`
    | CallStop(first: Status)
    | CallHide(first: Status)
    | FreeData
    | ParseData
    | StoreData
    | Replying(r: Results, reply: Reply)  // ds_unlock next

  // A request that has been answered, with what its callbacks returned.
  datatype Entry = Entry(thread: nat, q: Request, r: Results, reply: Reply)

  datatype Sys = Sys(world: World, owner: Option<nat>, threads: seq<Pc>, log: seq<Entry>)

  // Thread `thread` makes a step; `given` is what a callback returns in it, if it calls one,
  // and `request` the request that arrives, if one does.
  datatype Action = Act(thread: nat, given: Status, request: Request)

  function Answer(code: nat, first: Status, second: Status): Place {
    Replying(Results(first, second), Plainly(code))
  }

  ghost function Failed(q: Request): Option<nat> {
    if q.Start? then StartCheck(q.body)
    else if q.SetData? then DataCheck(q.query, q.body, q.usePayload)
    else None
  }

  // The state of the application after the holder's step at this place.
  ghost function AppNext(a: App, q: Request, at: Place, given: Status): App {
    match at
    case CallStart | CallStatus => a.(state := given)
    case Zeroing => a.(payload := Zeros(DIAL_MAX_PAYLOAD))
    case Copying =>
      if q.Start? && |q.body| <= DIAL_MAX_PAYLOAD
      then a.(payload := q.body + Zeros(DIAL_MAX_PAYLOAD)[|q.body|..]) else a
    case CallStop(_) => a.(state := Stopped)
    case CallHide(_) => if given == Hide then a.(state := Hide) else a
    case FreeData => a.(dialData := [])
    case ParseData =>
      if q.SetData? then a.(dialData := Parsed(Some(DataOf(q.query, q.body, q.usePayload)))) else a
    case Finding | Checking | Deciding(_) | StoreData | Replying(_, _) => a
  }

  // Where the holder goes on; `found` says whether the application is registered.
  ghost function PlaceNext(q: Request, at: Place, given: Status, found: bool): Place {
    match at
    case Finding =>
      if q.Stop? && q.app == SYSTEM_APP then Answer(403, Stopped, Stopped)
      else if !found then Answer(404, Stopped, Stopped)
      else if q.Start? || q.SetData? then Checking
      else CallStatus
    case Checking =>
      if Failed(q).Some? then Answer(Failed(q).value, Stopped, Stopped)
      else if q.Start? then CallStart else FreeData
    case CallStart => if given == Running then Zeroing else Answer(StartCode(given), given, Stopped)
    case Zeroing => Copying
    case Copying => Answer(201, Running, Stopped)
    case CallStatus =>
      if q.GetStatus? then Replying(Results(given, Stopped), Reply(200, Some(Shown(given, q.oldClient))))
      else Deciding(given)
    case Deciding(first) =>
      if q.Stop? then (if first == Stopped then Answer(404, first, Stopped) else CallStop(first))
      else if first != Running && first != Hide then Answer(404, first, Stopped)
      else CallHide(first)
    case CallStop(first) => Answer(200, first, Stopped)
    case CallHide(first) => Answer(if given == Hide then 200 else 501, first, given)
    case FreeData => ParseData
    case ParseData => StoreData
    case StoreData => Answer(200, Stopped, Stopped)
    case Replying(_, _) => at
  }

  ghost function WorldNext(w: World, q: Request, at: Place, given: Status): World {
    if q.app !in w.apps then w
    else if at.StoreData? then w.(files := w.files[q.app := Stored(w.apps[q.app].dialData)])
    else Put(w, q.app, AppNext(w.apps[q.app], q, at, given))
  }

  ghost function Next(s: Sys, a: Action): Option<Sys> {
    if a.thread >= |s.threads| then None else
      match s.threads[a.thread]
      case Idle | Done(_) =>
        Some(s.(threads := s.threads[a.thread := Wanting(a.request)]))
      case Wanting(q) =>
        if s.owner.Some? then None
        else Some(s.(owner := Some(a.thread), threads := s.threads[a.thread := Holding(q, Finding)]))
      case Holding(q, at) =>
        if at.Replying? then
          Some(Sys(s.world, None, s.threads[a.thread := Done(|s.log|)], s.log + [Entry(a.thread, q, at.r, at.reply)]))
        else
          var next := PlaceNext(q, at, a.given, q.app in s.world.apps);
          Some(s.(world := WorldNext(s.world, q, at, a.given), threads := s.threads[a.thread := Holding(q, next)]))
  }

  ghost predicate Reaches(s: Sys, actions: seq<Action>, t: Sys)
    decreases |actions|
  {
    if actions == [] then s == t
    else Next(s, actions[0]).Some? && Reaches(Next(s, actions[0]).value, actions[1..], t)
  }

  ghost function Init(w: World, threads: nat): Sys {
    Sys(w, None, seq(threads, _ => Idle), [])
  }

  // ------------------------------------------------------------- the serial order

  // The requests of the log, served one after the other.
  ghost function Replay(w: World, log: seq<Entry>): World {
    if log == [] then w else
      var n := |log| - 1;
      Serve(Replay(w, log[..n]), log[n].q, log[n].r).0
  }

  // Every request of the log was answered as when it is served alone in its place.
  ghost predicate Consistent(w: World, log: seq<Entry>) {
    forall i :: 0 <= i < |log| ==> log[i].reply == Serve(Replay(w, log[..i]), log[i].q, log[i].r).1
  }

  lemma ReplayMore(w: World, log: seq<Entry>, e: Entry)
    ensures Replay(w, log + [e]) == Serve(Replay(w, log), e.q, e.r).0
    ensures Consistent(w, log) && e.reply == Serve(Replay(w, log), e.q, e.r).1 ==> Consistent(w, log + [e])
  {
    hide Serve;
    var more := log + [e];
    assert more[..|log|] == log;
    assert forall i :: 0 <= i < |log| ==> more[..i] == log[..i];
  }

  // ------------------------------------------------------------------- invariant

  // The holder of the mutex is at this place; b was the world when it took the mutex.
  ghost predicate Midway(b: World, w: World, q: Request, at: Place) {
    if at.Replying? then (w, at.reply) == Serve(b, q, at.r)
    else if at.Finding? then w == b
    else q.app in b.apps && Ready(q, at) && w == Put(b, q.app, PartlyServed(b.apps[q.app], q, at))
  }

  // What the steps before this place have made of the application.
  ghost function PartlyServed(a: App, q: Request, at: Place): App {
    match at
    case Zeroing => a.(state := Running)
    case Copying => a.(state := Running, payload := Zeros(DIAL_MAX_PAYLOAD))
    case Deciding(first) => a.(state := first)
    case CallStop(first) => a.(state := first)
    case CallHide(first) => a.(state := first)
    case ParseData => a.(dialData := [])
    case StoreData => if q.SetData? then a.(dialData := Parsed(Some(DataOf(q.query, q.body, q.usePayload)))) else a
    case Finding | Checking | CallStart | CallStatus | FreeData | Replying(_, _) => a
  }

  // The requests that get to this place.
  ghost predicate Ready(q: Request, at: Place) {
    match at
    case Finding | Replying(_, _) => true
    case Checking => q.Start? || q.SetData?
    case CallStart | Zeroing | Copying => q.Start? && Failed(q) == None
    case CallStatus => q.GetStatus? || q.HideApp? || (q.Stop? && q.app != SYSTEM_APP)
    case Deciding(_) => q.HideApp? || (q.Stop? && q.app != SYSTEM_APP)
    case CallStop(first) => q.Stop? && q.app != SYSTEM_APP && first != Stopped
    case CallHide(first) => q.HideApp? && (first == Running || first == Hide)
    case FreeData | ParseData | StoreData => q.SetData? && Failed(q) == None
  }

  ghost predicate MutexInv(s: Sys) {
    && (forall i :: 0 <= i < |s.threads| ==> (s.threads[i].Holding? <==> s.owner == Some(i)))
    && (s.owner.Some? ==> s.owner.value < |s.threads|)
  }

  ghost predicate AnsweredInv(s: Sys) {
    forall i :: 0 <= i < |s.threads| && s.threads[i].Done? ==>
      s.threads[i].entry < |s.log| && s.log[s.threads[i].entry].thread == i
  }

  ghost predicate WorldInv(s: Sys, b: World)
    requires MutexInv(s)
  {
    if s.owner.None? then s.world == b
    else var pc := s.threads[s.owner.value]; Midway(b, s.world, pc.q, pc.at)
  }

  ghost predicate Inv(s: Sys, w: World) {
    && MutexInv(s) && AnsweredInv(s) && Consistent(w, s.log)
    && Named(Replay(w, s.log)) && WorldInv(s, Replay(w, s.log))
  }

  // One step inside the critical section, seen from the application: a is what it was when
  // the mutex was taken.
  lemma PlaceKeeps(a: App, q: Request, at: Place, given: Status)
    requires a.name == q.app && !at.Replying? && Ready(q, at)
    ensures var next, b := PlaceNext(q, at, given, true), AppNext(PartlyServed(a, q, at), q, at, given);
      if next.Replying? then (b, next.reply) == After(a, q, next.r)
      else Ready(q, next) && !next.Finding? && b == PartlyServed(a, q, next)
  {
    hide StartCheck, DataCheck, Parsed, DataOf;
    if at.Copying? {
      StartedBodyFits(q.body);
      PaddedIs(q.body);
    }
  }

  lemma StartedBodyFits(body: string)
    requires StartCheck(body) == None
    ensures |body| <= DIAL_MAX_PAYLOAD
  {
  }

  lemma PaddedIs(body: string)
    requires |body| <= DIAL_MAX_PAYLOAD
    ensures body + Zeros(DIAL_MAX_PAYLOAD)[|body|..] == Padded(body)
  {
  }

  // The same, seen from the world.
  lemma StepKeepsMidway(b: World, w: World, q: Request, at: Place, given: Status)
    requires Named(b) && !at.Replying? && Midway(b, w, q, at)
    ensures Midway(b, WorldNext(w, q, at, given), q, PlaceNext(q, at, given, q.app in w.apps))
  {
    hide Put, PlaceNext, AppNext, PartlyServed, Ready, After;
    var n := q.app;
    if n !in b.apps {
      NotFound(q, given);
    } else {
      var a := b.apps[n];
      PutSame(b, n);
      StartsUnserved(a, q);
      PlaceKeeps(a, q, at, given);
      PutTwice(b, n, PartlyServed(a, q, at), AppNext(PartlyServed(a, q, at), q, at, given));
      StoringEnds(a, q, at, given);
    }
  }

  lemma NotFound(q: Request, given: Status)
    ensures PlaceNext(q, Finding, given, false)
         == Answer(if q.Stop? && q.app == SYSTEM_APP then 403 else 404, Stopped, Stopped)
  {
  }

  // The file is written in the last step of the only kind of request that writes it.
  lemma StoringEnds(a: App, q: Request, at: Place, given: Status)
    requires a.name == q.app && !at.Replying? && Ready(q, at)
    ensures var next := PlaceNext(q, at, given, true);
      && (at.StoreData? ==> q.SetData? && next == Answer(200, Stopped, Stopped)
                            && AppNext(PartlyServed(a, q, at), q, at, given) == PartlyServed(a, q, at))
      && (!at.StoreData? && next.Replying? ==> !(q.SetData? && next.reply.code == 200))
  {
    hide Parsed, StartCheck;
  }

  lemma StartsUnserved(a: App, q: Request)
    ensures PartlyServed(a, q, Finding) == a && Ready(q, Finding)
  {
  }

  lemma UnlockKeepsInv(s: Sys, w: World, a: Action)
    requires Inv(s, w) && a.thread < |s.threads|
    requires s.threads[a.thread].Holding? && s.threads[a.thread].at.Replying?
    ensures Inv(Next(s, a).value, w)
  {
    hide Serve, Consistent;
    var pc := s.threads[a.thread];
    ReplayMore(w, s.log, Entry(a.thread, pc.q, pc.at.r, pc.at.reply));
    OnlyAddressedChanges(Replay(w, s.log), pc.q, pc.at.r);
  }

  lemma StepKeepsInv(s: Sys, w: World, a: Action)
    requires Inv(s, w) && Next(s, a).Some?
    ensures Inv(Next(s, a).value, w)
  {
    hide Serve, Consistent, Replay, Midway, Named, WorldNext, PlaceNext;
    var pc := s.threads[a.thread];
    if pc.Holding? {
      if pc.at.Replying? {
        UnlockKeepsInv(s, w, a);
      } else {
        StepKeepsMidway(Replay(w, s.log), s.world, pc.q, pc.at, a.given);
      }
    } else if pc.Wanting? {
      TakingIsMidway(s.world, pc.q);
    }
  }

  lemma TakingIsMidway(b: World, q: Request)
    ensures Midway(b, b, q, Finding)
  {
  }

  lemma {:induction false} ReachesKeepsInv(s: Sys, w: World, actions: seq<Action>, t: Sys)
    requires Inv(s, w) && Reaches(s, actions, t)
    ensures Inv(t, w)
    decreases |actions|
  {
    hide Inv, Next;
    if actions != [] {
      StepKeepsInv(s, w, actions[0]);
      ReachesKeepsInv(Next(s, actions[0]).value, w, actions[1..], t);
    }
  }

  // ------------------------------------------------------------------- the claims

  /** Every interleaving is serialisable: the answered requests, in the order in which they
      held the mutex, get the replies and leave the world that they get and leave when they
      are served one after the other. */
  lemma HandlersAreSerialisable(w: World, n: nat, actions: seq<Action>, t: Sys)
    requires Named(w) && Reaches(Init(w, n), actions, t)
    ensures Consistent(w, t.log)
    ensures t.owner == None ==> t.world == Replay(w, t.log)
    ensures forall i :: 0 <= i < |t.threads| && t.threads[i].Done? ==>
      t.threads[i].entry < |t.log| && t.log[t.threads[i].entry].thread == i
  {
    hide Serve;
    assert Inv(Init(w, n), w);
    ReachesKeepsInv(Init(w, n), w, actions, t);
  }

  /** Even in the middle of a request, all applications but the addressed one are as the
      answered requests have left them. */
  lemma OthersUndisturbed(w: World, n: nat, actions: seq<Action>, t: Sys, name: string)
    requires Named(w) && Reaches(Init(w, n), actions, t) && name in w.apps
    requires forall i :: 0 <= i < |t.threads| && t.threads[i].Holding? ==> t.threads[i].q.app != name
    ensures name in t.world.apps && name in Replay(w, t.log).apps
    ensures t.world.apps[name] == Replay(w, t.log).apps[name]
  {
    hide Serve, Midway;
    assert Inv(Init(w, n), w);
    ReachesKeepsInv(Init(w, n), w, actions, t);
    ReplayKeepsNames(w, t.log);
    if t.owner.Some? {
      var pc := t.threads[t.owner.value];
      MidwayTouchesOne(Replay(w, t.log), t.world, pc.q, pc.at, name);
    }
  }

  lemma MidwayTouchesOne(b: World, w: World, q: Request, at: Place, name: string)
    requires Midway(b, w, q, at) && name in b.apps && name != q.app
    ensures name in w.apps && w.apps[name] == b.apps[name]
  {
    hide PartlyServed, Serve;
    if at.Replying? {
      OnlyAddressedChanges(b, q, at.r);
    }
  }

  lemma {:induction false} ReplayKeepsNames(w: World, log: seq<Entry>)
    ensures Replay(w, log).apps.Keys == w.apps.Keys
    ensures Named(w) ==> Named(Replay(w, log))
  {
    hide Serve, Named;
    if log != [] {
      var n := |log| - 1;
      ReplayKeepsNames(w, log[..n]);
      OnlyAddressedChanges(Replay(w, log[..n]), log[n].q, log[n].r);
    }
  }

  // The body of the last start of this application that was answered 201.
  ghost function LastStarted(log: seq<Entry>, name: string): Option<string> {
    if log == [] then None else
      var e := log[|log| - 1];
      if e.q.Start? && e.q.app == name && e.reply.code == 201 then Some(e.q.body)
      else LastStarted(log[..|log| - 1], name)
  }

  lemma ServedPayload(w: World, q: Request, r: Results, name: string)
    requires name in w.apps
    ensures var (v, reply) := Serve(w, q, r);
      && name in v.apps
      && if q.Start? && q.app == name && reply.code == 201
         then StartCheck(q.body) == None && |q.body| <= DIAL_MAX_PAYLOAD && v.apps[name].payload == Padded(q.body)
         else v.apps[name].payload == w.apps[name].payload
  {
    hide Parsed, Stored, DataCheck, BadPayload, Padded;
  }

  lemma {:induction false} ReplayedPayload(w: World, log: seq<Entry>, name: string)
    requires name in w.apps && Consistent(w, log)
    ensures name in Replay(w, log).apps
    ensures match LastStarted(log, name)
      case None => Replay(w, log).apps[name].payload == w.apps[name].payload
      case Some(body) =>
        StartCheck(body) == None && |body| <= DIAL_MAX_PAYLOAD && Replay(w, log).apps[name].payload == Padded(body)
  {
    hide Serve, Padded, StartCheck;
    if log != [] {
      var n := |log| - 1;
      assert forall i :: 0 <= i < n ==> log[..n][..i] == log[..i];
      ReplayedPayload(w, log[..n], name);
      ServedPayload(Replay(w, log[..n]), log[n].q, log[n].r, name);
    }
  }

  // Places at which the holder of the mutex has left the payload of its application alone: all
  // those where a callback runs are among them.
  ghost predicate PayloadUntouched(at: Place) {
    !at.Copying? && !at.Replying?
  }

  // The application's payload is that of the answered requests.
  ghost predicate PayloadSettled(t: Sys, name: string) {
    forall i :: 0 <= i < |t.threads| && t.threads[i].Holding? ==>
      t.threads[i].q.app != name || PayloadUntouched(t.threads[i].at)
  }

  lemma MidwayPayload(b: World, w: World, q: Request, at: Place, name: string)
    requires Midway(b, w, q, at) && name in b.apps && (name != q.app || PayloadUntouched(at))
    ensures name in w.apps && w.apps[name].payload == b.apps[name].payload
  {
    hide Serve;
    if name != q.app {
      MidwayTouchesOne(b, w, q, at, name);
    }
  }

  /** In every interleaving: whenever DIAL_get_payload may be called, from a callback that runs
      while its request holds the mutex or when no request holds it, it gives the zero-padded
      body of the application's most recent start that was answered 201. */
  lemma PayloadIsOfLastStart(w: World, n: nat, actions: seq<Action>, t: Sys, name: string)
    requires Named(w) && Reaches(Init(w, n), actions, t) && name in w.apps && PayloadSettled(t, name)
    ensures name in t.world.apps
    ensures match LastStarted(t.log, name)
      case None => t.world.apps[name].payload == w.apps[name].payload
      case Some(body) =>
        StartCheck(body) == None && |body| <= DIAL_MAX_PAYLOAD && t.world.apps[name].payload == Padded(body)
  {
    hide Serve, Midway, PayloadUntouched, Padded, StartCheck;
    assert Inv(Init(w, n), w);
    ReachesKeepsInv(Init(w, n), w, actions, t);
    ReplayedPayload(w, t.log, name);
    if t.owner.Some? {
      var pc := t.threads[t.owner.value];
      MidwayPayload(Replay(w, t.log), t.world, pc.q, pc.at, name);
    }
  }

  /** So what DIAL_get_payload gives has a NUL, as the header file promises, exactly when the
      application has been started with a payload shorter than 4096 characters; before its first
      start it has one only if the memory that DIAL_register_app allocated happened to. */
  lemma PayloadHasNul(w: World, n: nat, actions: seq<Action>, t: Sys, name: string)
    requires Named(w) && Reaches(Init(w, n), actions, t) && name in w.apps && PayloadSettled(t, name)
    ensures name in t.world.apps
    ensures NUL in t.world.apps[name].payload <==>
      match LastStarted(t.log, name)
      case None => NUL in w.apps[name].payload
      case Some(body) => |body| < DIAL_MAX_PAYLOAD
  {
    hide Reaches, Padded, StartCheck, PayloadSettled;
    PayloadIsOfLastStart(w, n, actions, t, name);
    if LastStarted(t.log, name).Some? {
      PayloadIsTerminated(LastStarted(t.log, name).value);
    }
  }

  // In particular while any callback of the application itself runs.
  lemma SettledInCallbacks(t: Sys, name: string, i: nat)
    requires MutexInv(t) && i < |t.threads| && t.threads[i].Holding?
    requires var at := t.threads[i].at; at.CallStart? || at.CallStatus? || at.CallStop? || at.CallHide?
    ensures PayloadSettled(t, name) && DataSettled(t, name)
  {
    assert t.owner == Some(i);
  }

  // The state in which an answered request leaves its application, by its code and by what the
  // callbacks returned; None when it leaves the state alone.
  ghost function StateLeft(e: Entry): Option<Status> {
    var code := e.reply.code;
    match e.q
    case Start(_, _) => if code in {400, 404, 413} then None else Some(e.r.first)
    case GetStatus(_, _) => if code == 200 then Some(e.r.first) else None
    case Stop(_) => if code == 403 then None else Some(Stopped)
    case HideApp(_) => if code == 200 then Some(Hide) else Some(e.r.first)
    case SetData(_, _, _, _) => None
  }

  // The state left by the last answered request for this application that set it.
  ghost function LastState(log: seq<Entry>, name: string): Option<Status> {
    if log == [] then None else
      var e := log[|log| - 1];
      if e.q.app == name && StateLeft(e).Some? then StateLeft(e) else LastState(log[..|log| - 1], name)
  }

  lemma ServedState(w: World, e: Entry, name: string)
    requires name in w.apps && Named(w) && e.reply == Serve(w, e.q, e.r).1
    ensures var v := Serve(w, e.q, e.r).0;
      && name in v.apps
      && v.apps[name].state ==
           if e.q.app == name && StateLeft(e).Some? then StateLeft(e).value else w.apps[name].state
  {
    match e.q
    case Start(n, body) => StartMeans(w, n, body, e.r);
    case GetStatus(n, oldClient) => StatusMeans(w, n, oldClient, e.r);
    case Stop(n) => StopMeans(w, n, e.r);
    case HideApp(n) => HideMeans(w, n, e.r);
    case SetData(n, query, body, usePayload) => DataMeans(w, n, query, body, usePayload, e.r);
    hide Serve, Parsed, Stored, Printable;
    OnlyAddressedChanges(w, e.q, e.r);
  }

  lemma {:induction false} ReplayedState(w: World, log: seq<Entry>, name: string)
    requires name in w.apps && Named(w) && Consistent(w, log)
    ensures name in Replay(w, log).apps
    ensures Replay(w, log).apps[name].state ==
      if LastState(log, name).Some? then LastState(log, name).value else w.apps[name].state
  {
    hide Serve, StateLeft;
    if log != [] {
      var n := |log| - 1;
      assert forall i :: 0 <= i < n ==> log[..n][..i] == log[..i];
      ReplayedState(w, log[..n], name);
      ReplayKeepsNames(w, log[..n]);
      ServedState(Replay(w, log[..n]), log[n], name);
    }
  }

  // Places at which the holder has left the state of its application alone.
  ghost predicate StateUntouched(at: Place) {
    at.Finding? || at.Checking? || at.CallStart? || at.CallStatus? || at.FreeData? || at.ParseData? || at.StoreData?
  }

  ghost predicate StateSettled(t: Sys, name: string) {
    forall i :: 0 <= i < |t.threads| && t.threads[i].Holding? ==>
      t.threads[i].q.app != name || StateUntouched(t.threads[i].at)
  }

  lemma MidwayState(b: World, w: World, q: Request, at: Place, name: string)
    requires Midway(b, w, q, at) && name in b.apps && (name != q.app || StateUntouched(at))
    ensures name in w.apps && w.apps[name].state == b.apps[name].state
  {
    hide Serve, Parsed;
    if name != q.app {
      MidwayTouchesOne(b, w, q, at, name);
    }
  }

  /** In every interleaving: when no request holds the mutex, and while one does that has not yet
      touched it, an application's state is the one in which its last answered request left it:
      Stopped after a stop, Hide after a hide answered 200, and what the callback returned else. */
  lemma StateIsOfLastRequest(w: World, n: nat, actions: seq<Action>, t: Sys, name: string)
    requires Named(w) && Reaches(Init(w, n), actions, t) && name in w.apps && StateSettled(t, name)
    ensures name in t.world.apps
    ensures t.world.apps[name].state ==
      if LastState(t.log, name).Some? then LastState(t.log, name).value else w.apps[name].state
  {
    hide Serve, Midway, StateUntouched, LastState;
    assert Inv(Init(w, n), w);
    ReachesKeepsInv(Init(w, n), w, actions, t);
    ReplayedState(w, t.log, name);
    if t.owner.Some? {
      var pc := t.threads[t.owner.value];
      MidwayState(Replay(w, t.log), t.world, pc.q, pc.at, name);
    }
  }

  // The data of the last request for this application's DIAL data that was answered 200.
  ghost function LastData(log: seq<Entry>, name: string): Option<string> {
    if log == [] then None else
      var e := log[|log| - 1];
      if e.q.SetData? && e.q.app == name && e.reply.code == 200 then Some(DataOf(e.q.query, e.q.body, e.q.usePayload))
      else LastData(log[..|log| - 1], name)
  }

  ghost predicate DataIs(w: World, name: string, data: string) {
    && name in w.apps && w.apps[name].dialData == Parsed(Some(data))
    && name in w.files && w.files[name] == Stored(Parsed(Some(data)))
  }

  ghost predicate SameData(w: World, v: World, name: string)
    requires name in w.apps && name in v.apps
  {
    && v.apps[name].dialData == w.apps[name].dialData
    && (name in v.files <==> name in w.files) && (name in w.files ==> v.files[name] == w.files[name])
  }

  lemma ServedData(w: World, q: Request, r: Results, name: string)
    requires name in w.apps
    ensures var (v, reply) := Serve(w, q, r);
      && name in v.apps
      && if q.SetData? && q.app == name && reply.code == 200
         then DataIs(v, name, DataOf(q.query, q.body, q.usePayload))
         else SameData(w, v, name)
  {
    hide Parsed, Stored, BadPayload, DataOf, Padded;
  }

  lemma {:induction false} ReplayedData(w: World, log: seq<Entry>, name: string)
    requires name in w.apps && Consistent(w, log)
    ensures name in Replay(w, log).apps
    ensures LastData(log, name).Some? ==> DataIs(Replay(w, log), name, LastData(log, name).value)
  {
    hide Serve, Parsed, Stored, DataOf;
    if log != [] {
      var n := |log| - 1;
      assert forall i :: 0 <= i < n ==> log[..n][..i] == log[..i];
      ReplayedData(w, log[..n], name);
      ServedData(Replay(w, log[..n]), log[n].q, log[n].r, name);
    }
  }

  // Places at which the holder has left the DIAL data and the file of its application alone;
  // the status handler reads the data at one of them.
  ghost predicate DataUntouched(at: Place) {
    !at.ParseData? && !at.StoreData? && !at.Replying?
  }

  ghost predicate DataSettled(t: Sys, name: string) {
    forall i :: 0 <= i < |t.threads| && t.threads[i].Holding? ==>
      t.threads[i].q.app != name || DataUntouched(t.threads[i].at)
  }

  lemma MidwayData(b: World, w: World, q: Request, at: Place, name: string, data: string)
    requires Midway(b, w, q, at) && DataIs(b, name, data) && (name != q.app || DataUntouched(at))
    ensures DataIs(w, name, data)
  {
    hide Serve, Parsed, Stored;
    if at.Replying? {
      OnlyAddressedChanges(b, q, at.r);
    }
  }

  /** In every interleaving: whenever an application's DIAL data may be read, by the status
      handler or a callback that holds the mutex or when no request holds it, they and their
      file are those of its last data request that was answered 200. */
  lemma DataIsOfLastRequest(w: World, n: nat, actions: seq<Action>, t: Sys, name: string)
    requires Named(w) && Reaches(Init(w, n), actions, t) && name in w.apps && DataSettled(t, name)
    requires LastData(t.log, name).Some?
    ensures DataIs(t.world, name, LastData(t.log, name).value)
  {
    hide DataIs, Serve, Midway, DataUntouched;
    assert Inv(Init(w, n), w);
    ReachesKeepsInv(Init(w, n), w, actions, t);
    ReplayedData(w, t.log, name);
    if t.owner.Some? {
      var pc := t.threads[t.owner.value];
      MidwayData(Replay(w, t.log), t.world, pc.q, pc.at, name, LastData(t.log, name).value);
    }
  }
}
