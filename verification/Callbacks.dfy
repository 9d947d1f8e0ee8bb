/**
 Which callbacks of the applications are called (the five handlers of server/dial_server.c):
 over any run of concurrent requests, in the order of their answers, and for each answer the
 same ones.
 */
module Callbacks {
  import opened Wrappers
  import opened DialApps
  import opened Handlers

  datatype Kind = StartCb | StatusCb | StopCb | HideCb

  // A callback of this application is called.
  datatype Call = Call(app: string, kind: Kind)

  // --------------------------------------------------------------- in a run

  ghost function CalledAt(q: Request, at: Place): seq<Call> {
    if at.CallStart? then [Call(q.app, StartCb)]
    else if at.CallStatus? then [Call(q.app, StatusCb)]
    else if at.CallStop? then [Call(q.app, StopCb)]
    else if at.CallHide? then [Call(q.app, HideCb)]
    else []
  }

  ghost function CallsNow(s: Sys, a: Action): seq<Call> {
    if a.thread < |s.threads| && s.threads[a.thread].Holding?
    then CalledAt(s.threads[a.thread].q, s.threads[a.thread].at) else []
  }

  // All callbacks that are called in a run.
  ghost function Calls(s: Sys, actions: seq<Action>): seq<Call>
    decreases |actions|
  {
    if actions == [] || Next(s, actions[0]).None? then []
    else CallsNow(s, actions[0]) + Calls(Next(s, actions[0]).value, actions[1..])
  }

  // --------------------------------------------------------------- for an answer

  // The calls that an answer stands for: a start that was not refused has called start_cb; a
  // status request status_cb; a stop answered 200 status_cb and then stop_cb, and a hide that was
  // not answered 404 status_cb and then hide_cb; those answered 404 only status_cb, if the
  // application is registered at all.
  ghost function CallsFor(q: Request, code: nat, registered: bool): seq<Call> {
    match q
    case Start(n, _) => if code in {400, 404, 413} then [] else [Call(n, StartCb)]
    case GetStatus(n, _) => if registered then [Call(n, StatusCb)] else []
    case Stop(n) =>
      if code == 200 then [Call(n, StatusCb), Call(n, StopCb)]
      else if code == 404 && registered then [Call(n, StatusCb)] else []
    case HideApp(n) =>
      if code == 200 || code == 501 then [Call(n, StatusCb), Call(n, HideCb)]
      else if registered then [Call(n, StatusCb)] else []
    case SetData(_, _, _, _) => []
  }

  ghost function LoggedCalls(log: seq<Entry>, names: set<string>): seq<Call> {
    if log == [] then [] else
      var e := log[|log| - 1];
      LoggedCalls(log[..|log| - 1], names) + CallsFor(e.q, e.reply.code, e.q.app in names)
  }

  lemma LoggedMore(log: seq<Entry>, e: Entry, names: set<string>)
    ensures LoggedCalls(log + [e], names) == LoggedCalls(log, names) + CallsFor(e.q, e.reply.code, e.q.app in names)
  {
    assert (log + [e])[..|log|] == log;
  }

  // --------------------------------------------------------------- the invariant

  // What the holder of the mutex has called before this place.
  ghost function CallsBefore(q: Request, at: Place, registered: bool): seq<Call> {
    match at
    case Zeroing | Copying => [Call(q.app, StartCb)]
    case Deciding(_) | CallStop(_) | CallHide(_) => [Call(q.app, StatusCb)]
    case Replying(_, reply) => CallsFor(q, reply.code, registered)
    case Finding | Checking | CallStart | CallStatus | FreeData | ParseData | StoreData => []
  }

  ghost function HoldersCalls(s: Sys, names: set<string>): seq<Call>
    requires MutexInv(s)
  {
    if s.owner.None? then []
    else var pc := s.threads[s.owner.value]; CallsBefore(pc.q, pc.at, pc.q.app in names)
  }

  lemma PlaceKeepsCalls(q: Request, at: Place, given: Status, found: bool)
    requires !at.Replying? && Ready(q, at) && (at.Finding? || found)
    ensures CallsBefore(q, PlaceNext(q, at, given, found), found) == CallsBefore(q, at, found) + CalledAt(q, at)
  {
    hide StartCheck, DataCheck;
    RefusalCodes(q);
  }

  lemma RefusalCodes(q: Request)
    ensures Failed(q).Some? ==> Failed(q).value in {400, 413}
  {
  }

  // The holder of the mutex is at a place where its request can be.
  lemma HolderIsReady(s: Sys, w: World, i: nat)
    requires Inv(s, w) && i < |s.threads| && s.threads[i].Holding?
    ensures s.owner == Some(i) && s.world.apps.Keys == w.apps.Keys
    ensures var pc := s.threads[i];
      !pc.at.Replying? ==> Ready(pc.q, pc.at) && (pc.at.Finding? || pc.q.app in w.apps)
  {
    hide Serve, Consistent, PartlyServed;
    ReplayKeepsNames(w, s.log);
    var pc := s.threads[i];
    if pc.at.Replying? {
      OnlyAddressedChanges(Replay(w, s.log), pc.q, pc.at.r);
    }
  }

  lemma StepKeepsCalls(s: Sys, w: World, a: Action)
    requires Inv(s, w) && Next(s, a).Some? && MutexInv(Next(s, a).value)
    ensures var t := Next(s, a).value; var names := w.apps.Keys;
      LoggedCalls(t.log, names) + HoldersCalls(t, names)
        == LoggedCalls(s.log, names) + HoldersCalls(s, names) + CallsNow(s, a)
  {
    hide Inv, PlaceNext, WorldNext, CallsBefore, CallsFor, CalledAt, Ready;
    var t, names := Next(s, a).value, w.apps.Keys;
    var pc := s.threads[a.thread];
    assert MutexInv(s) by { InvHasMutex(s, w); }
    if pc.Holding? {
      HolderIsReady(s, w, a.thread);
      if pc.at.Replying? {
        var e := Entry(a.thread, pc.q, pc.at.r, pc.at.reply);
        LoggedMore(s.log, e, names);
        RepliedCalls(pc.q, pc.at, pc.q.app in names);
      } else {
        PlaceKeepsCalls(pc.q, pc.at, a.given, pc.q.app in s.world.apps);
        assert t.threads[t.owner.value] == Holding(pc.q, PlaceNext(pc.q, pc.at, a.given, pc.q.app in s.world.apps));
      }
    } else {
      assert CallsNow(s, a) == [];
      if pc.Wanting? {
        NothingCalledYet(pc.q, pc.q.app in names);
      } else if s.owner.Some? {
        assert s.owner.value != a.thread;
      }
    }
  }

  lemma InvHasMutex(s: Sys, w: World)
    requires Inv(s, w)
    ensures MutexInv(s)
  {
  }

  lemma NothingCalledYet(q: Request, registered: bool)
    ensures CallsBefore(q, Finding, registered) == []
  {
  }

  lemma RepliedCalls(q: Request, at: Place, registered: bool)
    requires at.Replying?
    ensures CalledAt(q, at) == [] && CallsBefore(q, at, registered) == CallsFor(q, at.reply.code, registered)
  {
  }

  lemma {:induction false} RunKeepsCalls(s: Sys, w: World, actions: seq<Action>, t: Sys)
    requires Inv(s, w) && Reaches(s, actions, t)
    ensures MutexInv(s) && MutexInv(t)
    ensures var names := w.apps.Keys;
      LoggedCalls(t.log, names) + HoldersCalls(t, names)
        == LoggedCalls(s.log, names) + HoldersCalls(s, names) + Calls(s, actions)
    decreases |actions|
  {
    hide Inv, Next, LoggedCalls, HoldersCalls, CallsNow;
    InvHasMutex(s, w);
    if actions == [] {
      var c := LoggedCalls(s.log, w.apps.Keys) + HoldersCalls(s, w.apps.Keys);
      assert c + [] == c;
    } else {
      var u := Next(s, actions[0]).value;
      StepKeepsInv(s, w, actions[0]);
      InvHasMutex(u, w);
      StepKeepsCalls(s, w, actions[0]);
      RunKeepsCalls(u, w, actions[1..], t);
      var names := w.apps.Keys;
      var before := LoggedCalls(s.log, names) + HoldersCalls(s, names);
      assert before + (CallsNow(s, actions[0]) + Calls(u, actions[1..]))
          == (before + CallsNow(s, actions[0])) + Calls(u, actions[1..]);
    }
  }

  /** In every interleaving, when no request holds the mutex, the callbacks that have been called
      are, in order, those that the answers stand for: so a stop was answered 200 exactly when
      the application was asked for its status and then told to stop, and so on; and no callback
      runs between those of one request. */
  lemma AnswersTellTheCalls(w: World, n: nat, actions: seq<Action>, t: Sys)
    requires Named(w) && Reaches(Init(w, n), actions, t) && t.owner == None
    ensures Calls(Init(w, n), actions) == LoggedCalls(t.log, w.apps.Keys)
  {
    assert Inv(Init(w, n), w);
    RunKeepsCalls(Init(w, n), w, actions, t);
    hide Inv, Reaches, Calls;
    var names := w.apps.Keys;
    assert LoggedCalls([], names) + [] + Calls(Init(w, n), actions) == Calls(Init(w, n), actions);
    assert LoggedCalls(t.log, names) + [] == LoggedCalls(t.log, names);
  }
}
