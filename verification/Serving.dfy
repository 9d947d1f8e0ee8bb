/**
 What becomes of every connection (server/mongoose.c): over any run, each socket that accept()
 returned is queued, in a worker's hand or served, and when the pool comes to rest all have
 been served.  The histories are read off the run, not kept by the threads.
 */
module Serving {
  import opened Wrappers
  import opened SocketRing
  import opened WorkerPool

  // --------------------------------------------------------------- histories

  // The socket that a worker has taken and not yet served.
  ghost function Hand(pc: WorkerPc): seq<Socket> {
    if pc.SignalSpace? || pc.Release? || pc.Serving? then [pc.taken] else []
  }

  // What worker i takes from the ring in this step.
  ghost function TakesNow(s: State, a: Action, i: nat): seq<Socket>
    requires s.ring.Valid()
  {
    if a == WorkerStep(i) && i < |s.workers| && s.workers[i].TakeSocket? && !s.ring.Empty() then [s.ring.Oldest()]
    else []
  }

  // What worker i has served with this step: process_new_connection and close_connection return.
  ghost function ServesNow(s: State, a: Action, i: nat): seq<Socket> {
    if a == WorkerStep(i) && i < |s.workers| && s.workers[i].Serving? then [s.workers[i].taken] else []
  }

  // What accept() returns in this step.
  ghost function AcceptsNow(s: State, a: Action): seq<Socket> {
    if a.MasterStep? && s.master.Accepting? && a.incoming.Some? then [a.incoming.value] else []
  }

  ghost predicate CanTake(s: State, actions: seq<Action>) {
    actions != [] && s.ring.Valid() && Next(s, actions[0]).Some?
  }

  ghost function TakenBy(s: State, actions: seq<Action>, i: nat): seq<Socket>
    decreases |actions|
  {
    if !CanTake(s, actions) then []
    else TakesNow(s, actions[0], i) + TakenBy(Next(s, actions[0]).value, actions[1..], i)
  }

  ghost function ServedBy(s: State, actions: seq<Action>, i: nat): seq<Socket>
    decreases |actions|
  {
    if !CanTake(s, actions) then []
    else ServesNow(s, actions[0], i) + ServedBy(Next(s, actions[0]).value, actions[1..], i)
  }

  ghost function Accepted(s: State, actions: seq<Action>): seq<Socket>
    decreases |actions|
  {
    if !CanTake(s, actions) then []
    else AcceptsNow(s, actions[0]) + Accepted(Next(s, actions[0]).value, actions[1..])
  }

  // What any worker serves in this step, and in a run.
  ghost function SomeServesNow(s: State, a: Action): seq<Socket> {
    if a.WorkerStep? then ServesNow(s, a, a.worker) else []
  }

  ghost function Served(s: State, actions: seq<Action>): seq<Socket>
    decreases |actions|
  {
    if !CanTake(s, actions) then []
    else SomeServesNow(s, actions[0]) + Served(Next(s, actions[0]).value, actions[1..])
  }

  // How many workers have this socket in their hand, and how often it is in a history.
  ghost function InHands(ws: seq<WorkerPc>, c: Socket): nat {
    if ws == [] then 0 else Times(Hand(ws[0]), c) + InHands(ws[1..], c)
  }

  ghost function Times(cs: seq<Socket>, c: Socket): nat {
    multiset(cs)[c]
  }

  lemma TimesAppend(a: seq<Socket>, b: seq<Socket>, c: Socket)
    ensures Times(a + b, c) == Times(a, c) + Times(b, c)
  {
    assert multiset(a + b) == multiset(a) + multiset(b);
  }

  lemma {:induction false} HandsUpdate(ws: seq<WorkerPc>, i: nat, pc: WorkerPc, c: Socket)
    requires i < |ws|
    ensures InHands(ws[i := pc], c) + Times(Hand(ws[i]), c) == InHands(ws, c) + Times(Hand(pc), c)
  {
    hide Hand, Times;
    if i == 0 {
      assert ws[0 := pc][1..] == ws[1..];
    } else {
      HandsUpdate(ws[1..], i - 1, pc, c);
      assert ws[i := pc][1..] == ws[1..][i - 1 := pc];
    }
  }

  lemma {:induction false} HandsSame(a: seq<WorkerPc>, b: seq<WorkerPc>, c: Socket)
    requires |a| == |b| && forall i :: 0 <= i < |a| ==> Hand(a[i]) == Hand(b[i])
    ensures InHands(a, c) == InHands(b, c)
  {
    hide Hand, Times;
    if a != [] {
      HandsSame(a[1..], b[1..], c);
    }
  }

  lemma {:induction false} HandsEmpty(ws: seq<WorkerPc>, c: Socket)
    requires forall i :: 0 <= i < |ws| ==> Hand(ws[i]) == []
    ensures InHands(ws, c) == 0
  {
    hide Hand;
    if ws != [] {
      HandsEmpty(ws[1..], c);
    }
  }

  // ------------------------------------------------------------ one worker

  // A worker takes a socket only with empty hands and keeps it until it has served it.
  lemma OwnStepKeepsHand(s: State, i: nat)
    requires s.ring.Valid() && i < |s.workers| && WorkerNext(s, i).Some?
    ensures var t := WorkerNext(s, i).value; var a := WorkerStep(i);
      && |t.workers| == |s.workers| && t.workers == s.workers[i := t.workers[i]]
      && Hand(s.workers[i]) + TakesNow(s, a, i) == ServesNow(s, a, i) + Hand(t.workers[i])
      && t.delivered == s.delivered + TakesNow(s, a, i)
  {
    hide Ring.Valid, Ring.Empty, Ring.Take, Ring.Oldest;
    var t := WorkerNext(s, i).value;
    if !s.workers[i].TakeSocket? {
      assert s.delivered + [] == s.delivered;
    }
  }

  // The master wakes workers, and mg_start starts them: their hands are empty.
  lemma OthersKeepHands(s: State, a: Action)
    requires s.ring.Valid() && !a.WorkerStep? && Next(s, a).Some?
    ensures var t := Next(s, a).value;
      && |t.workers| == |s.workers| && t.delivered == s.delivered
      && forall i :: 0 <= i < |s.workers| ==> Hand(t.workers[i]) == Hand(s.workers[i])
  {
    hide Ring.Valid, Ring.Full, Ring.Put;
  }

  lemma StepKeepsHand(s: State, a: Action, i: nat)
    requires s.ring.Valid() && i < |s.workers| && Next(s, a).Some?
    ensures var t := Next(s, a).value;
      i < |t.workers| && Hand(s.workers[i]) + TakesNow(s, a, i) == ServesNow(s, a, i) + Hand(t.workers[i])
  {
    if a.WorkerStep? {
      hide WorkerNext, Hand;
      OwnStepKeepsHand(s, a.worker);
      if a.worker != i {
        assert Hand(s.workers[i]) + [] == [] + Hand(s.workers[i]);
      }
    } else {
      OthersKeepHands(s, a);
      hide MasterNext, ControlNext, Hand;
      assert Hand(s.workers[i]) + [] == [] + Hand(s.workers[i]);
    }
  }

  lemma {:induction false} RunKeepsHand(s: State, actions: seq<Action>, t: State, i: nat)
    requires Reaches(s, actions, t) && i < |s.workers|
    ensures i < |t.workers|
    ensures Hand(s.workers[i]) + TakenBy(s, actions, i) == ServedBy(s, actions, i) + Hand(t.workers[i])
    decreases |actions|
  {
    hide Next, Hand, TakesNow, ServesNow;
    if actions == [] {
      assert Hand(s.workers[i]) + [] == [] + Hand(s.workers[i]);
    } else {
      var u := Next(s, actions[0]).value;
      StepKeepsHand(s, actions[0], i);
      RunKeepsHand(u, actions[1..], t, i);
      Chain(Hand(s.workers[i]), TakesNow(s, actions[0], i), TakenBy(u, actions[1..], i),
            ServesNow(s, actions[0], i), Hand(u.workers[i]), ServedBy(u, actions[1..], i), Hand(t.workers[i]));
    }
  }

  lemma Chain<T>(h: seq<T>, t0: seq<T>, t1: seq<T>, s0: seq<T>, k: seq<T>, s1: seq<T>, l: seq<T>)
    requires h + t0 == s0 + k && k + t1 == s1 + l
    ensures h + (t0 + t1) == (s0 + s1) + l
  {
    assert h + (t0 + t1) == (h + t0) + t1 == s0 + (k + t1);
  }

  /** Every worker serves exactly the sockets that it takes, in that order, one at a time: what
      it has taken is what it has served, and then the one in its hand.  It does not hold the
      mutex while it serves, and its hand is empty whenever it takes, sleeps or leaves. */
  lemma WorkersServeWhatTheyTake(n: nat, actions: seq<Action>, t: State, i: nat)
    requires Reaches(Init(n), actions, t) && i < n
    ensures i < |t.workers|
    ensures TakenBy(Init(n), actions, i) == ServedBy(Init(n), actions, i) + Hand(t.workers[i])
    ensures t.workers[i].Serving? ==> t.owner != ByWorker(i)
    ensures var pc := t.workers[i];
      pc.TakeSocket? || pc.LoopTest? || pc.Waiting? || pc.AcquireExit? || pc == WorkerPc.Done ==> Hand(pc) == []
  {
    InitInv(n);
    RunKeepsInv(Init(n), actions, t);
    RunKeepsHand(Init(n), actions, t, i);
    assert Hand(Init(n).workers[i]) == [];
    assert [] + TakenBy(Init(n), actions, i) == TakenBy(Init(n), actions, i);
    hide Reaches, TakenBy, ServedBy, WakeInv, ShutdownInv, QueueInv;
  }

  // ------------------------------------------------------------ all of them

  lemma StepKeepsHands(s: State, a: Action, c: Socket)
    requires s.ring.Valid() && Next(s, a).Some?
    ensures var t := Next(s, a).value;
      Times(t.delivered, c) + InHands(s.workers, c)
        == Times(s.delivered, c) + Times(SomeServesNow(s, a), c) + InHands(t.workers, c)
  {
    hide WorkerNext, MasterNext, ControlNext, Hand, TakesNow, ServesNow, Times, InHands;
    if a.WorkerStep? {
      var i, t := a.worker, Next(s, a).value;
      OwnStepKeepsHand(s, i);
      HandsUpdate(s.workers, i, t.workers[i], c);
      TimesAppend(s.delivered, TakesNow(s, a, i), c);
      TimesAppend(Hand(s.workers[i]), TakesNow(s, a, i), c);
      TimesAppend(ServesNow(s, a, i), Hand(t.workers[i]), c);
    } else {
      OthersKeepHands(s, a);
      HandsSame(Next(s, a).value.workers, s.workers, c);
      NoTimes(c);
    }
  }

  lemma NoTimes(c: Socket)
    ensures Times([], c) == 0
  {
  }

  lemma {:induction false} RunKeepsHands(s: State, actions: seq<Action>, t: State, c: Socket)
    requires Reaches(s, actions, t)
    ensures Times(t.delivered, c) + InHands(s.workers, c)
         == Times(s.delivered, c) + Times(Served(s, actions), c) + InHands(t.workers, c)
    decreases |actions|
  {
    hide Next, InHands, SomeServesNow, Times;
    if actions == [] {
      NoTimes(c);
    } else {
      var u := Next(s, actions[0]).value;
      StepKeepsHands(s, actions[0], c);
      RunKeepsHands(u, actions[1..], t, c);
      TimesAppend(SomeServesNow(s, actions[0]), Served(u, actions[1..]), c);
    }
  }

  /** Over every run: each socket that was taken has been served or is in exactly one worker's
      hand, as often as it was taken. */
  lemma TakenIsServedOrInHand(n: nat, actions: seq<Action>, t: State, c: Socket)
    requires Reaches(Init(n), actions, t)
    ensures Times(t.delivered, c) == Times(Served(Init(n), actions), c) + InHands(t.workers, c)
  {
    hide Next, Served, Reaches;
    RunKeepsHands(Init(n), actions, t, c);
    HandsEmpty(Init(n).workers, c);
  }

  // ------------------------------------------------------------ accept

  lemma StepKeepsArrived(s: State, a: Action)
    requires s.ring.Valid() && Next(s, a).Some?
    ensures Next(s, a).value.arrived == s.arrived + AcceptsNow(s, a)
  {
    if AcceptsNow(s, a) == [] {
      assert s.arrived + [] == s.arrived;
    }
  }

  lemma {:induction false} RunKeepsArrived(s: State, actions: seq<Action>, t: State)
    requires Reaches(s, actions, t)
    ensures t.arrived == s.arrived + Accepted(s, actions)
    decreases |actions|
  {
    hide Next, AcceptsNow;
    if actions != [] {
      StepKeepsArrived(s, actions[0]);
      RunKeepsArrived(Next(s, actions[0]).value, actions[1..], t);
    }
  }

  /** No socket that accept() returns is dropped: they are what the first-in-first-out law
      speaks of. */
  lemma NothingAcceptedIsDropped(n: nat, actions: seq<Action>, t: State)
    requires Reaches(Init(n), actions, t)
    ensures t.arrived == Accepted(Init(n), actions)
  {
    RunKeepsArrived(Init(n), actions, t);
  }

  // ------------------------------------------------------------ mg_start

  // In this step mg_start starts worker i.
  ghost predicate StartsNow(s: State, a: Action, i: nat) {
    a == ControlStep(true) && s.control == Creating(i) && i < |s.workers|
  }

  ghost predicate Started(s: State, actions: seq<Action>, i: nat)
    decreases |actions|
  {
    CanTake(s, actions) && (StartsNow(s, actions[0], i) || Started(Next(s, actions[0]).value, actions[1..], i))
  }

  // Workers, master and wakeups start nobody.
  lemma ThreadsStartNobody(s: State, a: Action)
    requires s.ring.Valid() && !a.ControlStep? && Next(s, a).Some?
    ensures var t := Next(s, a).value;
      && t.control == s.control && |t.workers| == |s.workers|
      && forall i :: 0 <= i < |s.workers| ==> (t.workers[i].NotStarted? <==> s.workers[i].NotStarted?)
  {
    if a.WorkerStep? {
      OwnStepKeepsHand(s, a.worker);
      WorkerStepOrder(s, a.worker);
    } else {
      hide WorkerNext, Ring.Valid, Ring.Full, Ring.Put;
    }
  }

  lemma StepKeepsStarted(s: State, a: Action, i: nat)
    requires Inv(s) && i < |s.workers| && Next(s, a).Some?
    ensures var t := Next(s, a).value;
      |t.workers| == |s.workers| && (t.workers[i].NotStarted? <==> s.workers[i].NotStarted? && !StartsNow(s, a, i))
  {
    hide WorkerNext, MasterNext, WakeInv, MutexInv, QueueInv, CountInv;
    RingIsValid(s);
    if !a.ControlStep? {
      ThreadsStartNobody(s, a);
    }
  }

  lemma {:induction false} RunKeepsStarted(s: State, actions: seq<Action>, t: State, i: nat)
    requires Inv(s) && Reaches(s, actions, t) && i < |s.workers|
    ensures i < |t.workers| && (t.workers[i].NotStarted? <==> s.workers[i].NotStarted? && !Started(s, actions, i))
    decreases |actions|
  {
    hide Next, Inv, StartsNow;
    if actions != [] {
      StepKeepsStarted(s, actions[0], i);
      StepKeepsInv(s, actions[0]);
      RunKeepsStarted(Next(s, actions[0]).value, actions[1..], t, i);
    }
  }

  /** The workers that run are exactly those that pthread_create has started, and mg_start has
      tried to start every one when it returns. */
  lemma WorkersAreStarted(n: nat, actions: seq<Action>, t: State, i: nat)
    requires Reaches(Init(n), actions, t) && i < n
    ensures i < |t.workers| && (!t.workers[i].NotStarted? <==> Started(Init(n), actions, i))
  {
    InitInv(n);
    RunKeepsStarted(Init(n), actions, t, i);
  }

  // mg_start has tried to start the workers before the one it is about to start.
  ghost predicate TriedBefore(pc: ControlPc, i: nat) {
    if pc.Creating? then i < pc.next else if pc.Counting? then i <= pc.next else true
  }

  // In this step mg_start tries to start worker i.
  ghost predicate TriesNow(s: State, a: Action, i: nat) {
    a.ControlStep? && s.control == Creating(i) && i < |s.workers|
  }

  ghost predicate Tried(s: State, actions: seq<Action>, i: nat)
    decreases |actions|
  {
    CanTake(s, actions) && (TriesNow(s, actions[0], i) || Tried(Next(s, actions[0]).value, actions[1..], i))
  }

  lemma StepKeepsTried(s: State, a: Action, i: nat)
    requires Inv(s) && i < |s.workers| && Next(s, a).Some?
    ensures var t := Next(s, a).value;
      |t.workers| == |s.workers| && (TriedBefore(t.control, i) <==> TriedBefore(s.control, i) || TriesNow(s, a, i))
  {
    hide WorkerNext, MasterNext, WakeInv, MutexInv, QueueInv, CountInv;
    RingIsValid(s);
    if !a.ControlStep? {
      ThreadsStartNobody(s, a);
    }
  }

  lemma {:induction false} RunKeepsTried(s: State, actions: seq<Action>, t: State, i: nat)
    requires Inv(s) && Reaches(s, actions, t) && i < |s.workers|
    ensures TriedBefore(t.control, i) <==> TriedBefore(s.control, i) || Tried(s, actions, i)
    decreases |actions|
  {
    hide Next, Inv, TriesNow, TriedBefore;
    if actions != [] {
      StepKeepsTried(s, actions[0], i);
      StepKeepsInv(s, actions[0]);
      RunKeepsTried(Next(s, actions[0]).value, actions[1..], t, i);
    }
  }

  lemma EveryWorkerIsTried(n: nat, actions: seq<Action>, t: State, i: nat)
    requires Reaches(Init(n), actions, t) && i < n && !t.control.Creating? && !t.control.Counting?
    ensures Tried(Init(n), actions, i)
  {
    InitInv(n);
    RunKeepsTried(Init(n), actions, t, i);
  }

  // ------------------------------------------------------------ rest

  // A step of a worker or of the master, other than looking for a new connection.
  ghost predicate IsBusy(s: State, a: Action) {
    a.WorkerStep? || (a.MasterStep? && !s.master.AcceptTest? && !s.master.Accepting?)
  }

  ghost predicate AtRest(s: State) {
    s.ring.Valid() && forall a: Action :: IsBusy(s, a) ==> Next(s, a).None?
  }

  lemma RestMeansAsleep(t: State, w: nat)
    requires Inv(t) && AtRest(t) && t.stopFlag == 0 && w < |t.workers| && !t.workers[w].NotStarted?
    ensures t.owner.NoOne? && (t.master.AcceptTest? || t.master.Accepting?)
    ensures forall i :: 0 <= i < |t.workers| ==> t.workers[i].NotStarted? || t.workers[i].Waiting?
    ensures t.ring.Empty()
  {
    hide Total, Weight, WorkerNext, MasterNext;
    assert forall i :: 0 <= i < |t.workers| ==> IsBusy(t, WorkerStep(i));
    assert forall i :: 0 <= i < |t.workers| ==> Next(t, WorkerStep(i)) == WorkerNext(t, i);
    assert forall pick: nat, incoming: Option<Socket> ::
      IsBusy(t, MasterStep(pick, incoming)) || t.master.AcceptTest? || t.master.Accepting?;
    assert forall pick: nat, incoming: Option<Socket> ::
      Next(t, MasterStep(pick, incoming)) == MasterNext(t, pick, incoming);
    HolderCanStep(t);
    OnlyAsleep(t);
    assert t.workers[w].Waiting?;
    TotalZeroAtRest(t);
    RestMaster(t);
  }

  // Whoever holds the mutex can go on.
  lemma HolderCanStep(t: State)
    requires Inv(t) && t.stopFlag == 0
    ensures t.owner.ByWorker? ==> t.owner.index < |t.workers| && WorkerNext(t, t.owner.index).Some?
    ensures t.owner.ByMaster? ==> MasterHolds(t.master) && exists pick: nat :: MasterNext(t, pick, None).Some?
  {
    hide Total, Weight, WakeInv, ShutdownInv;
    SignalPossible(t);
    if t.owner.ByMaster? {
      var pick: nat :| CanSignal(t, pick);
      assert MasterNext(t, pick, None).Some?;
    }
  }

  lemma OnlyAsleep(t: State)
    requires Inv(t) && t.stopFlag == 0 && t.owner.NoOne?
    requires forall i :: 0 <= i < |t.workers| ==> WorkerNext(t, i).None?
    ensures forall i :: 0 <= i < |t.workers| ==> t.workers[i].NotStarted? || t.workers[i].Waiting?
  {
    hide Total, Weight, WakeInv;
    forall i | 0 <= i < |t.workers|
      ensures t.workers[i].NotStarted? || t.workers[i].Waiting?
    {
      assert WorkerNext(t, i).None?;
    }
  }

  lemma TotalZeroAtRest(t: State)
    requires Inv(t) && t.stopFlag == 0 && t.owner.NoOne? && SomeWaiting(t.workers)
    requires forall i :: 0 <= i < |t.workers| ==> t.workers[i].NotStarted? || t.workers[i].Waiting?
    ensures t.ring.Empty()
  {
    TotalZero(Taker, t.workers);
  }

  lemma RestMaster(t: State)
    requires Inv(t) && t.stopFlag == 0 && t.owner.NoOne? && t.ring.Empty()
    requires forall i :: 0 <= i < |t.workers| ==> t.workers[i].NotStarted? || t.workers[i].Waiting?
    requires forall pick: nat, incoming: Option<Socket> ::
      t.master.AcceptTest? || t.master.Accepting? || MasterNext(t, pick, incoming).None?
    ensures t.master.AcceptTest? || t.master.Accepting?
  {
    hide Total, Weight;
    assert t.master.AcceptTest? || t.master.Accepting? || MasterNext(t, 0, None).None?;
  }

  lemma RestMeansAllDelivered(n: nat, actions: seq<Action>, t: State, w: nat)
    requires Reaches(Init(n), actions, t) && AtRest(t)
    requires t.stopFlag == 0 && w < |t.workers| && !t.workers[w].NotStarted?
    ensures t.arrived == t.delivered
    ensures forall i :: 0 <= i < |t.workers| ==> t.workers[i].NotStarted? || t.workers[i].Waiting?
  {
    InitInv(n);
    RunKeepsInv(Init(n), actions, t);
    SocketsAreFifo(n, actions, t);
    RestMeansAsleep(t, w);
    hide Inv, AtRest, Reaches;
    assert t.ring.Contents() == [];
    assert t.arrived == t.delivered + [] + [] == t.delivered;
  }

  /** When the pool has come to rest while the server runs, every socket that accept() has
      returned has been served, as often as it was returned. */
  lemma RestMeansAllServed(n: nat, actions: seq<Action>, t: State, w: nat)
    requires Reaches(Init(n), actions, t) && AtRest(t)
    requires t.stopFlag == 0 && w < |t.workers| && !t.workers[w].NotStarted?
    ensures multiset(Accepted(Init(n), actions)) == multiset(Served(Init(n), actions))
  {
    RestMeansAllDelivered(n, actions, t, w);
    NothingAcceptedIsDropped(n, actions, t);
    hide AtRest, Reaches, Accepted, Served, InHands, Times;
    forall c: Socket
      ensures Times(t.arrived, c) == Times(Served(Init(n), actions), c)
    {
      TakenIsServedOrInHand(n, actions, t, c);
      HandsEmpty(t.workers, c);
    }
    SameTimes(t.arrived, Served(Init(n), actions));
  }

  lemma SameTimes(a: seq<Socket>, b: seq<Socket>)
    requires forall c: Socket :: Times(a, c) == Times(b, c)
    ensures multiset(a) == multiset(b)
  {
    forall c: Socket
      ensures multiset(a)[c] == multiset(b)[c]
    {
      assert Times(a, c) == Times(b, c);
    }
  }

  // ------------------------------------------------- the way to rest is bounded

  const RING_WORK := 12      // a queued socket
  const ARRIVAL_WORK := 21   // a socket in the master's hand at first
  const WAKE_WORK := 4       // a thread that is woken

  ghost function WorkerWork(pc: WorkerPc): nat {
    match pc
    case NotStarted | Done | ReleaseStopped | AcquireExit | Decrement | SignalExit | ReleaseExit => 0
    case Waiting => 1
    case AboutToWait | TakeSocket => 2
    case StopTest => 3
    case EmptyTest => 4
    case Acquire | Reacquire => 5
    case LoopTest => 6
    case Serving(_) => 7
    case Release(_) => 8
    case SignalSpace(_) => 13
  }

  ghost function MasterWork(pc: MasterPc): nat {
    match pc
    case ReleaseProduce => 1
    case SignalSocket => 6
    case WaitingSpace(_) => 17
    case AboutToWaitSpace(_) => 18
    case PutSocket(_) => 19
    case FullTest(_) => 20
    case AcquireProduce(_) | ReacquireSpace(_) => 21
    case AcceptTest | Accepting | CloseListeners | Broadcast | AcquireJoin | JoinTest | AboutToWaitExit
       | WaitingExit | ReacquireExit | ReleaseJoin | DestroyLocks | Finish | MasterDone => 0
  }

  ghost function WorkersWork(ws: seq<WorkerPc>): nat {
    if ws == [] then 0 else WorkerWork(ws[0]) + WorkersWork(ws[1..])
  }

  ghost function RingWork(r: Ring): int {
    RING_WORK * (r.head - r.tail)
  }

  ghost function Work(s: State): int {
    WorkersWork(s.workers) + MasterWork(s.master) + RingWork(s.ring)
  }

  lemma {:induction false} WorkUpdate(ws: seq<WorkerPc>, i: nat, pc: WorkerPc)
    requires i < |ws|
    ensures WorkersWork(ws[i := pc]) == WorkersWork(ws) - WorkerWork(ws[i]) + WorkerWork(pc)
  {
    hide WorkerWork;
    if i == 0 {
      assert ws[0 := pc][1..] == ws[1..];
    } else {
      WorkUpdate(ws[1..], i - 1, pc);
      assert ws[i := pc][1..] == ws[1..][i - 1 := pc];
    }
  }

  lemma WorkerWorks(s: State, i: nat)
    requires Inv(s) && s.stopFlag == 0 && i < |s.workers| && WorkerNext(s, i).Some?
    requires !WorkerLeaving(s.workers[i])
    ensures var t := WorkerNext(s, i).value;
      && |t.workers| == |s.workers| && t.workers == s.workers[i := t.workers[i]]
      && WorkerWork(t.workers[i]) + MasterWork(t.master) + RingWork(t.ring)
       < WorkerWork(s.workers[i]) + MasterWork(s.master) + RingWork(s.ring)
  {
    hide Total, WakeInv, ShutdownInv, MutexInv, FifoInv;
    RingIsValid(s);
    if s.workers[i].TakeSocket? {
      TakingShrinks(s.ring);
    }
  }

  lemma TakingShrinks(r: Ring)
    requires r.Valid() && !r.Empty()
    ensures r.Take().head - r.Take().tail == r.head - r.tail - 1
  {
    RebaseOnce(r.head, r.tail + 1);
  }

  lemma MasterWorks(s: State, pick: nat, incoming: Option<Socket>)
    requires s.ring.Valid() && s.stopFlag == 0 && MasterNext(s, pick, incoming).Some? && !MasterLeaving(s.master)
    requires !s.master.AcceptTest? && !s.master.Accepting?
    ensures var t := MasterNext(s, pick, incoming).value;
      && (t.workers == s.workers
          || (s.master.SignalSocket? && pick < |s.workers| && s.workers[pick].Waiting? &&
              t.workers == s.workers[pick := Reacquire]))
      && MasterWork(t.master) + RingWork(t.ring) + (if t.workers == s.workers then 0 else WAKE_WORK)
       < MasterWork(s.master) + RingWork(s.ring)
  {
  }

  /** While the server runs, every step of a worker, and of the master but for its polling, uses
      up work. */
  lemma BusyStepIsWork(s: State, a: Action)
    requires Inv(s) && s.stopFlag == 0 && IsBusy(s, a) && Next(s, a).Some?
    ensures Work(Next(s, a).value) < Work(s)
  {
    hide WorkerNext, MasterNext, WorkerWork, MasterWork, RingWork, WorkersWork, WakeInv, QueueInv, MutexInv;
    NobodyLeaves(s);
    RingIsValid(s);
    match a {
      case WorkerStep(i) =>
        WorkerWorks(s, i);
        WorkUpdate(s.workers, i, Next(s, a).value.workers[i]);
      case MasterStep(pick, incoming) =>
        MasterWorks(s, pick, incoming);
        if pick < |s.workers| {
          WorkUpdate(s.workers, pick, Reacquire);
        }
        WakingCosts();
    }
  }

  // Any other step adds at most what a new socket or a wakeup calls for.
  lemma OtherStepAddsWork(s: State, a: Action)
    requires Inv(s) && s.stopFlag == 0 && !IsBusy(s, a) && !a.ControlStep? && Next(s, a).Some?
    ensures Work(Next(s, a).value)
         <= Work(s) + ARRIVAL_WORK * |AcceptsNow(s, a)| + (if IsSpurious(a) then WAKE_WORK else 0)
  {
    hide WorkersWork, WakeInv, QueueInv, MutexInv, ShutdownInv;
    RingIsValid(s);
    if a.WorkerSpurious? {
      WorkUpdate(s.workers, a.worker, Reacquire);
    }
    NobodyLeaves(s);
  }

  ghost predicate IsSpurious(a: Action) {
    a.WorkerSpurious? || a.MasterSpurious?
  }

  // How many busy steps a run makes, and how many spurious wakeups.
  ghost function BusySteps(s: State, actions: seq<Action>): nat
    decreases |actions|
  {
    if !CanTake(s, actions) then 0
    else (if IsBusy(s, actions[0]) then 1 else 0) + BusySteps(Next(s, actions[0]).value, actions[1..])
  }

  ghost function SpuriousWakeups(actions: seq<Action>): nat {
    if actions == [] then 0 else (if IsSpurious(actions[0]) then 1 else 0) + SpuriousWakeups(actions[1..])
  }

  ghost predicate NoControl(actions: seq<Action>) {
    forall i :: 0 <= i < |actions| ==> !actions[i].ControlStep?
  }

  lemma ControlSetsFlag(s: State, a: Action)
    requires s.ring.Valid() && s.stopFlag == 0 && !a.ControlStep? && !MasterLeaving(s.master) && Next(s, a).Some?
    ensures Next(s, a).value.stopFlag == 0
  {
  }

  lemma {:induction false} RunIsBounded(s: State, actions: seq<Action>, t: State)
    requires Inv(s) && Reaches(s, actions, t) && s.stopFlag == 0 && NoControl(actions)
    ensures BusySteps(s, actions) + Work(t)
         <= Work(s) + ARRIVAL_WORK * |Accepted(s, actions)| + WAKE_WORK * SpuriousWakeups(actions)
    decreases |actions|
  {
    hide Next, Inv, Work, IsBusy, AcceptsNow;
    if actions != [] {
      var a, u := actions[0], Next(s, actions[0]).value;
      StepKeepsInv(s, a);
      NobodyLeaves(s);
      ControlSetsFlag(s, a);
      if IsBusy(s, a) {
        BusyStepIsWork(s, a);
      } else {
        OtherStepAddsWork(s, a);
      }
      RunIsBounded(u, actions[1..], t);
    }
  }

  /** While the server runs, workers and master make only a bounded number of steps, besides
      looking for new connections, for each connection and each spurious wakeup; so, unless new
      connections keep coming, the pool comes to rest. */
  lemma PoolComesToRest(n: nat, actions: seq<Action>, s: State, more: seq<Action>, t: State)
    requires Reaches(Init(n), actions, s) && s.stopFlag == 0 && Reaches(s, more, t) && NoControl(more)
    ensures BusySteps(s, more) <= Work(s) + ARRIVAL_WORK * |Accepted(s, more)| + WAKE_WORK * SpuriousWakeups(more)
  {
    InitInv(n);
    RunKeepsInv(Init(n), actions, s);
    RunIsBounded(s, more, t);
    RunKeepsInv(s, more, t);
    WorkIsNatural(t);
  }

  lemma WorkIsNatural(s: State)
    requires Inv(s)
    ensures Work(s) >= 0
  {
    hide WakeInv, MutexInv, ShutdownInv;
  }

  lemma RingIsValid(s: State)
    requires Inv(s)
    ensures s.ring.Valid()
  {
  }

  lemma WakingCosts()
    ensures WorkerWork(Reacquire) == WorkerWork(Waiting) + WAKE_WORK
  {
  }

  lemma NobodyLeaves(s: State)
    requires Inv(s) && s.stopFlag == 0
    ensures !MasterLeaving(s.master)
    ensures forall i :: 0 <= i < |s.workers| ==> !WorkerLeaving(s.workers[i])
  {
  }
}
