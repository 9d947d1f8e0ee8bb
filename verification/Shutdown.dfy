/**
 What happens in the thread protocol once mg_stop has set stop_flag (server/mongoose.c):
 exactly when some thread can then sleep for good, and that every run ends otherwise.
 */
module Shutdown {
  import opened Wrappers
  import opened SocketRing
  import opened WorkerPool

  // --------------------------------------------------------------- stuck states

  // No worker and not the master can take a step of its own, and the master has not finished.
  ghost predicate Stuck(s: State) {
    s.ring.Valid() && !CanProgress(s) && !s.master.MasterDone?
  }

  ghost predicate AllAsleep(s: State) {
    && (forall i :: 0 <= i < |s.workers| ==>
          s.workers[i].NotStarted? || s.workers[i].Waiting? || s.workers[i] == WorkerPc.Done)
    && (s.master.WaitingSpace? || s.master.WaitingExit? || s.master.MasterDone?)
  }

  lemma HolderCanGoOn(s: State)
    requires Inv(s) && s.owner.ByWorker?
    ensures s.ring.Valid() && s.owner.index < |s.workers| && WorkerNext(s, s.owner.index).Some?
  {
  }

  lemma MasterCanGoOn(s: State)
    requires Inv(s)
    requires s.owner.ByMaster? ||
      (s.owner.NoOne? && !s.master.WaitingSpace? && !s.master.WaitingExit? && !s.master.MasterDone?)
    ensures s.ring.Valid() && exists pick: nat :: MasterNext(s, pick, None).Some?
  {
    if s.master.SignalSocket? {
      SignalPossible(s);
      var pick: nat :| CanSignal(s, pick);
      assert MasterNext(s, pick, None).Some?;
    } else {
      assert MasterNext(s, 0, None).Some?;
    }
  }

  lemma WorkerCanGoOn(s: State, i: nat)
    requires Inv(s) && s.owner.NoOne? && i < |s.workers|
    requires !s.workers[i].NotStarted? && !s.workers[i].Waiting? && s.workers[i] != WorkerPc.Done
    ensures s.ring.Valid() && WorkerNext(s, i).Some?
  {
  }

  // No thread can go on exactly when all workers are asleep, finished or never started, and the
  // master is asleep or finished.
  lemma StuckMeansAsleep(s: State)
    requires Inv(s)
    ensures s.ring.Valid() && (!CanProgress(s) <==> AllAsleep(s))
  {
    hide Inv, MasterNext, WorkerNext;
    assert s.ring.Valid() by { RingIsValid(s); }
    if s.owner.ByWorker? {
      HolderCanGoOn(s);
      OwnerIsAwake(s);
    } else if s.owner.ByMaster? {
      MasterCanGoOn(s);
      OwnerIsAwake(s);
    } else {
      if !s.master.WaitingSpace? && !s.master.WaitingExit? && !s.master.MasterDone? {
        MasterCanGoOn(s);
      }
      forall i | 0 <= i < |s.workers|
        && !(s.workers[i].NotStarted? || s.workers[i].Waiting? || s.workers[i] == WorkerPc.Done)
        ensures WorkerNext(s, i).Some?
      {
        WorkerCanGoOn(s, i);
      }
      if AllAsleep(s) {
        AsleepCannotGoOn(s);
      }
    }
  }

  lemma RingIsValid(s: State)
    requires Inv(s)
    ensures s.ring.Valid()
  {
  }

  lemma OwnerIsAwake(s: State)
    requires Inv(s) && !s.owner.NoOne?
    ensures !AllAsleep(s)
  {
    if s.owner.ByWorker? {
      assert WorkerHolds(s.workers[s.owner.index]);
    }
  }

  lemma AsleepCannotGoOn(s: State)
    requires s.ring.Valid() && AllAsleep(s)
    ensures !CanProgress(s)
  {
  }

  // ------------------------------------------------------ the third condition variable

  ghost predicate SomeExiting(ws: seq<WorkerPc>) {
    exists i :: 0 <= i < |ws| && ws[i].SignalExit?
  }

  // The master does not sleep through the last worker's exit.
  ghost predicate ExitWakeInv(s: State) {
    && (s.master.AboutToWaitExit? ==> s.numThreads > 0)
    && (s.master.WaitingExit? ==> s.numThreads > 0 || SomeExiting(s.workers))
  }

  lemma WorkerKeepsExitWake(s: State, i: nat)
    requires s.ring.Valid() && MutexInv(s) && ExitWakeInv(s) && i < |s.workers| && WorkerNext(s, i).Some?
    ensures ExitWakeInv(WorkerNext(s, i).value)
  {
    var t := WorkerNext(s, i).value;
    WorkerMovesItself(s, i);
    assert |t.workers| == |s.workers|;
    if s.workers[i].Decrement? {
      assert t.workers[i].SignalExit?;
    }
  }

  lemma MasterKeepsExitWake(s: State, pick: nat, incoming: Option<Socket>)
    requires Inv(s) && ExitWakeInv(s) && MasterNext(s, pick, incoming).Some?
    ensures ExitWakeInv(MasterNext(s, pick, incoming).value)
  {
  }

  lemma StepKeepsExitWake(s: State, a: Action)
    requires Inv(s) && ExitWakeInv(s) && Next(s, a).Some?
    ensures ExitWakeInv(Next(s, a).value)
  {
    hide WorkerNext, MasterNext, Inv;
    assert s.ring.Valid() by { RingIsValid(s); }
    match a {
      case WorkerStep(i) =>
        MutexIsKept(s);
        WorkerKeepsExitWake(s, i);
      case WorkerSpurious(i) => OthersStay(s, i);
      case MasterStep(pick, incoming) => MasterKeepsExitWake(s, pick, incoming);
      case MasterSpurious =>
      case ControlStep(created) => ControlKeepsExitWake(s, created);
    }
  }

  lemma MutexIsKept(s: State)
    requires Inv(s)
    ensures MutexInv(s)
  {
  }

  lemma OthersStay(s: State, i: nat)
    requires ExitWakeInv(s) && i < |s.workers| && s.workers[i].Waiting?
    ensures ExitWakeInv(Move(s, i, Reacquire))
  {
    var t := Move(s, i, Reacquire);
    assert forall k :: 0 <= k < |s.workers| && k != i ==> t.workers[k] == s.workers[k];
  }

  lemma ControlKeepsExitWake(s: State, created: bool)
    requires Inv(s) && ExitWakeInv(s) && ControlNext(s, created).Some?
    ensures ExitWakeInv(ControlNext(s, created).value)
  {
    var t := ControlNext(s, created).value;
    assert |t.workers| == |s.workers|;
    assert forall k :: 0 <= k < |s.workers| && s.workers[k].SignalExit? ==> t.workers[k].SignalExit?;
  }

  lemma {:induction false} RunKeepsExitWake(s: State, actions: seq<Action>, t: State)
    requires Inv(s) && ExitWakeInv(s) && Reaches(s, actions, t)
    ensures Inv(t) && ExitWakeInv(t)
    decreases |actions|
  {
    hide Inv, ExitWakeInv, Next;
    if actions != [] {
      assert s.ring.Valid() by { RingIsValid(s); }
      StepKeepsInv(s, actions[0]);
      StepKeepsExitWake(s, actions[0]);
      RunKeepsExitWake(Next(s, actions[0]).value, actions[1..], t);
    }
  }

  lemma ReachedInv(n: nat, actions: seq<Action>, t: State)
    requires Reaches(Init(n), actions, t)
    ensures Inv(t) && ExitWakeInv(t)
  {
    hide Inv;
    InitInv(n);
    RunKeepsExitWake(Init(n), actions, t);
  }

  /** In every reachable state: no worker and not the master can go on if and only if all
      workers are asleep, finished or never started, and the master is asleep or finished. */
  lemma NoStepMeansAsleep(n: nat, actions: seq<Action>, t: State)
    requires Reaches(Init(n), actions, t)
    ensures t.ring.Valid() && (!CanProgress(t) <==> AllAsleep(t))
  {
    ReachedInv(n, actions, t);
    StuckMeansAsleep(t);
  }

  // ----------------------------------------------------------- when mg_stop is called

  // mg_stop's first statement.
  ghost function StopCalled(s: State): State {
    s.(control := Stopping, stopFlag := 1)
  }

  // A worker has found nothing to do and holds the mutex until it sleeps, and the master needs
  // no mutex to get to its broadcast.
  ghost predicate MissesBroadcast(s: State) {
    && (exists i :: 0 <= i < |s.workers| && s.workers[i].AboutToWait?)
    && (s.master.AcceptTest? || s.master.Accepting?)
  }

  // The master has, or may still accept, a socket to queue.
  ghost predicate Queueing(pc: MasterPc) {
    pc.Accepting? || HasSocket(pc)
  }

  ghost predicate HasSocket(pc: MasterPc) {
    pc.AcquireProduce? || pc.ReacquireSpace? || pc.FullTest? || pc.AboutToWaitSpace? || pc.WaitingSpace?
  }

  ghost predicate SomeTaking(ws: seq<WorkerPc>) {
    exists i :: 0 <= i < |ws| && ws[i].TakeSocket?
  }

  // There is no room for that socket, and no worker that still makes some.
  ghost predicate QueueStaysFull(s: State) {
    s.ring.Full() && Queueing(s.master) && !SomeTaking(s.workers)
  }

  ghost predicate CanStall(t: State) {
    exists actions: seq<Action>, u: State :: Reaches(t, actions, u) && Stuck(u)
  }

  // ----------------------------------------------------------- otherwise, no stall

  ghost predicate BeforeBroadcast(pc: MasterPc) {
    !(pc.AcquireJoin? || pc.JoinTest? || pc.AboutToWaitExit? ||
      pc.WaitingExit? || pc.ReacquireExit? || MasterJoined(pc))
  }

  // What holds from mg_stop on when neither condition held.
  ghost predicate Safe(s: State) {
    SleepersSafe(s) && RoomLeft(s)
  }

  // The broadcast is still to come for every worker that sleeps or is about to.
  ghost predicate SleepersSafe(s: State) {
    && s.stopFlag != 0
    && forall i :: 0 <= i < |s.workers| ==>
         && (s.workers[i].AboutToWait? ==> s.master.AcquireProduce? || s.master.ReacquireSpace?)
         && (s.workers[i].Waiting? ==> BeforeBroadcast(s.master))
  }

  // There is room for the master's socket, or a worker still makes some.
  ghost predicate RoomLeft(s: State) {
    Queueing(s.master) ==> !s.ring.Full() || SomeTaking(s.workers)
  }

  lemma SafeAtFirst(s: State)
    requires Inv(s) && s.control.Started? && !MissesBroadcast(s) && !QueueStaysFull(s)
    ensures Safe(StopCalled(s))
  {
    assert s.stopFlag == 0 && !MasterLeaving(s.master);
    forall i | 0 <= i < |s.workers| && s.workers[i].AboutToWait?
      ensures s.master.AcquireProduce? || s.master.ReacquireSpace?
    {
      assert s.owner == ByWorker(i) && !MasterHolds(s.master) && s.ring.Empty();
      assert !SomeSignalling(s.workers);
    }
  }

  lemma WorkerMovesItself(s: State, i: nat)
    requires s.ring.Valid() && i < |s.workers| && WorkerNext(s, i).Some?
    ensures var t := WorkerNext(s, i).value;
      |t.workers| == |s.workers| && forall k :: 0 <= k < |s.workers| && k != i ==> t.workers[k] == s.workers[k]
  {
  }

  lemma WorkerKeepsRoom(s: State, i: nat)
    requires Inv(s) && s.stopFlag != 0 && RoomLeft(s) && i < |s.workers| && WorkerNext(s, i).Some?
    ensures RoomLeft(WorkerNext(s, i).value)
  {
    hide Total, WakeInv, ShutdownInv, SomeSignalling;
    var t := WorkerNext(s, i).value;
    WorkerMovesItself(s, i);
    if s.workers[i].TakeSocket? {
      TakingMakesRoom(s.ring);
    }
  }

  lemma WorkerKeepsSleepers(s: State, i: nat)
    requires Inv(s) && SleepersSafe(s) && i < |s.workers| && WorkerNext(s, i).Some?
    ensures SleepersSafe(WorkerNext(s, i).value)
  {
    hide Total, WakeInv, ShutdownInv, SomeSignalling;
    var t := WorkerNext(s, i).value;
    WorkerMovesItself(s, i);
  }

  lemma WorkerKeepsSafe(s: State, i: nat)
    requires Inv(s) && Safe(s) && i < |s.workers| && WorkerNext(s, i).Some?
    ensures Safe(WorkerNext(s, i).value)
  {
    hide Inv, SleepersSafe, RoomLeft, WorkerNext;
    assert s.stopFlag != 0 by { FlagIsSet(s); }
    WorkerKeepsSleepers(s, i);
    WorkerKeepsRoom(s, i);
  }

  lemma FlagIsSet(s: State)
    requires SleepersSafe(s)
    ensures s.stopFlag != 0
  {
  }

  lemma TakingMakesRoom(r: Ring)
    requires r.Valid() && !r.Empty()
    ensures !r.Take().Full()
  {
    RebaseOnce(r.head, r.tail + 1);
  }

  lemma MasterKeepsSleepers(s: State, pick: nat, incoming: Option<Socket>)
    requires Inv(s) && SleepersSafe(s) && MasterNext(s, pick, incoming).Some?
    ensures SleepersSafe(MasterNext(s, pick, incoming).value)
  {
    hide Total, WakeInv, ShutdownInv, SomeSignalling;
    if s.master.SignalSocket? {
      SignallingWakesOne(s, pick);
    } else if s.master.Broadcast? {
      assert forall k :: 0 <= k < |s.workers| ==> !s.workers[k].AboutToWait?;
    }
  }

  lemma MasterKeepsRoom(s: State, pick: nat, incoming: Option<Socket>)
    requires Inv(s) && s.stopFlag != 0 && RoomLeft(s) && MasterNext(s, pick, incoming).Some?
    ensures RoomLeft(MasterNext(s, pick, incoming).value)
  {
    hide Total, WakeInv, ShutdownInv, SomeSignalling;
    if s.master.SignalSocket? {
      SignallingWakesOne(s, pick);
    }
  }

  lemma MasterKeepsSafe(s: State, pick: nat, incoming: Option<Socket>)
    requires Inv(s) && Safe(s) && MasterNext(s, pick, incoming).Some?
    ensures Safe(MasterNext(s, pick, incoming).value)
  {
    hide Inv, SleepersSafe, RoomLeft, MasterNext;
    assert s.stopFlag != 0 by { FlagIsSet(s); }
    MasterKeepsSleepers(s, pick, incoming);
    MasterKeepsRoom(s, pick, incoming);
  }

  lemma SignallingWakesOne(s: State, pick: nat)
    ensures var t := Signalled(s, pick);
      && t == s.(workers := t.workers) && |t.workers| == |s.workers|
      && forall k :: 0 <= k < |s.workers| ==>
           t.workers[k] == s.workers[k] || (s.workers[k].Waiting? && t.workers[k].Reacquire?)
  {
  }

  lemma SpuriousKeepsSafe(s: State, i: nat)
    requires Safe(s) && i < |s.workers| && s.workers[i].Waiting?
    ensures Safe(Move(s, i, Reacquire))
  {
    var t := Move(s, i, Reacquire);
    assert forall k :: 0 <= k < |s.workers| && k != i ==> t.workers[k] == s.workers[k];
  }

  lemma ControlKeepsSafe(s: State, created: bool)
    requires Inv(s) && Safe(s) && ControlNext(s, created).Some?
    ensures Safe(ControlNext(s, created).value)
  {
  }

  lemma StepKeepsSafe(s: State, a: Action)
    requires Inv(s) && Safe(s) && Next(s, a).Some?
    ensures Safe(Next(s, a).value)
  {
    hide WorkerNext, MasterNext, ControlNext, Inv;
    assert s.ring.Valid() by { RingIsValid(s); }
    match a {
      case WorkerStep(i) => WorkerKeepsSafe(s, i);
      case WorkerSpurious(i) => SpuriousKeepsSafe(s, i);
      case MasterStep(pick, incoming) => MasterKeepsSafe(s, pick, incoming);
      case MasterSpurious =>
      case ControlStep(created) => ControlKeepsSafe(s, created);
    }
  }

  lemma SafeIsNotStuck(s: State)
    requires Inv(s) && ExitWakeInv(s) && Safe(s)
    ensures !Stuck(s)
  {
    hide Total, MutexInv, CanProgress;
    StuckMeansAsleep(s);
    if AllAsleep(s) && s.master.WaitingExit? {
      assert !SomeExiting(s.workers) && s.numThreads > 0;
      TotalZero(Alive, s.workers);
    }
  }

  // ------------------------------------------------------------- work left to do

  // Steps that a worker, or the master, has left when it need not wait again.
  ghost function WorkerWork(pc: WorkerPc): nat {
    match pc
    case NotStarted | Done => 0
    case ReleaseExit => 1
    case SignalExit => 2
    case Decrement => 3
    case AcquireExit => 4
    case ReleaseStopped | LoopTest => 5
    case StopTest | Serving(_) => 6
    case EmptyTest | Release(_) => 7
    case Acquire | Reacquire | SignalSpace(_) => 8
    case Waiting | TakeSocket => 9
    case AboutToWait => 10
  }

  ghost function MasterWork(pc: MasterPc): nat {
    match pc
    case MasterDone => 0
    case Finish => 1
    case DestroyLocks => 2
    case ReleaseJoin | WaitingExit => 3
    case AboutToWaitExit => 4
    case JoinTest => 5
    case AcquireJoin | ReacquireExit => 6
    case Broadcast => 7
    case CloseListeners => 8
    case AcceptTest => 9
    case ReleaseProduce => 10
    case SignalSocket | WaitingSpace(_) => 11
    case PutSocket(_) | AboutToWaitSpace(_) => 12
    case FullTest(_) => 13
    case AcquireProduce(_) | ReacquireSpace(_) => 14
    case Accepting => 15
  }

  ghost function WorkersWork(ws: seq<WorkerPc>): nat {
    if ws == [] then 0 else WorkerWork(ws[0]) + WorkersWork(ws[1..])
  }

  // A worker's step may wake the master, so it counts for more than all of the master's.
  ghost function Work(s: State): nat {
    16 * WorkersWork(s.workers) + MasterWork(s.master)
  }

  lemma {:induction false} WorkUpdate(ws: seq<WorkerPc>, i: nat, pc: WorkerPc)
    requires i < |ws|
    ensures WorkersWork(ws[i := pc]) == WorkersWork(ws) - WorkerWork(ws[i]) + WorkerWork(pc)
  {
    hide WorkerWork;
    if i == 0 {
      assert ws[0 := pc][1..] == ws[1..];
    } else {
      WorkUpdate(ws[1..], i - 1, pc);
      assert ws[i := pc][1..] == ws[1..][i - 1 := pc];
    }
  }

  lemma {:induction false} WakingIsWork(ws: seq<WorkerPc>)
    ensures WorkersWork(WakeAll(ws)) <= WorkersWork(ws)
  {
    if ws != [] {
      assert WakeAll(ws)[1..] == WakeAll(ws[1..]);
      WakingIsWork(ws[1..]);
    }
  }

  // Steps of the threads themselves, and workers that wake too early.
  ghost predicate IsWork(a: Action) {
    a.WorkerStep? || a.WorkerSpurious? || a.MasterStep?
  }

  lemma WorkerPcWork(s: State, i: nat)
    requires s.ring.Valid() && s.stopFlag != 0 && i < |s.workers| && WorkerNext(s, i).Some?
    ensures var t := WorkerNext(s, i).value;
      && |t.workers| == |s.workers| && t.workers == s.workers[i := t.workers[i]]
      && WorkerWork(t.workers[i]) < WorkerWork(s.workers[i])
      && MasterWork(t.master) < MasterWork(s.master) + 16
  {
  }

  lemma MasterPcWork(s: State, pick: nat, incoming: Option<Socket>)
    requires s.ring.Valid() && s.stopFlag != 0 && MasterNext(s, pick, incoming).Some?
    ensures var t := MasterNext(s, pick, incoming).value;
      && MasterWork(t.master) < MasterWork(s.master)
      && (t.workers == s.workers || t.workers == WakeAll(s.workers)
          || (pick < |s.workers| && s.workers[pick].Waiting? && t.workers == s.workers[pick := Reacquire]))
  {
  }

  /** Once stop_flag is set, every step of a worker or of the master uses up work. */
  lemma StepIsWork(s: State, a: Action)
    requires s.ring.Valid() && s.stopFlag != 0 && IsWork(a) && Next(s, a).Some?
    ensures Work(Next(s, a).value) < Work(s)
  {
    hide WorkerNext, MasterNext, WorkerWork, MasterWork, WorkersWork;
    match a {
      case WorkerStep(i) =>
        WorkerPcWork(s, i);
        WorkUpdate(s.workers, i, Next(s, a).value.workers[i]);
      case WorkerSpurious(i) =>
        WorkUpdate(s.workers, i, Reacquire);
        ReacquiringIsWork();
      case MasterStep(pick, incoming) =>
        MasterPcWork(s, pick, incoming);
        WakingIsWork(s.workers);
        if pick < |s.workers| {
          WorkUpdate(s.workers, pick, Reacquire);
        }
        ReacquiringIsWork();
    }
  }

  lemma ReacquiringIsWork()
    ensures WorkerWork(Reacquire) < WorkerWork(Waiting)
  {
  }

  lemma ControlIsNoWork(s: State, created: bool)
    requires s.stopFlag != 0 && Inv(s) && ControlNext(s, created).Some?
    ensures Work(ControlNext(s, created).value) == Work(s)
  {
  }

  // How many of the actions are steps of workers and master.
  ghost function Steps(actions: seq<Action>): nat {
    if actions == [] then 0 else (if IsWork(actions[0]) then 1 else 0) + Steps(actions[1..])
  }

  ghost predicate NoEarlyMaster(actions: seq<Action>) {
    forall i :: 0 <= i < |actions| ==> !actions[i].MasterSpurious?
  }

  lemma {:induction false} SafeRun(s: State, actions: seq<Action>, t: State)
    requires Inv(s) && ExitWakeInv(s) && Safe(s) && Reaches(s, actions, t)
    ensures Inv(t) && !Stuck(t)
    ensures NoEarlyMaster(actions) ==> Steps(actions) + Work(t) <= Work(s)
    decreases |actions|
  {
    hide Inv, ExitWakeInv, Safe, Next, Stuck, Work;
    if actions == [] {
      SafeIsNotStuck(s);
    } else {
      var a, u := actions[0], Next(s, actions[0]).value;
      assert s.ring.Valid() by { RingIsValid(s); }
      StepKeepsInv(s, a);
      StepKeepsExitWake(s, a);
      StepKeepsSafe(s, a);
      SafeRun(u, actions[1..], t);
      if NoEarlyMaster(actions) {
        assert !a.MasterSpurious?;
        WorkOfOne(s, a);
        assert NoEarlyMaster(actions[1..]) by { NoEarlyTail(actions); }
      }
    }
  }

  lemma NoEarlyTail(actions: seq<Action>)
    requires actions != [] && NoEarlyMaster(actions)
    ensures NoEarlyMaster(actions[1..])
  {
    assert forall i :: 0 <= i < |actions| - 1 ==> actions[1..][i] == actions[i + 1];
  }

  lemma WorkOfOne(s: State, a: Action)
    requires Inv(s) && Safe(s) && s.ring.Valid() && Next(s, a).Some? && !a.MasterSpurious?
    ensures Work(Next(s, a).value) + (if IsWork(a) then 1 else 0) <= Work(s)
  {
    hide Inv, Work, WorkerNext, MasterNext, ControlNext;
    if IsWork(a) {
      StepIsWork(s, a);
    } else {
      ControlIsNoWork(s, a.created);
    }
  }

  /** Unless mg_stop is called in one of the two bad states, shutdown completes: as long as
      the master has not finished, some worker or the master can go on, and, without spurious
      wakeups of the master, they do so only a bounded number of times. */
  lemma ShutdownCompletes(n: nat, actions: seq<Action>, s: State, more: seq<Action>, t: State)
    requires Reaches(Init(n), actions, s) && s.control.Started?
    requires !MissesBroadcast(s) && !QueueStaysFull(s) && Reaches(StopCalled(s), more, t)
    ensures t.ring.Valid() && (CanProgress(t) || t.master.MasterDone?)
    ensures NoEarlyMaster(more) ==> Steps(more) <= Work(StopCalled(s))
  {
    hide Inv, ExitWakeInv, Safe, Next, Work, MissesBroadcast, QueueStaysFull, CanProgress;
    ReachedInv(n, actions, s);
    StopKeepsInv(s);
    SafeAtFirst(s);
    SafeRun(StopCalled(s), more, t);
    RingIsValid(t);
  }

  lemma StopKeepsInv(s: State)
    requires Inv(s) && ExitWakeInv(s) && s.control.Started?
    ensures Inv(StopCalled(s)) && ExitWakeInv(StopCalled(s))
    ensures s.ring.Valid() && Next(s, ControlStep(true)) == Some(StopCalled(s))
  {
    hide WakeInv, OrderInv, CountInv, MutexInv, FifoInv;
    assert s.ring.Valid() by { RingIsValid(s); }
    ControlStepKeepsInv(s, true);
  }

  // --------------------------------------------------------- in a bad state, a stall

  // A worker sleeps behind the broadcast, or the master keeps a socket for which no room
  // will be made.
  ghost predicate Doomed(s: State) {
    s.stopFlag != 0 &&
    ((exists i :: SleepsOn(s, i)) || (s.ring.Full() && HasSocket(s.master) && !SomeTaking(s.workers)))
  }

  ghost predicate SleepsOn(s: State, i: nat) {
    i < |s.workers| && s.workers[i].Waiting? && !BeforeBroadcast(s.master)
  }

  lemma WorkerLeavesDoomed(s: State, i: nat)
    requires Inv(s) && Doomed(s) && i < |s.workers| && WorkerNext(s, i).Some?
    ensures Doomed(WorkerNext(s, i).value)
  {
    hide Total, WakeInv, ShutdownInv, MutexInv, SeenInv;
    var t := WorkerNext(s, i).value;
    WorkerMovesItself(s, i);
    if k :| SleepsOn(s, k) {
      assert SleepsOn(t, k);
    } else {
      assert !t.workers[i].TakeSocket? && !s.workers[i].TakeSocket?;
    }
  }

  lemma MasterLeavesDoomed(s: State, pick: nat)
    requires Inv(s) && Doomed(s) && MasterNext(s, pick, None).Some?
    ensures Doomed(MasterNext(s, pick, None).value)
  {
    hide Total, WakeInv, ShutdownInv, MutexInv, SeenInv;
    var t := MasterNext(s, pick, None).value;
    if k :| SleepsOn(s, k) {
      assert SleepsOn(t, k);
    }
  }

  lemma DoomedHasNotFinished(s: State)
    requires Inv(s) && Doomed(s)
    ensures !s.master.MasterDone?
  {
    if k :| SleepsOn(s, k) {
      assert OrderInv(s);
    }
  }

  // A step of a worker or of the master, if there is one.
  lemma SomeStep(s: State) returns (a: Action)
    requires s.ring.Valid() && CanProgress(s)
    ensures Next(s, a).Some? && ((a.WorkerStep? && a.worker < |s.workers|) || (a.MasterStep? && a.incoming == None))
  {
    if i :| 0 <= i < |s.workers| && WorkerNext(s, i).Some? {
      a := WorkerStep(i);
    } else {
      var pick: nat :| MasterNext(s, pick, None).Some?;
      a := MasterStep(pick, None);
    }
  }

  // From a doomed state the threads run until none of them can go on.
  lemma RunsDown(s: State) returns (actions: seq<Action>, t: State)
    requires Inv(s) && Doomed(s)
    ensures Reaches(s, actions, t) && Stuck(t)
    decreases Work(s)
  {
    hide Inv, WorkerNext, MasterNext, Work, CanProgress, Doomed;
    RingIsValid(s);
    if CanProgress(s) {
      var a := SomeStep(s);
      var u := Next(s, a).value;
      DoomedIsStopped(s);
      StepKeepsInv(s, a);
      StepIsWork(s, a);
      if a.WorkerStep? {
        WorkerLeavesDoomed(s, a.worker);
      } else {
        MasterLeavesDoomed(s, a.pick);
      }
      var rest;
      rest, t := RunsDown(u);
      actions := [a] + rest;
      assert actions[1..] == rest;
    } else {
      DoomedHasNotFinished(s);
      actions, t := [], s;
    }
  }

  lemma DoomedIsStopped(s: State)
    requires Doomed(s)
    ensures s.stopFlag != 0
  {
  }

  // One more action in front of a run.
  lemma Then(s: State, a: Action, actions: seq<Action>, t: State) returns (all: seq<Action>)
    requires s.ring.Valid() && Next(s, a).Some? && Reaches(Next(s, a).value, actions, t)
    ensures Reaches(s, all, t)
  {
    all := [a] + actions;
    assert all[1..] == actions;
  }

  lemma FullQueueStalls(s: State)
    requires Inv(s) && ExitWakeInv(s) && s.control.Started? && QueueStaysFull(s)
    ensures CanStall(StopCalled(s))
  {
    hide Inv, ExitWakeInv, Stuck;
    var t := StopCalled(s);
    StopKeepsInv(s);
    if s.master.Accepting? {
      var a := MasterStep(0, Some(Socket(0, 0, 0)));
      StepKeepsInv(t, a);
      var actions, u := RunsDown(Next(t, a).value);
      var all := Then(t, a, actions, u);
    } else {
      var actions, u := RunsDown(t);
    }
  }

  // The master goes on to its broadcast while worker i is about to wait; then that one waits.
  lemma MissedBroadcastDooms(s: State, i: nat) returns (actions: seq<Action>, t: State)
    requires Inv(s) && s.stopFlag != 0 && s.master.AcceptTest? && i < |s.workers| && s.workers[i].AboutToWait?
    ensures Reaches(s, actions, t) && Inv(t) && Doomed(t)
  {
    hide Inv;
    RingIsValid(s);
    var master, worker := MasterStep(0, None), WorkerStep(i);
    var s1 := Next(s, master).value;
    StepKeepsInv(s, master);
    var s2 := Next(s1, master).value;
    StepKeepsInv(s1, master);
    var s3 := Next(s2, master).value;
    StepKeepsInv(s2, master);
    t := Next(s3, worker).value;
    StepKeepsInv(s3, worker);
    assert SleepsOn(t, i);
    assert Reaches(t, [], t);
    actions := Then(s3, worker, [], t);
    actions := Then(s2, master, actions, t);
    actions := Then(s1, master, actions, t);
    actions := Then(s, master, actions, t);
  }

  lemma {:induction false} ReachesOn(s: State, first: seq<Action>, t: State, second: seq<Action>, u: State)
    requires Reaches(s, first, t) && Reaches(t, second, u)
    ensures Reaches(s, first + second, u)
    decreases |first|
  {
    hide Next;
    if first == [] {
      assert first + second == second;
    } else {
      assert (first + second)[1..] == first[1..] + second;
      ReachesOn(Next(s, first[0]).value, first[1..], t, second, u);
    }
  }

  lemma MissedBroadcastStalls(s: State)
    requires Inv(s) && ExitWakeInv(s) && s.control.Started? && MissesBroadcast(s)
    ensures CanStall(StopCalled(s))
  {
    hide Inv, ExitWakeInv, Stuck, Doomed;
    var t := StopCalled(s);
    StopKeepsInv(s);
    var i :| 0 <= i < |s.workers| && s.workers[i].AboutToWait?;
    var before, v := [], t;
    if s.master.Accepting? {
      var a := MasterStep(0, None);
      v := Next(t, a).value;
      StepKeepsInv(t, a);
      assert Reaches(v, [], v);
      before := Then(t, a, [], v);
    }
    var more, w := MissedBroadcastDooms(v, i);
    var rest, u := RunsDown(w);
    ReachesOn(t, before, v, more, w);
    ReachesOn(t, before + more, w, rest, u);
  }

  /** Shutdown can stall, with the master never finished and no thread able to go on, if and
      only if mg_stop is called in one of two kinds of states: a worker that has found nothing
      to do is about to sleep while the master is on its way to the broadcast, or the ring is
      full while the master has, or may still get, a socket to queue and no worker is about to
      take one. */
  lemma ShutdownStallsExactly(n: nat, actions: seq<Action>, s: State)
    requires Reaches(Init(n), actions, s) && s.control.Started?
    ensures CanStall(StopCalled(s)) <==> MissesBroadcast(s) || QueueStaysFull(s)
  {
    hide Inv, ExitWakeInv, Next, MissesBroadcast, QueueStaysFull, Stuck, Safe;
    ReachedInv(n, actions, s);
    if MissesBroadcast(s) {
      MissedBroadcastStalls(s);
    } else if QueueStaysFull(s) {
      FullQueueStalls(s);
    } else {
      StopKeepsInv(s);
      SafeAtFirst(s);
      forall more: seq<Action>, t: State | Reaches(StopCalled(s), more, t)
        ensures !Stuck(t)
      {
        SafeRun(StopCalled(s), more, t);
      }
    }
  }

  // ------------------------------------------------------------------- both stalls

  lemma {:induction false} ReachesAppend(s: State, actions: seq<Action>, t: State, a: Action)
    requires Reaches(s, actions, t) && t.ring.Valid() && Next(t, a).Some?
    ensures Reaches(s, actions + [a], Next(t, a).value)
    decreases |actions|
  {
    if actions == [] {
      assert Reaches(Next(t, a).value, [], Next(t, a).value);
    } else {
      ReachesAppend(Next(s, actions[0]).value, actions[1..], t, a);
      assert (actions + [a])[1..] == actions[1..] + [a];
    }
  }

  lemma Extend(actions: seq<Action>, t: State, a: Action) returns (u: State)
    requires Reaches(Init(1), actions, t) && t.ring.Valid() && Next(t, a).Some?
    ensures u == Next(t, a).value && Reaches(Init(1), actions + [a], u)
  {
    ReachesAppend(Init(1), actions, t, a);
    u := Next(t, a).value;
  }

  // mg_start with one worker.
  lemma OneWorker() returns (actions: seq<Action>, t: State)
    ensures Reaches(Init(1), actions, t)
    ensures t == State(0, 1, NoOne, EMPTY_RING, [LoopTest], AcceptTest, Started, [], [])
  {
    var control := ControlStep(true);
    actions, t := [], Init(1);
    t := Extend(actions, t, control); actions := actions + [control];
    t := Extend(actions, t, control); actions := actions + [control];
    t := Extend(actions, t, control); actions := actions + [control];
  }

  // The worker finds the ring empty.
  lemma AboutToSleep() returns (actions: seq<Action>, t: State)
    ensures Reaches(Init(1), actions, t)
    ensures t == State(0, 1, ByWorker(0), EMPTY_RING, [AboutToWait], AcceptTest, Started, [], [])
  {
    var worker := WorkerStep(0);
    actions, t := OneWorker();
    t := Extend(actions, t, worker); actions := actions + [worker];
    t := Extend(actions, t, worker); actions := actions + [worker];
    t := Extend(actions, t, worker); actions := actions + [worker];
  }

  // mg_stop is called, and the master broadcasts, without the mutex, to a worker that does
  // not wait yet.
  lemma BroadcastMissed() returns (actions: seq<Action>, t: State)
    ensures Reaches(Init(1), actions, t)
    ensures t == State(1, 1, NoOne, EMPTY_RING, [Waiting], AcquireJoin, Stopping, [], [])
  {
    var worker, control, master := WorkerStep(0), ControlStep(true), MasterStep(0, None);
    actions, t := AboutToSleep();
    t := Extend(actions, t, control); actions := actions + [control];
    t := Extend(actions, t, master); actions := actions + [master];
    t := Extend(actions, t, master); actions := actions + [master];
    t := Extend(actions, t, master); actions := actions + [master];
    t := Extend(actions, t, worker); actions := actions + [worker];
  }

  lemma WorkerSleepsOn() returns (actions: seq<Action>, t: State)
    ensures Reaches(Init(1), actions, t)
    ensures t == State(1, 1, NoOne, EMPTY_RING, [Waiting], WaitingExit, Stopping, [], [])
  {
    var master := MasterStep(0, None);
    actions, t := BroadcastMissed();
    t := Extend(actions, t, master); actions := actions + [master];
    t := Extend(actions, t, master); actions := actions + [master];
    t := Extend(actions, t, master); actions := actions + [master];
  }

  // The worker does nothing yet, and the ring holds k sockets.
  ghost predicate Filled(t: State, k: nat) {
    && t.stopFlag == 0 && t.numThreads == 1 && t.owner == NoOne && t.workers == [LoopTest]
    && t.control == Started && t.ring.Valid() && t.ring.head == k && t.ring.tail == 0
  }

  // The master accepts one socket after the other and queues it.
  lemma FillRing(k: nat) returns (actions: seq<Action>, t: State)
    requires k <= SLOTS
    ensures Reaches(Init(1), actions, t) && Filled(t, k) && t.master == AcceptTest
  {
    if k == 0 {
      actions, t := OneWorker();
    } else {
      actions, t := FillRing(k - 1);
      actions, t := QueueOne(actions, t, k - 1);
    }
  }

  lemma AcceptOne(actions: seq<Action>, s: State, k: nat, c: Socket) returns (more: seq<Action>, t: State)
    requires Reaches(Init(1), actions, s) && Filled(s, k) && s.master == AcceptTest
    ensures Reaches(Init(1), more, t) && Filled(t, k) && t.master == AcquireProduce(c) && t.ring == s.ring
  {
    var test, accept := MasterStep(0, None), MasterStep(0, Some(c));
    more, t := actions, s;
    t := Extend(more, t, test); more := more + [test];
    t := Extend(more, t, accept); more := more + [accept];
  }

  lemma QueueOne(actions: seq<Action>, s: State, k: nat) returns (more: seq<Action>, t: State)
    requires k < SLOTS && Reaches(Init(1), actions, s) && Filled(s, k) && s.master == AcceptTest
    ensures Reaches(Init(1), more, t) && Filled(t, k + 1) && t.master == AcceptTest
  {
    var master := MasterStep(0, None);
    more, t := AcceptOne(actions, s, k, Socket(0, 0, 0));
    t := Extend(more, t, master); more := more + [master];
    t := Extend(more, t, master); more := more + [master];
    t := Extend(more, t, master); more := more + [master];
    t := Extend(more, t, master); more := more + [master];
    t := Extend(more, t, master); more := more + [master];
  }

  // The ring is full and the master has one socket more.
  lemma RingOverfull() returns (actions: seq<Action>, t: State)
    ensures Reaches(Init(1), actions, t) && Filled(t, SLOTS) && t.master == AcquireProduce(Socket(0, 0, 0))
  {
    actions, t := FillRing(SLOTS);
    actions, t := AcceptOne(actions, t, SLOTS, Socket(0, 0, 0));
  }

  // mg_stop has been called while the ring was full.
  ghost predicate StoppedFull(t: State) {
    && t.stopFlag == 1 && t.ring.Valid() && t.ring.Full() && t.control == Stopping
    && t.master == AcquireProduce(Socket(0, 0, 0))
  }

  lemma WorkerSeesFlag() returns (actions: seq<Action>, t: State)
    ensures Reaches(Init(1), actions, t) && StoppedFull(t)
    ensures t.numThreads == 1 && t.owner == ByWorker(0) && t.workers == [Decrement]
  {
    var worker, control := WorkerStep(0), ControlStep(true);
    actions, t := RingOverfull();
    t := Extend(actions, t, control); actions := actions + [control];
    t := Extend(actions, t, worker); actions := actions + [worker];
    t := Extend(actions, t, worker); actions := actions + [worker];
  }

  // The worker leaves without taking a socket.
  lemma WorkerSignalsExit() returns (actions: seq<Action>, t: State)
    ensures Reaches(Init(1), actions, t) && StoppedFull(t)
    ensures t.numThreads == 0 && t.owner == ByWorker(0) && t.workers == [ReleaseExit]
  {
    var worker := WorkerStep(0);
    actions, t := WorkerSeesFlag();
    t := Extend(actions, t, worker); actions := actions + [worker];
    t := Extend(actions, t, worker); actions := actions + [worker];
  }

  lemma WorkerLeaves() returns (actions: seq<Action>, t: State)
    ensures Reaches(Init(1), actions, t) && StoppedFull(t)
    ensures t.numThreads == 0 && t.owner == NoOne && t.workers == [WorkerPc.Done]
  {
    var worker := WorkerStep(0);
    actions, t := WorkerSignalsExit();
    t := Extend(actions, t, worker); actions := actions + [worker];
  }

  lemma MasterSleepsOn() returns (actions: seq<Action>, t: State)
    ensures Reaches(Init(1), actions, t) && t.ring.Valid()
    ensures t.stopFlag == 1 && t.numThreads == 0 && t.workers == [WorkerPc.Done] && t.master.WaitingSpace?
  {
    var master := MasterStep(0, None);
    actions, t := WorkerLeaves();
    t := Extend(actions, t, master); actions := actions + [master];
    t := Extend(actions, t, master); actions := actions + [master];
    t := Extend(actions, t, master); actions := actions + [master];
  }

  /** Both kinds of stall occur, with a single worker: a worker that sleeps through the
      broadcast while the master waits for it, and a master that waits for room in the ring
      when all workers have left. */
  lemma ShutdownMayStall() returns (first: seq<Action>, s: State, second: seq<Action>, t: State)
    ensures Reaches(Init(1), first, s) && Stuck(s)
    ensures s.stopFlag == 1 && s.workers == [Waiting] && s.master.WaitingExit?
    ensures Reaches(Init(1), second, t) && Stuck(t)
    ensures t.stopFlag == 1 && t.workers == [WorkerPc.Done] && t.master.WaitingSpace? && t.numThreads == 0
  {
    first, s := WorkerSleepsOn();
    AsleepCannotGoOn(s);
    second, t := MasterSleepsOn();
    AsleepCannotGoOn(t);
  }
}
