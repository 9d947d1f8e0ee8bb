/**
 The thread protocol of the HTTP engine (server/mongoose.c): one master that
 accepts sockets, any number of workers that serve them, and the thread that
 calls mg_start and later mg_stop.  A state holds every variable the threads
 share and one program counter per thread; one step is one access to shared
 state.  A thread whose program counter says "holds" owns the mutex.
 */
module WorkerPool {
  import opened Wrappers
  import opened SocketRing

  datatype WorkerPc =
    | NotStarted
    | LoopTest                // reads stop_flag in the worker's loop condition
    | Acquire                 // locks the mutex in consume_socket
    | EmptyTest               // holds; tests the wait condition
    | AboutToWait             // holds; the wait condition was true
    | Waiting                 // asleep on sq_full
    | Reacquire               // woken from sq_full, needs the mutex again
    | StopTest                // holds; reads stop_flag a second time
    | ReleaseStopped          // holds; about to return 0
    | TakeSocket              // holds; copies the socket and moves the tail
    | SignalSpace             // holds; signals sq_empty
      (taken: Socket)
    | Release(taken: Socket)  // holds; about to return 1
    | Serving(taken: Socket)
    | AcquireExit             // left the loop; locks the mutex
    | Decrement               // holds; num_threads--
    | SignalExit              // holds; signals cond, asserts num_threads >= 0
    | ReleaseExit             // holds
    | Done

  datatype MasterPc =
    | AcceptTest              // reads stop_flag in the master's loop condition
    | Accepting
    | AcquireProduce(conn: Socket)
    | FullTest(conn: Socket)           // holds
    | AboutToWaitSpace(conn: Socket)   // holds
    | WaitingSpace(conn: Socket)       // asleep on sq_empty
    | ReacquireSpace(conn: Socket)
    | PutSocket(conn: Socket)          // holds
    | SignalSocket            // holds; signals sq_full
    | ReleaseProduce          // holds
    | CloseListeners
    | Broadcast               // without the mutex
    | AcquireJoin
    | JoinTest                // holds; reads num_threads
    | AboutToWaitExit         // holds
    | WaitingExit             // asleep on cond
    | ReacquireExit
    | ReleaseJoin             // holds
    | DestroyLocks
    | Finish                  // stop_flag = 2
    | MasterDone

  datatype ControlPc =
    | Creating(next: nat)     // mg_start: about to start worker `next`
    | Counting(next: nat)     // mg_start: worker `next` runs, num_threads++ is due
    | Started                 // mg_start has returned
    | Stopping                // mg_stop: spins until stop_flag == 2
    | Freeing
    | Freed

  datatype Owner = NoOne | ByMaster | ByWorker(index: nat)

  datatype State = State(
    stopFlag: int,
    numThreads: int,
    owner: Owner,
    ring: Ring,
    workers: seq<WorkerPc>,
    master: MasterPc,
    control: ControlPc,
    arrived: seq<Socket>,    // every socket accept() returned, in order
    delivered: seq<Socket>)  // every socket a worker took, in order

  ghost function Init(workers: nat): State {
    State(0, 0, NoOne, EMPTY_RING, seq(workers, _ => NotStarted), AcceptTest, Creating(0), [], [])
  }

  // ------------------------------------------------------------------ steps

  // What the environment decides: which thread moves, what accept() returns,
  // which sleeping worker a signal wakes, whether pthread_create succeeds, and
  // which thread wakes without having been signalled.
  datatype Action =
    | WorkerStep(worker: nat)
    | WorkerSpurious(worker: nat)
    | MasterStep(pick: nat, incoming: Option<Socket>)
    | MasterSpurious
    | ControlStep(created: bool)

  ghost function Move(s: State, i: nat, pc: WorkerPc): State
    requires i < |s.workers|
  {
    s.(workers := s.workers[i := pc])
  }

  // A step of worker i, or None when it is blocked, asleep or finished.
  ghost function WorkerNext(s: State, i: nat): Option<State>
    requires i < |s.workers| && s.ring.Valid()
  {
    match s.workers[i]
    case NotStarted | Waiting | Done => None
    case LoopTest =>
      Some(Move(s, i, if s.stopFlag == 0 then Acquire else AcquireExit))
    case Acquire | Reacquire =>
      if s.owner.NoOne? then Some(Move(s, i, EmptyTest).(owner := ByWorker(i))) else None
    case EmptyTest =>
      Some(Move(s, i, if s.ring.Empty() && s.stopFlag == 0 then AboutToWait else StopTest))
    case AboutToWait =>
      Some(Move(s, i, Waiting).(owner := NoOne))
    case StopTest =>
      Some(Move(s, i, if s.stopFlag != 0 then ReleaseStopped else TakeSocket))
    case ReleaseStopped =>
      Some(Move(s, i, AcquireExit).(owner := NoOne))
    case TakeSocket =>
      if s.ring.Empty() then None  // the assertion before the copy fails: see AssertionsHold
      else Some(Move(s, i, SignalSpace(s.ring.Oldest())).(
                ring := s.ring.Take(), delivered := s.delivered + [s.ring.Oldest()]))
    case SignalSpace(c) =>
      Some(Move(s, i, Release(c)).(
           master := if s.master.WaitingSpace? then ReacquireSpace(s.master.conn) else s.master))
    case Release(c) =>
      Some(Move(s, i, Serving(c)).(owner := NoOne))
    case Serving(_) =>
      Some(Move(s, i, LoopTest))
    case AcquireExit =>
      if s.owner.NoOne? then Some(Move(s, i, Decrement).(owner := ByWorker(i))) else None
    case Decrement =>
      Some(Move(s, i, SignalExit).(numThreads := s.numThreads - 1))
    case SignalExit =>
      Some(Move(s, i, ReleaseExit).(
           master := if s.master.WaitingExit? then ReacquireExit else s.master))
    case ReleaseExit =>
      Some(Move(s, i, WorkerPc.Done).(owner := NoOne))
  }

  ghost function WakeAll(ws: seq<WorkerPc>): (r: seq<WorkerPc>) {
    seq(|ws|, i requires 0 <= i < |ws| => if ws[i].Waiting? then Reacquire else ws[i])
  }

  ghost predicate SomeWaiting(ws: seq<WorkerPc>) {
    exists i :: 0 <= i < |ws| && ws[i].Waiting?
  }

  ghost predicate SomeSignalling(ws: seq<WorkerPc>) {
    exists i :: 0 <= i < |ws| && ws[i].SignalSpace?
  }

  // pthread_cond_signal(&sq_full): some waiting worker wakes, if there is one.
  // Waking more than one is covered by spurious wakeups.
  ghost predicate CanSignal(s: State, pick: nat) {
    SomeWaiting(s.workers) ==> pick < |s.workers| && s.workers[pick].Waiting?
  }

  ghost function Signalled(s: State, pick: nat): State {
    if pick < |s.workers| && s.workers[pick].Waiting? then Move(s, pick, Reacquire) else s
  }

  ghost function MasterNext(s: State, pick: nat, incoming: Option<Socket>): Option<State>
    requires s.ring.Valid()
  {
    match s.master
    case WaitingSpace(_) | WaitingExit | MasterDone => None
    case AcceptTest =>
      Some(s.(master := if s.stopFlag == 0 then Accepting else CloseListeners))
    case Accepting =>
      (match incoming
       case None => Some(s.(master := AcceptTest))
       case Some(c) => Some(s.(master := AcquireProduce(c), arrived := s.arrived + [c])))
    case AcquireProduce(c) =>
      if s.owner.NoOne? then Some(s.(owner := ByMaster, master := FullTest(c))) else None
    case ReacquireSpace(c) =>
      if s.owner.NoOne? then Some(s.(owner := ByMaster, master := FullTest(c))) else None
    case FullTest(c) =>
      Some(s.(master := if s.ring.Full() then AboutToWaitSpace(c) else PutSocket(c)))
    case AboutToWaitSpace(c) =>
      Some(s.(owner := NoOne, master := WaitingSpace(c)))
    case PutSocket(c) =>
      if s.ring.Full() then None  // the assertion before the copy fails: see AssertionsHold
      else Some(s.(master := SignalSocket, ring := s.ring.Put(c)))
    case SignalSocket =>
      if CanSignal(s, pick) then Some(Signalled(s, pick).(master := ReleaseProduce)) else None
    case ReleaseProduce =>
      Some(s.(owner := NoOne, master := AcceptTest))
    case CloseListeners =>
      Some(s.(master := Broadcast))
    case Broadcast =>
      Some(s.(master := AcquireJoin, workers := WakeAll(s.workers)))
    case AcquireJoin | ReacquireExit =>
      if s.owner.NoOne? then Some(s.(owner := ByMaster, master := JoinTest)) else None
    case JoinTest =>
      Some(s.(master := if s.numThreads > 0 then AboutToWaitExit else ReleaseJoin))
    case AboutToWaitExit =>
      Some(s.(owner := NoOne, master := WaitingExit))
    case ReleaseJoin =>
      Some(s.(owner := NoOne, master := DestroyLocks))
    case DestroyLocks =>
      Some(s.(master := Finish))
    case Finish =>
      Some(s.(master := MasterDone, stopFlag := 2))
  }

  ghost function ControlNext(s: State, created: bool): Option<State> {
    match s.control
    case Creating(k) =>
      if k >= |s.workers| then Some(s.(control := Started))
      else if created && s.workers[k].NotStarted? then
        Some(Move(s, k, LoopTest).(control := Counting(k)))
      else Some(s.(control := Creating(k + 1)))
    case Counting(k) =>
      Some(s.(control := Creating(k + 1), numThreads := s.numThreads + 1))
    case Started => Some(s.(control := Stopping, stopFlag := 1))
    case Stopping => if s.stopFlag == 2 then Some(s.(control := Freeing)) else Some(s)
    case Freeing => Some(s.(control := Freed))
    case Freed => None
  }

  ghost function Next(s: State, a: Action): Option<State>
    requires s.ring.Valid()
  {
    match a
    case WorkerStep(i) =>
      if i < |s.workers| then WorkerNext(s, i) else None
    case WorkerSpurious(i) =>
      if i < |s.workers| && s.workers[i].Waiting? then Some(Move(s, i, Reacquire)) else None
    case MasterStep(pick, incoming) =>
      MasterNext(s, pick, incoming)
    case MasterSpurious =>
      if s.master.WaitingSpace? then Some(s.(master := ReacquireSpace(s.master.conn)))
      else if s.master.WaitingExit? then Some(s.(master := ReacquireExit))
      else None
    case ControlStep(created) =>
      ControlNext(s, created)
  }

  // t is reached from s by taking the actions one after the other.
  ghost predicate Reaches(s: State, actions: seq<Action>, t: State)
    decreases |actions|
  {
    if actions == [] then s == t
    else
      && s.ring.Valid()
      && Next(s, actions[0]).Some?
      && Reaches(Next(s, actions[0]).value, actions[1..], t)
  }

  // --------------------------------------------------------------- counting

  // A worker counts for `Alive` until it has decremented num_threads, and for
  // `Taker` while it is bound to look at the ring again before it can sleep.
  datatype Kind = Alive | Taker

  ghost function Weight(k: Kind, pc: WorkerPc): nat {
    match k
    case Alive =>
      if pc.NotStarted? || pc.SignalExit? || pc.ReleaseExit? || pc == WorkerPc.Done then 0 else 1
    case Taker =>
      if pc.Reacquire? || pc.EmptyTest? || pc.StopTest? || pc.TakeSocket? then 1 else 0
  }

  ghost function Total(k: Kind, ws: seq<WorkerPc>): nat {
    if ws == [] then 0 else Weight(k, ws[0]) + Total(k, ws[1..])
  }

  lemma {:induction false} TotalUpdate(k: Kind, ws: seq<WorkerPc>, i: nat, pc: WorkerPc)
    requires i < |ws|
    ensures Total(k, ws[i := pc]) == Total(k, ws) - Weight(k, ws[i]) + Weight(k, pc)
  {
    if i == 0 {
      assert ws[0 := pc][1..] == ws[1..];
    } else {
      TotalUpdate(k, ws[1..], i - 1, pc);
      assert ws[i := pc][1..] == ws[1..][i - 1 := pc];
    }
  }

  lemma {:induction false} TotalPointwise(k: Kind, a: seq<WorkerPc>, b: seq<WorkerPc>)
    requires |a| == |b|
    requires forall i :: 0 <= i < |a| ==> Weight(k, a[i]) == Weight(k, b[i])
    ensures Total(k, a) == Total(k, b)
  {
    if a != [] {
      TotalPointwise(k, a[1..], b[1..]);
    }
  }

  lemma {:induction false} TotalZero(k: Kind, ws: seq<WorkerPc>)
    ensures Total(k, ws) == 0 <==> forall i :: 0 <= i < |ws| ==> Weight(k, ws[i]) == 0
  {
    if ws != [] {
      TotalZero(k, ws[1..]);
      assert forall i :: 1 <= i < |ws| ==> ws[i] == ws[1..][i - 1];
    }
  }

  // -------------------------------------------------------------- invariant

  ghost predicate WorkerHolds(pc: WorkerPc) {
    pc.EmptyTest? || pc.AboutToWait? || pc.StopTest? || pc.ReleaseStopped? || pc.TakeSocket?
    || pc.SignalSpace? || pc.Release? || pc.Decrement? || pc.SignalExit? || pc.ReleaseExit?
  }

  ghost predicate MasterHolds(pc: MasterPc) {
    pc.FullTest? || pc.AboutToWaitSpace? || pc.PutSocket? || pc.SignalSocket? || pc.ReleaseProduce?
    || pc.JoinTest? || pc.AboutToWaitExit? || pc.ReleaseJoin?
  }

  ghost predicate WorkerLeaving(pc: WorkerPc) {
    pc.ReleaseStopped? || pc.AcquireExit? || pc.Decrement? || pc.SignalExit? || pc.ReleaseExit?
    || pc == WorkerPc.Done
  }

  ghost predicate MasterLeaving(pc: MasterPc) {
    pc.CloseListeners? || pc.Broadcast? || pc.AcquireJoin? || pc.JoinTest? || pc.AboutToWaitExit?
    || pc.WaitingExit? || pc.ReacquireExit? || MasterJoined(pc)
  }

  ghost predicate MasterJoined(pc: MasterPc) {
    pc.ReleaseJoin? || pc.DestroyLocks? || pc.Finish? || pc.MasterDone?
  }

  // The socket the master has accepted but not yet queued.
  ghost function InHand(pc: MasterPc): seq<Socket> {
    if pc.AcquireProduce? || pc.FullTest? || pc.AboutToWaitSpace? || pc.WaitingSpace?
       || pc.ReacquireSpace? || pc.PutSocket?
    then [pc.conn] else []
  }

  // Program counters and mutex owner agree.
  ghost predicate MutexInv(s: State) {
    && (MasterHolds(s.master) <==> s.owner.ByMaster?)
    && (forall i :: 0 <= i < |s.workers| ==> (WorkerHolds(s.workers[i]) <==> s.owner == ByWorker(i)))
    && (s.owner.ByWorker? ==> s.owner.index < |s.workers|)
  }

  // First in, first out; and what a mutex holder has seen of the ring still holds.
  ghost predicate QueueInv(s: State) {
    FifoInv(s) && SeenInv(s)
  }

  ghost predicate FifoInv(s: State) {
    && s.ring.Valid()
    && s.arrived == s.delivered + s.ring.Contents() + InHand(s.master)
  }

  ghost predicate SeenInv(s: State) {
    && (s.master.PutSocket? ==> !s.ring.Full())
    && (s.master.AboutToWaitSpace? ==> s.ring.Full())
    && (forall i :: 0 <= i < |s.workers| ==>
          && (s.workers[i].AboutToWait? ==> s.ring.Empty())
          && (s.workers[i].TakeSocket? ==> !s.ring.Empty())
          && (s.workers[i].StopTest? && s.stopFlag == 0 ==> !s.ring.Empty()))
  }

  // Nobody sleeps through a socket or through a free slot.
  ghost predicate WakeInv(s: State) {
    WorkersWakeInv(s) && MasterWakeInv(s)
  }

  // While a worker sleeps, every queued socket has a worker on its way to it.
  ghost predicate WorkersWakeInv(s: State) {
    && (s.stopFlag == 0 && SomeWaiting(s.workers)
        ==> s.ring.head - s.ring.tail
            <= Total(Taker, s.workers) + (if s.master.SignalSocket? then 1 else 0))
  }

  // While the master sleeps for space, there is none, or its signal is due.
  ghost predicate MasterWakeInv(s: State) {
    && (s.master.WaitingSpace?
        ==> s.ring.Full() || SomeSignalling(s.workers))
  }

  // The order in which the three roles may leave.
  ghost predicate ShutdownInv(s: State) {
    CountInv(s) && FlagInv(s) && OrderInv(s)
  }

  // num_threads counts the workers that have started and not yet decremented it.
  ghost predicate CountInv(s: State) {
    s.numThreads + (if s.control.Counting? then 1 else 0) == Total(Alive, s.workers)
  }

  ghost predicate FlagInv(s: State) {
    && s.stopFlag in {0, 1, 2}
    && (s.stopFlag == 0 <==> s.control.Creating? || s.control.Counting? || s.control.Started?)
    && (s.stopFlag == 2 <==> s.master.MasterDone?)
    && (s.control.Freeing? || s.control.Freed? ==> s.stopFlag == 2)
  }

  ghost predicate OrderInv(s: State) {
    && (s.control.Creating? || s.control.Counting? ==>
          forall i :: s.control.next < i < |s.workers| ==> s.workers[i].NotStarted?)
    && (s.control.Counting? ==> s.control.next < |s.workers| && !s.workers[s.control.next].NotStarted?)
    && (s.control.Creating? && s.control.next < |s.workers| ==> s.workers[s.control.next].NotStarted?)
    && (s.stopFlag == 0 ==> !MasterLeaving(s.master))
    && (s.stopFlag == 0 ==> forall i :: 0 <= i < |s.workers| ==> !WorkerLeaving(s.workers[i]))
    && (MasterJoined(s.master) ==>
          forall i :: 0 <= i < |s.workers| ==> s.workers[i].NotStarted? || s.workers[i] == WorkerPc.Done)
  }

  ghost predicate Inv(s: State) {
    MutexInv(s) && QueueInv(s) && WakeInv(s) && ShutdownInv(s)
  }

  lemma InitInv(n: nat)
    ensures Inv(Init(n))
  {
    TotalZero(Alive, Init(n).workers);
    TotalZero(Taker, Init(n).workers);
  }

  // One step of a worker, one part of the invariant at a time.

  lemma WorkerKeepsMutex(s: State, i: nat)
    requires s.ring.Valid() && MutexInv(s) && i < |s.workers| && WorkerNext(s, i).Some?
    ensures MutexInv(WorkerNext(s, i).value)
  {
  }

  // What a worker's step does to the sockets.
  lemma WorkerStepSockets(s: State, i: nat)
    requires s.ring.Valid() && i < |s.workers| && WorkerNext(s, i).Some?
    ensures var t := WorkerNext(s, i).value;
      && t.arrived == s.arrived && InHand(t.master) == InHand(s.master)
      && if s.workers[i].TakeSocket?
         then !s.ring.Empty() && t.ring == s.ring.Take() && t.delivered == s.delivered + [s.ring.Oldest()]
         else t.ring == s.ring && t.delivered == s.delivered
  {
  }

  lemma WorkerKeepsFifo(s: State, i: nat)
    requires FifoInv(s) && i < |s.workers| && WorkerNext(s, i).Some?
    ensures FifoInv(WorkerNext(s, i).value)
  {
    hide WorkerNext, InHand;
    WorkerStepSockets(s, i);
    if s.workers[i].TakeSocket? {
      TakeRemovesOldest(s.ring);
    }
  }

  lemma WorkerKeepsSeen(s: State, i: nat)
    requires s.ring.Valid() && MutexInv(s) && SeenInv(s) && i < |s.workers| && WorkerNext(s, i).Some?
    ensures SeenInv(WorkerNext(s, i).value)
  {
  }

  // What a worker's step changes, as the counting arguments see it.
  lemma WorkerStepEffect(s: State, i: nat)
    requires s.ring.Valid() && i < |s.workers| && WorkerNext(s, i).Some?
    ensures var t := WorkerNext(s, i).value;
      && t.workers == s.workers[i := t.workers[i]]
      && t.control == s.control && t.stopFlag == s.stopFlag
      && t.numThreads - s.numThreads == Weight(Alive, t.workers[i]) - Weight(Alive, s.workers[i])
      && (t.master == s.master || (!s.master.SignalSocket? && !t.master.SignalSocket? && !t.master.WaitingSpace?))
      && (s.workers[i].SignalSpace? ==> !t.master.WaitingSpace?)
      && (s.workers[i].TakeSocket? || t.ring == s.ring)
  {
  }

  // What a worker's step leaves in order, as the shutdown arguments see it.
  lemma WorkerStepOrder(s: State, i: nat)
    requires s.ring.Valid() && i < |s.workers| && WorkerNext(s, i).Some?
    ensures var t := WorkerNext(s, i).value;
      && !s.workers[i].NotStarted? && s.workers[i] != WorkerPc.Done && !t.workers[i].NotStarted?
      && (s.stopFlag == 0 && !WorkerLeaving(s.workers[i]) ==> !WorkerLeaving(t.workers[i]))
      && (t.master.MasterDone? <==> s.master.MasterDone?)
      && (MasterJoined(t.master) ==> MasterJoined(s.master))
      && (MasterLeaving(t.master) ==> MasterLeaving(s.master))
  {
  }

  lemma WorkerKeepsCount(s: State, t: State, i: nat)
    requires CountInv(s) && i < |s.workers|
    requires |t.workers| == |s.workers| && t.workers == s.workers[i := t.workers[i]] && t.control == s.control
    requires t.numThreads - s.numThreads == Weight(Alive, t.workers[i]) - Weight(Alive, s.workers[i])
    ensures CountInv(t)
  {
    TotalUpdate(Alive, s.workers, i, t.workers[i]);
  }

  // A step that takes no socket: it may not lose a taker unless the ring is empty.
  lemma WorkerKeepsWake(s: State, t: State, i: nat)
    requires WakeInv(s) && i < |s.workers|
    requires |t.workers| == |s.workers| && t.workers == s.workers[i := t.workers[i]]
    requires t.ring == s.ring && t.stopFlag == s.stopFlag
    requires t.master == s.master || (!s.master.SignalSocket? && !t.master.SignalSocket? && !t.master.WaitingSpace?)
    requires s.workers[i].SignalSpace? ==> !t.master.WaitingSpace?
    requires t.workers[i].Waiting? ==> s.workers[i].Waiting? || s.ring.head == s.ring.tail
    requires s.stopFlag == 0 && s.ring.head != s.ring.tail ==>
      Weight(Taker, s.workers[i]) <= Weight(Taker, t.workers[i])
    requires s.ring.tail <= s.ring.head
    ensures WakeInv(t)
  {
    TotalUpdate(Taker, s.workers, i, t.workers[i]);
    if SomeWaiting(t.workers) && s.ring.head != s.ring.tail {
      var j :| 0 <= j < |t.workers| && t.workers[j].Waiting?;
      assert s.workers[j].Waiting?;
    }
    if t.master.WaitingSpace? && SomeSignalling(s.workers) {
      var j :| 0 <= j < |s.workers| && s.workers[j].SignalSpace?;
      assert t.workers[j].SignalSpace?;
    }
  }

  lemma TakerStaysTaker(s: State, i: nat)
    requires QueueInv(s) && FlagInv(s) && i < |s.workers| && WorkerNext(s, i).Some?
    requires !s.workers[i].TakeSocket?
    ensures var t := WorkerNext(s, i).value;
      && (t.workers[i].Waiting? ==> s.ring.head == s.ring.tail)
      && (s.stopFlag == 0 && s.ring.head != s.ring.tail ==> Weight(Taker, s.workers[i]) <= Weight(Taker, t.workers[i]))
  {
  }

  lemma TakingKeepsWake(s: State, i: nat)
    requires s.ring.Valid() && WakeInv(s) && i < |s.workers|
    requires s.workers[i].TakeSocket? && !s.ring.Empty()
    ensures WakeInv(WorkerNext(s, i).value)
  {
    var t := WorkerNext(s, i).value;
    TotalUpdate(Taker, s.workers, i, t.workers[i]);
    TakeRemovesOldest(s.ring);
    assert |[s.ring.Oldest()] + t.ring.Contents()| == |s.ring.Contents()|;
    assert t.workers[i].SignalSpace?;
    if SomeWaiting(t.workers) {
      var j :| 0 <= j < |t.workers| && t.workers[j].Waiting?;
      assert s.workers[j].Waiting?;
    }
  }

  lemma WorkerKeepsFlags(s: State, t: State, i: nat)
    requires FlagInv(s)
    requires t.control == s.control && t.stopFlag == s.stopFlag
    requires t.master.MasterDone? <==> s.master.MasterDone?
    ensures FlagInv(t)
  {
  }

  lemma WorkerKeepsOrder(s: State, t: State, i: nat)
    requires OrderInv(s) && i < |s.workers|
    requires |t.workers| == |s.workers| && t.workers == s.workers[i := t.workers[i]]
    requires t.control == s.control && t.stopFlag == s.stopFlag
    requires !s.workers[i].NotStarted? && s.workers[i] != WorkerPc.Done && !t.workers[i].NotStarted?
    requires s.stopFlag == 0 && !WorkerLeaving(s.workers[i]) ==> !WorkerLeaving(t.workers[i])
    requires MasterLeaving(t.master) ==> MasterLeaving(s.master)
    requires MasterJoined(t.master) ==> MasterJoined(s.master)
    ensures OrderInv(t)
  {
  }

  lemma WorkerStepKeepsInv(s: State, i: nat)
    requires Inv(s) && i < |s.workers| && WorkerNext(s, i).Some?
    ensures Inv(WorkerNext(s, i).value)
  {
    var t := WorkerNext(s, i).value;
    WorkerKeepsMutex(s, i);
    WorkerKeepsFifo(s, i);
    WorkerKeepsSeen(s, i);
    WorkerStepEffect(s, i);
    WorkerStepOrder(s, i);
    WorkerKeepsFlags(s, t, i);
    WorkerKeepsOrder(s, t, i);
    WorkerKeepsCount(s, t, i);
    if s.workers[i].TakeSocket? {
      TakingKeepsWake(s, i);
    } else {
      TakerStaysTaker(s, i);
      WorkerKeepsWake(s, t, i);
    }
  }

  // One step of the master.

  lemma MasterKeepsMutex(s: State, pick: nat, incoming: Option<Socket>)
    requires s.ring.Valid() && MutexInv(s) && MasterNext(s, pick, incoming).Some?
    ensures MutexInv(MasterNext(s, pick, incoming).value)
  {
  }

  lemma MasterKeepsFifo(s: State, pick: nat, incoming: Option<Socket>)
    requires FifoInv(s) && MasterNext(s, pick, incoming).Some?
    ensures FifoInv(MasterNext(s, pick, incoming).value)
  {
    if s.master.PutSocket? {
      PutAppends(s.ring, s.master.conn);
    }
  }

  lemma MasterKeepsSeen(s: State, pick: nat, incoming: Option<Socket>)
    requires s.ring.Valid() && MutexInv(s) && SeenInv(s) && FlagInv(s) && MasterNext(s, pick, incoming).Some?
    ensures SeenInv(MasterNext(s, pick, incoming).value)
  {
  }

  lemma MasterKeepsWake(s: State, pick: nat, incoming: Option<Socket>)
    requires MutexInv(s) && QueueInv(s) && WakeInv(s) && ShutdownInv(s)
    requires MasterNext(s, pick, incoming).Some?
    requires MasterNext(s, pick, incoming).value.ring.Valid()
    ensures WakeInv(MasterNext(s, pick, incoming).value)
  {
    if s.master.SignalSocket? && pick < |s.workers| && s.workers[pick].Waiting? {
      TotalUpdate(Taker, s.workers, pick, Reacquire);
    }
  }

  lemma MasterKeepsCount(s: State, pick: nat, incoming: Option<Socket>)
    requires s.ring.Valid() && CountInv(s) && MasterNext(s, pick, incoming).Some?
    ensures CountInv(MasterNext(s, pick, incoming).value)
  {
    if s.master.SignalSocket? && pick < |s.workers| && s.workers[pick].Waiting? {
      TotalUpdate(Alive, s.workers, pick, Reacquire);
    } else if s.master.Broadcast? {
      TotalPointwise(Alive, s.workers, WakeAll(s.workers));
    }
  }

  lemma MasterKeepsFlags(s: State, pick: nat, incoming: Option<Socket>)
    requires s.ring.Valid() && FlagInv(s) && OrderInv(s) && MasterNext(s, pick, incoming).Some?
    ensures FlagInv(MasterNext(s, pick, incoming).value)
  {
  }

  lemma MasterKeepsOrder(s: State, pick: nat, incoming: Option<Socket>)
    requires s.ring.Valid() && FlagInv(s) && OrderInv(s) && MasterNext(s, pick, incoming).Some?
    requires !s.master.JoinTest?
    ensures OrderInv(MasterNext(s, pick, incoming).value)
  {
  }

  // The master leaves its join loop only when every started worker is done.
  lemma JoinSeesAllDone(s: State)
    requires MutexInv(s) && CountInv(s) && FlagInv(s) && OrderInv(s) && s.master.JoinTest? && s.numThreads <= 0
    ensures OrderInv(s.(master := ReleaseJoin))
  {
    TotalZero(Alive, s.workers);
  }

  lemma MasterStepKeepsInv(s: State, pick: nat, incoming: Option<Socket>)
    requires Inv(s) && MasterNext(s, pick, incoming).Some?
    ensures Inv(MasterNext(s, pick, incoming).value)
  {
    MasterKeepsMutex(s, pick, incoming);
    MasterKeepsFifo(s, pick, incoming);
    MasterKeepsSeen(s, pick, incoming);
    MasterKeepsWake(s, pick, incoming);
    MasterKeepsCount(s, pick, incoming);
    MasterKeepsFlags(s, pick, incoming);
    if s.master.JoinTest? {
      if s.numThreads <= 0 {
        JoinSeesAllDone(s);
      }
    } else {
      MasterKeepsOrder(s, pick, incoming);
    }
  }

  // One step of the thread that calls mg_start and mg_stop.

  lemma CreatingKeepsInv(s: State)
    requires Inv(s) && s.control.Creating? && s.control.next < |s.workers|
    ensures Inv(ControlNext(s, true).value)
  {
    TotalUpdate(Alive, s.workers, s.control.next, LoopTest);
    TotalUpdate(Taker, s.workers, s.control.next, LoopTest);
  }

  lemma ControlStepKeepsInv(s: State, created: bool)
    requires Inv(s) && ControlNext(s, created).Some?
    ensures Inv(ControlNext(s, created).value)
  {
    if s.control.Creating? && s.control.next < |s.workers| && created {
      CreatingKeepsInv(s);
    }
  }

  lemma SpuriousKeepsInv(s: State, i: nat)
    requires Inv(s) && i < |s.workers| && s.workers[i].Waiting?
    ensures Inv(Move(s, i, Reacquire))
  {
    TotalUpdate(Alive, s.workers, i, Reacquire);
    TotalUpdate(Taker, s.workers, i, Reacquire);
  }

  lemma StepKeepsInv(s: State, a: Action)
    requires Inv(s) && Next(s, a).Some?
    ensures Inv(Next(s, a).value)
  {
    match a {
      case WorkerStep(i) =>
        WorkerStepKeepsInv(s, i);
      case WorkerSpurious(i) =>
        SpuriousKeepsInv(s, i);
      case MasterStep(pick, incoming) =>
        MasterStepKeepsInv(s, pick, incoming);
      case MasterSpurious =>
      case ControlStep(created) =>
        ControlStepKeepsInv(s, created);
    }
  }

  lemma {:induction false} RunKeepsInv(s: State, actions: seq<Action>, t: State)
    requires Inv(s) && Reaches(s, actions, t)
    ensures Inv(t)
    decreases |actions|
  {
    if actions != [] {
      StepKeepsInv(s, actions[0]);
      RunKeepsInv(Next(s, actions[0]).value, actions[1..], t);
    }
  }

  // ---------------------------------------------------------------- results

  /** First in, first out: in every interleaving, what accept() returned is what the
      workers took, then the ring, then the socket in the master's hand. */
  lemma SocketsAreFifo(n: nat, actions: seq<Action>, t: State)
    requires Reaches(Init(n), actions, t)
    ensures t.ring.Valid()
    ensures t.arrived == t.delivered + t.ring.Contents() + InHand(t.master)
    ensures t.delivered <= t.arrived
  {
    InitInv(n);
    RunKeepsInv(Init(n), actions, t);
  }

  /** The three assertions of the C code hold whenever a thread is about to check them. */
  lemma AssertionsHold(n: nat, actions: seq<Action>, t: State)
    requires Reaches(Init(n), actions, t)
    ensures forall i :: 0 <= i < |t.workers| && t.workers[i].TakeSocket? ==> t.ring.head > t.ring.tail
    ensures t.master.PutSocket? ==> t.ring.head - t.ring.tail < SLOTS
    ensures forall i :: 0 <= i < |t.workers| && t.workers[i].SignalExit? ==> t.numThreads >= 0
  {
    InitInv(n);
    RunKeepsInv(Init(n), actions, t);
    if t.control.Counting? {
      assert t.stopFlag == 0;
    }
  }

  /** At most one thread is ever between a lock and the matching unlock or wait. */
  lemma MutualExclusion(n: nat, actions: seq<Action>, t: State, i: nat, j: nat)
    requires Reaches(Init(n), actions, t)
    requires i < j < |t.workers|
    ensures !(WorkerHolds(t.workers[i]) && WorkerHolds(t.workers[j]))
    ensures !(WorkerHolds(t.workers[i]) && MasterHolds(t.master))
    ensures !(WorkerHolds(t.workers[j]) && MasterHolds(t.master))
  {
    InitInv(n);
    RunKeepsInv(Init(n), actions, t);
  }

  /** No lost wakeup.  While the server runs and the mutex is free: if a worker sleeps,
      every queued socket has a woken worker that has yet to reacquire the mutex; if
      the master sleeps, the ring is full. */
  lemma NoLostWakeup(n: nat, actions: seq<Action>, t: State)
    requires Reaches(Init(n), actions, t)
    requires t.stopFlag == 0 && t.owner.NoOne?
    ensures t.ring.Valid()
    ensures SomeWaiting(t.workers) ==> |t.ring.Contents()| <= Total(Taker, t.workers)
    ensures forall i :: 0 <= i < |t.workers| ==> (Weight(Taker, t.workers[i]) == 1 <==> t.workers[i].Reacquire?)
    ensures t.master.WaitingSpace? ==> t.ring.Full()
  {
    InitInv(n);
    RunKeepsInv(Init(n), actions, t);
  }

  // Some worker or the master can take a step of its own, without a spurious wakeup.
  ghost predicate CanProgress(s: State)
    requires s.ring.Valid()
  {
    || (exists i :: 0 <= i < |s.workers| && WorkerNext(s, i).Some?)
    || (exists pick: nat :: MasterNext(s, pick, None).Some?)
  }

  /** While the server runs with at least one worker, the pool is never stuck: some
      worker or the master can always go on. */
  lemma PoolNeverStuck(n: nat, actions: seq<Action>, t: State, w: nat)
    requires Reaches(Init(n), actions, t)
    requires t.stopFlag == 0 && w < |t.workers| && !t.workers[w].NotStarted?
    ensures t.ring.Valid() && CanProgress(t)
  {
    InitInv(n);
    RunKeepsInv(Init(n), actions, t);
    if !t.owner.ByWorker? && !MasterNext(t, 0, None).Some? {
      if t.master.SignalSocket? {
        SignalPossible(t);
        var pick: nat :| CanSignal(t, pick);
        assert MasterNext(t, pick, None).Some?;
      } else if t.workers[w].Waiting? {
        TotalZero(Taker, t.workers);
        var i :| 0 <= i < |t.workers| && Weight(Taker, t.workers[i]) != 0;
        assert WorkerNext(t, i).Some?;
      } else {
        assert WorkerNext(t, w).Some?;
      }
    } else if t.owner.ByWorker? {
      assert WorkerNext(t, t.owner.index).Some?;
    }
  }

  lemma SignalPossible(s: State)
    ensures exists pick: nat :: CanSignal(s, pick)
  {
    if SomeWaiting(s.workers) {
      var i :| 0 <= i < |s.workers| && s.workers[i].Waiting?;
      assert CanSignal(s, i);
    } else {
      assert CanSignal(s, 0);
    }
  }

  /** num_threads is the number of live workers once mg_start has returned, and is never negative. */
  lemma ThreadCountIsExact(n: nat, actions: seq<Action>, t: State)
    requires Reaches(Init(n), actions, t)
    ensures t.numThreads >= 0
    ensures !t.control.Counting? ==> t.numThreads == Total(Alive, t.workers)
  {
    InitInv(n);
    RunKeepsInv(Init(n), actions, t);
    if t.control.Counting? {
      TotalZero(Alive, t.workers);
      assert Weight(Alive, t.workers[t.control.next]) == 1;
    }
  }

  /** The master leaves its join loop, destroys the locks and sets stop_flag to 2 only
      when num_threads is 0 and every worker that ever started is done. */
  lemma JoinWaitsForEveryWorker(n: nat, actions: seq<Action>, t: State)
    requires Reaches(Init(n), actions, t)
    requires MasterJoined(t.master) || t.stopFlag == 2
    ensures t.numThreads == 0 && t.stopFlag != 0
    ensures forall i :: 0 <= i < |t.workers| ==> t.workers[i].NotStarted? || t.workers[i] == WorkerPc.Done
  {
    InitInv(n);
    RunKeepsInv(Init(n), actions, t);
    TotalZero(Alive, t.workers);
  }

  lemma FreedMeansStopped(n: nat, actions: seq<Action>, t: State)
    requires Reaches(Init(n), actions, t)
    requires t.control.Freeing? || t.control.Freed?
    ensures t.ring.Valid() && t.stopFlag == 2 && t.master.MasterDone?
  {
    InitInv(n);
    RunKeepsInv(Init(n), actions, t);
  }

  /** The context is freed after its last use: from the moment mg_stop is about to free
      it, neither the master nor any worker has a step left. */
  lemma FreedAfterLastUse(n: nat, actions: seq<Action>, t: State, a: Action)
    requires Reaches(Init(n), actions, t)
    requires t.control.Freeing? || t.control.Freed?
    ensures t.ring.Valid()
    ensures !a.ControlStep? ==> Next(t, a).None?
  {
    FreedMeansStopped(n, actions, t);
    JoinWaitsForEveryWorker(n, actions, t);
  }
}
