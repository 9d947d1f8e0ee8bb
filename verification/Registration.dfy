/**
 Whole runs of DIAL_register_app and DIAL_unregister_app (server/dial_server.c): which
 names are in the list after any sequence of calls, and in which order.
 */
module Registration {
  import opened Wrappers
  import opened CStrings
  import opened DialData
  import opened DialApps
  import opened Registry

  datatype Op = Register(name: string) | Unregister(name: string)

  // A registered name, and the number of the call that registered it.
  datatype Member = Member(name: string, since: nat)

  function Place(list: seq<Member>, name: string): (i: nat)
    ensures i <= |list| && (i < |list| ==> list[i].name == name)
    ensures forall k :: 0 <= k < i ==> list[k].name != name
  {
    if list == [] || list[0].name == name then 0
    else
      assert forall k :: 1 <= k < |list| ==> list[k] == list[1..][k - 1];
      1 + Place(list[1..], name)
  }

  function Step(list: seq<Member>, op: Op, time: nat): seq<Member> {
    var i := Place(list, op.name);
    match op
    case Register(n) => if i < |list| then list else list + [Member(n, time)]
    case Unregister(_) => if i < |list| then Removed(list, i) else list
  }

  // The list after all calls.
  function Run(ops: seq<Op>): seq<Member> {
    if ops == [] then [] else
      var n := |ops| - 1;
      Step(Run(ops[..n]), ops[n], n)
  }

  // Call t registered the name, no later call unregistered it, and no earlier call counts.
  ghost predicate RegisteredBy(ops: seq<Op>, name: string, t: nat) {
    && t < |ops| && ops[t] == Register(name)
    && StaysFrom(ops, name, t)
    && forall v :: 0 <= v < t && ops[v] == Register(name) ==> exists u :: v < u < t && ops[u] == Unregister(name)
  }

  ghost predicate StaysFrom(ops: seq<Op>, name: string, t: nat) {
    forall u :: t < u < |ops| ==> ops[u] != Unregister(name)
  }

  ghost predicate InOrder(list: seq<Member>) {
    forall i, j :: 0 <= i < j < |list| ==> list[i].since < list[j].since && list[i].name != list[j].name
  }

  ghost predicate AllRegistered(ops: seq<Op>, list: seq<Member>) {
    forall i :: 0 <= i < |list| ==> RegisteredBy(ops, list[i].name, list[i].since)
  }

  ghost predicate Complete(ops: seq<Op>, list: seq<Member>) {
    forall name: string, t: nat :: t < |ops| && ops[t] == Register(name) && StaysFrom(ops, name, t) ==>
      Place(list, name) < |list|
  }

  /** After any calls, the list holds exactly the names that were registered and not
      unregistered since, each once, in the order in which they were registered. */
  lemma {:induction false} RegistryRun(ops: seq<Op>)
    ensures InOrder(Run(ops)) && AllRegistered(ops, Run(ops)) && Complete(ops, Run(ops))
  {
    if ops != [] {
      var n := |ops| - 1;
      RegistryRun(ops[..n]);
      RegistryStep(ops[..n], ops[n]);
      assert ops[..n] + [ops[n]] == ops;
    }
  }

  lemma RegistryStep(ops: seq<Op>, op: Op)
    requires InOrder(Run(ops)) && AllRegistered(ops, Run(ops)) && Complete(ops, Run(ops))
    ensures var more := ops + [op]; InOrder(Run(more)) && AllRegistered(more, Run(more)) && Complete(more, Run(more))
  {
    hide Run, Step, RegisteredBy, StaysFrom;
    var more, list := ops + [op], Run(ops);
    assert more[..|more| - 1] == ops;
    RunStep(more);
    StepKeepsOrder(ops, list, op);
    StepKeepsRegistered(ops, list, op);
    StepKeepsComplete(ops, list, op);
  }

  lemma RunStep(ops: seq<Op>)
    requires ops != []
    ensures Run(ops) == Step(Run(ops[..|ops| - 1]), ops[|ops| - 1], |ops| - 1)
  {
  }

  lemma StepKeepsOrder(ops: seq<Op>, list: seq<Member>, op: Op)
    requires InOrder(list) && AllRegistered(ops, list)
    ensures InOrder(Step(list, op, |ops|))
  {
    hide Removed;
    var i, after := Place(list, op.name), Step(list, op, |ops|);
    if op.Unregister? && i < |list| {
      RemovedSize(list, i);
      forall j, k | 0 <= j < k < |after|
        ensures after[j].since < after[k].since && after[j].name != after[k].name
      {
        RemovedAt(list, i, j);
        RemovedAt(list, i, k);
      }
    } else {
      forall j | 0 <= j < |list|
        ensures list[j].since < |ops|
      {
        assert RegisteredBy(ops, list[j].name, list[j].since);
      }
    }
  }

  lemma RegisteredLonger(ops: seq<Op>, op: Op, name: string, t: nat)
    requires RegisteredBy(ops, name, t) && op != Unregister(name)
    ensures RegisteredBy(ops + [op], name, t)
  {
    var more := ops + [op];
    forall v | 0 <= v < t && more[v] == Register(name)
      ensures exists u :: v < u < t && more[u] == Unregister(name)
    {
      assert ops[v] == Register(name);
      var u :| v < u < t && ops[u] == Unregister(name);
      assert more[u] == Unregister(name);
    }
  }

  lemma StepKeepsRegistered(ops: seq<Op>, list: seq<Member>, op: Op)
    requires InOrder(list) && AllRegistered(ops, list) && Complete(ops, list)
    ensures AllRegistered(ops + [op], Step(list, op, |ops|))
  {
    hide Removed, RegisteredBy;
    var i, after := Place(list, op.name), Step(list, op, |ops|);
    RemovedNames(list, i);
    forall k | 0 <= k < |after|
      ensures RegisteredBy(ops + [op], after[k].name, after[k].since)
    {
      if op.Register? && k == |list| {
        NewlyRegistered(ops, list, op.name);
      } else {
        var j := if op.Unregister? && k >= i then k + 1 else k;
        if op.Unregister? && i < |list| {
          RemovedAt(list, i, k);
        }
        assert after[k] == list[j];
        assert RegisteredBy(ops, list[j].name, list[j].since);
        RegisteredLonger(ops, op, list[j].name, list[j].since);
      }
    }
  }

  lemma RemovedNames(list: seq<Member>, i: nat)
    ensures i < |list| ==> |Removed(list, i)| == |list| - 1
  {
  }

  lemma NewlyRegistered(ops: seq<Op>, list: seq<Member>, name: string)
    requires Complete(ops, list) && Place(list, name) == |list|
    ensures RegisteredBy(ops + [Register(name)], name, |ops|)
  {
    var more := ops + [Register(name)];
    forall v | 0 <= v < |ops| && more[v] == Register(name)
      ensures exists u :: v < u < |ops| && more[u] == Unregister(name)
    {
      assert ops[v] == Register(name) && !StaysFrom(ops, name, v);
      var u :| v < u < |ops| && ops[u] == Unregister(name);
      assert more[u] == Unregister(name);
    }
  }

  lemma StepKeepsComplete(ops: seq<Op>, list: seq<Member>, op: Op)
    requires InOrder(list) && Complete(ops, list)
    ensures Complete(ops + [op], Step(list, op, |ops|))
  {
    hide Place;
    var more, after := ops + [op], Step(list, op, |ops|);
    forall name: string, t: nat | t < |more| && more[t] == Register(name) && StaysFrom(more, name, t)
      ensures Place(after, name) < |after|
    {
      if t < |ops| {
        assert more[|ops|] == op;
        assert StaysFrom(ops, name, t) by {
          assert forall u :: t < u < |ops| ==> more[u] == ops[u];
        }
        assert ops[t] == Register(name);
        StepKeepsOthers(list, op, |ops|, name);
      } else {
        StepRegisters(list, name, |ops|);
      }
    }
  }

  lemma StepKeepsOthers(list: seq<Member>, op: Op, time: nat, name: string)
    requires Place(list, name) < |list| && op != Unregister(name)
    ensures Place(Step(list, op, time), name) < |Step(list, op, time)|
  {
    hide Removed;
    var p, i, after := Place(list, name), Place(list, op.name), Step(list, op, time);
    if op.Unregister? && i < |list| {
      RemovedSize(list, i);
      var k := if p < i then p else p - 1;
      RemovedAt(list, i, k);
      assert after[k].name == name;
    } else {
      assert after[p].name == name;
    }
  }

  lemma StepRegisters(list: seq<Member>, name: string, time: nat)
    ensures Place(Step(list, Register(name), time), name) < |Step(list, Register(name), time)|
  {
    var after := Step(list, Register(name), time);
    if Place(list, name) == |list| {
      assert after[|list|].name == name;
    }
  }

  // ------------------------------------------------------------ the list on the heap

  ghost predicate SameNames(list: seq<Member>, model: seq<App>) {
    |list| == |model| && forall i :: 0 <= i < |list| ==> list[i].name == model[i].name
  }

  // What the contracts of Register and Unregister say about the list.
  ghost predicate Called(model: seq<App>, op: Op, after: seq<App>) {
    var i := Index(model, op.name);
    match op
    case Register(n) =>
      if i < |model| then after == model
      else |after| == |model| + 1 && after[..|model|] == model && after[|model|].name == n
    case Unregister(_) => if i < |model| then after == Removed(model, i) else after == model
  }

  /** The list on the heap has the names of `Run`, call by call. */
  lemma HeapFollowsRun(list: seq<Member>, model: seq<App>, op: Op, time: nat, after: seq<App>)
    requires SameNames(list, model) && Called(model, op, after)
    ensures SameNames(Step(list, op, time), after)
  {
    hide Removed;
    var i := Index(model, op.name);
    PlaceIsIndex(list, model, op.name);
    if op.Register? && i == |model| {
      assert forall k :: 0 <= k < |model| ==> after[k] == after[..|model|][k];
    } else if op.Unregister? && i < |model| {
      RemovedSize(list, i);
      RemovedSize(model, i);
      forall k | 0 <= k < |model| - 1
        ensures Removed(list, i)[k].name == Removed(model, i)[k].name
      {
        RemovedAt(list, i, k);
        RemovedAt(model, i, k);
      }
    }
  }

  lemma PlaceIsIndex(list: seq<Member>, model: seq<App>, name: string)
    requires SameNames(list, model)
    ensures Place(list, name) == Index(model, name)
  {
    IndexIs(model, name, Place(list, name));
  }

  // A call with its other arguments; those are used for registering only.
  datatype Call = Call(op: Op, useAdditionalData: bool, corsAllowedOrigin: string)

  function OpsOf(calls: seq<Call>): seq<Op> {
    seq(|calls|, i requires 0 <= i < |calls| => calls[i].op)
  }

  method MakeCall(server: DialServer, call: Call)
    requires server.Valid() && |call.corsAllowedOrigin| < CORS_SIZE && NoNul(call.corsAllowedOrigin)
    modifies server`apps, server`nodes, server`model, server.nodes`next
    ensures server.Valid() && Called(old(server.model), call.op, server.model)
    ensures forall a :: a in server.nodes ==> a in old(server.nodes) || fresh(a)
  {
    hide Retrieved, Index, Separate, Chain;
    match call.op
    case Register(name) =>
      var r, unlocked := server.Register(name, call.useAdditionalData, Some(call.corsAllowedOrigin));
    case Unregister(name) =>
      var r := server.Unregister(name);
  }

  lemma RunMore(calls: seq<Call>, i: nat)
    requires i < |calls|
    ensures Run(OpsOf(calls[..i + 1])) == Step(Run(OpsOf(calls[..i])), calls[i].op, i)
  {
    hide Step;
    var ops := OpsOf(calls[..i + 1]);
    assert ops[..i] == OpsOf(calls[..i]) && ops[i] == calls[i].op;
    RunStep(ops);
  }

  /** Any sequence of calls on a server without applications: the heap list stays linked and
      acyclic, and its names are those of `Run`, in the same order. */
  method MakeCalls(server: DialServer, calls: seq<Call>)
    requires server.Valid() && server.model == []
    requires forall i :: 0 <= i < |calls| ==>
      |calls[i].corsAllowedOrigin| < CORS_SIZE && NoNul(calls[i].corsAllowedOrigin)
    modifies server
    ensures server.Valid() && SameNames(Run(OpsOf(calls)), server.model)
  {
    hide Run, Step, SameNames, Called;
    var i := 0;
    assert OpsOf(calls[..0]) == [];
    NoCalls();
    while i < |calls|
      invariant i <= |calls| && server.Valid() && fresh(set a | a in server.nodes)
      invariant SameNames(Run(OpsOf(calls[..i])), server.model)
    {
      ghost var before := server.model;
      MakeCall(server, calls[i]);
      RunMore(calls, i);
      HeapFollowsRun(Run(OpsOf(calls[..i])), before, calls[i].op, i, server.model);
      i := i + 1;
    }
    assert calls[..i] == calls;
  }

  lemma NoCalls()
    ensures SameNames(Run([]), [])
  {
  }
}
