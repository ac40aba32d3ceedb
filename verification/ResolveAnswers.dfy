/** What a finished call answers, and why every call comes to its end. */
module ResolveAnswers {
  import opened Options
  import opened Sums
  import opened ResolveTask
  import opened ResolveOrder
  import opened ResolveCall

  // ----- the answer of a batch

  /** The results of the tasks that delivered, in the order of scheduling. */
  function DeliveredResults(tasks: seq<Task>): seq<Result> {
    if tasks == [] then []
    else (if Delivered(tasks[0]) == 1 then [Merged(tasks[0])] else []) + DeliveredResults(tasks[1..])
  }

  lemma {:induction false} DeliveredBag(tasks: seq<Task>)
    ensures multiset(DeliveredResults(tasks)) == Bag(ResultBag, tasks)
    decreases |tasks|
  {
    if tasks != [] {
      DeliveredBag(tasks[1..]);
      var first := if Delivered(tasks[0]) == 1 then [Merged(tasks[0])] else [];
      assert multiset(first) == ResultBag(tasks[0]);
      assert multiset(first + DeliveredResults(tasks[1..])) == multiset(first) + multiset(DeliveredResults(tasks[1..]));
    }
  }

  lemma DeliveredFirst(tasks: seq<Task>)
    requires tasks != []
    ensures Delivered(tasks[0]) == 1 ==>
      Addresses(DeliveredResults(tasks)) == [tasks[0].ip] + Addresses(DeliveredResults(tasks[1..]))
    ensures Delivered(tasks[0]) == 0 ==> DeliveredResults(tasks) == DeliveredResults(tasks[1..])
  {
    var rest := DeliveredResults(tasks[1..]);
    if Delivered(tasks[0]) == 1 {
      FirstAddress(Merged(tasks[0]), rest);
    } else {
      assert [] + rest == rest;
    }
  }

  lemma FirstAddress(r: Result, rest: seq<Result>)
    ensures Addresses([r] + rest) == [r.ip] + Addresses(rest)
  {
  }

  lemma {:induction false} DeliveredAddresses(tasks: seq<Task>, ips: seq<IP>)
    requires |tasks| == |ips| && forall i :: 0 <= i < |tasks| ==> tasks[i].ip == ips[i]
    ensures multiset(Addresses(DeliveredResults(tasks))) <= multiset(ips)
    decreases |tasks|
  {
    if tasks != [] {
      assert forall i :: 0 <= i < |tasks| - 1 ==> tasks[1..][i] == tasks[i + 1] && ips[1..][i] == ips[i + 1];
      DeliveredAddresses(tasks[1..], ips[1..]);
      DeliveredFirst(tasks);
      assert ips == [ips[0]] + ips[1..];
    }
  }

  lemma {:induction false} AllDeliveredAddresses(tasks: seq<Task>, ips: seq<IP>)
    requires |tasks| == |ips| && forall i :: 0 <= i < |tasks| ==> tasks[i].ip == ips[i]
    requires forall i :: 0 <= i < |tasks| ==> Delivered(tasks[i]) == 1
    ensures Addresses(DeliveredResults(tasks)) == ips
    decreases |tasks|
  {
    if tasks != [] {
      assert forall i :: 0 <= i < |tasks| - 1 ==> tasks[1..][i] == tasks[i + 1] && ips[1..][i] == ips[i + 1];
      AllDeliveredAddresses(tasks[1..], ips[1..]);
      DeliveredFirst(tasks);
    }
  }

  /** A bag of results seen as the addresses it answers. */
  lemma AnsweredAddresses(c: Call)
    requires CallInv(c) && c.channel == []
    ensures multiset(Addresses(c.rv)) <= multiset(c.ips[..|c.tasks|])
    ensures (forall i :: 0 <= i < |c.tasks| ==> Delivered(c.tasks[i]) == 1) ==>
      multiset(Addresses(c.rv)) == multiset(c.ips[..|c.tasks|])
  {
    var ips := c.ips[..|c.tasks|];
    forall i | 0 <= i < |c.tasks| ensures c.tasks[i].ip == ips[i] {
      assert TaskOk(c, i);
    }
    DeliveredBag(c.tasks);
    DeliveredAddresses(c.tasks, ips);
    if forall i :: 0 <= i < |c.tasks| ==> Delivered(c.tasks[i]) == 1 {
      AllDeliveredAddresses(c.tasks, ips);
    }
    var d := DeliveredResults(c.tasks);
    assert multiset(c.channel) + multiset(c.rv) == multiset(c.rv);
    AddressesBag(c.rv, d);
  }

  /** Every result in a batch's answer comes from one of its tasks. */
  lemma ResultHasTask(c: Call, r: Result) returns (i: nat)
    requires CallInv(c) && c.channel == [] && r in c.rv
    ensures i < |c.tasks| && Delivered(c.tasks[i]) == 1 && r == Merged(c.tasks[i])
  {
    assert r in multiset(c.rv);
    assert multiset(c.channel) + multiset(c.rv) == multiset(c.rv);
    BagMember(ResultBag, c.tasks, r);
    i :| 0 <= i < |c.tasks| && r in ResultBag(c.tasks[i]);
  }

  ghost predicate BatchReturned(c: Call, out: seq<Result>) {
    CallInv(c) && c.kind.Batch? && (c.stage == Returned(Answered(out)) || c.stage == Returning(Answered(out)))
  }

  /** A result of the task: its address, and one detail per provider with what that provider returned for it. */
  ghost predicate FullAnswer(r: Result, t: Task, providers: seq<nat>) {
    r.ip == t.ip && exists details :: Truthful(details, providers, t.replies) && multiset(r.details) == multiset(details)
  }

  /**
   With no cancellation and no scheduling error, ResolveAll answers every address, with one detail per
   provider it was asked to use, saying what that provider returned; the answers stand in input order exactly when equal addresses are
   adjacent in the input (so always when they are distinct).
   */
  lemma CompleteAnswer(c: Call, out: seq<Result>)
    requires BatchReturned(c, out) && !c.ctxDone && !c.outerDone
    ensures |out| == |c.ips|
    ensures multiset(Addresses(out)) == multiset(c.ips)
    ensures forall r :: r in out ==> multiset(Named(r.details)) == multiset(c.providers)
    ensures forall r :: r in out ==> exists i :: 0 <= i < |c.tasks| && FullAnswer(r, c.tasks[i], c.providers)
    ensures Addresses(out) == c.ips <==> Contiguous(c.ips)
    ensures Distinct(c.ips) ==> Addresses(out) == c.ips
  {
    Quiescent(c);
    assert c.ips[..|c.tasks|] == c.ips;
    forall i | 0 <= i < |c.tasks| ensures Delivered(c.tasks[i]) == 1 {
      assert TaskOk(c, i);
    }
    AnsweredAddresses(c);
    AddressesBag(c.rv, out);
    assert |out| == |multiset(Addresses(out))| == |multiset(c.ips)|;
    PositionalIffContiguous(c.ips, c.rv, out);
    forall r | r in out
      ensures multiset(Named(r.details)) == multiset(c.providers)
      ensures exists i :: 0 <= i < |c.tasks| && FullAnswer(r, c.tasks[i], c.providers)
    {
      assert r in multiset(out) && r in multiset(c.rv);
      var i := ResultIsFull(c, r);
    }
    if Distinct(c.ips) {
      assert Contiguous(c.ips);
    }
  }

  lemma ResultIsFull(c: Call, r: Result) returns (i: nat)
    requires CallInv(c) && c.channel == [] && !c.ctxDone && r in c.rv
    ensures i < |c.tasks| && FullAnswer(r, c.tasks[i], c.providers)
    ensures multiset(Named(r.details)) == multiset(c.providers)
  {
    i := ResultHasTask(c, r);
    assert TaskOk(c, i);
    var details := OneDetailPerProvider(c.tasks[i]);
  }

  /** Cancelled or not, every detail of every answer says what a provider returned for that address. */
  lemma AnswersAreTrue(c: Call, r: Result, d: Detail) returns (i: nat, k: nat)
    requires CallInv(c) && c.channel == [] && r in c.rv && d in r.details
    ensures i < |c.tasks| && r.ip == c.tasks[i].ip && k < |c.providers| && k < |c.tasks[i].replies|
    ensures Tells(d, c.providers[k], c.tasks[i].replies[k])
  {
    i := ResultHasTask(c, r);
    assert TaskOk(c, i);
    k := DetailsAreTrue(c.tasks[i], c.ctxDone, d);
  }

  /** Cancelled or not, the answers for distinct addresses are a subsequence, in input order, of the scheduled ones. */
  lemma PartialAnswer(c: Call, out: seq<Result>) returns (pos: seq<nat>)
    requires BatchReturned(c, out) && Distinct(c.ips)
    ensures Picks(Addresses(out), c.ips[..|c.tasks|], pos)
  {
    AnsweredAddresses(c);
    assert SortOf(IndexOf(c.ips[..|c.tasks|]), c.rv, out);
    pos := PartialInOrder(c.ips[..|c.tasks|], c.rv, out);
  }

  /** A single call that was not cancelled answers its address with one true detail per provider. */
  lemma SingleAnswer(c: Call, out: seq<Result>)
    requires CallInv(c) && c.kind.Single? && !c.ctxDone && !c.outerDone
    requires c.stage == Returned(Answered(out)) || c.stage == Returning(Answered(out))
    ensures |out| == 1 && out[0].ip == c.ips[0]
    ensures multiset(Named(out[0].details)) == multiset(c.providers)
    ensures |c.tasks| == 1 && FullAnswer(out[0], c.tasks[0], c.providers)
  {
    Quiescent(c);
    assert out[0] in c.rv;
    var i := ResultIsFull(c, out[0]);
    assert TaskOk(c, i);
  }

  /** A single call whose task could not be scheduled answers its address and nothing else. */
  lemma UnscheduledAnswer(c: Call, out: seq<Result>)
    requires CallInv(c) && c.kind.Single? && c.tasks == []
    requires c.stage == Returned(Answered(out)) || c.stage == Returning(Answered(out))
    ensures out == [Result(c.ips[0], [])]
    ensures c.ctxDone || c.outerDone
  {
  }

  // ----- progress

  /** Choices of the environment: progress must not count on them. */
  predicate FromOutside(a: CallAction) {
    a.CancelOuter? || a.CancelInner? || a.Refuse?
  }

  /** A `Resolve` that waits for a result its task has thrown away. */
  predicate Hung(c: Call) {
    c.kind.Single? && c.stage.AwaitResult? && |c.tasks| == 1 && c.tasks[0].stage.Freed?
  }

  /** A task that still has its worker can always move. */
  lemma TaskMoves(c: Call, i: nat) returns (a: CallAction)
    requires CallInv(c) && i < |c.tasks| && !c.tasks[i].stage.Freed?
    ensures !FromOutside(a) && !a.Begin? && !a.Accept? && CallStep(c, a).Some?
  {
    var t := c.tasks[i];
    assert TaskOk(c, i);
    match t.stage {
      case Spawning => var ta := TaskProgress(t, c.ctxDone); a := InTask(i, ta);
      case Draining => var ta := TaskProgress(t, c.ctxDone); a := InTask(i, ta);
      case Merging =>
        ClosedMeansDone(c, i);
        a := Deliver(i);
        if c.kind.Batch? {
          RoomToDeliver(c, i);
        } else {
          SumCount(Delivered, c.tasks);
        }
      case Departing(_) => a := TaskDone(i);
      case Done(_) => a := Free(i);
    }
  }

  lemma CollectingMoves(c: Call) returns (a: CallAction)
    requires CallInv(c) && c.stage.Collecting?
    ensures !FromOutside(a) && !a.Begin? && !a.Accept? && CallStep(c, a).Some?
  {
    if c.channel != [] {
      a := Take;
    } else if c.closed {
      var order := SortExists(c.index, c.rv);
      a := EndCollect(order);
    } else if c.wg == 0 {
      a := CloseResults;
    } else {
      var i := SumWitness(Running, c.tasks);
      a := TaskMoves(c, i);
    }
  }

  lemma AwaitGroupMoves(c: Call) returns (a: CallAction)
    requires CallInv(c) && c.stage.AwaitGroup?
    ensures !FromOutside(a) && !a.Begin? && !a.Accept? && CallStep(c, a).Some?
  {
    if c.wg == 0 {
      a := GroupDone;
    } else {
      var i := SumWitness(Running, c.tasks);
      a := TaskMoves(c, i);
    }
  }

  /** Past the scheduling loop, a call that is not over and not hung can move. */
  lemma CallMoves(c: Call) returns (a: CallAction)
    requires CallInv(c) && !Hung(c)
    requires c.stage.Collecting? || c.stage.AwaitResult? || c.stage.AwaitGroup?
    ensures !FromOutside(a) && !a.Begin? && !a.Accept? && CallStep(c, a).Some?
  {
    match c.stage {
      case Collecting => a := CollectingMoves(c);
      case AwaitResult => a := TaskMoves(c, 0);
      case AwaitGroup => a := AwaitGroupMoves(c);
    }
  }

  /** A hung call was cancelled by its caller, and no step of it ends the wait. */
  lemma HungStep(c: Call, a: CallAction)
    requires CallInv(c) && Hung(c) && CallStep(c, a).Some?
    ensures c.outerDone
    ensures Hung(CallStep(c, a).value)
  {
    HungWasCancelled(c);
    assert TaskOk(c, 0);
    SumAtLeast(Delivered, c.tasks, 0);
    if a.InTask? {
      TaskStepLocal(c.tasks[0], a.a, c.ctxDone);
    }
  }

  /** A result is only dropped once the context of the group is done, and for a single call that one follows the caller's. */
  lemma HungWasCancelled(c: Call)
    requires CallInv(c) && Hung(c)
    ensures c.outerDone
  {
    assert TaskOk(c, 0);
    SumAtLeast(Delivered, c.tasks, 0);
  }

  /** The next step of a cancelled single call on its way to drop the result it waits for. */
  lemma DropStep(c: Call) returns (a: CallAction)
    requires CallInv(c) && c.kind.Single? && c.stage.AwaitResult? && c.outerDone && !Hung(c)
    ensures a.InTask? || a.Abandon? || a.TaskDone? || a.Free? || a.CancelInner?
    ensures CallStep(c, a).Some?
    ensures CallStep(c, a).value.stage.AwaitResult? && CallStep(c, a).value.kind.Single? && CallStep(c, a).value.outerDone
  {
    assert TaskOk(c, 0);
    SumAtLeast(Delivered, c.tasks, 0);
    if !c.ctxDone {
      a := CancelInner;
    } else {
      match c.tasks[0].stage {
        case Spawning => var ta := TaskProgress(c.tasks[0], c.ctxDone); a := InTask(0, ta);
        case Draining => var ta := TaskProgress(c.tasks[0], c.ctxDone); a := InTask(0, ta);
        case Merging => a := Abandon(0);
        case Departing(_) => ClosedMeansDone(c, 0); a := TaskDone(0);
        case Done(_) => a := Free(0);
      }
    }
  }

  // ----- a bound on the steps of a call

  /** Steps paid for in advance for each address not yet scheduled. */
  function PerAddress(providers: seq<nat>): nat {
    5 * |providers| + 10
  }

  function CallerWork(stage: CallerStage): nat {
    match stage
    case Idle => 14
    case Entered => 13
    case Scheduling => 10
    case Invoking => 9
    case Collecting => 5
    case AwaitResult => 5
    case AwaitGroup => 4
    case Returning(_) => 1
    case Returned(_) => 0
  }

  function Unscheduled(c: Call): nat {
    if |c.tasks| <= |c.ips| then (|c.ips| - |c.tasks|) * PerAddress(c.providers) else 0
  }

  function CallWork(c: Call): nat {
    Sum(TaskWork, c.tasks) + Unscheduled(c) + CallerWork(c.stage) + |c.channel|
    + (if c.closed then 0 else 1) + (if c.outerDone then 0 else 1) + (if c.ctxDone then 0 else 1)
  }

  lemma {:induction false} NewTaskWork(n: nat, lookups: seq<Lookup>)
    requires |lookups| == n && forall k :: 0 <= k < n ==> lookups[k].NotSpawned?
    ensures Sum(LookupWork, lookups) == 5 * n
    decreases n
  {
    if n > 0 {
      assert forall k :: 0 <= k < n - 1 ==> lookups[1..][k] == lookups[k + 1];
      NewTaskWork(n - 1, lookups[1..]);
    }
  }

  lemma AcceptWorks(c: Call)
    requires CallInv(c) && CallStep(c, Accept).Some?
    ensures CallWork(CallStep(c, Accept).value) < CallWork(c)
  {
    var c' := CallStep(c, Accept).value;
    var t := NewTask(c.ips[|c.tasks|], c.providers);
    NewTaskWork(|c.providers|, t.lookups);
    SumAppend(TaskWork, c.tasks, t);
    var n, u := |c.ips| - |c.tasks|, PerAddress(c.providers);
    assert n * u == (n - 1) * u + u;
    assert Unscheduled(c') == (n - 1) * u;
    assert TaskWork(t) == 5 * |c.providers| + 7;
  }

  lemma TaskReplacedWorks(c: Call, i: nat, t: Task)
    requires i < |c.tasks|
    ensures Sum(TaskWork, c.tasks[i := t]) + TaskWork(c.tasks[i]) == Sum(TaskWork, c.tasks) + TaskWork(t)
  {
    SumUpdate(TaskWork, c.tasks, i, t);
  }

  lemma InTaskWorks(c: Call, i: nat, ta: TaskAction)
    requires CallInv(c) && CallStep(c, InTask(i, ta)).Some?
    ensures CallWork(CallStep(c, InTask(i, ta)).value) < CallWork(c)
  {
    var c' := CallStep(c, InTask(i, ta)).value;
    assert TaskOk(c, i);
    TaskStepWorks(c.tasks[i], ta, c.ctxDone);
    TaskReplacedWorks(c, i, c'.tasks[i]);
    WorkWithTasks(c, c');
  }

  lemma DeliverWorks(c: Call, i: nat)
    requires CallStep(c, Deliver(i)).Some? && !c.closed
    ensures CallWork(CallStep(c, Deliver(i)).value) < CallWork(c)
  {
    var t := c.tasks[i].(stage := Departing(true));
    TaskReplacedWorks(c, i, t);
    assert TaskWork(t) + 2 == TaskWork(c.tasks[i]);
    var c' := CallStep(c, Deliver(i)).value;
    WorkWithTasks(c, SetTask(c, i, t));
    if c.kind.Batch? {
      assert c' == SetTask(c, i, t).(channel := c'.channel);
      assert |c'.channel| == |c.channel| + 1;
      assert Unscheduled(c') == Unscheduled(SetTask(c, i, t));
    } else {
      assert c' == SetTask(c, i, t).(rv := c'.rv, stage := AwaitGroup);
      assert Unscheduled(c') == Unscheduled(SetTask(c, i, t));
    }
  }

  /** Replacing tasks changes only their share of the work. */
  lemma WorkWithTasks(c: Call, c': Call)
    requires |c'.tasks| == |c.tasks| && c' == c.(tasks := c'.tasks)
    ensures CallWork(c') + Sum(TaskWork, c.tasks) == CallWork(c) + Sum(TaskWork, c'.tasks)
  {
    assert Unscheduled(c') == Unscheduled(c);
  }

  lemma TaskDoneWorks(c: Call, i: nat)
    requires CallStep(c, TaskDone(i)).Some? && c.wg > 0
    ensures CallWork(CallStep(c, TaskDone(i)).value) < CallWork(c)
  {
    TaskReplacedWorks(c, i, c.tasks[i].(stage := Done(c.tasks[i].stage.sent)));
  }

  lemma AbandonWorks(c: Call, i: nat)
    requires CallStep(c, Abandon(i)).Some?
    ensures CallWork(CallStep(c, Abandon(i)).value) < CallWork(c)
  {
    TaskReplacedWorks(c, i, c.tasks[i].(stage := Departing(false)));
  }

  lemma FreeWorks(c: Call, i: nat)
    requires CallStep(c, Free(i)).Some?
    ensures CallWork(CallStep(c, Free(i)).value) < CallWork(c)
  {
    TaskReplacedWorks(c, i, c.tasks[i].(stage := Freed(c.tasks[i].stage.sent)));
  }

  /** None of the branches that Go would panic in can be taken. */
  lemma NoPanic(c: Call)
    requires CallInv(c)
    ensures c.stage.Scheduling? ==> !c.closerStarted
    ensures c.stage.Invoking? ==> c.wg > 0
    ensures c.stage.AwaitGroup? ==> !c.closed
  {
  }

  lemma ScheduleWorks(c: Call, a: CallAction)
    requires a.Begin? || a.CheckCtx? || a.LoopEnd? || a.Refuse?
    requires CallStep(c, a).Some?
    requires c.stage.Scheduling? ==> !c.closerStarted
    requires c.stage.Invoking? ==> c.wg > 0
    ensures CallWork(CallStep(c, a).value) < CallWork(c)
  {
    match a
    case LoopEnd => StopWorks(c, c);
    case CheckCtx =>
      if c.outerDone || c.ctxDone {
        StopWorks(c, c);
      } else {
        assert Unscheduled(CallStep(c, a).value) == Unscheduled(c);
      }
    case Refuse => StopWorks(c, c.(wg := c.wg - 1, ctxDone := true));
    case Begin(_) => assert Unscheduled(CallStep(c, a).value) == Unscheduled(c);
  }

  lemma StopWorks(c: Call, c1: Call)
    requires c.stage.Scheduling? || c.stage.Invoking?
    requires c1 == c.(wg := c1.wg, ctxDone := c1.ctxDone) && (c.ctxDone ==> c1.ctxDone)
    ensures CallWork(StopScheduling(c1)) < CallWork(c)
  {
    var c' := StopScheduling(c1);
    assert c' == c.(wg := c'.wg, ctxDone := c'.ctxDone, stage := c'.stage, closerStarted := c'.closerStarted);
    assert Unscheduled(c') == Unscheduled(c);
  }

  lemma ChannelWorks(c: Call, a: CallAction)
    requires a.CloseResults? || a.Take? || a.EndCollect? || a.GroupDone?
    requires CallStep(c, a).Some?
    requires c.stage.AwaitGroup? ==> !c.closed
    ensures CallWork(CallStep(c, a).value) < CallWork(c)
  {
    assert Unscheduled(CallStep(c, a).value) == Unscheduled(c);
  }

  lemma CancelWorks(c: Call, a: CallAction)
    requires a.CancelOuter? || a.CancelInner?
    requires CallStep(c, a).Some?
    ensures CallWork(CallStep(c, a).value) < CallWork(c)
  {
    assert Unscheduled(CallStep(c, a).value) == Unscheduled(c);
  }

  /** Every step of a call, cancellations included, uses up some of its work. */
  lemma CallStepWorks(c: Call, a: CallAction)
    requires CallInv(c) && CallStep(c, a).Some?
    ensures CallWork(CallStep(c, a).value) < CallWork(c)
  {
    match a
    case Accept => AcceptWorks(c);
    case InTask(i, ta) => InTaskWorks(c, i, ta);
    case Deliver(i) => ClosedMeansDone(c, i); DeliverWorks(c, i);
    case TaskDone(i) => ClosedMeansDone(c, i); TaskDoneWorks(c, i);
    case Abandon(i) => AbandonWorks(c, i);
    case Free(i) => FreeWorks(c, i);
    case CancelOuter => CancelWorks(c, a);
    case CancelInner => CancelWorks(c, a);
    case CloseResults => NoPanic(c); ChannelWorks(c, a);
    case Take => NoPanic(c); ChannelWorks(c, a);
    case EndCollect(_) => NoPanic(c); ChannelWorks(c, a);
    case GroupDone => NoPanic(c); ChannelWorks(c, a);
    case _ => NoPanic(c); ScheduleWorks(c, a);
  }
}
