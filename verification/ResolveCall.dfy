/**
 One call of `ResolveAll` (Batch) or `Resolve` (Single): the caller schedules pool tasks through
 `poolGroupRequest.Do`, results come back over the result channel, and for a batch a closer goroutine
 closes that channel once the wait group is empty.
 */
module ResolveCall {
  import opened Options
  import opened Sums
  import opened ResolveTask
  import opened ResolveOrder

  datatype Kind = Batch | Single

  /** `Refused`: ErrTopographerShutdown or an unknown provider. */
  datatype Outcome = Refused | Answered(results: seq<Result>)

  /**
   The caller. `Entered`: holds the read lock. `Invoking`: past wg.Add(1), inside pool.Invoke.
   `Collecting`: in the range loop of a batch. `AwaitResult`, `AwaitGroup`: the receive and the wg.Wait of
   a single call. `Returning`: the deferred unlock still to run.
   */
  datatype CallerStage =
    | Idle
    | Entered
    | Scheduling
    | Invoking
    | Collecting
    | AwaitResult
    | AwaitGroup
    | Returning(outcome: Outcome)
    | Returned(outcome: Outcome)

  /**
   `outerDone`: the context of the call is done. `ctxDone`: so is the context of its group request, which is
   the one the tasks see. `closerStarted`: the closer goroutine of a batch exists.
   */
  datatype Call = Call(
    kind: Kind,
    ips: seq<IP>,
    providers: seq<nat>,
    stage: CallerStage,
    tasks: seq<Task>,
    wg: nat,
    channel: seq<Result>,
    closed: bool,
    closerStarted: bool,
    rv: seq<Result>,
    index: map<IP, nat>,
    outerDone: bool,
    ctxDone: bool,
    panicked: bool)

  datatype CallAction =
    | Begin(refused: bool)
    | CheckCtx
    | LoopEnd
    | Accept
    | Refuse
    | InTask(i: nat, a: TaskAction)
    | Deliver(i: nat)
    | Abandon(i: nat)
    | TaskDone(i: nat)
    | Free(i: nat)
    | CloseResults
    | Take
    | EndCollect(order: seq<Result>)
    | GroupDone
    | CancelOuter
    | CancelInner

  function Fresh(kind: Kind, ips: seq<IP>, providers: seq<nat>): Call {
    Call(kind, ips, providers, Idle, [], 0, [], false, false, [], map[], false, false, false)
  }

  function Merged(t: Task): Result {
    Result(t.ip, t.rv)
  }

  function SetTask(c: Call, i: nat, t: Task): Call
    requires i < |c.tasks|
  {
    c.(tasks := c.tasks[i := t])
  }

  /** What `Resolve` returns when its task could not be scheduled: the address and nothing else. */
  function Unresolved(ips: seq<IP>): Result {
    Result(if |ips| > 0 then ips[0] else [], [])
  }

  /** Leaving the scheduling loop early or at its end: a batch starts its closer, a single call returns. */
  function StopScheduling(c: Call): Call {
    if c.kind.Batch? then c.(stage := Collecting, closerStarted := true)
    else c.(stage := Returning(Answered([Unresolved(c.ips)])))
  }

  /** One step of the call; None when not enabled. The pool and the lock are looked at by Topographers. */
  ghost function CallStep(c: Call, a: CallAction): Option<Call> {
    match a
    case Begin(refused) =>
      if !c.stage.Entered? then None
      else Some(c.(stage := if refused then Returning(Refused) else Scheduling))
    case CheckCtx =>
      if !(c.stage.Scheduling? && |c.tasks| < |c.ips|) then None
      else if c.outerDone || c.ctxDone then Some(StopScheduling(c))
      else if c.closerStarted then Some(c.(panicked := true))
      else Some(c.(wg := c.wg + 1, stage := Invoking))
    case LoopEnd =>
      if c.stage.Scheduling? && |c.tasks| == |c.ips| then Some(StopScheduling(c)) else None
    case Accept =>
      if !(c.stage.Invoking? && |c.tasks| < |c.ips|) then None
      else
        var ip := c.ips[|c.tasks|];
        Some(c.(tasks := c.tasks + [NewTask(ip, c.providers)],
                index := c.index[ip := |c.tasks|],
                stage := if c.kind.Batch? then Scheduling else AwaitResult))
    case Refuse =>
      if !c.stage.Invoking? then None
      else if c.wg == 0 then Some(c.(panicked := true))
      else Some(StopScheduling(c.(wg := c.wg - 1, ctxDone := true)))
    case InTask(i, ta) =>
      if i < |c.tasks| && TaskStep(c.tasks[i], ta, c.ctxDone).Some?
      then Some(SetTask(c, i, TaskStep(c.tasks[i], ta, c.ctxDone).value))
      else None
    case Deliver(i) =>
      if !(i < |c.tasks| && c.tasks[i].stage.Merging?) then None
      else if c.closed then Some(c.(panicked := true))
      else
        var c' := SetTask(c, i, c.tasks[i].(stage := Departing(true)));
        if c.kind.Batch? then
          if |c.channel| < |c.ips| then Some(c'.(channel := c.channel + [Merged(c.tasks[i])])) else None
        else
          if c.stage.AwaitResult? then Some(c'.(rv := c.rv + [Merged(c.tasks[i])], stage := AwaitGroup)) else None
    case Abandon(i) =>
      if i < |c.tasks| && c.tasks[i].stage.Merging? && c.ctxDone
      then Some(SetTask(c, i, c.tasks[i].(stage := Departing(false))))
      else None
    case TaskDone(i) =>
      if !(i < |c.tasks| && c.tasks[i].stage.Departing?) then None
      else if c.wg == 0 then Some(c.(panicked := true))
      else Some(SetTask(c, i, c.tasks[i].(stage := Done(c.tasks[i].stage.sent))).(wg := c.wg - 1))
    case Free(i) =>
      if i < |c.tasks| && c.tasks[i].stage.Done?
      then Some(SetTask(c, i, c.tasks[i].(stage := Freed(c.tasks[i].stage.sent))))
      else None
    case CloseResults =>
      if c.closerStarted && !c.closed && c.wg == 0 then Some(c.(closed := true)) else None
    case Take =>
      if c.stage.Collecting? && c.channel != []
      then Some(c.(channel := c.channel[1..], rv := c.rv + [c.channel[0]]))
      else None
    case EndCollect(order) =>
      if c.stage.Collecting? && c.channel == [] && c.closed && SortOf(c.index, c.rv, order)
      then Some(c.(stage := Returning(Answered(order))))
      else None
    case GroupDone =>
      if !(c.stage.AwaitGroup? && c.wg == 0) then None
      else if c.closed then Some(c.(panicked := true))
      else Some(c.(closed := true, stage := Returning(Answered(c.rv))))
    case CancelOuter =>
      if c.outerDone then None else Some(c.(outerDone := true))
    case CancelInner =>
      if c.outerDone && !c.ctxDone then Some(c.(ctxDone := true)) else None
  }

  // ----- the invariant

  function Running(t: Task): nat {
    if t.stage.Done? || t.stage.Freed? then 0 else 1
  }

  function Delivered(t: Task): nat {
    if (t.stage.Departing? || t.stage.Done? || t.stage.Freed?) && t.stage.sent then 1 else 0
  }

  ghost function ResultBag(t: Task): multiset<Result> {
    if Delivered(t) == 1 then multiset{Merged(t)} else multiset{}
  }

  predicate Over(stage: CallerStage) {
    stage.Returning? || stage.Returned?
  }

  ghost predicate TaskOk(c: Call, i: nat)
    requires i < |c.tasks| && |c.tasks| <= |c.ips|
  {
    var t := c.tasks[i];
    && TaskInv(t, c.ctxDone)
    && t.ip == c.ips[i]
    && t.providers == c.providers
    && ((t.stage.Departing? || t.stage.Done? || t.stage.Freed?) && !t.stage.sent ==> c.ctxDone)
  }

  /** What depends on the stage of the caller. */
  ghost predicate StageOk(c: Call) {
    match c.stage
    case Idle => c.tasks == [] && c.wg == 0 && !c.closerStarted && !c.closed
    case Entered => c.tasks == [] && c.wg == 0 && !c.closerStarted && !c.closed
    case Scheduling => !c.closerStarted && !c.closed && (c.kind.Single? ==> c.tasks == [])
    case Invoking => |c.tasks| < |c.ips| && !c.closerStarted && !c.closed && (c.kind.Single? ==> c.tasks == [])
    case Collecting => c.kind.Batch? && c.closerStarted && (|c.tasks| == |c.ips| || c.ctxDone || c.outerDone)
    case AwaitResult => c.kind.Single? && |c.tasks| == 1 && c.rv == [] && !c.closed
    case AwaitGroup => c.kind.Single? && |c.tasks| == 1 && |c.rv| == 1 && !c.closed
    case Returning(o) => OutcomeOk(c, o)
    case Returned(o) => OutcomeOk(c, o)
  }

  /** What an outcome promises once the call is over. */
  ghost predicate OutcomeOk(c: Call, o: Outcome) {
    && c.wg == 0
    && c.channel == []
    && match o
       case Refused => c.tasks == [] && !c.closerStarted && !c.closed
       case Answered(results) =>
         if c.kind.Batch?
         then c.closed && SortOf(c.index, c.rv, results) && (|c.tasks| == |c.ips| || c.ctxDone || c.outerDone)
         else || (|c.tasks| == 1 && c.closed && results == c.rv && |c.rv| == 1)
              || (c.tasks == [] && (c.ctxDone || c.outerDone) && results == [Unresolved(c.ips)])
  }

  ghost predicate CallInv(c: Call) {
    && !c.panicked
    && (c.kind.Single? ==> |c.ips| == 1 && c.channel == [] && !c.closerStarted)
    && (c.kind.Single? && !Over(c.stage) && c.ctxDone ==> c.outerDone)
    && |c.tasks| <= |c.ips|
    && (forall i :: 0 <= i < |c.tasks| ==> TaskOk(c, i))
    && c.wg == Sum(Running, c.tasks) + (if c.stage.Invoking? then 1 else 0)
    && |c.channel| + |c.rv| == Sum(Delivered, c.tasks)
    && multiset(c.channel) + multiset(c.rv) == Bag(ResultBag, c.tasks)
    && c.index == IndexOf(c.ips[..|c.tasks|])
    && (c.closed ==> c.wg == 0)
    && StageOk(c)
  }

  lemma FreshInv(kind: Kind, ips: seq<IP>, providers: seq<nat>)
    requires kind.Single? ==> |ips| == 1
    ensures CallInv(Fresh(kind, ips, providers))
  {
    assert ips[..0] == [];
  }

  /** With an empty wait group every task is over and every lookup goroutine of the call is gone. */
  lemma Quiescent(c: Call)
    requires CallInv(c) && c.wg == 0
    ensures forall i :: 0 <= i < |c.tasks| ==> c.tasks[i].stage.Done? || c.tasks[i].stage.Freed?
    ensures forall i, k :: 0 <= i < |c.tasks| && 0 <= k < |c.tasks[i].lookups| ==> c.tasks[i].lookups[k].Gone?
  {
    forall i | 0 <= i < |c.tasks| ensures c.tasks[i].stage.Done? || c.tasks[i].stage.Freed? {
      SumAtLeast(Running, c.tasks, i);
    }
    forall i, k | 0 <= i < |c.tasks| && 0 <= k < |c.tasks[i].lookups| ensures c.tasks[i].lookups[k].Gone? {
      assert TaskOk(c, i);
      ClosedMeansGone(c.tasks[i], c.ctxDone);
    }
  }

  /** The result channel of a batch always has room for a task that has not delivered. */
  lemma RoomToDeliver(c: Call, i: nat)
    requires CallInv(c) && i < |c.tasks| && Delivered(c.tasks[i]) == 0
    ensures |c.channel| < |c.ips|
  {
    SumCount(Delivered, c.tasks);
  }

  /** A closed result channel means that no task is left to deliver. */
  lemma ClosedMeansDone(c: Call, i: nat)
    requires CallInv(c) && i < |c.tasks| && Running(c.tasks[i]) == 1
    ensures !c.closed && c.wg > 0
  {
    SumAtLeast(Running, c.tasks, i);
  }

  // ----- every step keeps it

  lemma TasksStillOk(c: Call, c': Call, i: nat)
    requires CallInv(c) && i < |c.tasks|
    requires c'.ips == c.ips && c'.providers == c.providers && (c.ctxDone ==> c'.ctxDone)
    requires |c'.tasks| == |c.tasks| && c'.tasks == c.tasks[i := c'.tasks[i]]
    requires TaskOk(c', i)
    ensures forall j :: 0 <= j < |c'.tasks| ==> TaskOk(c', j)
  {
    forall j | 0 <= j < |c'.tasks| ensures TaskOk(c', j) {
      assert TaskOk(c, j);
      if j != i {
        TaskFrame(c.tasks[j], c.ctxDone, c'.ctxDone, c.tasks[j].stage);
      }
    }
  }

  lemma TasksFrame(c: Call, c': Call)
    requires CallInv(c)
    requires c'.ips == c.ips && c'.providers == c.providers && (c.ctxDone ==> c'.ctxDone)
    requires c'.tasks == c.tasks
    ensures forall j :: 0 <= j < |c'.tasks| ==> TaskOk(c', j)
  {
    forall j | 0 <= j < |c'.tasks| ensures TaskOk(c', j) {
      assert TaskOk(c, j);
      TaskFrame(c.tasks[j], c.ctxDone, c'.ctxDone, c.tasks[j].stage);
    }
  }

  /** Replacing task i by t, which delivers nothing. */
  lemma TaskQuietly(c: Call, i: nat, t: Task)
    requires CallInv(c) && i < |c.tasks| && Delivered(t) == Delivered(c.tasks[i])
    requires Delivered(t) == 1 ==> Merged(t) == Merged(c.tasks[i])
    ensures Sum(Running, c.tasks[i := t]) + Running(c.tasks[i]) == Sum(Running, c.tasks) + Running(t)
    ensures Sum(Delivered, c.tasks[i := t]) == Sum(Delivered, c.tasks)
    ensures Bag(ResultBag, c.tasks[i := t]) == Bag(ResultBag, c.tasks)
  {
    SumUpdate(Running, c.tasks, i, t);
    SumUpdate(Delivered, c.tasks, i, t);
    assert ResultBag(t) == ResultBag(c.tasks[i]) + multiset{};
    BagGrows(ResultBag, c.tasks, i, t, multiset{});
    assert Bag(ResultBag, c.tasks) + multiset{} == Bag(ResultBag, c.tasks);
  }

  lemma InTaskKeeps(c: Call, i: nat, ta: TaskAction)
    requires CallInv(c) && CallStep(c, InTask(i, ta)).Some?
    ensures CallInv(CallStep(c, InTask(i, ta)).value)
  {
    var c' := CallStep(c, InTask(i, ta)).value;
    assert TaskOk(c, i);
    TaskStepKeeps(c.tasks[i], ta, c.ctxDone);
    TaskStepLocal(c.tasks[i], ta, c.ctxDone);
    TasksStillOk(c, c', i);
    TaskQuietly(c, i, c'.tasks[i]);
    StageFrame(c, c');
  }

  /** A step inside a task moves it at most to Merging, and never changes a task that is past it. */
  lemma TaskStepLocal(t: Task, ta: TaskAction, ctxDone: bool)
    requires TaskInv(t, ctxDone) && TaskStep(t, ta, ctxDone).Some?
    ensures var t' := TaskStep(t, ta, ctxDone).value;
      && t'.ip == t.ip && t'.providers == t.providers
      && Delivered(t') == Delivered(t) && Running(t') == Running(t)
      && (RangeOver(t.stage) ==> t'.rv == t.rv && t'.stage == t.stage)
      && (t'.stage.Departing? || t'.stage.Done? || t'.stage.Freed? ==> t'.stage == t.stage)
  {
  }

  /** The books of a call after task i has delivered: one more result in the channel or in rv. */
  lemma DeliverBooks(c: Call, i: nat, t: Task, channel: seq<Result>, rv: seq<Result>)
    requires CallInv(c) && i < |c.tasks| && Delivered(c.tasks[i]) == 0 && Running(c.tasks[i]) == 1
    requires t == c.tasks[i].(stage := Departing(true))
    requires (channel == c.channel + [Merged(t)] && rv == c.rv) || (channel == c.channel && rv == c.rv + [Merged(t)])
    ensures Sum(Running, c.tasks[i := t]) == Sum(Running, c.tasks)
    ensures |channel| + |rv| == Sum(Delivered, c.tasks[i := t])
    ensures multiset(channel) + multiset(rv) == Bag(ResultBag, c.tasks[i := t])
  {
    SumUpdate(Running, c.tasks, i, t);
    SumUpdate(Delivered, c.tasks, i, t);
    assert ResultBag(t) == ResultBag(c.tasks[i]) + multiset{Merged(t)};
    BagGrows(ResultBag, c.tasks, i, t, multiset{Merged(t)});
    if channel == c.channel + [Merged(t)] && rv == c.rv {
      assert multiset(channel) == multiset(c.channel) + multiset{Merged(t)};
    } else {
      assert multiset(rv) == multiset(c.rv) + multiset{Merged(t)};
    }
    assert multiset(channel) + multiset(rv) == (multiset(c.channel) + multiset(c.rv)) + multiset{Merged(t)};
  }

  lemma DeliverKeeps(c: Call, i: nat)
    requires CallInv(c) && CallStep(c, Deliver(i)).Some?
    ensures !c.closed
    ensures CallInv(CallStep(c, Deliver(i)).value)
  {
    ClosedMeansDone(c, i);
    if c.kind.Batch? {
      DeliverBatch(c, i);
    } else {
      DeliverSingle(c, i);
    }
  }

  lemma DeliverBatch(c: Call, i: nat)
    requires CallInv(c) && c.kind.Batch? && CallStep(c, Deliver(i)).Some? && !c.closed && c.wg > 0
    ensures CallInv(CallStep(c, Deliver(i)).value)
  {
    var t := c.tasks[i].(stage := Departing(true));
    var c' := c.(tasks := c.tasks[i := t], channel := c.channel + [Merged(c.tasks[i])]);
    DeliverTasks(c, i, c');
    DeliverBooks(c, i, t, c'.channel, c'.rv);
    DeliverStage(c, i);
    assert CallStep(c, Deliver(i)).value == c';
  }

  lemma DeliverSingle(c: Call, i: nat)
    requires CallInv(c) && c.kind.Single? && CallStep(c, Deliver(i)).Some? && !c.closed && c.wg > 0
    ensures CallInv(CallStep(c, Deliver(i)).value)
  {
    var t := c.tasks[i].(stage := Departing(true));
    var c' := c.(tasks := c.tasks[i := t], rv := c.rv + [Merged(c.tasks[i])], stage := AwaitGroup);
    DeliverTasks(c, i, c');
    DeliverBooks(c, i, t, c'.channel, c'.rv);
    DeliverStage(c, i);
    assert CallStep(c, Deliver(i)).value == c';
  }

  lemma DeliverTasks(c: Call, i: nat, c': Call)
    requires CallInv(c) && i < |c.tasks| && RangeOver(c.tasks[i].stage)
    requires c'.ips == c.ips && c'.providers == c.providers && c'.ctxDone == c.ctxDone
    requires c'.tasks == c.tasks[i := c.tasks[i].(stage := Departing(true))]
    ensures forall j :: 0 <= j < |c'.tasks| ==> TaskOk(c', j)
  {
    assert TaskOk(c, i);
    TaskFrame(c.tasks[i], c.ctxDone, c.ctxDone, Departing(true));
    TasksStillOk(c, c', i);
  }

  lemma DeliverStage(c: Call, i: nat)
    requires StageOk(c) && CallStep(c, Deliver(i)).Some? && !c.closed
    requires c.kind.Batch? ==> !Over(c.stage)
    ensures StageOk(CallStep(c, Deliver(i)).value)
  {
    if c.kind.Batch? {
      assert !c.stage.AwaitResult? && !c.stage.AwaitGroup?;
    }
  }

  lemma AbandonKeeps(c: Call, i: nat)
    requires CallInv(c) && CallStep(c, Abandon(i)).Some?
    ensures CallInv(CallStep(c, Abandon(i)).value)
  {
    ClosedMeansDone(c, i);
    var c' := CallStep(c, Abandon(i)).value;
    assert TaskOk(c, i);
    TaskFrame(c.tasks[i], c.ctxDone, c.ctxDone, Departing(false));
    TasksStillOk(c, c', i);
    TaskQuietly(c, i, c'.tasks[i]);
    StageFrame(c, c');
  }

  lemma TaskDoneKeeps(c: Call, i: nat)
    requires CallInv(c) && CallStep(c, TaskDone(i)).Some?
    ensures c.wg > 0
    ensures CallInv(CallStep(c, TaskDone(i)).value)
  {
    ClosedMeansDone(c, i);
    var c' := CallStep(c, TaskDone(i)).value;
    assert TaskOk(c, i);
    TaskFrame(c.tasks[i], c.ctxDone, c.ctxDone, c'.tasks[i].stage);
    TasksStillOk(c, c', i);
    TaskQuietly(c, i, c'.tasks[i]);
    assert !Over(c.stage) && !c.stage.Idle? && !c.stage.Entered?;
    StageFrame(c, c');
  }

  lemma FreeKeeps(c: Call, i: nat)
    requires CallInv(c) && CallStep(c, Free(i)).Some?
    ensures CallInv(CallStep(c, Free(i)).value)
  {
    var c' := CallStep(c, Free(i)).value;
    assert TaskOk(c, i);
    TaskFrame(c.tasks[i], c.ctxDone, c.ctxDone, c'.tasks[i].stage);
    TasksStillOk(c, c', i);
    TaskQuietly(c, i, c'.tasks[i]);
    StageFrame(c, c');
  }

  /** StageOk looks at the tasks only through their number. */
  lemma StageFrame(c: Call, c': Call)
    requires StageOk(c)
    requires |c'.tasks| == |c.tasks|
    requires c' == c.(tasks := c'.tasks, wg := c'.wg, outerDone := c'.outerDone, ctxDone := c'.ctxDone)
    requires Over(c.stage) || c.stage.Idle? || c.stage.Entered? ==> c'.wg == c.wg
    requires (c.outerDone ==> c'.outerDone) && (c.ctxDone ==> c'.ctxDone)
    ensures StageOk(c')
  {
  }

  lemma AcceptTasks(c: Call)
    requires CallInv(c) && CallStep(c, Accept).Some?
    ensures var c' := CallStep(c, Accept).value;
      && |c'.tasks| == |c.tasks| + 1 <= |c'.ips|
      && (forall j :: 0 <= j < |c'.tasks| ==> TaskOk(c', j))
      && c'.index == IndexOf(c'.ips[..|c'.tasks|])
  {
    var c' := CallStep(c, Accept).value;
    var ip := c.ips[|c.tasks|];
    NewTaskInv(ip, c.providers, c.ctxDone);
    forall j | 0 <= j < |c'.tasks| ensures TaskOk(c', j) {
      if j < |c.tasks| {
        assert TaskOk(c, j);
        assert c'.tasks[j] == c.tasks[j];
      }
    }
    assert c.ips[..|c'.tasks|] == c.ips[..|c.tasks|] + [ip];
    assert (c.ips[..|c.tasks|] + [ip])[..|c.tasks|] == c.ips[..|c.tasks|];
  }

  lemma AcceptKeeps(c: Call)
    requires CallInv(c) && CallStep(c, Accept).Some?
    ensures CallInv(CallStep(c, Accept).value)
  {
    var t := NewTask(c.ips[|c.tasks|], c.providers);
    AcceptTasks(c);
    SumAppend(Running, c.tasks, t);
    SumAppend(Delivered, c.tasks, t);
    BagAppend(ResultBag, c.tasks, t);
    assert ResultBag(t) == multiset{};
    assert Bag(ResultBag, c.tasks) + multiset{} == Bag(ResultBag, c.tasks);
  }

  lemma TakeKeeps(c: Call)
    requires CallInv(c) && CallStep(c, Take).Some?
    ensures CallInv(CallStep(c, Take).value)
  {
    var c' := CallStep(c, Take).value;
    TasksFrame(c, c');
    assert c.channel == [c.channel[0]] + c.channel[1..];
    assert multiset(c.channel) == multiset{c.channel[0]} + multiset(c.channel[1..]);
  }

  /** Leaving the scheduling loop. */
  lemma StopKeeps(c: Call, c1: Call)
    requires CallInv(c) && (c.stage.Scheduling? || c.stage.Invoking?)
    requires c1 == c.(wg := c1.wg, ctxDone := c1.ctxDone) && (c.ctxDone ==> c1.ctxDone)
    requires c1.wg == Sum(Running, c.tasks)
    requires |c.tasks| == |c.ips| || c1.ctxDone || c1.outerDone
    ensures CallInv(StopScheduling(c1))
  {
    TasksFrame(c, StopScheduling(c1));
    if c.kind.Single? {
      assert c.tasks == [];
      assert Sum(Delivered, c.tasks) == 0;
    }
  }

  lemma ScheduleKeeps(c: Call, a: CallAction)
    requires a.Begin? || a.CheckCtx? || a.LoopEnd? || a.Refuse?
    requires CallInv(c) && CallStep(c, a).Some?
    ensures CallInv(CallStep(c, a).value)
  {
    match a
    case CheckCtx =>
      if c.outerDone || c.ctxDone {
        StopKeeps(c, c);
      } else {
        TasksFrame(c, CallStep(c, a).value);
      }
    case LoopEnd => StopKeeps(c, c);
    case Refuse => StopKeeps(c, c.(wg := c.wg - 1, ctxDone := true));
    case Begin(refused) => TasksFrame(c, CallStep(c, a).value);
  }

  lemma CloseKeeps(c: Call, a: CallAction)
    requires a.CloseResults? || a.EndCollect? || a.GroupDone?
    requires CallInv(c) && CallStep(c, a).Some?
    ensures !CallStep(c, a).value.panicked
    ensures CallInv(CallStep(c, a).value)
  {
    TasksFrame(c, CallStep(c, a).value);
  }

  lemma CancelKeeps(c: Call, a: CallAction)
    requires a.CancelOuter? || a.CancelInner?
    requires CallInv(c) && CallStep(c, a).Some?
    ensures CallInv(CallStep(c, a).value)
  {
    TasksFrame(c, CallStep(c, a).value);
    StageFrame(c, CallStep(c, a).value);
  }

  lemma CallStepKeeps(c: Call, a: CallAction)
    requires CallInv(c) && CallStep(c, a).Some?
    ensures CallInv(CallStep(c, a).value)
  {
    match a
    case InTask(i, ta) => InTaskKeeps(c, i, ta);
    case Deliver(i) => DeliverKeeps(c, i);
    case Abandon(i) => AbandonKeeps(c, i);
    case TaskDone(i) => TaskDoneKeeps(c, i);
    case Free(i) => FreeKeeps(c, i);
    case Accept => AcceptKeeps(c);
    case Take => TakeKeeps(c);
    case Begin(_) => ScheduleKeeps(c, a);
    case CheckCtx => ScheduleKeeps(c, a);
    case LoopEnd => ScheduleKeeps(c, a);
    case Refuse => ScheduleKeeps(c, a);
    case CloseResults => CloseKeeps(c, a);
    case EndCollect(_) => CloseKeeps(c, a);
    case GroupDone => CloseKeeps(c, a);
    case CancelOuter => CancelKeeps(c, a);
    case CancelInner => CancelKeeps(c, a);
  }
}
