/** Whole-run properties of the Topographer: quiescence, termination, where it can get stuck, and the counters. */
module TopographerTheorems {
  import opened Options
  import opened Sums
  import opened ResolveTask
  import opened ResolveOrder
  import opened ResolveCall
  import opened ResolveAnswers
  import opened Topographers

  // ----- no lookup overlaps or follows a shutdown

  /** No goroutine of the call is inside a provider, or will get there. */
  predicate Quiet(c: Call) {
    forall i, k :: 0 <= i < |c.tasks| && 0 <= k < |c.tasks[i].lookups| ==> c.tasks[i].lookups[k].Gone?
  }

  /** A call that returned has left no lookup behind. */
  lemma ReturnedIsQuiet(s: Topo, c: nat)
    requires Reachable(s) && c < |s.calls| && !Active(s.calls[c].stage)
    ensures Quiet(s.calls[c])
  {
    ReachableInv(s);
    Quiescent(s.calls[c]);
  }

  /**
   Once some Shutdown has the lock, and for ever after, no lookup goroutine exists in any call: no Lookup
   overlaps or follows the shutdown of an offline provider.
   */
  lemma NoLookupAtShutdown(s: Topo)
    requires Reachable(s)
    requires s.gate.closed || s.gate.downed != []
      || exists k :: 0 <= k < |s.gate.shutdowns| && InsideLock(s.gate.shutdowns[k])
    ensures forall c :: 0 <= c < |s.calls| ==> Quiet(s.calls[c])
  {
    ReachableInv(s);
    forall c | 0 <= c < |s.calls| ensures Quiet(s.calls[c]) {
      if !s.gate.closed {
        var k :| 0 <= k < |s.gate.shutdowns| && InsideLock(s.gate.shutdowns[k]);
        assert ShutOk(s.gate, k);
        SumAtLeast(Reading, s.calls, c);
      }
      ReturnedIsQuiet(s, c);
    }
  }

  lemma {:induction false} ClosedForever(s: Topo, acts: seq<TopoAction>)
    requires s.gate.closed && Run(s, acts).Some?
    ensures Run(s, acts).value.gate.closed
    decreases |acts|
  {
    if acts != [] {
      ClosedForever(Step(s, acts[0]).value, acts[1..]);
    }
  }

  // ----- what a Shutdown does

  /**
   When a Shutdown has finished, every offline provider has been shut down, each exactly once, the pool is
   released and the Topographer closed.
   */
  lemma ShutdownCompletes(s: Topo, k: nat)
    requires Reachable(s) && k < |s.gate.shutdowns| && s.gate.shutdowns[k].Finished?
    ensures s.gate.downed == s.offline && s.gate.released && s.gate.closed
  {
    ReachableInv(s);
    assert ShutOk(s.gate, k);
  }

  /** At no point has a provider been shut down twice, or one that is not offline: what is done is a prefix of the list. */
  lemma DownedInOrder(s: Topo)
    requires Reachable(s)
    ensures s.gate.downed <= s.offline
    ensures s.gate.downed != [] ==> s.gate.closed && s.gate.released
  {
    ReachableInv(s);
    if k :| 0 <= k < |s.gate.shutdowns| && s.gate.shutdowns[k].Downing? {
      assert s.gate.downed + s.gate.shutdowns[k].rest == s.offline;
    }
  }

  lemma {:induction false} OnceDoneStays(s: Topo, acts: seq<TopoAction>)
    requires s.gate.onceDone && Run(s, acts).Some?
    ensures Run(s, acts).value.gate.onceDone && Run(s, acts).value.offline == s.offline
    decreases |acts|
  {
    if acts != [] {
      if acts[0].InCall? {
        var c, ca := acts[0].c, acts[0].a;
        NotedFrame(SetCall(s, c, CallStep(s.calls[c], ca).value), s.calls[c], ca);
      }
      OnceDoneStays(Step(s, acts[0]).value, acts[1..]);
    }
  }

  /** Later calls of Shutdown shut nothing down again. */
  lemma SecondShutdownAddsNothing(s: Topo, acts: seq<TopoAction>)
    requires Reachable(s) && s.gate.onceDone && Run(s, acts).Some?
    ensures Run(s, acts).value.gate.downed == s.gate.downed == s.offline
  {
    ReachableInv(s);
    OnceDoneStays(s, acts);
    RunKeeps(s, acts);
  }

  /** A call is refused if and only if the Topographer is closed or a provider it names is not registered. */
  lemma RefusedIff(s: Topo, c: nat, refused: bool)
    requires Step(s, InCall(c, Begin(refused))).Some?
    ensures c < |s.calls| && c < |Step(s, InCall(c, Begin(refused))).value.calls|
    ensures Step(s, InCall(c, Begin(refused))).value.calls[c].stage == Returning(Refused) <==>
      s.gate.closed || exists p :: p in s.calls[c].providers && p !in s.registry
  {
  }

  // ----- every run is finite

  function ShutWork(offline: nat): ShutStage -> nat {
    (k: ShutStage) =>
      match k
      case Outside => offline + 7
      case Pending => offline + 6
      case Holding => offline + 5
      case Marked => offline + 4
      case Downing(rest) => |rest| + 3
      case Unlocking => 1
      case Finished => 0
  }

  function TopoWork(s: Topo): nat {
    Sum(CallWork, s.calls) + Sum(ShutWork(|s.offline|), s.gate.shutdowns)
  }

  lemma GateWorks(g: Gate, offline: seq<nat>, a: TopoAction)
    requires GateStep(g, offline, a).Some?
    ensures Sum(ShutWork(|offline|), GateStep(g, offline, a).value.shutdowns) < Sum(ShutWork(|offline|), g.shutdowns)
  {
    var g' := GateStep(g, offline, a).value;
    assert g'.shutdowns == g.shutdowns[a.k := g'.shutdowns[a.k]];
    SumUpdate(ShutWork(|offline|), g.shutdowns, a.k, g'.shutdowns[a.k]);
  }

  lemma EnterLeaveWorks(c: Call, stage: CallerStage)
    requires (c.stage.Idle? && stage.Entered?) || (c.stage.Returning? && stage.Returned?)
    ensures CallWork(c.(stage := stage)) < CallWork(c)
  {
    assert Unscheduled(c.(stage := stage)) == Unscheduled(c);
  }

  lemma StepWorks(s: Topo, a: TopoAction)
    requires Inv(s) && Step(s, a).Some?
    ensures TopoWork(Step(s, a).value) < TopoWork(s)
  {
    match a
    case StartCall(c) =>
      EnterLeaveWorks(s.calls[c], Entered);
      SumUpdate(CallWork, s.calls, c, s.calls[c].(stage := Entered));
    case FinishCall(c) =>
      var stage := Returned(s.calls[c].stage.outcome);
      EnterLeaveWorks(s.calls[c], stage);
      SumUpdate(CallWork, s.calls, c, s.calls[c].(stage := stage));
    case InCall(c, ca) =>
      CallStepWorks(s.calls[c], ca);
      var call' := CallStep(s.calls[c], ca).value;
      SumUpdate(CallWork, s.calls, c, call');
      NotedFrame(SetCall(s, c, call'), s.calls[c], ca);
    case _ => GateWorks(s.gate, s.offline, a);
  }

  /** No run, whatever is cancelled and whenever, is longer than the work of its first state. */
  lemma {:induction false} RunsAreBounded(s: Topo, acts: seq<TopoAction>)
    requires Inv(s) && Run(s, acts).Some?
    ensures |acts| + TopoWork(Run(s, acts).value) <= TopoWork(s)
    decreases |acts|
  {
    if acts != [] {
      StepKeeps(s, acts[0]);
      StepWorks(s, acts[0]);
      RunsAreBounded(Step(s, acts[0]).value, acts[1..]);
    }
  }

  // ----- where a run can end

  predicate ByEnvironment(a: TopoAction) {
    a.InCall? && FromOutside(a.a)
  }

  predicate AllDone(s: Topo) {
    && (forall c :: 0 <= c < |s.calls| ==> s.calls[c].stage.Returned?)
    && (forall k :: 0 <= k < |s.gate.shutdowns| ==> s.gate.shutdowns[k].Finished?)
  }

  /** Some Resolve hangs; every other call is over or held back by a Shutdown that waits for the hung one. */
  predicate Jammed(s: Topo) {
    && (exists c :: 0 <= c < |s.calls| && Hung(s.calls[c]))
    && (forall c :: 0 <= c < |s.calls| ==>
        s.calls[c].stage.Returned? || Hung(s.calls[c]) || (s.calls[c].stage.Idle? && s.gate.writer.Some?))
    && (forall k :: 0 <= k < |s.gate.shutdowns| ==>
        || s.gate.shutdowns[k].Finished?
        || s.gate.shutdowns[k].Pending?
        || (s.gate.shutdowns[k].Outside? && s.gate.writer.Some?))
  }

  /** A worker that is taken belongs to a task that can move. */
  lemma BusyMoves(s: Topo) returns (a: TopoAction)
    requires Inv(s) && s.busy > 0
    ensures !ByEnvironment(a) && Step(s, a).Some?
  {
    var c := SumWitness(Occupied, s.calls);
    var i := SumWitness(Holds, s.calls[c].tasks);
    var ca := TaskMoves(s.calls[c], i);
    a := InCall(c, ca);
  }

  predicate Movable(c: Call) {
    !c.stage.Idle? && !c.stage.Returned? && !Hung(c)
  }

  /** An action of call c that is neither Begin nor Accept needs nothing from the pool that it does not have. */
  lemma CallActs(s: Topo, c: nat, ca: CallAction)
    requires s.busy == Sum(Occupied, s.calls) && c < |s.calls|
    requires CallStep(s.calls[c], ca).Some? && !ca.Begin? && !ca.Accept?
    ensures Step(s, InCall(c, ca)).Some?
  {
    if ca.Free? {
      SumAtLeast(Holds, s.calls[c].tasks, ca.i);
      SumAtLeast(Occupied, s.calls, c);
    }
  }

  lemma InvokingMoves(s: Topo, c: nat) returns (a: TopoAction)
    requires Inv(s) && s.workers >= 1 && c < |s.calls| && s.calls[c].stage.Invoking?
    ensures !ByEnvironment(a) && Step(s, a).Some?
  {
    assert Active(s.calls[c].stage) && !s.gate.released;
    assert CallInv(s.calls[c]);
    if s.busy < s.workers {
      a := InCall(c, Accept);
    } else {
      a := BusyMoves(s);
    }
  }

  lemma CallProgress(s: Topo, c: nat) returns (a: TopoAction)
    requires Inv(s) && s.workers >= 1 && c < |s.calls| && Movable(s.calls[c])
    ensures !ByEnvironment(a) && Step(s, a).Some?
  {
    var call := s.calls[c];
    assert CallInv(call);
    if call.stage.Invoking? {
      a := InvokingMoves(s, c);
    } else if call.stage.Entered? {
      a := InCall(c, Begin(MustRefuse(s, call)));
    } else if call.stage.Returning? {
      SumAtLeast(Reading, s.calls, c);
      a := FinishCall(c);
    } else if call.stage.Scheduling? {
      var ca := if |call.tasks| < |call.ips| then CheckCtx else LoopEnd;
      CallActs(s, c, ca);
      a := InCall(c, ca);
    } else {
      var ca := CallMoves(call);
      CallActs(s, c, ca);
      a := InCall(c, ca);
    }
  }

  lemma LockedShutdownMoves(s: Topo, k: nat) returns (a: TopoAction)
    requires k < |s.gate.shutdowns| && InsideLock(s.gate.shutdowns[k])
    ensures !ByEnvironment(a) && Step(s, a).Some?
  {
    var stage := s.gate.shutdowns[k];
    a := if stage.Holding? then Mark(k)
         else if stage.Marked? then Once(k)
         else if stage.Downing? then DownNext(k)
         else UnlockWriter(k);
    assert GateStep(s.gate, s.offline, a).Some?;
    assert !a.StartCall? && !a.InCall? && !a.FinishCall?;
  }

  /**
   For every pool of at least one worker: a state in which nothing can move without outside help is one in
   which everything is done, or one jammed by a hung Resolve.
   */
  lemma Progress(s: Topo) returns (a: TopoAction)
    requires Reachable(s) && s.workers >= 1 && !AllDone(s) && !Jammed(s)
    ensures !ByEnvironment(a) && Step(s, a).Some?
  {
    ReachableInv(s);
    if k :| 0 <= k < |s.gate.shutdowns| && InsideLock(s.gate.shutdowns[k]) {
      a := LockedShutdownMoves(s, k);
    } else if c :| 0 <= c < |s.calls| && Movable(s.calls[c]) {
      a := CallProgress(s, c);
    } else if s.gate.writer.Some? {
      a := PendingMoves(s);
    } else if c :| 0 <= c < |s.calls| && s.calls[c].stage.Idle? {
      a := StartCall(c);
    } else {
      a := OutsideMoves(s);
    }
  }

  lemma PendingMoves(s: Topo) returns (a: TopoAction)
    requires Inv(s) && s.gate.writer.Some? && !Jammed(s)
    requires forall k :: 0 <= k < |s.gate.shutdowns| ==> !InsideLock(s.gate.shutdowns[k])
    requires forall c :: 0 <= c < |s.calls| ==>
      s.calls[c].stage.Idle? || s.calls[c].stage.Returned? || Hung(s.calls[c])
    ensures !ByEnvironment(a) && Step(s, a).Some?
  {
    var k := s.gate.writer.value;
    assert ShutOk(s.gate, k);
    if s.gate.readers > 0 {
      ReadersJam(s);
    }
    a := Acquire(k);
  }

  /** A Shutdown waits, every call that holds the lock is hung: that is a jam. */
  lemma ReadersJam(s: Topo)
    requires Inv(s) && s.gate.writer.Some? && s.gate.readers > 0
    requires forall k :: 0 <= k < |s.gate.shutdowns| ==> !InsideLock(s.gate.shutdowns[k])
    requires forall c :: 0 <= c < |s.calls| ==>
      s.calls[c].stage.Idle? || s.calls[c].stage.Returned? || Hung(s.calls[c])
    ensures Jammed(s)
  {
    var c := SumWitness(Reading, s.calls);
    assert Hung(s.calls[c]);
    forall j | 0 <= j < |s.gate.shutdowns|
      ensures s.gate.shutdowns[j].Finished? || s.gate.shutdowns[j].Pending? || s.gate.shutdowns[j].Outside?
    {
      assert ShutOk(s.gate, j);
    }
  }

  lemma OutsideMoves(s: Topo) returns (a: TopoAction)
    requires LockOk(s.gate, s.calls) && s.gate.writer.None? && !Jammed(s) && !AllDone(s)
    requires forall c :: 0 <= c < |s.calls| ==> s.calls[c].stage.Returned? || Hung(s.calls[c])
    ensures !ByEnvironment(a) && Step(s, a).Some?
  {
    var k := ShutdownLeft(s);
    a := Announce(k);
    assert GateStep(s.gate, s.offline, a).Some?;
  }

  /** Every call is over or hung and no Shutdown is under way: if that is not the end, one has not begun. */
  lemma ShutdownLeft(s: Topo) returns (k: nat)
    requires LockOk(s.gate, s.calls) && s.gate.writer.None? && !Jammed(s) && !AllDone(s)
    requires forall c :: 0 <= c < |s.calls| ==> s.calls[c].stage.Returned? || Hung(s.calls[c])
    ensures k < |s.gate.shutdowns| && s.gate.shutdowns[k].Outside?
  {
    k :| 0 <= k < |s.gate.shutdowns| && !s.gate.shutdowns[k].Finished?;
    assert ShutOk(s.gate, k);
  }

  /** A jam takes a Resolve whose caller's context is done. */
  lemma JammedNeedsCancel(s: Topo)
    requires Reachable(s) && Jammed(s)
    ensures exists c :: 0 <= c < |s.calls| && s.calls[c].kind.Single? && Hung(s.calls[c]) && s.calls[c].outerDone
  {
    ReachableInv(s);
    var c :| 0 <= c < |s.calls| && Hung(s.calls[c]);
    HungWasCancelled(s.calls[c]);
  }

  // ----- exactly when a Resolve can hang

  /** The caller of call c cancels its context. */
  predicate Cancels(a: TopoAction, c: nat) {
    a == InCall(c, CancelOuter)
  }

  /** Only its caller marks a call as cancelled, no call changes kind or place, and none that started is idle again. */
  lemma OtherStep(s: Topo, c: nat, a: TopoAction)
    requires c < |s.calls| && Step(s, a).Some?
    ensures |Step(s, a).value.calls| == |s.calls| && Step(s, a).value.workers == s.workers
    ensures Step(s, a).value.calls[c].kind == s.calls[c].kind
    ensures s.calls[c].stage.Idle? || !Step(s, a).value.calls[c].stage.Idle?
    ensures !Cancels(a, c) ==> Step(s, a).value.calls[c].outerDone == s.calls[c].outerDone
  {
    if a.InCall? {
      NotedFrame(SetCall(s, a.c, CallStep(s.calls[a.c], a.a).value), s.calls[a.c], a.a);
      CallBasics(s.calls[a.c], a.a);
    }
  }

  /** What no step of a call changes, and what only the caller does. */
  predicate SameBasics(c: Call, a: CallAction, c': Call) {
    && c'.kind == c.kind
    && (c.stage.Idle? || !c'.stage.Idle?)
    && (!a.CancelOuter? ==> c'.outerDone == c.outerDone)
  }

  lemma CallBasics(c: Call, a: CallAction)
    requires CallStep(c, a).Some?
    ensures SameBasics(c, a, CallStep(c, a).value)
  {
    if a.InTask? || a.Deliver? || a.Abandon? || a.TaskDone? || a.Free? {
      WorkerBasics(c, a);
    } else if a.Begin? || a.CheckCtx? || a.LoopEnd? || a.Accept? || a.Refuse? {
      ScheduleBasics(c, a);
    } else {
      EndBasics(c, a);
    }
  }

  lemma WorkerBasics(c: Call, a: CallAction)
    requires (a.InTask? || a.Deliver? || a.Abandon? || a.TaskDone? || a.Free?) && CallStep(c, a).Some?
    ensures SameBasics(c, a, CallStep(c, a).value)
  {
  }

  lemma ScheduleBasics(c: Call, a: CallAction)
    requires (a.Begin? || a.CheckCtx? || a.LoopEnd? || a.Accept? || a.Refuse?) && CallStep(c, a).Some?
    ensures SameBasics(c, a, CallStep(c, a).value)
  {
  }

  lemma EndBasics(c: Call, a: CallAction)
    requires a.CloseResults? || a.Take? || a.EndCollect? || a.GroupDone? || a.CancelOuter? || a.CancelInner?
    requires CallStep(c, a).Some?
    ensures SameBasics(c, a, CallStep(c, a).value)
  {
  }

  lemma {:induction false} RunUncancelled(s: Topo, c: nat, acts: seq<TopoAction>)
    requires c < |s.calls| && Run(s, acts).Some? && forall a :: a in acts ==> !Cancels(a, c)
    ensures |Run(s, acts).value.calls| == |s.calls|
    ensures Run(s, acts).value.calls[c].outerDone == s.calls[c].outerDone
    decreases |acts|
  {
    if acts != [] {
      assert acts[0] in acts;
      OtherStep(s, c, acts[0]);
      RunUncancelled(Step(s, acts[0]).value, c, acts[1..]);
    }
  }

  ghost predicate HangsAfter(s: Topo, c: nat, acts: seq<TopoAction>) {
    && (forall a :: a in acts ==> !Cancels(a, c))
    && Run(s, acts).Some? && c < |Run(s, acts).value.calls| && Hung(Run(s, acts).value.calls[c])
  }

  /** Some run, in which its caller does not cancel any more, leaves the call hung. */
  ghost predicate CanHang(s: Topo, c: nat) {
    exists acts :: HangsAfter(s, c, acts)
  }

  /** A call whose caller has not cancelled and does not cancel never hangs, whatever stage it is in. */
  lemma UncancelledNeverHangs(s: Topo, c: nat)
    requires Reachable(s) && c < |s.calls| && !s.calls[c].outerDone
    ensures !CanHang(s, c)
  {
    ReachableInv(s);
    forall acts ensures !HangsAfter(s, c, acts) {
      if HangsAfter(s, c, acts) {
        RunUncancelled(s, c, acts);
        RunKeeps(s, acts);
        HungWasCancelled(Run(s, acts).value.calls[c]);
      }
    }
  }

  /** A cancelled call that waits for its result, left alone with its own task, hangs. */
  lemma {:induction false} HangingRun(s: Topo, c: nat) returns (acts: seq<TopoAction>)
    requires Inv(s) && c < |s.calls| && s.calls[c].kind.Single? && s.calls[c].stage.AwaitResult? && s.calls[c].outerDone
    ensures forall a :: a in acts ==> a.InCall? && a.c == c && !a.a.CancelOuter?
    ensures Run(s, acts).Some? && c < |Run(s, acts).value.calls| && Hung(Run(s, acts).value.calls[c])
    decreases CallWork(s.calls[c])
  {
    if Hung(s.calls[c]) {
      acts := [];
    } else {
      var ca := DropStep(s.calls[c]);
      CallActs(s, c, ca);
      CallStepWorks(s.calls[c], ca);
      var s' := Step(s, InCall(c, ca)).value;
      NotedFrame(SetCall(s, c, CallStep(s.calls[c], ca).value), s.calls[c], ca);
      StepKeeps(s, InCall(c, ca));
      var rest := HangingRun(s', c);
      acts := [InCall(c, ca)] + rest;
      assert acts[1..] == rest;
    }
  }

  /**
   A Resolve that waits for its result may end up waiting for ever if and only if its caller's context is done:
   cancelled while the task runs, it can hang; not cancelled, it never does.
   */
  lemma HangsIff(s: Topo, c: nat)
    requires Reachable(s) && c < |s.calls| && s.calls[c].kind.Single? && s.calls[c].stage.AwaitResult?
    ensures CanHang(s, c) <==> s.calls[c].outerDone
    ensures s.calls[c].ctxDone ==> s.calls[c].outerDone
  {
    ReachableInv(s);
    assert CallInv(s.calls[c]);
    if s.calls[c].outerDone {
      var acts := HangingRun(s, c);
      assert HangsAfter(s, c, acts);
    } else {
      UncancelledNeverHangs(s, c);
    }
  }

  /** A hung Resolve stays hung in every future, and with it the read lock it holds. */
  lemma {:induction false} HungForever(s: Topo, c: nat, acts: seq<TopoAction>)
    requires Inv(s) && c < |s.calls| && Hung(s.calls[c]) && Run(s, acts).Some?
    ensures s.calls[c].outerDone
    ensures c < |Run(s, acts).value.calls| && Hung(Run(s, acts).value.calls[c])
    ensures Run(s, acts).value.gate.readers > 0
    decreases |acts|
  {
    HungWasCancelled(s.calls[c]);
    SumAtLeast(Reading, s.calls, c);
    if acts != [] {
      HungStays(s, c, acts[0]);
      StepKeeps(s, acts[0]);
      HungForever(Step(s, acts[0]).value, c, acts[1..]);
    }
  }

  lemma HungStays(s: Topo, c: nat, a: TopoAction)
    requires c < |s.calls| && CallInv(s.calls[c]) && Hung(s.calls[c]) && Step(s, a).Some?
    ensures c < |Step(s, a).value.calls| && Hung(Step(s, a).value.calls[c])
  {
    if a.InCall? {
      NotedFrame(SetCall(s, a.c, CallStep(s.calls[a.c], a.a).value), s.calls[a.c], a.a);
      if a.c == c {
        HungStep(s.calls[c], a.a);
      }
    }
  }

  // ----- every ResolveAll that was let in returns

  predicate LetIn(c: Call) {
    !c.stage.Idle?
  }

  /** While a ResolveAll holds the lock, something can move that is not the environment. */
  lemma BatchProgress(s: Topo, c: nat) returns (a: TopoAction)
    requires Reachable(s) && s.workers >= 1
    requires c < |s.calls| && s.calls[c].kind.Batch? && LetIn(s.calls[c]) && !s.calls[c].stage.Returned?
    ensures !ByEnvironment(a) && Step(s, a).Some?
  {
    a := Progress(s);
  }

  ghost predicate AtRest(s: Topo) {
    forall a :: Step(s, a).Some? ==> ByEnvironment(a)
  }

  lemma {:induction false} StaysLetIn(s: Topo, c: nat, acts: seq<TopoAction>)
    requires c < |s.calls| && LetIn(s.calls[c]) && Run(s, acts).Some?
    ensures c < |Run(s, acts).value.calls| && LetIn(Run(s, acts).value.calls[c])
    ensures Run(s, acts).value.calls[c].kind == s.calls[c].kind && Run(s, acts).value.workers == s.workers
    decreases |acts|
  {
    if acts != [] {
      OtherStep(s, c, acts[0]);
      StaysLetIn(Step(s, acts[0]).value, c, acts[1..]);
    }
  }

  lemma {:induction false} ReachRun(s: Topo, acts: seq<TopoAction>)
    requires Reachable(s) && Run(s, acts).Some?
    ensures Reachable(Run(s, acts).value)
    decreases |acts|
  {
    if acts != [] {
      ReachStep(s, acts[0]);
      ReachRun(Step(s, acts[0]).value, acts[1..]);
    }
  }

  /**
   With a worker or more, every run is finite, and one that goes on until only the environment could move ends
   with every ResolveAll returned that was let in: whatever is cancelled, hung, or waiting to shut down.
   */
  lemma BatchesReturn(s: Topo, c: nat, acts: seq<TopoAction>)
    requires Reachable(s) && s.workers >= 1 && c < |s.calls| && s.calls[c].kind.Batch? && LetIn(s.calls[c])
    requires Run(s, acts).Some?
    ensures |acts| <= TopoWork(s)
    ensures AtRest(Run(s, acts).value) ==>
      c < |Run(s, acts).value.calls| && Run(s, acts).value.calls[c].stage.Returned?
  {
    ReachableInv(s);
    RunsAreBounded(s, acts);
    var r := Run(s, acts).value;
    StaysLetIn(s, c, acts);
    ReachRun(s, acts);
    if AtRest(r) && !r.calls[c].stage.Returned? {
      var a := BatchProgress(r, c);
      assert false;
    }
  }

  // ----- the jam is real, and for ever

  predicate Blocked(s: Topo, c: nat, k: nat) {
    && c < |s.calls| && Hung(s.calls[c])
    && k < |s.gate.shutdowns| && s.gate.shutdowns[k].Pending? && s.gate.writer == Some(k)
  }

  /** No call that had not started has started. */
  predicate StillIdle(s: Topo, s': Topo) {
    && |s'.calls| == |s.calls|
    && forall d :: 0 <= d < |s.calls| && s.calls[d].stage.Idle? ==> s'.calls[d].stage.Idle?
  }

  lemma BlockedStep(s: Topo, c: nat, k: nat, a: TopoAction)
    requires Inv(s) && Blocked(s, c, k) && Step(s, a).Some?
    ensures Blocked(Step(s, a).value, c, k)
    ensures StillIdle(s, Step(s, a).value)
  {
    SumAtLeast(Reading, s.calls, c);
    if a.InCall? {
      if a.c == c {
        HungStep(s.calls[c], a.a);
      }
      NotedFrame(SetCall(s, a.c, CallStep(s.calls[a.c], a.a).value), s.calls[a.c], a.a);
      if s.calls[a.c].stage.Idle? {
        IdleStays(s.calls[a.c], a.a);
      }
    } else if !a.StartCall? && !a.FinishCall? {
      GateStuck(s.gate, s.offline, k, a);
      assert false;
    }
  }

  /** While a writer waits and readers remain, no Shutdown can take a step. */
  lemma GateStuck(g: Gate, offline: seq<nat>, k: nat, a: TopoAction)
    requires forall j :: 0 <= j < |g.shutdowns| ==> ShutOk(g, j)
    requires k < |g.shutdowns| && g.shutdowns[k].Pending? && g.writer == Some(k) && g.readers > 0
    ensures GateStep(g, offline, a).None?
  {
    if !a.StartCall? && !a.FinishCall? && !a.InCall? && a.k < |g.shutdowns| {
      assert ShutOk(g, a.k);
    }
  }

  lemma IdleStays(c: Call, a: CallAction)
    requires CallInv(c) && c.stage.Idle? && CallStep(c, a).Some?
    ensures CallStep(c, a).value.stage.Idle?
  {
  }

  /** Once a Shutdown waits for a hung Resolve, no call that has not started ever starts. */
  lemma {:induction false} BlockedForever(s: Topo, c: nat, k: nat, acts: seq<TopoAction>)
    requires Inv(s) && Blocked(s, c, k) && Run(s, acts).Some?
    ensures Blocked(Run(s, acts).value, c, k)
    ensures StillIdle(s, Run(s, acts).value)
    decreases |acts|
  {
    if acts != [] {
      var s1 := Step(s, acts[0]).value;
      BlockedStep(s, c, k, acts[0]);
      StepKeeps(s, acts[0]);
      BlockedForever(s1, c, k, acts[1..]);
    }
  }

  lemma RunThen(s0: Topo, acts: seq<TopoAction>, s: Topo, a: TopoAction)
    requires Run(s0, acts) == Some(s) && Step(s, a).Some?
    ensures Run(s0, acts + [a]) == Step(s, a)
    decreases |acts|
  {
    if acts == [] {
      assert acts + [a] == [a];
      assert [a][1..] == [];
    } else {
      assert (acts + [a])[1..] == acts[1..] + [a];
      RunThen(Step(s0, acts[0]).value, acts[1..], s, a);
    }
  }

  lemma ReachStep(s: Topo, a: TopoAction)
    requires Reachable(s) && Step(s, a).Some?
    ensures Reachable(Step(s, a).value)
  {
    var s0, acts :| Initial(s0) && Run(s0, acts) == Some(s);
    RunThen(s0, acts, s, a);
  }

  /** A step of the first of two calls that neither the pool nor the counters take note of. */
  lemma ReachCall(s: Topo, ca: CallAction, call: Call) returns (s': Topo)
    requires Reachable(s) && |s.calls| == 2
    requires CallStep(s.calls[0], ca) == Some(call)
    requires !ca.Begin? && !ca.Accept? && !ca.Free? && !(ca.InTask? && ca.a.LookupReturns?)
    ensures Reachable(s') && s' == s.(calls := [call, s.calls[1]])
  {
    ReachStep(s, InCall(0, ca));
    s' := Step(s, InCall(0, ca)).value;
    assert s.calls[0 := call] == [call, s.calls[1]];
  }

  lemma Only<T>(x: T, y: T)
    ensures [x][0 := y] == [y]
  {
  }

  function JamStart(): Topo {
    Topo(1, 0, [Fresh(Single, [[]], []), Fresh(Batch, [[]], [])],
         Gate(0, None, [Outside], false, false, false, []), Books(map[], map[], map[], map[]), {}, [])
  }

  lemma ReachEntered() returns (s: Topo)
    ensures Reachable(s)
    ensures s == JamStart().(calls := [Fresh(Single, [[]], []).(stage := Entered), Fresh(Batch, [[]], [])],
                             gate := Gate(1, None, [Outside], false, false, false, []))
  {
    var s0 := JamStart();
    assert Initial(s0) && Run(s0, []) == Some(s0);
    ReachStep(s0, StartCall(0));
    s := Step(s0, StartCall(0)).value;
  }

  lemma ReachScheduling() returns (s: Topo)
    ensures Reachable(s)
    ensures s == JamStart().(calls := [Fresh(Single, [[]], []).(stage := Scheduling), Fresh(Batch, [[]], [])],
                             gate := Gate(1, None, [Outside], false, false, false, []))
  {
    var s0 := ReachEntered();
    ReachStep(s0, InCall(0, Begin(false)));
    s := Step(s0, InCall(0, Begin(false))).value;
  }

  /** One worker, no provider: a Resolve whose task has been accepted when its context is cancelled. */
  lemma ReachAccepted() returns (s: Topo)
    ensures Reachable(s) && |s.calls| == 2 && s.busy == 1 && s.gate == Gate(1, None, [Outside], false, false, false, [])
    ensures s.calls[0] == AcceptedCall() && s.calls[1].stage.Idle? && s.calls[1].kind.Batch?
  {
    var s2 := ReachScheduling();
    var s3 := ReachCall(s2, CheckCtx, s2.calls[0].(wg := 1, stage := Invoking));
    ReachStep(s3, InCall(0, Accept));
    s := Step(s3, InCall(0, Accept)).value;
    assert s.calls[0].tasks == [NewTask([], [])];
  }

  function AcceptedCall(): Call {
    Call(Single, [[]], [], AwaitResult, [NewTask([], [])], 1, [], false, false, [], map[[] := 0], false, false, false)
  }

  /** The call of AcceptedCall once its task has reached this stage. */
  function CallAt(stage: TaskStage, closed: bool, done: bool): Call {
    AcceptedCall().(tasks := [NewTask([], []).(stage := stage, closed := closed)], outerDone := done, ctxDone := done)
  }

  lemma ReachDraining() returns (s: Topo)
    ensures Reachable(s) && |s.calls| == 2 && s.busy == 1 && s.gate == Gate(1, None, [Outside], false, false, false, [])
    ensures s.calls[1].stage.Idle? && s.calls[1].kind.Batch? && s.calls[0] == CallAt(Draining, false, false)
  {
    var s0 := ReachAccepted();
    var t := NewTask([], []);
    Only(t, t.(stage := Draining));
    s := ReachCall(s0, InTask(0, BeginRange), CallAt(Draining, false, false));
  }

  lemma ReachClosedTask() returns (s: Topo)
    ensures Reachable(s) && |s.calls| == 2 && s.busy == 1 && s.gate == Gate(1, None, [Outside], false, false, false, [])
    ensures s.calls[1].stage.Idle? && s.calls[1].kind.Batch? && s.calls[0] == CallAt(Draining, true, false)
  {
    var s1 := ReachDraining();
    var t := NewTask([], []).(stage := Draining);
    Only(t, t.(closed := true));
    s := ReachCall(s1, InTask(0, CloseTask), CallAt(Draining, true, false));
  }

  lemma ReachMerging() returns (s: Topo)
    ensures Reachable(s) && |s.calls| == 2 && s.busy == 1 && s.gate == Gate(1, None, [Outside], false, false, false, [])
    ensures s.calls[1].stage.Idle? && s.calls[1].kind.Batch? && s.calls[0] == CallAt(Merging, true, false)
  {
    var s2 := ReachClosedTask();
    var t := NewTask([], []).(stage := Draining, closed := true);
    Only(t, t.(stage := Merging));
    s := ReachCall(s2, InTask(0, EndRange), CallAt(Merging, true, false));
  }

  lemma ReachCallerCancelled() returns (s: Topo)
    ensures Reachable(s) && |s.calls| == 2 && s.busy == 1 && s.gate == Gate(1, None, [Outside], false, false, false, [])
    ensures s.calls[1].stage.Idle? && s.calls[1].kind.Batch?
    ensures s.calls[0] == CallAt(Merging, true, false).(outerDone := true)
  {
    var s0 := ReachMerging();
    s := ReachCall(s0, CancelOuter, CallAt(Merging, true, false).(outerDone := true));
  }

  lemma ReachCancelled() returns (s: Topo)
    ensures Reachable(s) && |s.calls| == 2 && s.busy == 1 && s.gate == Gate(1, None, [Outside], false, false, false, [])
    ensures s.calls[1].stage.Idle? && s.calls[1].kind.Batch? && s.calls[0] == CallAt(Merging, true, true)
  {
    var s1 := ReachCallerCancelled();
    s := ReachCall(s1, CancelInner, CallAt(Merging, true, true));
  }

  lemma ReachDropped() returns (s: Topo)
    ensures Reachable(s) && |s.calls| == 2 && s.busy == 1 && s.gate == Gate(1, None, [Outside], false, false, false, [])
    ensures s.calls[1].stage.Idle? && s.calls[1].kind.Batch?
    ensures s.calls[0] == CallAt(Done(false), true, true).(wg := 0)
  {
    var s2 := ReachCancelled();
    var t := NewTask([], []).(closed := true);
    Only(t.(stage := Merging), t.(stage := Departing(false)));
    var s3 := ReachCall(s2, Abandon(0), CallAt(Departing(false), true, true));
    Only(t.(stage := Departing(false)), t.(stage := Done(false)));
    s := ReachCall(s3, TaskDone(0), CallAt(Done(false), true, true).(wg := 0));
  }

  /** A reachable jam: one cancelled Resolve and one Shutdown keep a later ResolveAll out for ever. */
  lemma JamReachable() returns (s: Topo)
    ensures Reachable(s) && Blocked(s, 0, 0) && |s.calls| == 2 && s.calls[1].kind.Batch?
    ensures forall acts :: Run(s, acts).Some? ==>
      |Run(s, acts).value.calls| == 2 && Run(s, acts).value.calls[1].stage.Idle?
  {
    var s0 := ReachDropped();
    ReachStep(s0, InCall(0, Free(0)));
    var s1 := Step(s0, InCall(0, Free(0))).value;
    ReachStep(s1, Announce(0));
    s := Step(s1, Announce(0)).value;
    IdleForever(s);
  }

  lemma IdleForever(s: Topo)
    requires Reachable(s) && Blocked(s, 0, 0) && |s.calls| == 2 && s.calls[1].stage.Idle?
    ensures forall acts :: Run(s, acts).Some? ==>
      |Run(s, acts).value.calls| == 2 && Run(s, acts).value.calls[1].stage.Idle?
  {
    ReachableInv(s);
    forall acts | Run(s, acts).Some?
      ensures |Run(s, acts).value.calls| == 2 && Run(s, acts).value.calls[1].stage.Idle?
    {
      BlockedForever(s, 0, 0, acts);
    }
  }

  // ----- the usage counters

  /** Lookups of provider p that the scheduled tasks of a call owe. */
  function Owed(p: nat): Call -> nat {
    (c: Call) => |c.tasks| * multiset(c.providers)[p]
  }

  /** The lookups of provider p in a task that have returned: without an error, or with one. */
  function Back(replies: seq<Option<Reply>>, providers: seq<nat>, p: nat, ok: bool): set<nat>
    requires |replies| == |providers|
  {
    set k: nat | k < |replies| && providers[k] == p && replies[k].Some? && replies[k].value.ok == ok
  }

  /** ReturnedIn counts exactly them. */
  lemma {:induction false} ReturnedCounts(replies: seq<Option<Reply>>, providers: seq<nat>, p: nat, ok: bool)
    requires |replies| == |providers|
    ensures ReturnedIn(replies, providers, p, ok) == |Back(replies, providers, p, ok)|
    decreases |replies|
  {
    if replies == [] {
      assert Back(replies, providers, p, ok) == {};
    } else {
      var n := |replies| - 1;
      ReturnedCounts(replies[..n], providers[..n], p, ok);
      BackGrows(replies, providers, p, ok);
    }
  }

  lemma BackGrows(replies: seq<Option<Reply>>, providers: seq<nat>, p: nat, ok: bool)
    requires |replies| == |providers| > 0
    ensures var n := |replies| - 1;
      |Back(replies, providers, p, ok)|
      == |Back(replies[..n], providers[..n], p, ok)| + (if Came(replies[n], providers[n], p, ok) then 1 else 0)
  {
    var n := |replies| - 1;
    var before, after := Back(replies[..n], providers[..n], p, ok), Back(replies, providers, p, ok);
    assert n !in before;
    forall k: nat ensures k in after <==> k in before || (k == n && Came(replies[n], providers[n], p, ok)) {
    }
    if Came(replies[n], providers[n], p, ok) {
      assert after == before + {n};
    } else {
      assert after == before;
    }
  }

  lemma {:induction false} AllReturned(replies: seq<Option<Reply>>, providers: seq<nat>, p: nat)
    requires |replies| == |providers| && forall k :: 0 <= k < |replies| ==> replies[k].Some?
    ensures ReturnedIn(replies, providers, p, true) + ReturnedIn(replies, providers, p, false) == multiset(providers)[p]
    decreases |replies|
  {
    if replies != [] {
      var n := |replies| - 1;
      AllReturned(replies[..n], providers[..n], p);
      assert providers == providers[..n] + [providers[n]];
    }
  }

  lemma {:induction false} TasksOwe(tasks: seq<Task>, providers: seq<nat>, p: nat)
    requires forall i :: 0 <= i < |tasks| ==>
      tasks[i].providers == providers && |tasks[i].replies| == |providers|
      && forall k :: 0 <= k < |tasks[i].replies| ==> tasks[i].replies[k].Some?
    ensures Sum(TaskReturned(p, true), tasks) + Sum(TaskReturned(p, false), tasks) == |tasks| * multiset(providers)[p]
    decreases |tasks|
  {
    if tasks != [] {
      assert forall i :: 0 <= i < |tasks| - 1 ==> tasks[1..][i] == tasks[i + 1];
      TasksOwe(tasks[1..], providers, p);
      AllReturned(tasks[0].replies, providers, p);
      var m := multiset(providers)[p];
      assert |tasks| * m == (|tasks| - 1) * m + m;
    }
  }

  lemma CallOwes(c: Call, p: nat)
    requires CallInv(c) && Quiet(c)
    ensures CallReturned(p, true)(c) + CallReturned(p, false)(c) == Owed(p)(c)
  {
    forall i | 0 <= i < |c.tasks|
      ensures c.tasks[i].providers == c.providers && |c.tasks[i].replies| == |c.providers|
      ensures forall k :: 0 <= k < |c.tasks[i].replies| ==> c.tasks[i].replies[k].Some?
    {
      assert TaskOk(c, i);
      forall k | 0 <= k < |c.tasks[i].replies| ensures c.tasks[i].replies[k].Some? {
        assert LookupOk(c.tasks[i], c.ctxDone, k);
      }
    }
    TasksOwe(c.tasks, c.providers, p);
  }

  lemma {:induction false} CallsOwe(calls: seq<Call>, p: nat)
    requires forall c :: 0 <= c < |calls| ==> CallInv(calls[c]) && Quiet(calls[c])
    ensures Sum(CallReturned(p, true), calls) + Sum(CallReturned(p, false), calls) == Sum(Owed(p), calls)
    decreases |calls|
  {
    if calls != [] {
      assert forall c :: 0 <= c < |calls| - 1 ==> calls[1..][c] == calls[c + 1];
      CallsOwe(calls[1..], p);
      CallOwes(calls[0], p);
    }
  }

  /**
   In every reachable state a provider's success counter is the number of its lookups that have returned without
   an error, and its failure counter the number of those that returned one, modulo 2^64.
   */
  lemma CountersExact(s: Topo, p: nat)
    requires Reachable(s)
    ensures Count(s.books.successes, p) == Sum(CallReturned(p, true), s.calls) % UINT64
    ensures Count(s.books.failures, p) == Sum(CallReturned(p, false), s.calls) % UINT64
  {
    ReachableInv(s);
    assert StatsOk(s, p);
  }

  predicate Counted(b: Books, p: nat, total: nat) {
    && Count(b.oks, p) + Count(b.errs, p) == total
    && Count(b.successes, p) == Count(b.oks, p) % UINT64
    && Count(b.failures, p) == Count(b.errs, p) % UINT64
  }

  lemma CountersOwed(s: Topo, p: nat)
    requires Reachable(s)
    requires forall c :: 0 <= c < |s.calls| ==> Quiet(s.calls[c])
    ensures Counted(s.books, p, Sum(Owed(p), s.calls))
  {
    ReachableInv(s);
    assert StatsOk(s, p);
    CallsOwe(s.calls, p);
  }

  /** The two counters of a provider against a number of lookups: modulo 2^64 always, and exactly below 2^64. */
  predicate Balanced(b: Books, p: nat, total: nat) {
    && (Count(b.successes, p) + Count(b.failures, p)) % UINT64 == total % UINT64
    && (total < UINT64 ==> Count(b.successes, p) + Count(b.failures, p) == total)
  }

  /** Two wrapped counters against the sum of what they count. */
  lemma Balance(b: Books, p: nat, total: nat)
    requires Counted(b, p, total)
    ensures Balanced(b, p, total)
  {
    ModSum(Count(b.oks, p), Count(b.errs, p));
  }

  /** Whenever no lookup is under way, each provider's two counters account for every scheduled lookup of it. */
  lemma CountersBalance(s: Topo, p: nat)
    requires Reachable(s)
    requires forall c :: 0 <= c < |s.calls| ==> Quiet(s.calls[c])
    ensures Balanced(s.books, p, Sum(Owed(p), s.calls))
  {
    CountersOwed(s, p);
    Balance(s.books, p, Sum(Owed(p), s.calls));
  }

  lemma ModSum(a: nat, b: nat)
    ensures (a % UINT64 + b % UINT64) % UINT64 == (a + b) % UINT64
  {
    var q := a / UINT64 + b / UINT64;
    var r := a % UINT64 + b % UINT64;
    assert a + b == q * UINT64 + r;
  }
}
