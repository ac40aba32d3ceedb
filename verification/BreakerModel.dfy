/**
 The circuit breaker of topolib/circuit_breaker.go as a transition system.

 The lock holder runs a list of micro-operations, one per step, so that the two atomics of the
 breaker (`state`, loaded without the lock, and `halfOpenAttempts`, swapped without the lock) can be
 touched by other goroutines between any two of its stores. Timers fire, contexts are cancelled
 and new calls arrive at any step.
 */
module BreakerModel {
  import opened Options

  const UINT32 := 0x1_0000_0000
  type uint32 = x: int | 0 <= x < 0x1_0000_0000

  datatype Phase = Closed | HalfOpened | Opened

  /** What a callback returns: no error, ErrCircuitBreakerIgnore, or any other error. */
  datatype Outcome = Success | Ignored | Failure

  predicate IsErrorOk(o: Outcome) {
    o.Success? || o.Ignored?
  }

  datatype TimerKind = HalfOpenKind | CleanupKind

  /** `Queued`: fired, its callback waits for the mutex. `Spent`: the callback has taken the mutex. */
  datatype TimerStatus = Armed | Stopped | Queued | Spent

  datatype Timer = Timer(kind: TimerKind, status: TimerStatus)

  /** Why `switchState` ran. `ClosedOk(k)`: a `doClosed` call that loaded the state when k events were logged. */
  datatype Cause = Boot | ClosedOk(loadedAt: nat) | Tripped | ProbeOk | ProbeFailed | CleanupTick | HalfOpenTick

  /**
   The history: recorded `doClosed` failures, `doClosed` calls that ended well (no error, or the ignored one) and
   took the mutex, and completed switches.
   */
  datatype Event = Failed | Passed | Switched(from: Phase, to: Phase, cause: Cause)

  /** The breaker's fields, the timers made so far and two histories: events, and resets of `halfOpenAttempts`. */
  datatype Fields = Fields(
    state: Phase,
    halfOpenTimer: Option<nat>,
    cleanupTimer: Option<nat>,
    attempts: uint32,
    failures: uint32,
    threshold: uint32,
    timers: seq<Timer>,
    log: seq<Event>,
    resets: nat)

  /** One indivisible operation of a critical section. The `If` ones test a field and go on with a switch or with nothing. */
  datatype Op =
    | StopHalfOpen
    | StopCleanup
    | EnsureHalfOpen
    | EnsureCleanup
    | ZeroFailures
    | ZeroAttempts
    | StoreState(to: Phase, cause: Cause)
    | CountFailure
    | IfTrips
    | IfHalfOpened(outcome: Outcome)
    | IfStillClosed
    | IfStillOpened

  function SwitchOps(to: Phase, cause: Cause): seq<Op> {
    (match to
     case Closed => [StopHalfOpen, EnsureCleanup]
     case HalfOpened => [StopCleanup, StopHalfOpen]
     case Opened => [StopCleanup, EnsureHalfOpen])
    + [ZeroFailures, ZeroAttempts, StoreState(to, cause)]
  }

  /** The critical sections of `doClosed`, `doHalfOpened`, `resetFailures` and `tryHalfOpen`. */
  function ClosedOps(o: Outcome, loadedAt: nat): seq<Op> {
    if IsErrorOk(o) then SwitchOps(Closed, ClosedOk(loadedAt)) else [CountFailure, IfTrips]
  }

  /** What taking the mutex after a callback adds to the history. */
  function Logged(f: Fields, route: Route, o: Outcome): Fields {
    match o
    case Failure => f
    case Success => if route.ViaClosed? then f.(log := f.log + [Passed]) else f
    case Ignored => if route.ViaClosed? then f.(log := f.log + [Passed]) else f
  }

  function ProbeOps(o: Outcome): seq<Op> {
    [IfHalfOpened(o)]
  }

  function TimerOps(kind: TimerKind): seq<Op> {
    match kind
    case CleanupKind => [StopCleanup, IfStillClosed]
    case HalfOpenKind => [IfStillOpened]
  }

  function Halt(timers: seq<Timer>, ref: Option<nat>): seq<Timer> {
    if ref.Some? && ref.value < |timers| && timers[ref.value].status.Armed?
    then timers[ref.value := timers[ref.value].(status := Stopped)]
    else timers
  }

  function ExecOp(op: Op, f: Fields): Fields {
    match op
    case StopHalfOpen => f.(timers := Halt(f.timers, f.halfOpenTimer), halfOpenTimer := None)
    case StopCleanup => f.(timers := Halt(f.timers, f.cleanupTimer), cleanupTimer := None)
    case EnsureHalfOpen =>
      if f.halfOpenTimer.None?
      then f.(halfOpenTimer := Some(|f.timers|), timers := f.timers + [Timer(HalfOpenKind, Armed)])
      else f
    case EnsureCleanup =>
      if f.cleanupTimer.None?
      then f.(cleanupTimer := Some(|f.timers|), timers := f.timers + [Timer(CleanupKind, Armed)])
      else f
    case ZeroFailures => f.(failures := 0)
    case ZeroAttempts => f.(attempts := 0, resets := f.resets + 1)
    case StoreState(to, cause) => f.(state := to, log := f.log + [Switched(f.state, to, cause)])
    case CountFailure => f.(failures := (f.failures + 1) % UINT32, log := f.log + [Failed])
    case _ => f
  }

  /** What a test puts in front of the rest of the critical section. */
  function Expand(op: Op, f: Fields): seq<Op> {
    match op
    case IfTrips =>
      if f.state == Closed && f.failures > f.threshold then SwitchOps(Opened, Tripped) else []
    case IfHalfOpened(o) =>
      if f.state != HalfOpened then []
      else if IsErrorOk(o) then SwitchOps(Closed, ProbeOk)
      else SwitchOps(Opened, ProbeFailed)
    case IfStillClosed => if f.state == Closed then SwitchOps(Closed, CleanupTick) else []
    case IfStillOpened => if f.state == Opened then SwitchOps(HalfOpened, HalfOpenTick) else []
    case _ => []
  }

  function OpWeight(op: Op): nat {
    if op.IfTrips? || op.IfHalfOpened? || op.IfStillClosed? || op.IfStillOpened? then 6 else 1
  }

  function Weight(prog: seq<Op>): nat {
    if prog == [] then 0 else OpWeight(prog[0]) + Weight(prog[1..])
  }

  lemma {:induction false} WeightConcat(a: seq<Op>, b: seq<Op>)
    ensures Weight(a + b) == Weight(a) + Weight(b)
  {
    if a == [] {
      assert a + b == b;
    } else {
      assert (a + b)[1..] == a[1..] + b;
      WeightConcat(a[1..], b);
    }
  }

  lemma WeightFive(a: Op, b: Op, c: Op, d: Op, e: Op)
    requires forall op :: op in {a, b, c, d, e} ==> OpWeight(op) == 1
    ensures Weight([a, b, c, d, e]) == 5
  {
    assert [a, b, c, d, e][1..] == [b, c, d, e];
    assert [b, c, d, e][1..] == [c, d, e];
    assert [c, d, e][1..] == [d, e];
    assert [d, e][1..] == [e];
    assert a in {a, b, c, d, e} && b in {a, b, c, d, e} && c in {a, b, c, d, e};
    assert d in {a, b, c, d, e} && e in {a, b, c, d, e};
    calc {
      Weight([a, b, c, d, e]);
      1 + Weight([b, c, d, e]);
      2 + Weight([c, d, e]);
      3 + Weight([d, e]);
      4 + Weight([e]);
      5;
    }
  }

  lemma SwitchWeight(to: Phase, cause: Cause)
    ensures Weight(SwitchOps(to, cause)) == 5
  {
    match to
    case Closed => WeightFive(StopHalfOpen, EnsureCleanup, ZeroFailures, ZeroAttempts, StoreState(to, cause));
    case HalfOpened => WeightFive(StopCleanup, StopHalfOpen, ZeroFailures, ZeroAttempts, StoreState(to, cause));
    case Opened => WeightFive(StopCleanup, EnsureHalfOpen, ZeroFailures, ZeroAttempts, StoreState(to, cause));
  }

  lemma StepLighter(prog: seq<Op>, f: Fields)
    requires prog != []
    ensures Weight(Expand(prog[0], f) + prog[1..]) < Weight(prog)
  {
    WeightConcat(Expand(prog[0], f), prog[1..]);
    SwitchWeight(Opened, Tripped);
    SwitchWeight(Closed, ProbeOk);
    SwitchWeight(Opened, ProbeFailed);
    SwitchWeight(Closed, CleanupTick);
    SwitchWeight(HalfOpened, HalfOpenTick);
  }

  /** The rest of a critical section run to its end with nobody interfering. */
  function Exec(prog: seq<Op>, f: Fields): Fields
    decreases Weight(prog)
  {
    if prog == [] then f
    else
      StepLighter(prog, f);
      Exec(Expand(prog[0], f) + prog[1..], ExecOp(prog[0], f))
  }

  // ----- calls and the whole system

  datatype Route = Unrouted | ViaClosed | ViaHalfOpened

  /** `CtxDone`: ended in a `ctx.Done()` branch. `Rejected`: ErrCircuitBreakerOpened. */
  datatype Stage =
    | Entering
    | Loaded
    | Calling
    | Returned(outcome: Outcome)
    | Waiting(outcome: Outcome)
    | InCritical
    | Completed
    | CtxDone
    | Rejected

  /** `epoch`: number of resets of `halfOpenAttempts` made before this call won the swap. */
  datatype Call = Call(route: Route, stage: Stage, cancelled: bool, loadedAt: nat, epoch: Option<nat>)

  datatype Owner = CallOwner(call: nat) | TimerOwner(timer: nat)

  datatype Sys = Sys(f: Fields, lock: Option<Owner>, prog: seq<Op>, calls: seq<Call>, lastProbe: nat)

  datatype Action =
    | NewCall
    | CancelCtx(c: nat)
    | Load(c: nat)
    | Swap(c: nat)
    | CallbackReturns(c: nat, outcome: Outcome)
    | FirstSelect(c: nat)
    | SelectDone(c: nat)
    | CallLocks(c: nat)
    | Fire(t: nat)
    | TimerLocks(t: nat)
    | RunOp
    | Unlock

  function SetStage(s: Sys, c: nat, stage: Stage): Sys
    requires c < |s.calls|
  {
    s.(calls := s.calls[c := s.calls[c].(stage := stage)])
  }

  function SetStatus(f: Fields, t: nat, status: TimerStatus): Fields
    requires t < |f.timers|
  {
    f.(timers := f.timers[t := f.timers[t].(status := status)])
  }

  /** One step; None when the action cannot be taken in s. */
  function Apply(s: Sys, a: Action): Option<Sys> {
    match a
    case NewCall => Some(s.(calls := s.calls + [Call(Unrouted, Entering, false, 0, None)]))
    case CancelCtx(c) =>
      if c < |s.calls| && !s.calls[c].cancelled
      then Some(s.(calls := s.calls[c := s.calls[c].(cancelled := true)]))
      else None
    case Load(c) =>
      if !(c < |s.calls| && s.calls[c].stage.Entering?) then None
      else
        var call := s.calls[c].(loadedAt := |s.f.log|);
        (match s.f.state
         case Closed => Some(s.(calls := s.calls[c := call.(route := ViaClosed, stage := Calling)]))
         case HalfOpened => Some(s.(calls := s.calls[c := call.(route := ViaHalfOpened, stage := Loaded)]))
         case Opened => Some(s.(calls := s.calls[c := call.(stage := Rejected)])))
    case Swap(c) =>
      if !(c < |s.calls| && s.calls[c].stage.Loaded?) then None
      else if s.f.attempts != 0 then Some(SetStage(s, c, Rejected))
      else Some(s.(f := s.f.(attempts := 1),
                   calls := s.calls[c := s.calls[c].(stage := Calling, epoch := Some(s.f.resets))],
                   lastProbe := c))
    case CallbackReturns(c, o) =>
      if c < |s.calls| && s.calls[c].stage.Calling? then Some(SetStage(s, c, Returned(o))) else None
    case FirstSelect(c) =>
      if !(c < |s.calls| && s.calls[c].stage.Returned?) then None
      else if s.calls[c].cancelled then Some(SetStage(s, c, CtxDone))
      else Some(SetStage(s, c, Waiting(s.calls[c].stage.outcome)))
    case SelectDone(c) =>
      if c < |s.calls| && s.calls[c].stage.Waiting? && s.calls[c].cancelled
      then Some(SetStage(s, c, CtxDone))
      else None
    case CallLocks(c) =>
      if !(c < |s.calls| && s.calls[c].stage.Waiting? && s.lock.None?) then None
      else
        var call := s.calls[c];
        var prog := if call.route.ViaClosed? then ClosedOps(call.stage.outcome, call.loadedAt)
                    else ProbeOps(call.stage.outcome);
        Some(SetStage(s, c, InCritical).(f := Logged(s.f, call.route, call.stage.outcome),
                                         lock := Some(CallOwner(c)),
                                         prog := prog))
    case Fire(t) =>
      if t < |s.f.timers| && s.f.timers[t].status.Armed?
      then Some(s.(f := SetStatus(s.f, t, Queued)))
      else None
    case TimerLocks(t) =>
      if t < |s.f.timers| && s.f.timers[t].status.Queued? && s.lock.None?
      then Some(s.(f := SetStatus(s.f, t, Spent),
                   lock := Some(TimerOwner(t)),
                   prog := TimerOps(s.f.timers[t].kind)))
      else None
    case RunOp =>
      if s.prog == [] then None
      else Some(s.(f := ExecOp(s.prog[0], s.f), prog := Expand(s.prog[0], s.f) + s.prog[1..]))
    case Unlock =>
      if !(s.lock.Some? && s.prog == []) then None
      else if s.lock.value.CallOwner? && s.lock.value.call < |s.calls|
      then Some(SetStage(s, s.lock.value.call, Completed).(lock := None))
      else Some(s.(lock := None))
  }

  function Run(s: Sys, acts: seq<Action>): Option<Sys>
    decreases |acts|
  {
    if acts == [] then Some(s)
    else
      var r := Apply(s, acts[0]);
      if r.None? then None else Run(r.value, acts[1..])
  }

  /** A zeroed struct and the switch to Closed made by `newCircuitBreaker`. */
  function Zeroed(threshold: uint32): Fields {
    Fields(Closed, None, None, 0, 0, threshold, [], [], 0)
  }

  function Init(threshold: uint32): Sys {
    Sys(Exec(SwitchOps(Closed, Boot), Zeroed(threshold)), None, [], [], 0)
  }

  lemma {:induction false} RunConcat(s: Sys, a: seq<Action>, b: seq<Action>)
    requires Run(s, a).Some?
    ensures Run(s, a + b) == Run(Run(s, a).value, b)
    decreases |a|
  {
    if a == [] {
      assert a + b == b;
    } else {
      assert (a + b)[1..] == a[1..] + b;
      RunConcat(Apply(s, a[0]).value, a[1..], b);
    }
  }
}
