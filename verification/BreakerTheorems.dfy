/** Properties of every run of the circuit breaker, and exactly when it can leave HalfOpened. */
module BreakerTheorems {
  import opened Options
  import opened BreakerModel
  import opened BreakerInvariant

  ghost predicate Reachable(s: Sys, threshold: uint32) {
    exists acts :: Run(Init(threshold), acts) == Some(s)
  }

  lemma ReachableInv(s: Sys, threshold: uint32)
    requires Reachable(s, threshold)
    ensures Inv(s)
  {
    var acts :| Run(Init(threshold), acts) == Some(s);
    InitKeeps(threshold);
    RunKeeps(Init(threshold), acts);
  }

  lemma {:induction false} ThresholdFixed(s: Sys, acts: seq<Action>)
    requires Run(s, acts).Some?
    ensures Run(s, acts).value.f.threshold == s.f.threshold
    decreases |acts|
  {
    if acts != [] {
      ThresholdFixed(Apply(s, acts[0]).value, acts[1..]);
    }
  }

  lemma ReachableThreshold(s: Sys, threshold: uint32)
    requires Reachable(s, threshold)
    ensures s.f.threshold == threshold
  {
    var acts :| Run(Init(threshold), acts) == Some(s);
    ThresholdFixed(Init(threshold), acts);
    ExecSwitch(Closed, Boot, Zeroed(threshold));
  }

  /** A timer reference that is set, of the right kind, and whose callback is still to come. */
  predicate Pending(f: Fields, ref: Option<nat>, kind: TimerKind) {
    && ref.Some? && ref.value < |f.timers|
    && f.timers[ref.value].kind == kind
    && f.timers[ref.value].status in {Armed, Queued}
  }

  /** At every point where the mutex is free the phase fixes the timers, and no wake-up has been lost. */
  lemma TimersFollowPhase(s: Sys, threshold: uint32)
    requires Reachable(s, threshold) && s.lock.None?
    ensures s.f.halfOpenTimer.Some? <==> s.f.state == Opened
    ensures s.f.cleanupTimer.Some? <==> s.f.state == Closed
    ensures s.f.state == Opened ==> Pending(s.f, s.f.halfOpenTimer, HalfOpenKind)
    ensures s.f.state == Closed ==> Pending(s.f, s.f.cleanupTimer, CleanupKind)
    ensures s.f.state == Closed ==> s.f.failures <= threshold
  {
    ReachableInv(s, threshold);
    ReachableThreshold(s, threshold);
    assert Exec(s.prog, s.f) == s.f;
  }

  /** The counter is the number of failures recorded since the last switch, modulo 2^32; while Closed it never wraps. */
  lemma FailuresCounted(s: Sys, threshold: uint32)
    requires Reachable(s, threshold) && s.lock.None?
    ensures s.f.failures == Recorded(s.f.log) % UINT32
    ensures s.f.state == Closed && threshold < UINT32 - 1 ==> s.f.failures == Recorded(s.f.log)
  {
    ReachableInv(s, threshold);
    ReachableThreshold(s, threshold);
    assert Exec(s.prog, s.f) == s.f;
  }

  /** Exec only appends to the history. */
  lemma {:induction false} ExecExtends(prog: seq<Op>, f: Fields)
    ensures |f.log| <= |Exec(prog, f).log| && Exec(prog, f).log[..|f.log|] == f.log
    ensures Exec(prog, f).threshold == f.threshold
    decreases Weight(prog)
  {
    if prog != [] {
      StepLighter(prog, f);
      var g := ExecOp(prog[0], f);
      assert g.log[..|f.log|] == f.log;
      ExecExtends(Expand(prog[0], f) + prog[1..], g);
      var l := Exec(prog, f).log;
      assert l[..|f.log|] == l[..|g.log|][..|f.log|];
    }
  }

  /** The history of a reachable state is in order, also in the middle of a critical section. */
  lemma HistoryAlwaysOk(s: Sys, threshold: uint32)
    requires Reachable(s, threshold)
    ensures |s.f.log| > 0 ==> LogOk(s.f.log, threshold)
  {
    ReachableInv(s, threshold);
    ReachableThreshold(s, threshold);
    ExecExtends(s.prog, s.f);
    var l := Exec(s.prog, s.f).log;
    forall i | 0 <= i < |s.f.log| && s.f.log[i].Switched? ensures SwitchOk(s.f.log, i, threshold) {
      assert SwitchOk(l, i, threshold);
      assert l[i] == s.f.log[i];
      assert l[..i] == s.f.log[..i];
      if l[i].cause.ClosedOk? {
        var k := l[i].cause.loadedAt;
        assert l[..k] == s.f.log[..k];
        assert l[i - 1] == s.f.log[i - 1];
      }
      if l[i].cause.Tripped? {
        assert forall j :: 0 <= j < i ==> l[j] == s.f.log[j];
      }
    }
    assert |s.f.log| > 0 ==> l[0] == s.f.log[0];
    forall i | 0 <= i < |s.f.log| - 1 && s.f.log[i].Passed?
      ensures s.f.log[i + 1].Switched? && s.f.log[i + 1].cause.ClosedOk?
    {
      assert l[i] == s.f.log[i] && l[i + 1] == s.f.log[i + 1];
    }
  }

  /**
   Every doClosed call that ended well and took the mutex closes the breaker before anything else is recorded,
   whatever the phase it finds.
   */
  lemma SuccessCloses(s: Sys, threshold: uint32, i: nat)
    requires Reachable(s, threshold) && i < |s.f.log| && s.f.log[i].Passed?
    ensures s.lock.None? ==> i + 1 < |s.f.log|
    ensures i + 1 < |s.f.log| ==> s.f.log[i + 1].Switched? && s.f.log[i + 1].to == Closed
  {
    ReachableInv(s, threshold);
    assert s.lock.None? ==> Exec(s.prog, s.f) == s.f;
    HistoryAlwaysOk(s, threshold);
    if i + 1 < |s.f.log| {
      assert SwitchOk(s.f.log, i + 1, threshold);
    }
  }

  /**
   What reaches the history, step by step: a call that loaded Closed and ended without an error or with the
   ignored one is on record the moment it takes the mutex, and nothing else is recorded as such.
   */
  lemma PassedIsRecorded(s: Sys, a: Action)
    requires Apply(s, a).Some?
    ensures var log := Apply(s, a).value.f.log;
      if a.CallLocks? && s.calls[a.c].route.ViaClosed? && !s.calls[a.c].stage.outcome.Failure?
      then log == s.f.log + [Passed]
      else log == s.f.log || (|log| == |s.f.log| + 1 && log[..|s.f.log|] == s.f.log && !log[|s.f.log|].Passed?)
  {
  }

  /** A call that loaded Opened is rejected: it runs no callback, ever. One that loaded another phase takes that phase's route. */
  lemma RouteFollowsLoad(s: Sys, threshold: uint32, c: nat)
    requires Reachable(s, threshold) && c < |s.calls| && !s.calls[c].stage.Entering?
    ensures s.calls[c].loadedAt <= |s.f.log|
    ensures match PhaseOf(s.f.log[..s.calls[c].loadedAt])
      case Opened => s.calls[c].stage.Rejected?
      case Closed => s.calls[c].route.ViaClosed?
      case HalfOpened => s.calls[c].route.ViaHalfOpened?
  {
    ReachableInv(s, threshold);
    assert CallOk(s.calls[c], s.f.log);
  }

  /**
   The breaker opens from Closed exactly on failure number threshold + 1 in a row after a switch to Closed: the
   events between are failures, none of them a call that ended well and none a switch.
   */
  lemma TripHistory(s: Sys, threshold: uint32, i: nat)
    requires Reachable(s, threshold)
    requires i < |s.f.log| && s.f.log[i].Switched? && s.f.log[i].from == Closed && s.f.log[i].to == Opened
    ensures i >= threshold + 2
    ensures forall j :: i - (threshold + 1) <= j < i ==> s.f.log[j].Failed?
    ensures s.f.log[i - (threshold + 1) - 1].Switched? && s.f.log[i - (threshold + 1) - 1].to == Closed
  {
    HistoryAlwaysOk(s, threshold);
    assert SwitchOk(s.f.log, i, threshold);
  }

  /** The last switch at or after position k, when the phase changed in between. */
  lemma {:induction false} PhaseChanged(log: seq<Event>, k: nat)
    requires k <= |log| && PhaseOf(log[..k]) != PhaseOf(log)
    ensures exists j :: k <= j < |log| && log[j].Switched? && log[j].to == PhaseOf(log)
    decreases |log|
  {
    var n := |log| - 1;
    assert log[..|log|] == log;
    if !log[n].Switched? {
      assert log[..n][..k] == log[..k];
      PhaseChanged(log[..n], k);
      var j :| k <= j < n && log[..n][j].Switched? && log[..n][j].to == PhaseOf(log[..n]);
      assert log[j].Switched?;
    } else {
      assert log[n].Switched?;
    }
  }

  predicate LegalSwitch(from: Phase, to: Phase) {
    match from
    case Closed => to != HalfOpened
    case HalfOpened => to != HalfOpened
    case Opened => to != Opened
  }

  /**
   Closed never goes straight to HalfOpened. An Opened to Closed jump is made by a successful or ignored
   `doClosed` call that loaded Closed before the breaker opened.
   */
  lemma PhaseSequence(s: Sys, threshold: uint32, i: nat)
    requires Reachable(s, threshold) && i < |s.f.log| && s.f.log[i].Switched?
    ensures LegalSwitch(s.f.log[i].from, s.f.log[i].to)
    ensures s.f.log[i].from == PhaseOf(s.f.log[..i])
    ensures s.f.log[i].from == Opened && s.f.log[i].to == Closed ==>
      && s.f.log[i].cause.ClosedOk?
      && s.f.log[i].cause.loadedAt <= i
      && PhaseOf(s.f.log[..s.f.log[i].cause.loadedAt]) == Closed
      && exists j :: s.f.log[i].cause.loadedAt <= j < i && s.f.log[j].Switched? && s.f.log[j].to == Opened
  {
    HistoryAlwaysOk(s, threshold);
    var log := s.f.log;
    assert SwitchOk(log, i, threshold);
    if log[i].from == Opened && log[i].to == Closed {
      var k := log[i].cause.loadedAt;
      assert log[..i][..k] == log[..k];
      PhaseChanged(log[..i], k);
      var j :| k <= j < i && log[..i][j].Switched? && log[..i][j].to == Opened;
      assert log[j].Switched?;
    }
  }

  /** Two admitted callbacks are separated by a reset; and no admission is newer than the resets made. */
  lemma OneProbePerReset(s: Sys, threshold: uint32, c: nat, d: nat)
    requires Reachable(s, threshold)
    requires c < |s.calls| && d < |s.calls| && c != d
    requires s.calls[c].epoch.Some? && s.calls[d].epoch.Some?
    ensures s.calls[c].epoch.value != s.calls[d].epoch.value
    ensures s.calls[c].epoch.value == s.f.resets ==> s.f.attempts == 1
  {
    ReachableInv(s, threshold);
    assert EpochOk(s.f, s.calls, s.lastProbe, c);
    if c < d {
      assert s.calls[c].epoch != s.calls[d].epoch;
    } else {
      assert s.calls[d].epoch != s.calls[c].epoch;
    }
  }

  /** In HalfOpened with the attempt used, the probe of this period is in flight or was cancelled. */
  lemma ProbeAccounted(s: Sys, threshold: uint32)
    requires Reachable(s, threshold) && s.lock.None?
    requires s.f.state == HalfOpened && s.f.attempts == 1
    ensures exists c :: (
      && 0 <= c < |s.calls| && s.calls[c].epoch == Some(s.f.resets)
      && (InFlight(s.calls[c].stage) || s.calls[c].stage.CtxDone?))
  {
    ReachableInv(s, threshold);
    assert Exec(s.prog, s.f) == s.f;
  }

  predicate Over(stage: Stage) {
    stage.Completed? || stage.CtxDone? || stage.Rejected?
  }

  lemma OverStep(s: Sys, a: Action, c: nat)
    requires LockOk(s) && Apply(s, a).Some? && c < |s.calls| && Over(s.calls[c].stage)
    ensures c < |Apply(s, a).value.calls|
    ensures Apply(s, a).value.calls[c].(cancelled := false) == s.calls[c].(cancelled := false)
  {
    if a.Unlock? {
      assert s.lock != Some(CallOwner(c));
    }
  }

  /** A finished call stays as it is: one that loaded Opened never runs its callback, one cancelled never records. */
  lemma {:induction false} FinishedCallsStay(s: Sys, acts: seq<Action>, c: nat)
    requires Inv(s) && Run(s, acts).Some? && c < |s.calls| && Over(s.calls[c].stage)
    ensures c < |Run(s, acts).value.calls|
    ensures Run(s, acts).value.calls[c].(cancelled := false) == s.calls[c].(cancelled := false)
    decreases |acts|
  {
    if acts != [] {
      StepKeeps(s, acts[0]);
      OverStep(s, acts[0], c);
      FinishedCallsStay(Apply(s, acts[0]).value, acts[1..], c);
    }
  }

  // ----- possible futures

  /** The lock holder can always run its section to the end. */
  lemma {:induction false} FinishSection(s: Sys) returns (acts: seq<Action>)
    ensures Run(s, acts) == Some(s.(f := Exec(s.prog, s.f), prog := []))
    ensures forall a :: a in acts ==> a == RunOp
    decreases Weight(s.prog)
  {
    if s.prog == [] {
      acts := [];
    } else {
      StepLighter(s.prog, s.f);
      var s' := Apply(s, RunOp).value;
      var rest := FinishSection(s');
      acts := [RunOp] + rest;
      assert acts[1..] == rest;
    }
  }

  lemma RunFirst(s: Sys, a: Action, rest: seq<Action>)
    requires Apply(s, a).Some?
    ensures Run(s, [a] + rest) == Run(Apply(s, a).value, rest)
  {
    assert ([a] + rest)[1..] == rest;
  }

  ghost predicate CanReach(s: Sys, phase: Phase) {
    exists acts :: Run(s, acts).Some? && Run(s, acts).value.f.state == phase
  }

  /** From every Opened state with a free mutex, the pending timer alone leads to HalfOpened. */
  lemma OpenedRecovers(s: Sys, threshold: uint32) returns (acts: seq<Action>)
    requires Reachable(s, threshold) && s.lock.None? && s.f.state == Opened
    ensures Run(s, acts).Some? && Run(s, acts).value.f.state == HalfOpened
    ensures s.f.halfOpenTimer.Some?
    ensures forall a :: a in acts ==> a in {RunOp, Fire(s.f.halfOpenTimer.value), TimerLocks(s.f.halfOpenTimer.value)}
  {
    ReachableInv(s, threshold);
    assert Exec(s.prog, s.f) == s.f;
    var t := s.f.halfOpenTimer.value;
    if s.f.timers[t].status == Armed {
      var s1 := Apply(s, Fire(t)).value;
      acts := LockAndHalfOpen(s1, t);
      RunFirst(s, Fire(t), acts);
      acts := [Fire(t)] + acts;
    } else {
      acts := LockAndHalfOpen(s, t);
    }
  }

  lemma LockAndHalfOpen(s: Sys, t: nat) returns (acts: seq<Action>)
    requires s.lock.None? && s.f.state == Opened
    requires t < |s.f.timers| && s.f.timers[t] == Timer(HalfOpenKind, Queued)
    ensures Run(s, acts).Some? && Run(s, acts).value.f.state == HalfOpened
    ensures forall a :: a in acts ==> a == RunOp || a == TimerLocks(t)
  {
    var s1 := Apply(s, TimerLocks(t)).value;
    acts := FinishSection(s1);
    HalfOpenTicks(s1.f);
    RunFirst(s, TimerLocks(t), acts);
    acts := [TimerLocks(t)] + acts;
  }

  lemma HalfOpenTicks(f: Fields)
    requires f.state == Opened
    ensures Exec([IfStillOpened], f) == Switch(HalfOpened, HalfOpenTick, f)
    ensures Exec([IfStillOpened], f).state == HalfOpened
  {
    ExecTest(IfStillOpened, f);
    ExecSwitch(HalfOpened, HalfOpenTick, f);
  }

  // ----- leaving HalfOpened

  /** The call can still reach a critical section that switches the breaker out of HalfOpened. */
  predicate Escaper(call: Call) {
    match call.stage
    case Calling => !call.cancelled
    case Returned(o) => !call.cancelled && (!call.route.ViaClosed? || IsErrorOk(o))
    case Waiting(o) => !call.route.ViaClosed? || IsErrorOk(o)
    case _ => false
  }

  /** Sections that do nothing to the phase while it is HalfOpened. */
  predicate Inert(op: Op) {
    op in {CountFailure, IfTrips, StopCleanup, IfStillClosed, IfStillOpened}
  }

  predicate Doomed(s: Sys) {
    && s.f.state == HalfOpened
    && s.f.attempts == 1
    && (forall op :: op in s.prog ==> Inert(op))
    && (forall c :: 0 <= c < |s.calls| ==> !Escaper(s.calls[c]))
  }

  lemma DoomedStep(s: Sys, a: Action)
    requires Doomed(s) && Apply(s, a).Some?
    ensures Doomed(Apply(s, a).value)
  {
    var s' := Apply(s, a).value;
    if a.RunOp? {
      assert Inert(s.prog[0]);
      assert s'.prog == s.prog[1..];
    }
    if a.CallLocks? {
      assert !Escaper(s.calls[a.c]);
    }
    forall c | 0 <= c < |s'.calls| ensures !Escaper(s'.calls[c]) {
      if c < |s.calls| {
        assert !Escaper(s.calls[c]);
      }
    }
  }

  lemma {:induction false} DoomedForever(s: Sys, acts: seq<Action>)
    requires Doomed(s) && Run(s, acts).Some?
    ensures Doomed(Run(s, acts).value)
    decreases |acts|
  {
    if acts != [] {
      DoomedStep(s, acts[0]);
      DoomedForever(Apply(s, acts[0]).value, acts[1..]);
    }
  }

  /** The swap is free again, and no call but c has moved. */
  predicate AttemptFreed(s: Sys, c: nat, r: Sys) {
    && r.f.attempts == 0
    && |r.calls| == |s.calls|
    && forall d :: 0 <= d < |s.calls| && d != c ==> r.calls[d] == s.calls[d]
  }

  lemma EscapeWaiting(s: Sys, c: nat) returns (acts: seq<Action>)
    requires s.lock.None? && s.f.state == HalfOpened
    requires c < |s.calls| && s.calls[c].stage.Waiting? && Escaper(s.calls[c])
    ensures Run(s, acts).Some? && Run(s, acts).value.f.state != HalfOpened
    ensures AttemptFreed(s, c, Run(s, acts).value)
  {
    var call := s.calls[c];
    var s1 := Apply(s, CallLocks(c)).value;
    acts := FinishSection(s1);
    if call.route.ViaClosed? {
      ExecSwitch(Closed, ClosedOk(call.loadedAt), s1.f);
    } else {
      ExecTest(IfHalfOpened(call.stage.outcome), s1.f);
      ExecSwitch(Closed, Cause.ProbeOk, s1.f);
      ExecSwitch(Opened, ProbeFailed, s1.f);
    }
    RunFirst(s, CallLocks(c), acts);
    acts := [CallLocks(c)] + acts;
  }

  lemma EscapeReturned(s: Sys, c: nat) returns (acts: seq<Action>)
    requires s.lock.None? && s.f.state == HalfOpened
    requires c < |s.calls| && s.calls[c].stage.Returned? && Escaper(s.calls[c])
    ensures Run(s, acts).Some? && Run(s, acts).value.f.state != HalfOpened
    ensures AttemptFreed(s, c, Run(s, acts).value)
  {
    acts := EscapeWaiting(Apply(s, FirstSelect(c)).value, c);
    RunFirst(s, FirstSelect(c), acts);
    acts := [FirstSelect(c)] + acts;
  }

  lemma EscapeCalling(s: Sys, c: nat) returns (acts: seq<Action>)
    requires s.lock.None? && s.f.state == HalfOpened
    requires c < |s.calls| && s.calls[c].stage.Calling? && Escaper(s.calls[c])
    ensures Run(s, acts).Some? && Run(s, acts).value.f.state != HalfOpened
    ensures AttemptFreed(s, c, Run(s, acts).value)
  {
    acts := EscapeReturned(Apply(s, CallbackReturns(c, Success)).value, c);
    RunFirst(s, CallbackReturns(c, Success), acts);
    acts := [CallbackReturns(c, Success)] + acts;
  }

  /** With the attempt unused, a new call becomes the probe. */
  lemma EscapeNew(s: Sys) returns (acts: seq<Action>)
    requires s.lock.None? && s.f.state == HalfOpened && s.f.attempts == 0
    ensures Run(s, acts).Some? && Run(s, acts).value.f.state != HalfOpened
  {
    var c := |s.calls|;
    var s1 := Apply(s, NewCall).value;
    var s2 := Apply(s1, Load(c)).value;
    var s3 := Apply(s2, Swap(c)).value;
    acts := EscapeCalling(s3, c);
    RunFirst(s2, Swap(c), acts);
    RunFirst(s1, Load(c), [Swap(c)] + acts);
    RunFirst(s, NewCall, [Load(c)] + ([Swap(c)] + acts));
    acts := [NewCall] + ([Load(c)] + ([Swap(c)] + acts));
  }

  /**
   HalfOpened can be left if and only if the attempt is unused or some call in flight can still switch.
   The program promises that HalfOpened ends with its one attempt; this is the condition for it.
   */
  lemma HalfOpenedExit(s: Sys, threshold: uint32)
    requires Reachable(s, threshold) && s.lock.None? && s.f.state == HalfOpened
    ensures (CanReach(s, Closed) || CanReach(s, Opened)) <==>
      (s.f.attempts == 0 || exists c :: 0 <= c < |s.calls| && Escaper(s.calls[c]))
  {
    ReachableInv(s, threshold);
    if s.f.attempts == 0 {
      var acts := EscapeNew(s);
      assert CanReach(s, Run(s, acts).value.f.state);
    } else if c :| 0 <= c < |s.calls| && Escaper(s.calls[c]) {
      var acts;
      match s.calls[c].stage {
        case Calling => acts := EscapeCalling(s, c);
        case Returned(_) => acts := EscapeReturned(s, c);
        case Waiting(_) => acts := EscapeWaiting(s, c);
      }
      assert CanReach(s, Run(s, acts).value.f.state);
    } else {
      assert Doomed(s);
      forall acts | Run(s, acts).Some? ensures Run(s, acts).value.f.state == HalfOpened {
        DoomedForever(s, acts);
      }
    }
  }

  /** Without cancelled contexts HalfOpened can always be left. */
  lemma UncancelledExit(s: Sys, threshold: uint32)
    requires Reachable(s, threshold) && s.lock.None? && s.f.state == HalfOpened
    requires forall c :: 0 <= c < |s.calls| && s.calls[c].epoch == Some(s.f.resets) ==>
      !s.calls[c].cancelled && !s.calls[c].stage.CtxDone?
    ensures CanReach(s, Closed) || CanReach(s, Opened)
  {
    ReachableInv(s, threshold);
    if s.f.attempts != 0 {
      ProbeAccounted(s, threshold);
      var c :| 0 <= c < |s.calls| && s.calls[c].epoch == Some(s.f.resets)
        && (InFlight(s.calls[c].stage) || s.calls[c].stage.CtxDone?);
      assert CallOk(s.calls[c], s.f.log);
      assert Escaper(s.calls[c]);
    }
    HalfOpenedExit(s, threshold);
  }

  // ----- a second probe beside the first

  /** Call d has won the swap somewhere between s and r. */
  predicate AdmittedSince(s: Sys, r: Sys, d: nat) {
    d < |r.calls| && r.calls[d].epoch.Some? && (d < |s.calls| ==> s.calls[d].epoch.None?)
  }

  /** After acts, probe c is still in flight and another call has been admitted. */
  ghost predicate SecondAfter(s: Sys, c: nat, acts: seq<Action>) {
    && Run(s, acts).Some?
    && c < |Run(s, acts).value.calls| && InFlight(Run(s, acts).value.calls[c].stage)
    && exists d :: d != c && AdmittedSince(s, Run(s, acts).value, d)
  }

  /** As Doomed, with call c set aside. */
  predicate DoomedBeside(s: Sys, c: nat) {
    && s.f.state == HalfOpened
    && s.f.attempts == 1
    && (forall op :: op in s.prog ==> Inert(op))
    && (forall d :: 0 <= d < |s.calls| && d != c ==> !Escaper(s.calls[d]))
  }

  /** While c is in flight and nobody else can switch, nobody is admitted. */
  lemma DoomedBesideStep(s: Sys, c: nat, a: Action)
    requires DoomedBeside(s, c) && Apply(s, a).Some?
    requires c < |s.calls| && InFlight(s.calls[c].stage) && InFlight(Apply(s, a).value.calls[c].stage)
    ensures DoomedBeside(Apply(s, a).value, c)
    ensures forall d :: d != c ==> !AdmittedSince(s, Apply(s, a).value, d)
  {
    var s' := Apply(s, a).value;
    if a.RunOp? {
      assert Inert(s.prog[0]);
      assert s'.prog == s.prog[1..];
    }
    if a.CallLocks? {
      assert !Escaper(s.calls[a.c]);
    }
    forall d | 0 <= d < |s'.calls| && d != c ensures !Escaper(s'.calls[d]) {
      if d < |s.calls| {
        assert !Escaper(s.calls[d]);
      }
    }
  }

  /** A call that has left flight never comes back. */
  predicate Landed(stage: Stage) {
    stage.InCritical? || Over(stage)
  }

  lemma {:induction false} LandedStays(s: Sys, c: nat, acts: seq<Action>)
    requires c < |s.calls| && Landed(s.calls[c].stage) && Run(s, acts).Some?
    ensures c < |Run(s, acts).value.calls| && Landed(Run(s, acts).value.calls[c].stage)
    decreases |acts|
  {
    if acts != [] {
      LandedStays(Apply(s, acts[0]).value, c, acts[1..]);
    }
  }

  lemma {:induction false} DoomedBesideRun(s: Sys, c: nat, acts: seq<Action>)
    requires DoomedBeside(s, c) && c < |s.calls| && InFlight(s.calls[c].stage) && Run(s, acts).Some?
    requires c < |Run(s, acts).value.calls| && InFlight(Run(s, acts).value.calls[c].stage)
    ensures forall d :: d != c ==> !AdmittedSince(s, Run(s, acts).value, d)
    decreases |acts|
  {
    if acts != [] {
      var s' := Apply(s, acts[0]).value;
      if !InFlight(s'.calls[c].stage) {
        LandedStays(s', c, acts[1..]);
      }
      DoomedBesideStep(s, c, acts[0]);
      DoomedBesideRun(s', c, acts[1..]);
      var r := Run(s', acts[1..]).value;
      forall d | d != c ensures !AdmittedSince(s, r, d) {
        assert !AdmittedSince(s', r, d) && !AdmittedSince(s, s', d);
      }
    }
  }

  lemma EscapeBy(s: Sys, d: nat) returns (acts: seq<Action>)
    requires s.lock.None? && s.f.state == HalfOpened
    requires d < |s.calls| && Escaper(s.calls[d])
    ensures Run(s, acts).Some? && AttemptFreed(s, d, Run(s, acts).value)
  {
    match s.calls[d].stage {
      case Calling => acts := EscapeCalling(s, d);
      case Returned(_) => acts := EscapeReturned(s, d);
      case Waiting(_) => acts := EscapeWaiting(s, d);
    }
  }

  /** A new call loads HalfOpened, d frees the swap, and the new call runs its callback beside c. */
  lemma SecondProbe(s: Sys, c: nat, d: nat) returns (acts: seq<Action>)
    requires s.lock.None? && s.f.state == HalfOpened
    requires c < |s.calls| && InFlight(s.calls[c].stage)
    requires d < |s.calls| && d != c && Escaper(s.calls[d])
    ensures SecondAfter(s, c, acts)
    ensures var r := Run(s, acts).value;
      r.calls[c] == s.calls[c] && |r.calls| == |s.calls| + 1 && r.calls[|s.calls|].stage.Calling?
  {
    var e := |s.calls|;
    var s1 := Apply(s, NewCall).value;
    var s2 := Apply(s1, Load(e)).value;
    var freeing := EscapeBy(s2, d);
    var s3 := Run(s2, freeing).value;
    assert s3.calls[e] == s2.calls[e] && s3.calls[c] == s.calls[c];
    acts := [NewCall] + ([Load(e)] + (freeing + [Swap(e)]));
    RunFirst(s, NewCall, [Load(e)] + (freeing + [Swap(e)]));
    RunFirst(s1, Load(e), freeing + [Swap(e)]);
    RunConcat(s2, freeing, [Swap(e)]);
    RunFirst(s3, Swap(e), []);
    assert [Swap(e)] + [] == [Swap(e)];
    assert AdmittedSince(s, Run(s, acts).value, e);
  }

  /**
   The program promises one attempt while half-open. With the probe of this period in flight, a second one can
   be admitted beside it if and only if some other call in flight can still switch the breaker.
   */
  lemma SecondProbeIff(s: Sys, threshold: uint32, c: nat)
    requires Reachable(s, threshold) && s.lock.None? && s.f.state == HalfOpened && s.f.attempts == 1
    requires c < |s.calls| && s.calls[c].epoch == Some(s.f.resets) && InFlight(s.calls[c].stage)
    ensures (exists acts :: SecondAfter(s, c, acts)) <==>
      exists d :: 0 <= d < |s.calls| && d != c && Escaper(s.calls[d])
  {
    ReachableInv(s, threshold);
    if d :| 0 <= d < |s.calls| && d != c && Escaper(s.calls[d]) {
      var acts := SecondProbe(s, c, d);
    } else {
      assert DoomedBeside(s, c);
      forall acts ensures !SecondAfter(s, c, acts) {
        if SecondAfter(s, c, acts) {
          DoomedBesideRun(s, c, acts);
        }
      }
    }
  }

  // ----- two runs that show the limits of the breaker

  lemma ReachStep(s: Sys, a: Action, threshold: uint32)
    requires Reachable(s, threshold) && Apply(s, a).Some?
    ensures Reachable(Apply(s, a).value, threshold)
  {
    var acts :| Run(Init(threshold), acts) == Some(s);
    RunConcat(Init(threshold), acts, [a]);
    RunFirst(s, a, []);
    assert [a] + [] == [a];
    assert Run(Init(threshold), acts + [a]) == Apply(s, a);
  }

  lemma ReachFinish(s: Sys, threshold: uint32)
    requires Reachable(s, threshold)
    ensures Reachable(s.(f := Exec(s.prog, s.f), prog := []), threshold)
  {
    var acts :| Run(Init(threshold), acts) == Some(s);
    var rest := FinishSection(s);
    RunConcat(Init(threshold), acts, rest);
    assert Run(Init(threshold), acts + rest) == Some(s.(f := Exec(s.prog, s.f), prog := []));
  }

  /** With threshold 0, at the start. */
  lemma ReachStart() returns (s: Sys)
    ensures Reachable(s, 0) && s.lock.None? && s.prog == [] && s.calls == [] && s.f == Switch(Closed, Boot, Zeroed(0))
  {
    s := Init(0);
    ExecSwitch(Closed, Boot, Zeroed(0));
    assert Run(s, []) == Some(s);
  }

  /** A new call on a closed breaker runs its callback. */
  lemma ReachCalling(s: Sys) returns (r: Sys)
    requires Reachable(s, 0) && s.f.state == Closed
    ensures Reachable(r, 0) && r == s.(calls := s.calls + [Call(ViaClosed, Calling, false, |s.f.log|, None)])
  {
    ReachStep(s, NewCall, 0);
    var s1 := Apply(s, NewCall).value;
    ReachStep(s1, Load(|s.calls|), 0);
    r := Apply(s1, Load(|s.calls|)).value;
  }

  /** A callback has returned this, and its call waits for the mutex. */
  lemma ReachWaiting(s: Sys, c: nat, o: Outcome) returns (r: Sys)
    requires Reachable(s, 0) && c < |s.calls| && s.calls[c].stage.Calling? && !s.calls[c].cancelled
    ensures Reachable(r, 0) && r == s.(calls := s.calls[c := s.calls[c].(stage := Waiting(o))])
  {
    ReachStep(s, CallbackReturns(c, o), 0);
    var s1 := Apply(s, CallbackReturns(c, o)).value;
    ReachStep(s1, FirstSelect(c), 0);
    r := Apply(s1, FirstSelect(c)).value;
  }

  /** A waiting call of the closed route has run its whole section. */
  lemma ReachRecorded(s: Sys, c: nat, o: Outcome) returns (r: Sys)
    requires Reachable(s, 0) && s.lock.None? && s.prog == []
    requires c < |s.calls| && s.calls[c].stage == Waiting(o) && s.calls[c].route.ViaClosed?
    ensures Reachable(r, 0) && r.lock.None? && r.prog == []
    ensures r.f == Exec(ClosedOps(o, s.calls[c].loadedAt), Logged(s.f, ViaClosed, o))
    ensures r.calls == s.calls[c := s.calls[c].(stage := Completed)]
  {
    ReachStep(s, CallLocks(c), 0);
    var s1 := Apply(s, CallLocks(c)).value;
    ReachFinish(s1, 0);
    var s2 := s1.(f := Exec(s1.prog, s1.f), prog := []);
    ReachStep(s2, Unlock, 0);
    r := Apply(s2, Unlock).value;
  }

  /** The first failure opens a breaker of threshold 0. */
  lemma FirstFailureOpens(k: nat)
    ensures var f := Exec(ClosedOps(Failure, k), Switch(Closed, Boot, Zeroed(0)));
      && f.state == Opened && f.halfOpenTimer.Some? && f.halfOpenTimer.value < |f.timers|
      && f.timers[f.halfOpenTimer.value] == Timer(HalfOpenKind, Armed)
  {
    ExecFailure(Switch(Closed, Boot, Zeroed(0)));
  }

  /** With threshold 0: one failed call opens the breaker, its timer half-opens it. */
  lemma ReachHalfOpened() returns (s: Sys)
    ensures Reachable(s, 0) && s.lock.None? && s.f.state == HalfOpened && s.f.attempts == 0
    ensures |s.calls| == 1 && Over(s.calls[0].stage)
  {
    var s0 := ReachStart();
    var s1 := ReachCalling(s0);
    var s2 := ReachWaiting(s1, 0, Failure);
    var s3 := ReachRecorded(s2, 0, Failure);
    FirstFailureOpens(s2.calls[0].loadedAt);
    s := ReachHalfOpenedFrom(s3);
  }

  lemma ReachHalfOpenedFrom(s: Sys) returns (r: Sys)
    requires Reachable(s, 0) && s.lock.None? && s.f.state == Opened && s.f.halfOpenTimer.Some?
    requires s.f.halfOpenTimer.value < |s.f.timers|
    requires s.f.timers[s.f.halfOpenTimer.value] == Timer(HalfOpenKind, Armed)
    ensures Reachable(r, 0) && r.lock.None? && r.prog == [] && r.f.state == HalfOpened && r.f.attempts == 0
    ensures r.calls == s.calls
  {
    var t := s.f.halfOpenTimer.value;
    ReachStep(s, Fire(t), 0);
    var s1 := Apply(s, Fire(t)).value;
    ReachStep(s1, TimerLocks(t), 0);
    r := ReachTimerDone(Apply(s1, TimerLocks(t)).value, t);
  }

  /** The callback of a half-open timer has run to its end. */
  lemma ReachTimerDone(s: Sys, t: nat) returns (r: Sys)
    requires Reachable(s, 0) && s.lock == Some(TimerOwner(t)) && s.prog == [IfStillOpened] && s.f.state == Opened
    ensures Reachable(r, 0) && r.lock.None? && r.prog == [] && r.f.state == HalfOpened && r.f.attempts == 0
    ensures r.calls == s.calls
  {
    ReachFinish(s, 0);
    HalfOpenTicks(s.f);
    var s1 := s.(f := Exec(s.prog, s.f), prog := []);
    ReachStep(s1, Unlock, 0);
    r := Apply(s1, Unlock).value;
  }

  /** A probe whose context is cancelled leaves the breaker in HalfOpened for ever, rejecting every call. */
  lemma CancelledProbeStrands() returns (s: Sys)
    ensures Reachable(s, 0) && s.lock.None? && s.f.state == HalfOpened
    ensures forall acts :: Run(s, acts).Some? ==> Run(s, acts).value.f.state == HalfOpened
  {
    var s0 := ReachHalfOpened();
    ReachStep(s0, NewCall, 0);
    var s1 := Apply(s0, NewCall).value;
    ReachStep(s1, Load(1), 0);
    var s2 := Apply(s1, Load(1)).value;
    ReachStep(s2, Swap(1), 0);
    var s3 := Apply(s2, Swap(1)).value;
    ReachStep(s3, CancelCtx(1), 0);
    s := Apply(s3, CancelCtx(1)).value;
    ReachableInv(s0, 0);
    assert Doomed(s);
    forall acts | Run(s, acts).Some? ensures Run(s, acts).value.f.state == HalfOpened {
      DoomedForever(s, acts);
    }
  }

  /** With threshold 0: call 0 still runs its callback when call 1 fails and opens the breaker. */
  lemma ReachLateCall() returns (s: Sys)
    ensures Reachable(s, 0) && s.lock.None? && s.prog == [] && s.f.state == HalfOpened && s.f.attempts == 0
    ensures |s.calls| == 2 && s.calls[0] == Call(ViaClosed, Calling, false, s.calls[0].loadedAt, None)
  {
    var s0 := ReachStart();
    var s1 := ReachCalling(s0);
    var s2 := ReachCalling(s1);
    var s3 := ReachWaiting(s2, 1, Failure);
    var s4 := ReachRecorded(s3, 1, Failure);
    FirstFailureOpens(s3.calls[1].loadedAt);
    s := ReachHalfOpenedFrom(s4);
  }

  /** From there two later calls load HalfOpened, and one of them is admitted. */
  lemma ReachOneProbe() returns (s: Sys)
    ensures Reachable(s, 0) && s.lock.None? && s.prog == [] && s.f.state == HalfOpened && |s.calls| == 4
    ensures s.calls[0] == Call(ViaClosed, Calling, false, s.calls[0].loadedAt, None)
    ensures s.calls[2].stage.Loaded? && s.calls[2].route.ViaHalfOpened?
    ensures s.calls[3].stage.Calling? && s.calls[3].route.ViaHalfOpened?
  {
    var s0 := ReachLateCall();
    ReachStep(s0, NewCall, 0);
    var s1 := Apply(s0, NewCall).value;
    ReachStep(s1, Load(2), 0);
    var s2 := Apply(s1, Load(2)).value;
    ReachStep(s2, NewCall, 0);
    var s3 := Apply(s2, NewCall).value;
    ReachStep(s3, Load(3), 0);
    var s4 := Apply(s3, Load(3)).value;
    ReachStep(s4, Swap(3), 0);
    s := Apply(s4, Swap(3)).value;
  }

  /**
   The condition of SecondProbeIff is met in a reachable state: a late success of a call from before the opening
   resets the swap while a probe is still running, and a call that had loaded HalfOpened is admitted beside it.
   */
  lemma TwoProbesAtOnce() returns (s: Sys)
    ensures Reachable(s, 0) && |s.calls| == 4
    ensures s.calls[2].route.ViaHalfOpened? && s.calls[2].stage.Calling?
    ensures s.calls[3].route.ViaHalfOpened? && s.calls[3].stage.Calling?
  {
    var s0 := ReachOneProbe();
    var s1 := ReachWaiting(s0, 0, Success);
    var s2 := ReachRecorded(s1, 0, Success);
    ExecSwitch(Closed, ClosedOk(s1.calls[0].loadedAt), Logged(s1.f, ViaClosed, Success));
    ReachStep(s2, Swap(2), 0);
    s := Apply(s2, Swap(2)).value;
  }
}
