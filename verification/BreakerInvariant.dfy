/** What every step of the circuit breaker keeps. */
module BreakerInvariant {
  import opened Options
  import opened BreakerModel

  // ----- the history

  /** The phase the history ends in. */
  function PhaseOf(log: seq<Event>): Phase {
    if log == [] then Closed
    else if log[|log| - 1].Switched? then log[|log| - 1].to
    else PhaseOf(log[..|log| - 1])
  }

  /** Number of failures recorded since the last switch or call that ended well. */
  function Recorded(log: seq<Event>): nat {
    if log == [] || !log[|log| - 1].Failed? then 0 else 1 + Recorded(log[..|log| - 1])
  }

  /** The n events before position i are failures, and a switch to Closed stands right before them. */
  predicate FailedStreak(log: seq<Event>, i: nat, n: nat)
    requires i <= |log|
  {
    && n + 1 <= i
    && (forall j :: i - n <= j < i ==> log[j].Failed?)
    && log[i - n - 1].Switched?
    && log[i - n - 1].to == Closed
  }

  predicate SwitchOk(log: seq<Event>, i: nat, threshold: uint32)
    requires i < |log| && log[i].Switched?
  {
    var e := log[i];
    && e.from == PhaseOf(log[..i])
    && match e.cause
       case Boot => i == 0 && e.to == Closed
       case ClosedOk(k) => e.to == Closed && 0 < i && log[i - 1].Passed? && k <= i && PhaseOf(log[..k]) == Closed
       case Tripped => e.from == Closed && e.to == Opened && FailedStreak(log, i, threshold + 1)
       case ProbeOk => e.from == HalfOpened && e.to == Closed
       case ProbeFailed => e.from == HalfOpened && e.to == Opened
       case CleanupTick => e.from == Closed && e.to == Closed
       case HalfOpenTick => e.from == Opened && e.to == HalfOpened
  }

  predicate LogOk(log: seq<Event>, threshold: uint32) {
    && |log| > 0 && log[0].Switched?
    && (forall i :: 0 <= i < |log| && log[i].Switched? ==> SwitchOk(log, i, threshold))
    && (forall i :: 0 <= i < |log| - 1 && log[i].Passed? ==> log[i + 1].Switched? && log[i + 1].cause.ClosedOk?)
  }

  /** No call that ended well is still without its switch. */
  predicate Settled(log: seq<Event>) {
    |log| > 0 && !log[|log| - 1].Passed?
  }

  lemma PrefixTake(log: seq<Event>, e: Event, i: nat)
    requires i <= |log|
    ensures (log + [e])[..i] == log[..i]
  {
  }

  lemma LogGrows(log: seq<Event>, e: Event, threshold: uint32)
    requires LogOk(log, threshold)
    requires e.Switched? ==> SwitchOk(log + [e], |log|, threshold)
    requires Settled(log) || (e.Switched? && e.cause.ClosedOk?)
    ensures LogOk(log + [e], threshold)
  {
    var l := log + [e];
    forall i | 0 <= i < |l| && l[i].Switched? ensures SwitchOk(l, i, threshold) {
      if i < |log| {
        assert SwitchOk(log, i, threshold);
        PrefixTake(log, e, i);
        if log[i].cause.ClosedOk? {
          PrefixTake(log, e, log[i].cause.loadedAt);
          assert l[i - 1] == log[i - 1];
        }
      }
    }
    forall i | 0 <= i < |l| - 1 && l[i].Passed? ensures l[i + 1].Switched? && l[i + 1].cause.ClosedOk? {
      assert log[i] == l[i];
    }
  }

  /** A streak counted by Recorded is a streak in the history. */
  lemma {:induction false} RecordedStreak(log: seq<Event>)
    requires Settled(log) && log[0].Switched? && PhaseOf(log) == Closed
    requires forall i :: 0 <= i < |log| - 1 && log[i].Passed? ==> log[i + 1].Switched?
    ensures FailedStreak(log, |log|, Recorded(log))
    decreases |log|
  {
    var n := |log| - 1;
    if log[n].Failed? {
      RecordedStreak(log[..n]);
    }
  }

  // ----- the fields at a point where the mutex is free

  predicate Live(f: Fields, ref: Option<nat>, kind: TimerKind) {
    && ref.Some?
    && ref.value < |f.timers|
    && f.timers[ref.value].kind == kind
    && (f.timers[ref.value].status.Armed? || f.timers[ref.value].status.Queued?)
  }

  /** Which timers are set in each phase; a set timer can still fire or has its callback queued. */
  predicate TimersOk(f: Fields) {
    match f.state
    case Closed => f.halfOpenTimer.None? && Live(f, f.cleanupTimer, CleanupKind)
    case HalfOpened => f.halfOpenTimer.None? && f.cleanupTimer.None?
    case Opened => Live(f, f.halfOpenTimer, HalfOpenKind) && f.cleanupTimer.None?
  }

  predicate FailuresOk(f: Fields) {
    && f.failures == Recorded(f.log) % UINT32
    && (f.state == Closed ==> f.failures <= f.threshold)
    && (f.state == Closed && f.threshold + 1 < UINT32 ==> f.failures == Recorded(f.log))
  }

  predicate HistoryOk(f: Fields) {
    PhaseOf(f.log) == f.state && LogOk(f.log, f.threshold)
  }

  predicate FieldsOk(f: Fields) {
    TimersOk(f) && FailuresOk(f) && HistoryOk(f) && Settled(f.log)
  }

  predicate InFlight(stage: Stage) {
    stage.Calling? || stage.Returned? || stage.Waiting?
  }

  /** In HalfOpened with `halfOpenAttempts` = 1 the last admitted probe is in flight or gave up on its context. */
  predicate ProbeOk(f: Fields, calls: seq<Call>, lastProbe: nat) {
    f.state == HalfOpened && f.attempts == 1 ==>
      && lastProbe < |calls|
      && calls[lastProbe].route.ViaHalfOpened?
      && (InFlight(calls[lastProbe].stage) || calls[lastProbe].stage.CtxDone?)
  }

  // ----- calls

  predicate EpochOk(f: Fields, calls: seq<Call>, lastProbe: nat, c: nat)
    requires c < |calls|
  {
    calls[c].epoch.Some? ==>
      && calls[c].epoch.value <= f.resets
      && (calls[c].epoch.value == f.resets ==> f.attempts == 1 && c == lastProbe)
  }

  /** At most one call is admitted by the swap between two resets of `halfOpenAttempts`. */
  predicate AdmissionsOk(f: Fields, calls: seq<Call>, lastProbe: nat) {
    && f.attempts <= 1
    && (f.attempts == 1 ==> lastProbe < |calls| && calls[lastProbe].epoch == Some(f.resets))
    && (forall c :: 0 <= c < |calls| ==> EpochOk(f, calls, lastProbe, c))
    && (forall c, d :: 0 <= c < d < |calls| && calls[c].epoch.Some? ==> calls[c].epoch != calls[d].epoch)
  }

  /** Where the phase that a call loaded sends it. */
  predicate Routed(call: Call, loaded: Phase) {
    match loaded
    case Closed => call.route.ViaClosed?
    case HalfOpened => call.route.ViaHalfOpened?
    case Opened => call.route.Unrouted? && call.stage.Rejected?
  }

  predicate CallOk(call: Call, log: seq<Event>) {
    && (!call.stage.Entering? ==> call.loadedAt <= |log| && Routed(call, PhaseOf(log[..call.loadedAt])))
    && (call.stage.Entering? || call.stage.Loaded? ==> call.epoch.None?)
    && (call.stage.Entering? ==> call.route.Unrouted?)
    && (call.stage.Loaded? || call.epoch.Some? ==> call.route.ViaHalfOpened?)
    && (InFlight(call.stage) || call.stage.InCritical? ==> !call.route.Unrouted?)
    && (call.route.ViaHalfOpened? && (InFlight(call.stage) || call.stage.InCritical?) ==> call.epoch.Some?)
  }

  predicate LockOk(s: Sys) {
    && (s.lock.None? ==> s.prog == [])
    && (forall c :: 0 <= c < |s.calls| ==> (s.calls[c].stage.InCritical? <==> s.lock == Some(CallOwner(c))))
    && (s.lock.Some? && s.lock.value.CallOwner? ==> s.lock.value.call < |s.calls|)
  }

  /** The invariant: what holds now, and what will hold once the lock holder has run to its end. */
  predicate Inv(s: Sys) {
    && FieldsOk(Exec(s.prog, s.f))
    && ProbeOk(Exec(s.prog, s.f), s.calls, s.lastProbe)
    && PhaseOf(s.f.log) == s.f.state
    && AdmissionsOk(s.f, s.calls, s.lastProbe)
    && (forall c :: 0 <= c < |s.calls| ==> CallOk(s.calls[c], s.f.log))
    && LockOk(s)
  }

  // ----- running a critical section

  lemma ExecStep(prog: seq<Op>, f: Fields)
    requires prog != []
    ensures Exec(prog, f) == Exec(Expand(prog[0], f) + prog[1..], ExecOp(prog[0], f))
  {
  }

  /** A switch with nothing after it, in closed form. */
  function Switch(to: Phase, cause: Cause, f: Fields): Fields {
    var g := match to
      case Closed => ExecOp(EnsureCleanup, ExecOp(StopHalfOpen, f))
      case HalfOpened => ExecOp(StopHalfOpen, ExecOp(StopCleanup, f))
      case Opened => ExecOp(EnsureHalfOpen, ExecOp(StopCleanup, f));
    g.(failures := 0, attempts := 0, resets := f.resets + 1, state := to,
       log := f.log + [Switched(f.state, to, cause)])
  }

  lemma ExecSimple(op: Op, rest: seq<Op>, f: Fields)
    requires Expand(op, f) == []
    ensures Exec([op] + rest, f) == Exec(rest, ExecOp(op, f))
  {
    var prog := [op] + rest;
    assert prog[1..] == rest;
    assert Expand(prog[0], f) + prog[1..] == rest;
  }

  predicate Plain(op: Op) {
    !op.IfTrips? && !op.IfHalfOpened? && !op.IfStillClosed? && !op.IfStillOpened?
  }

  lemma ExecFive(a: Op, b: Op, c: Op, d: Op, e: Op, f: Fields)
    requires Plain(a) && Plain(b) && Plain(c) && Plain(d) && Plain(e)
    ensures Exec([a, b, c, d, e], f) == ExecOp(e, ExecOp(d, ExecOp(c, ExecOp(b, ExecOp(a, f)))))
  {
    var f1 := ExecOp(a, f);
    var f2 := ExecOp(b, f1);
    var f3 := ExecOp(c, f2);
    var f4 := ExecOp(d, f3);
    assert [a, b, c, d, e] == [a] + [b, c, d, e] && [b, c, d, e] == [b] + [c, d, e];
    assert [c, d, e] == [c] + [d, e] && [d, e] == [d] + [e] && [e] == [e] + [];
    ExecSimple(a, [b, c, d, e], f);
    ExecSimple(b, [c, d, e], f1);
    ExecSimple(c, [d, e], f2);
    ExecSimple(d, [e], f3);
    ExecSimple(e, [], f4);
  }

  lemma ExecSwitch(to: Phase, cause: Cause, f: Fields)
    ensures Exec(SwitchOps(to, cause), f) == Switch(to, cause, f)
  {
    var last := StoreState(to, cause);
    match to
    case Closed =>
      assert SwitchOps(to, cause) == [StopHalfOpen, EnsureCleanup, ZeroFailures, ZeroAttempts, last];
      ExecFive(StopHalfOpen, EnsureCleanup, ZeroFailures, ZeroAttempts, last, f);
    case HalfOpened =>
      assert SwitchOps(to, cause) == [StopCleanup, StopHalfOpen, ZeroFailures, ZeroAttempts, last];
      ExecFive(StopCleanup, StopHalfOpen, ZeroFailures, ZeroAttempts, last, f);
    case Opened =>
      assert SwitchOps(to, cause) == [StopCleanup, EnsureHalfOpen, ZeroFailures, ZeroAttempts, last];
      ExecFive(StopCleanup, EnsureHalfOpen, ZeroFailures, ZeroAttempts, last, f);
  }

  /** A critical section that ends in a test, in closed form. */
  lemma ExecTest(op: Op, f: Fields)
    requires ExecOp(op, f) == f
    ensures Exec([op], f) == Exec(Expand(op, f), f)
  {
    var prog := [op];
    assert Expand(prog[0], f) + prog[1..] == Expand(op, f);
  }

  lemma SwitchFacts(to: Phase, cause: Cause, f: Fields)
    ensures var g := Switch(to, cause, f);
      g.state == to && g.log == f.log + [Switched(f.state, to, cause)] && g.threshold == f.threshold
  {
  }

  lemma SwitchHistory(to: Phase, cause: Cause, f: Fields)
    requires HistoryOk(f) && (Settled(f.log) || cause.ClosedOk?)
    requires SwitchOk(f.log + [Switched(f.state, to, cause)], |f.log|, f.threshold)
    ensures HistoryOk(Switch(to, cause, f)) && Recorded(Switch(to, cause, f).log) == 0
    ensures Settled(Switch(to, cause, f).log)
  {
    var e := Switched(f.state, to, cause);
    SwitchFacts(to, cause, f);
    LogGrows(f.log, e, f.threshold);
    assert PhaseOf(f.log + [e]) == to && Recorded(f.log + [e]) == 0;
  }

  lemma SwitchFieldsOk(to: Phase, cause: Cause, f: Fields)
    requires HistoryOk(f) && (Settled(f.log) || cause.ClosedOk?)
    requires SwitchOk(f.log + [Switched(f.state, to, cause)], |f.log|, f.threshold)
    requires to == Closed && f.cleanupTimer.Some? ==> Live(f, f.cleanupTimer, CleanupKind)
    requires to == Closed && f.halfOpenTimer.Some? ==> f.cleanupTimer.None?
    requires to == Opened ==> f.halfOpenTimer.None?
    ensures FieldsOk(Switch(to, cause, f))
  {
    SwitchHistory(to, cause, f);
  }

  // ----- each critical section re-establishes the fields' invariant

  lemma PassKeepsHistory(f: Fields)
    requires HistoryOk(f) && Settled(f.log)
    ensures HistoryOk(f.(log := f.log + [Passed]))
  {
    LogGrows(f.log, Passed, f.threshold);
    assert (f.log + [Passed])[..|f.log|] == f.log;
  }

  /** A doClosed call that ended well, from the moment it takes the mutex. */
  lemma ClosedOkSection(f: Fields, k: nat)
    requires FieldsOk(f) && k <= |f.log| && PhaseOf(f.log[..k]) == Closed
    ensures FieldsOk(Exec(SwitchOps(Closed, ClosedOk(k)), f.(log := f.log + [Passed])))
  {
    var g := f.(log := f.log + [Passed]);
    PassKeepsHistory(f);
    ExecSwitch(Closed, ClosedOk(k), g);
    var e := Switched(g.state, Closed, ClosedOk(k));
    PrefixTake(g.log, e, |g.log|);
    PrefixTake(g.log, e, k);
    PrefixTake(f.log, Passed, k);
    assert g.log[..|g.log|] == g.log;
    SwitchFieldsOk(Closed, ClosedOk(k), g);
  }

  lemma FailureCounted(f: Fields)
    requires FieldsOk(f)
    ensures var g := ExecOp(CountFailure, f);
      && HistoryOk(g) && Settled(g.log) && TimersOk(g)
      && Recorded(g.log) == Recorded(f.log) + 1
      && g.failures == Recorded(g.log) % UINT32
      && (g.state == Closed && g.failures > g.threshold ==>
          g.failures == g.threshold + 1 == Recorded(g.log))
      && (g.state == Closed && g.failures <= g.threshold ==> FailuresOk(g))
  {
    OneMoreFailure(f.log);
    CountKeepsHistory(f);
    CountKeepsTimers(f);
    CountFacts(f);
    CountArithmetic(Recorded(f.log), f.failures, f.threshold, f.state == Closed);
  }

  lemma CountFacts(f: Fields)
    ensures var g := ExecOp(CountFailure, f);
      && g.log == f.log + [Failed] && g.failures == (f.failures + 1) % UINT32
      && g.state == f.state && g.threshold == f.threshold
  {
  }

  lemma CountArithmetic(n: nat, failures: uint32, threshold: uint32, closed: bool)
    requires failures == n % UINT32
    requires closed ==> failures <= threshold
    requires closed && threshold + 1 < UINT32 ==> failures == n
    ensures var next := (failures + 1) % UINT32;
      && next == (n + 1) % UINT32
      && (closed && next > threshold ==> next == threshold + 1 == n + 1)
      && (closed && threshold + 1 < UINT32 ==> next == n + 1)
  {
  }

  lemma CountKeepsHistory(f: Fields)
    requires HistoryOk(f) && Settled(f.log)
    ensures HistoryOk(ExecOp(CountFailure, f)) && Settled(ExecOp(CountFailure, f).log)
  {
    OneMoreFailure(f.log);
    LogGrows(f.log, Failed, f.threshold);
  }

  lemma CountKeepsTimers(f: Fields)
    requires TimersOk(f)
    ensures TimersOk(ExecOp(CountFailure, f))
  {
  }

  lemma OneMoreFailure(log: seq<Event>)
    ensures Recorded(log + [Failed]) == Recorded(log) + 1 && PhaseOf(log + [Failed]) == PhaseOf(log)
  {
    assert (log + [Failed])[..|log|] == log;
  }

  /** The failure that exceeds the threshold ends a streak of exactly threshold + 1. */
  lemma TripSection(g: Fields)
    requires HistoryOk(g) && Settled(g.log) && TimersOk(g)
    requires g.state == Closed && g.failures > g.threshold
    requires Recorded(g.log) == g.threshold + 1
    ensures FieldsOk(Switch(Opened, Tripped, g))
  {
    RecordedStreak(g.log);
    var e := Switched(Closed, Opened, Tripped);
    PrefixTake(g.log, e, |g.log|);
    assert g.log[..|g.log|] == g.log;
    assert FailedStreak(g.log + [e], |g.log|, g.threshold + 1);
    SwitchFieldsOk(Opened, Tripped, g);
  }

  /** The critical section of a failed `doClosed` call, in closed form. */
  function AfterFailure(f: Fields): Fields {
    var g := ExecOp(CountFailure, f);
    if g.state == Closed && g.failures > g.threshold then Switch(Opened, Tripped, g) else g
  }

  lemma ExecFailure(f: Fields)
    ensures Exec([CountFailure, IfTrips], f) == AfterFailure(f)
  {
    assert [CountFailure, IfTrips] == [CountFailure] + [IfTrips];
    ExecSimple(CountFailure, [IfTrips], f);
    var g := ExecOp(CountFailure, f);
    ExecTest(IfTrips, g);
    ExecSwitch(Opened, Tripped, g);
  }

  lemma FailureFieldsOk(f: Fields)
    requires FieldsOk(f)
    ensures FieldsOk(AfterFailure(f))
  {
    FailureCounted(f);
    var g := ExecOp(CountFailure, f);
    if g.state == Closed && g.failures > g.threshold {
      TripSection(g);
    }
  }

  lemma ProbeSection(f: Fields, o: Outcome)
    requires FieldsOk(f)
    ensures FieldsOk(Exec(ProbeOps(o), f))
    ensures f.state == HalfOpened ==> Exec(ProbeOps(o), f).state == (if o.Failure? then Opened else Closed)
    ensures f.state != HalfOpened ==> Exec(ProbeOps(o), f) == f
  {
    ExecTest(IfHalfOpened(o), f);
    if f.state == HalfOpened {
      var to := if IsErrorOk(o) then Closed else Opened;
      var cause := if IsErrorOk(o) then Cause.ProbeOk else ProbeFailed;
      ExecSwitch(to, cause, f);
      PrefixTake(f.log, Switched(f.state, to, cause), |f.log|);
      assert f.log[..|f.log|] == f.log;
      SwitchFieldsOk(to, cause, f);
    }
  }

  /** What a section does to the probe: if it ends in HalfOpened with the swap taken, it changed neither. */
  predicate KeepsProbe(f: Fields, g: Fields) {
    g.state == HalfOpened && g.attempts == 1 ==> f.state == HalfOpened && f.attempts == 1
  }

  lemma CleanupSection(f: Fields)
    requires HistoryOk(f) && Settled(f.log) && FailuresOk(f)
    requires f.state == Closed ==> f.halfOpenTimer.None?
    requires f.state == Opened ==> Live(f, f.halfOpenTimer, HalfOpenKind)
    requires f.state == HalfOpened ==> f.halfOpenTimer.None?
    requires f.state != Closed ==> f.cleanupTimer.None?
    ensures FieldsOk(Exec([StopCleanup, IfStillClosed], f))
    ensures KeepsProbe(f, Exec([StopCleanup, IfStillClosed], f))
    ensures f.state != Closed ==> Exec([StopCleanup, IfStillClosed], f) == f
  {
    assert [StopCleanup, IfStillClosed] == [StopCleanup] + [IfStillClosed];
    ExecSimple(StopCleanup, [IfStillClosed], f);
    var h := ExecOp(StopCleanup, f);
    ExecTest(IfStillClosed, h);
    if h.state == Closed {
      ExecSwitch(Closed, CleanupTick, h);
      assert h.log[..|h.log|] == h.log;
      PrefixTake(h.log, Switched(Closed, Closed, CleanupTick), |h.log|);
      SwitchFieldsOk(Closed, CleanupTick, h);
    }
  }

  lemma HalfOpenSection(f: Fields)
    requires HistoryOk(f) && Settled(f.log) && FailuresOk(f)
    requires f.state != Opened ==> TimersOk(f)
    ensures FieldsOk(Exec([IfStillOpened], f))
    ensures KeepsProbe(f, Exec([IfStillOpened], f))
    ensures f.state != Opened ==> Exec([IfStillOpened], f) == f
  {
    ExecTest(IfStillOpened, f);
    if f.state == Opened {
      ExecSwitch(HalfOpened, HalfOpenTick, f);
      HalfOpenTickOk(f);
    }
  }

  lemma HalfOpenTickEffect(f: Fields)
    ensures Exec([IfStillOpened], f) == if f.state == Opened then Switch(HalfOpened, HalfOpenTick, f) else f
  {
    ExecTest(IfStillOpened, f);
    ExecSwitch(HalfOpened, HalfOpenTick, f);
  }

  lemma HalfOpenTickOk(f: Fields)
    requires HistoryOk(f) && Settled(f.log) && f.state == Opened
    ensures FieldsOk(Switch(HalfOpened, HalfOpenTick, f))
  {
    assert f.log[..|f.log|] == f.log;
    PrefixTake(f.log, Switched(Opened, HalfOpened, HalfOpenTick), |f.log|);
    SwitchFieldsOk(HalfOpened, HalfOpenTick, f);
  }

  // ----- what the sections do, outcome by outcome

  /** A breaker that has just been closed: nothing counted, no probe, only the cleanup timer. */
  predicate FreshlyClosed(f: Fields) {
    f.state == Closed && f.failures == 0 && f.attempts == 0 && f.halfOpenTimer.None? && f.cleanupTimer.Some?
  }

  /** A breaker that has just been opened: nothing counted, no probe, only the half-open timer. */
  predicate FreshlyOpened(f: Fields) {
    f.state == Opened && f.failures == 0 && f.attempts == 0 && f.halfOpenTimer.Some? && f.cleanupTimer.None?
  }

  /** A doClosed call that ended without an error, or with the ignored one, closes the breaker from any phase. */
  lemma PassEffect(f: Fields, o: Outcome, k: nat)
    requires TimersOk(f) && (o.Success? || o.Ignored?)
    ensures var g := Exec(ClosedOps(o, k), Logged(f, ViaClosed, o));
      FreshlyClosed(g) && g.log == f.log + [Passed, Switched(f.state, Closed, ClosedOk(k))]
  {
    var f1 := f.(log := f.log + [Passed]);
    ExecSwitch(Closed, ClosedOk(k), f1);
    assert (f.log + [Passed]) + [Switched(f.state, Closed, ClosedOk(k))]
        == f.log + [Passed, Switched(f.state, Closed, ClosedOk(k))];
  }

  /** One that failed counts, and opens a closed breaker exactly when the count has passed the threshold. */
  lemma FailEffect(f: Fields, k: nat)
    requires TimersOk(f)
    ensures var g := Exec(ClosedOps(Failure, k), Logged(f, ViaClosed, Failure));
      var n := (f.failures + 1) % 0x1_0000_0000;
      if f.state == Closed && n > f.threshold
      then FreshlyOpened(g) && g.log == f.log + [Failed, Switched(Closed, Opened, Tripped)]
      else g == f.(failures := n, log := f.log + [Failed])
  {
    ExecFailure(f);
    assert (f.log + [Failed]) + [Switched(Closed, Opened, Tripped)] == f.log + [Failed, Switched(Closed, Opened, Tripped)];
  }

  /** A finished probe decides a half-open breaker and leaves any other alone. */
  lemma ProbeEffect(f: Fields, o: Outcome)
    requires TimersOk(f)
    ensures var g := Exec(ProbeOps(o), Logged(f, ViaHalfOpened, o));
      if f.state != HalfOpened then g == f
      else if o.Failure? then FreshlyOpened(g)
      else FreshlyClosed(g)
  {
    ExecTest(IfHalfOpened(o), f);
    if f.state == HalfOpened {
      var to := if o.Failure? then Opened else Closed;
      var cause := if o.Failure? then ProbeFailed else Cause.ProbeOk;
      ExecSwitch(to, cause, f);
    }
  }

  /** The callback of a fired timer, whichever timer it was: stale callbacks are harmless. */
  lemma TimerSection(f: Fields, t: nat)
    requires FieldsOk(f) && t < |f.timers| && f.timers[t].status.Queued?
    ensures FieldsOk(Exec(TimerOps(f.timers[t].kind), SetStatus(f, t, Spent)))
    ensures KeepsProbe(f, Exec(TimerOps(f.timers[t].kind), SetStatus(f, t, Spent)))
  {
    var g := SetStatus(f, t, Spent);
    if f.timers[t].kind == CleanupKind {
      CleanupSection(g);
    } else {
      HalfOpenSection(g);
    }
  }

  /** The critical section of a finished callback. */
  lemma CallSection(f: Fields, call: Call)
    requires FieldsOk(f) && f.attempts <= 1 && CallOk(call, f.log) && call.stage.Waiting?
    ensures var prog := if call.route.ViaClosed? then ClosedOps(call.stage.outcome, call.loadedAt)
                        else ProbeOps(call.stage.outcome);
      var g := Exec(prog, Logged(f, call.route, call.stage.outcome));
      FieldsOk(g) && KeepsProbe(f, g) && (g.state == HalfOpened && g.attempts == 1 ==> call.route.ViaClosed?)
  {
    if call.route.ViaHalfOpened? {
      ProbeSection(f, call.stage.outcome);
    } else if IsErrorOk(call.stage.outcome) {
      ClosedOkSection(f, call.loadedAt);
      ExecSwitch(Closed, ClosedOk(call.loadedAt), f.(log := f.log + [Passed]));
    } else {
      ExecFailure(f);
      FailureFieldsOk(f);
    }
  }

  // ----- interference with a critical section that is under way

  lemma FireOp(op: Op, f: Fields, t: nat)
    requires t < |f.timers| && (f.timers[t].status.Armed? || f.timers[t].status.Stopped?)
    ensures var g := ExecOp(op, f);
      && |f.timers| <= |g.timers|
      && (g.timers[t].status.Armed? || g.timers[t].status.Stopped?)
      && ExecOp(op, SetStatus(f, t, Queued)) == SetStatus(g, t, Queued)
      && Expand(op, SetStatus(f, t, Queued)) == Expand(op, f)
  {
    var g := ExecOp(op, f);
    var h := ExecOp(op, SetStatus(f, t, Queued));
    assert h.timers == SetStatus(g, t, Queued).timers;
  }

  /** A timer that fires in the middle of a critical section may as well fire at its end. */
  lemma {:induction false} FireCommutes(prog: seq<Op>, f: Fields, t: nat)
    requires t < |f.timers| && (f.timers[t].status.Armed? || f.timers[t].status.Stopped?)
    ensures t < |Exec(prog, f).timers|
    ensures Exec(prog, f).timers[t].status.Armed? || Exec(prog, f).timers[t].status.Stopped?
    ensures Exec(prog, SetStatus(f, t, Queued)) == SetStatus(Exec(prog, f), t, Queued)
    decreases Weight(prog)
  {
    if prog != [] {
      FireOp(prog[0], f, t);
      StepLighter(prog, f);
      FireCommutes(Expand(prog[0], f) + prog[1..], ExecOp(prog[0], f), t);
    }
  }

  lemma FireKeepsFields(f: Fields, t: nat)
    requires FieldsOk(f) && t < |f.timers|
    ensures FieldsOk(SetStatus(f, t, Queued))
  {
  }

  /** A swap in the middle of a critical section is lost when a reset follows, and seen at its end otherwise. */
  lemma {:induction false} SwapCommutes(prog: seq<Op>, f: Fields)
    requires f.attempts == 0
    ensures || Exec(prog, f.(attempts := 1)) == Exec(prog, f)
            || Exec(prog, f.(attempts := 1)) == Exec(prog, f).(attempts := 1)
    decreases Weight(prog)
  {
    if prog != [] {
      StepLighter(prog, f);
      var f1 := f.(attempts := 1);
      assert Expand(prog[0], f1) == Expand(prog[0], f);
      if prog[0].ZeroAttempts? {
        assert ExecOp(prog[0], f1) == ExecOp(prog[0], f);
      } else {
        assert ExecOp(prog[0], f1) == ExecOp(prog[0], f).(attempts := 1);
        SwapCommutes(Expand(prog[0], f) + prog[1..], ExecOp(prog[0], f));
      }
    }
  }

  // ----- the steps

  lemma PrefixPhase(log: seq<Event>, e: Event, call: Call)
    requires CallOk(call, log)
    ensures CallOk(call, log + [e])
  {
    if !call.stage.Entering? {
      PrefixTake(log, e, call.loadedAt);
    }
  }

  /** A step that changes only the record of call c, and that record only in allowed ways. */
  lemma CallStepKeeps(s: Sys, c: nat, call: Call)
    requires Inv(s) && c < |s.calls|
    requires CallOk(call, s.f.log)
    requires call.epoch == s.calls[c].epoch
    requires call.stage.InCritical? <==> s.calls[c].stage.InCritical?
    requires s.calls[c].stage.Loaded? || s.calls[c].stage.Entering? || s.calls[c].stage.InCritical?
      || call.route == s.calls[c].route
    requires InFlight(s.calls[c].stage) || s.calls[c].stage.CtxDone? ==>
      (InFlight(call.stage) || call.stage.CtxDone?)
    ensures Inv(s.(calls := s.calls[c := call]))
  {
    var calls := s.calls[c := call];
    forall d | 0 <= d < |calls| ensures EpochOk(s.f, calls, s.lastProbe, d) {
      assert EpochOk(s.f, s.calls, s.lastProbe, d);
    }
  }

  lemma LoadKeeps(s: Sys, c: nat)
    requires Inv(s) && Apply(s, Load(c)).Some?
    ensures Inv(Apply(s, Load(c)).value)
  {
    var call := s.calls[c].(loadedAt := |s.f.log|);
    assert s.f.log[..|s.f.log|] == s.f.log;
    match s.f.state
    case Closed => CallStepKeeps(s, c, call.(route := ViaClosed, stage := Calling));
    case HalfOpened => CallStepKeeps(s, c, call.(route := ViaHalfOpened, stage := Loaded));
    case Opened => CallStepKeeps(s, c, call.(stage := Rejected));
  }

  lemma NewCallKeeps(s: Sys)
    requires Inv(s)
    ensures Inv(Apply(s, NewCall).value)
  {
    var calls := s.calls + [Call(Unrouted, Entering, false, 0, None)];
    forall d | 0 <= d < |calls| ensures EpochOk(s.f, calls, s.lastProbe, d) {
      if d < |s.calls| {
        assert EpochOk(s.f, s.calls, s.lastProbe, d);
      }
    }
  }

  lemma SwapKeeps(s: Sys, c: nat)
    requires Inv(s) && Apply(s, Swap(c)).Some?
    ensures Inv(Apply(s, Swap(c)).value)
  {
    if s.f.attempts != 0 {
      CallStepKeeps(s, c, s.calls[c].(stage := Rejected));
    } else {
      var s' := Apply(s, Swap(c)).value;
      SwapCommutes(s.prog, s.f);
      var g := Exec(s.prog, s.f);
      var h := Exec(s.prog, s'.f);
      assert h == g || h == g.(attempts := 1);
      assert FieldsOk(h);
      forall d | 0 <= d < |s'.calls| ensures EpochOk(s'.f, s'.calls, c, d) {
        assert EpochOk(s.f, s.calls, s.lastProbe, d);
      }
      forall d | 0 <= d < |s.calls| && s.calls[d].epoch.Some?
        ensures s.calls[d].epoch.value < s.f.resets
      {
        assert EpochOk(s.f, s.calls, s.lastProbe, d);
      }
    }
  }

  /** Steps that neither reset nor win the swap. */
  lemma AdmissionsFrame(s: Sys, f: Fields, calls: seq<Call>)
    requires AdmissionsOk(s.f, s.calls, s.lastProbe)
    requires f.attempts == s.f.attempts && f.resets == s.f.resets
    requires |calls| == |s.calls| && forall c :: 0 <= c < |calls| ==> calls[c].epoch == s.calls[c].epoch
    ensures AdmissionsOk(f, calls, s.lastProbe)
  {
    forall d | 0 <= d < |calls| ensures EpochOk(f, calls, s.lastProbe, d) {
      assert EpochOk(s.f, s.calls, s.lastProbe, d);
    }
  }

  lemma FireKeeps(s: Sys, t: nat)
    requires Inv(s) && Apply(s, Fire(t)).Some?
    ensures Inv(Apply(s, Fire(t)).value)
  {
    FireCommutes(s.prog, s.f, t);
    FireKeepsFields(Exec(s.prog, s.f), t);
    var s' := Apply(s, Fire(t)).value;
    AdmissionsFrame(s, s'.f, s'.calls);
  }

  /** Taking the lock: the new section leads from good fields to good fields. */
  lemma CallLocksKeeps(s: Sys, c: nat)
    requires Inv(s) && Apply(s, CallLocks(c)).Some?
    ensures Inv(Apply(s, CallLocks(c)).value)
  {
    var call := s.calls[c];
    var s' := Apply(s, CallLocks(c)).value;
    assert Exec(s.prog, s.f) == s.f;
    assert CallOk(call, s.f.log);
    CallSection(s.f, call);
    CallLocksProbe(s.f, Exec(s'.prog, s'.f), s.calls, c, s.lastProbe);
    AdmissionsFrame(s, s'.f, s'.calls);
    CallLocksOwner(s, c);
  }

  /** The probe that has taken the lock leaves HalfOpened; any other section leaves the probe where it was. */
  lemma CallLocksProbe(f: Fields, g: Fields, calls: seq<Call>, c: nat, lastProbe: nat)
    requires ProbeOk(f, calls, lastProbe) && KeepsProbe(f, g) && c < |calls|
    requires g.state == HalfOpened && g.attempts == 1 ==> calls[c].route.ViaClosed?
    ensures ProbeOk(g, calls[c := calls[c].(stage := InCritical)], lastProbe)
  {
  }

  lemma CallLocksOwner(s: Sys, c: nat)
    requires LockOk(s) && (forall d :: 0 <= d < |s.calls| ==> CallOk(s.calls[d], s.f.log))
    requires Apply(s, CallLocks(c)).Some?
    ensures var s' := Apply(s, CallLocks(c)).value;
      LockOk(s') && forall d :: 0 <= d < |s'.calls| ==> CallOk(s'.calls[d], s'.f.log)
  {
    var s' := Apply(s, CallLocks(c)).value;
    forall d | 0 <= d < |s'.calls| ensures CallOk(s'.calls[d], s'.f.log) {
      assert CallOk(s.calls[d], s.f.log);
      PrefixPhase(s.f.log, Passed, s.calls[d]);
    }
  }

  lemma TimerLocksKeeps(s: Sys, t: nat)
    requires Inv(s) && Apply(s, TimerLocks(t)).Some?
    ensures Inv(Apply(s, TimerLocks(t)).value)
  {
    var s' := Apply(s, TimerLocks(t)).value;
    assert Exec(s.prog, s.f) == s.f;
    TimerSection(s.f, t);
    AdmissionsFrame(s, s'.f, s'.calls);
  }

  lemma RunOpKeeps(s: Sys)
    requires Inv(s) && Apply(s, RunOp).Some?
    ensures Inv(Apply(s, RunOp).value)
  {
    ExecStep(s.prog, s.f);
    OpAdmissions(s.prog[0], s.f, s.calls, s.lastProbe);
    OpLogs(s.prog[0], s.f);
    OpCalls(s.prog[0], s.f, s.calls);
  }

  lemma OpAdmissions(op: Op, f: Fields, calls: seq<Call>, lastProbe: nat)
    requires AdmissionsOk(f, calls, lastProbe)
    ensures AdmissionsOk(ExecOp(op, f), calls, lastProbe)
  {
    var g := ExecOp(op, f);
    assert (g.attempts == f.attempts && g.resets == f.resets) || (g.attempts == 0 && g.resets == f.resets + 1);
    forall d | 0 <= d < |calls| ensures EpochOk(g, calls, lastProbe, d) {
      assert EpochOk(f, calls, lastProbe, d);
    }
  }

  lemma OpCalls(op: Op, f: Fields, calls: seq<Call>)
    requires PhaseOf(f.log) == f.state
    requires forall c :: 0 <= c < |calls| ==> CallOk(calls[c], f.log)
    ensures forall c :: 0 <= c < |calls| ==> CallOk(calls[c], ExecOp(op, f).log)
  {
    var log := ExecOp(op, f).log;
    OpLogs(op, f);
    if log != f.log {
      forall c | 0 <= c < |calls| ensures CallOk(calls[c], log) {
        PrefixPhase(f.log, log[|f.log|], calls[c]);
      }
    }
  }

  /** An operation logs nothing, or one event that leaves the history ending in the stored phase. */
  lemma OpLogs(op: Op, f: Fields)
    requires PhaseOf(f.log) == f.state
    ensures var g := ExecOp(op, f);
      && PhaseOf(g.log) == g.state
      && (g.log == f.log || (|g.log| == |f.log| + 1 && g.log == f.log + [g.log[|f.log|]]))
  {
    var g := ExecOp(op, f);
    assert g.log != f.log ==> g.log[..|f.log|] == f.log;
  }

  lemma UnlockKeeps(s: Sys)
    requires Inv(s) && Apply(s, Unlock).Some?
    ensures Inv(Apply(s, Unlock).value)
  {
    var s' := Apply(s, Unlock).value;
    AdmissionsFrame(s, s'.f, s'.calls);
  }

  lemma StepKeeps(s: Sys, a: Action)
    requires Inv(s) && Apply(s, a).Some?
    ensures Inv(Apply(s, a).value)
  {
    match a
    case NewCall => NewCallKeeps(s);
    case CancelCtx(c) => CallStepKeeps(s, c, s.calls[c].(cancelled := true));
    case Load(c) => LoadKeeps(s, c);
    case Swap(c) => SwapKeeps(s, c);
    case CallbackReturns(c, o) => CallStepKeeps(s, c, s.calls[c].(stage := Returned(o)));
    case FirstSelect(c) =>
      if s.calls[c].cancelled {
        CallStepKeeps(s, c, s.calls[c].(stage := CtxDone));
      } else {
        CallStepKeeps(s, c, s.calls[c].(stage := Waiting(s.calls[c].stage.outcome)));
      }
    case SelectDone(c) => CallStepKeeps(s, c, s.calls[c].(stage := CtxDone));
    case CallLocks(c) => CallLocksKeeps(s, c);
    case Fire(t) => FireKeeps(s, t);
    case TimerLocks(t) => TimerLocksKeeps(s, t);
    case RunOp => RunOpKeeps(s);
    case Unlock => UnlockKeeps(s);
  }

  lemma InitKeeps(threshold: uint32)
    ensures Inv(Init(threshold))
  {
    var z := Zeroed(threshold);
    ExecSwitch(Closed, Boot, z);
    var f := Switch(Closed, Boot, z);
    BootLog(threshold);
    assert f.log == [Switched(Closed, Closed, Boot)];
  }

  lemma BootLog(threshold: uint32)
    ensures var log := [Switched(Closed, Closed, Boot)];
      LogOk(log, threshold) && PhaseOf(log) == Closed && Recorded(log) == 0
  {
    assert [Switched(Closed, Closed, Boot)][..0] == [];
  }

  lemma {:induction false} RunKeeps(s: Sys, acts: seq<Action>)
    requires Inv(s) && Run(s, acts).Some?
    ensures Inv(Run(s, acts).value)
    decreases |acts|
  {
    if acts != [] {
      StepKeeps(s, acts[0]);
      RunKeeps(Apply(s, acts[0]).value, acts[1..]);
    }
  }
}
