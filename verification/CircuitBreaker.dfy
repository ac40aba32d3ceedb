/**
 The circuitBreaker struct and its methods, in the order of statements of topolib/circuit_breaker.go.
 Each method runs with the mutex held and is proved to have, undisturbed, the effect of its critical section in
 BreakerModel. The order of the stores inside a section, which interleavings depend on, is that of `SwitchOps`
 and the other lists of operations there; these contracts do not see it.
 */
module CircuitBreakers {
  import opened Options
  import opened BreakerModel
  import opened BreakerInvariant

  class CircuitBreaker {
    var state: Phase
    var halfOpenTimer: Option<nat>
    var failuresCleanupTimer: Option<nat>
    var halfOpenAttempts: uint32
    var failuresCount: uint32
    const openThreshold: uint32
    // the timers of the runtime, by identity
    var timers: seq<Timer>
    ghost var log: seq<Event>
    ghost var resets: nat

    ghost function View(): Fields
      reads this
    {
      Fields(state, halfOpenTimer, failuresCleanupTimer, halfOpenAttempts, failuresCount, openThreshold,
             timers, log, resets)
    }

    constructor (openThreshold: uint32)
      ensures View() == Init(openThreshold).f
      ensures FieldsOk(View())
    {
      this.openThreshold := openThreshold;
      state, halfOpenAttempts, failuresCount := Closed, 0, 0;
      halfOpenTimer, failuresCleanupTimer, timers := None, None, [];
      log, resets := [], 0;
      new;
      SwitchState(Closed, Boot);
      InitKeeps(openThreshold);
    }

    /** Returns the new value of the stopped reference, which is nil. */
    method StopTimer(ref: Option<nat>) returns (r: Option<nat>)
      modifies this`timers
      ensures r.None?
      ensures timers == Halt(old(timers), ref)
      ensures |timers| == |old(timers)| && forall t :: 0 <= t < |timers| && ref != Some(t) ==> timers[t] == old(timers)[t]
      ensures ref.Some? && ref.value < |timers| ==>
        && timers[ref.value].kind == old(timers)[ref.value].kind
        && !timers[ref.value].status.Armed?
        && (timers[ref.value].status.Queued? <==> old(timers)[ref.value].status.Queued?)
        && (timers[ref.value].status.Spent? <==> old(timers)[ref.value].status.Spent?)
    {
      if ref.Some? && ref.value < |timers| && timers[ref.value].status.Armed? {
        timers := timers[ref.value := timers[ref.value].(status := Stopped)];
      }
      r := None;
    }

    method EnsureTimer(ref: Option<nat>, kind: TimerKind) returns (r: Option<nat>)
      modifies this`timers
      ensures ref.Some? ==> r == ref && timers == old(timers)
      ensures ref.None? ==> r == Some(|old(timers)|) && timers == old(timers) + [Timer(kind, Armed)]
    {
      r := ref;
      if ref.None? {
        r := Some(|timers|);
        timers := timers + [Timer(kind, Armed)];
      }
    }

    method SwitchState(to: Phase, ghost cause: Cause)
      modifies this
      ensures View() == Exec(SwitchOps(to, cause), old(View()))
      ensures state == to && failuresCount == 0 && halfOpenAttempts == 0
      ensures to == Closed ==> halfOpenTimer.None? && failuresCleanupTimer.Some?
      ensures to == HalfOpened ==> halfOpenTimer.None? && failuresCleanupTimer.None?
      ensures to == Opened ==> halfOpenTimer.Some? && failuresCleanupTimer.None?
    {
      match to {
        case Closed =>
          halfOpenTimer := StopTimer(halfOpenTimer);
          failuresCleanupTimer := EnsureTimer(failuresCleanupTimer, CleanupKind);
        case HalfOpened =>
          failuresCleanupTimer := StopTimer(failuresCleanupTimer);
          halfOpenTimer := StopTimer(halfOpenTimer);
        case Opened =>
          failuresCleanupTimer := StopTimer(failuresCleanupTimer);
          halfOpenTimer := EnsureTimer(halfOpenTimer, HalfOpenKind);
      }
      failuresCount := 0;
      halfOpenAttempts, resets := 0, resets + 1;
      log := log + [Switched(state, to, cause)];
      state := to;
      ExecSwitch(to, cause, old(View()));
    }

    /** The compare-and-swap that admits a probe. */
    method TryAdmit() returns (admitted: bool)
      modifies this`halfOpenAttempts
      ensures admitted <==> old(halfOpenAttempts) == 0
      ensures halfOpenAttempts == if admitted then 1 else old(halfOpenAttempts)
    {
      admitted := halfOpenAttempts == 0;
      if admitted {
        halfOpenAttempts := 1;
      }
    }

    /** The failure branch of `doClosed`. */
    method RecordFailure()
      modifies this
      ensures View() == AfterFailure(old(View()))
      ensures Counted(old(View()))
    {
      failuresCount, log := (failuresCount + 1) % UINT32, log + [Failed];
      ghost var g := View();
      if state == Closed && failuresCount > openThreshold {
        SwitchState(Opened, Tripped);
        ExecSwitch(Opened, Tripped, g);
      }
    }

    /** One failure more than in f; opened exactly when that passes the threshold of a closed breaker. */
    ghost predicate Counted(f: Fields)
      reads this
    {
      var n := (f.failures + 1) % 0x1_0000_0000;
      if f.state == Closed && n > f.threshold then FreshlyOpened(View())
      else View() == f.(failures := n, log := f.log + [Failed])
    }

    /**
     What `doClosed` does after its callback, once it holds the mutex. No error, or the ignored one: closed and
     reset, from any phase. Any other error: counted.
     */
    method RecordClosed(outcome: Outcome, ghost loadedAt: nat)
      requires FieldsOk(View()) && loadedAt <= |log| && PhaseOf(log[..loadedAt]) == Closed
      modifies this
      ensures View() == Exec(ClosedOps(outcome, loadedAt), Logged(old(View()), ViaClosed, outcome))
      ensures FieldsOk(View())
      ensures outcome == Success || outcome == Ignored ==> FreshlyClosed(View())
      ensures outcome == Failure ==> Counted(old(View()))
    {
      ghost var f := View();
      if IsErrorOk(outcome) {
        ClosedOkSection(f, loadedAt);
        log := log + [Passed];
        SwitchState(Closed, ClosedOk(loadedAt));
        return;
      }
      RecordFailure();
      ExecFailure(f);
      FailureFieldsOk(f);
    }

    /** What `doHalfOpened` does after its callback, once it holds the mutex. */
    method RecordProbe(outcome: Outcome)
      requires FieldsOk(View())
      modifies this
      ensures View() == Exec(ProbeOps(outcome), old(View()))
      ensures FieldsOk(View())
      ensures old(state) != HalfOpened ==> View() == old(View())
      ensures old(state) == HalfOpened && (outcome == Success || outcome == Ignored) ==> FreshlyClosed(View())
      ensures old(state) == HalfOpened && outcome == Failure ==> FreshlyOpened(View())
    {
      ExecTest(IfHalfOpened(outcome), View());
      ProbeSection(View(), outcome);
      if state != HalfOpened {
        return;
      }
      if IsErrorOk(outcome) {
        SwitchState(Closed, Cause.ProbeOk);
      } else {
        SwitchState(Opened, ProbeFailed);
      }
    }

    /** The cleanup timer's callback; t is the timer that fired, perhaps no longer the current one. */
    method ResetFailures(t: nat)
      requires FieldsOk(View()) && t < |timers| && timers[t] == Timer(CleanupKind, Queued)
      modifies this
      ensures View() == Exec(TimerOps(CleanupKind), SetStatus(old(View()), t, Spent))
      ensures FieldsOk(View())
      ensures old(state) == Closed ==> FreshlyClosed(View())
      ensures old(state) != Closed ==> View() == SetStatus(old(View()), t, Spent)
    {
      TimerSection(View(), t);
      timers := timers[t := timers[t].(status := Spent)];
      ghost var g := View();
      failuresCleanupTimer := StopTimer(failuresCleanupTimer);
      ghost var h := View();
      assert TimerOps(CleanupKind) == [StopCleanup] + [IfStillClosed];
      ExecSimple(StopCleanup, [IfStillClosed], g);
      ExecTest(IfStillClosed, h);
      if state == Closed {
        SwitchState(Closed, CleanupTick);
      }
    }

    /** The half-open timer's callback. */
    method TryHalfOpen(t: nat)
      requires FieldsOk(View()) && t < |timers| && timers[t] == Timer(HalfOpenKind, Queued)
      modifies this
      ensures View() == Exec(TimerOps(HalfOpenKind), SetStatus(old(View()), t, Spent))
      ensures FieldsOk(View())
      ensures old(state) == Opened ==> state == HalfOpened && failuresCount == 0 && halfOpenAttempts == 0
      ensures old(state) == Opened ==> halfOpenTimer.None? && failuresCleanupTimer.None?
      ensures old(state) != Opened ==> View() == SetStatus(old(View()), t, Spent)
    {
      TimerSection(View(), t);
      timers := timers[t := timers[t].(status := Spent)];
      ghost var f := View();
      HalfOpenTickEffect(f);
      if state == Opened {
        SwitchState(HalfOpened, HalfOpenTick);
        ExecSwitch(HalfOpened, HalfOpenTick, f);
      }
    }

    /**
     One call with nobody interfering: the callback would return `outcome`, and the context is done
     by then if `cancelled`.
     */
    method Do(outcome: Outcome, cancelled: bool) returns (ran: bool)
      requires FieldsOk(View())
      modifies this
      ensures FieldsOk(View())
      ensures ran <==> old(state) == Closed || (old(state) == HalfOpened && old(halfOpenAttempts) == 0)
      ensures !ran ==> View() == old(View())
      ensures ran && cancelled ==>
        View() == if old(state) == HalfOpened then old(View()).(attempts := 1) else old(View())
      ensures ran && !cancelled && (outcome == Success || outcome == Ignored) ==> FreshlyClosed(View())
      ensures ran && !cancelled && outcome == Failure && old(state) == Closed ==> Counted(old(View()))
      ensures ran && !cancelled && outcome == Failure && old(state) == HalfOpened ==> FreshlyOpened(View())
    {
      ran := false;
      match state {
        case Closed =>
          ran := true;
          assert log[..|log|] == log;
          if !cancelled {
            RecordClosed(outcome, |log|);
          }
        case HalfOpened =>
          ran := TryAdmit();
          if ran && !cancelled {
            ProbeSection(View(), outcome);
            RecordProbe(outcome);
          }
        case Opened =>
      }
    }
  }
}
