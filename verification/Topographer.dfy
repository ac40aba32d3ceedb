/**
 The whole Topographer: any number of ResolveAll and Resolve calls and of Shutdown calls, one pool of
 workers with a blocking Invoke, the read-write lock, the `closed` flag and the usage counters.
 A writer that waits for the lock holds back new readers, as sync.RWMutex does.
 */
module Topographers {
  import opened Options
  import opened Sums
  import opened ResolveTask
  import opened ResolveOrder
  import opened ResolveCall
  import opened ResolveAnswers

  const UINT64 := 0x1_0000_0000_0000_0000

  /**
   A call of Shutdown. `Pending`: waits for the readers to leave. `Holding`: has the lock. `Marked`: has set
   `closed`. `Downing`: inside closeOnce, these offline providers still to be shut down. `Unlocking`: before the unlock.
   */
  datatype ShutStage = Outside | Pending | Holding | Marked | Downing(rest: seq<nat>) | Unlocking | Finished

  /** The read-write lock, `closed`, closeOnce, and the offline providers shut down so far, in order. */
  datatype Gate = Gate(
    readers: nat,
    writer: Option<nat>,
    shutdowns: seq<ShutStage>,
    closed: bool,
    released: bool,
    onceDone: bool,
    downed: seq<nat>)

  /** `oks` and `errs` count every lookup that returned; the counters of UsageStats are these modulo 2^64. */
  datatype Books = Books(
    successes: map<nat, nat>,
    failures: map<nat, nat>,
    oks: map<nat, nat>,
    errs: map<nat, nat>)

  datatype Topo = Topo(
    workers: nat,
    busy: nat,
    calls: seq<Call>,
    gate: Gate,
    books: Books,
    registry: set<nat>,
    offline: seq<nat>)

  datatype TopoAction =
    | StartCall(c: nat)
    | InCall(c: nat, a: CallAction)
    | FinishCall(c: nat)
    | Announce(k: nat)
    | Acquire(k: nat)
    | Mark(k: nat)
    | Once(k: nat)
    | DownNext(k: nat)
    | UnlockWriter(k: nat)

  function Count(m: map<nat, nat>, p: nat): nat {
    if p in m then m[p] else 0
  }

  /** `notifyUsed`: one of the two uint64 counters of the provider goes up by one. */
  function Notify(b: Books, p: nat, ok: bool): Books {
    if ok
    then b.(successes := b.successes[p := (Count(b.successes, p) + 1) % UINT64], oks := b.oks[p := Count(b.oks, p) + 1])
    else b.(failures := b.failures[p := (Count(b.failures, p) + 1) % UINT64], errs := b.errs[p := Count(b.errs, p) + 1])
  }

  function SetCall(s: Topo, c: nat, call: Call): Topo
    requires c < |s.calls|
  {
    s.(calls := s.calls[c := call])
  }

  /** The closed check and `getProvidersToUse`. */
  predicate MustRefuse(s: Topo, call: Call) {
    s.gate.closed || exists p :: p in call.providers && p !in s.registry
  }

  /** What the pool and the lock allow a call to do, and what they and the counters note of it. */
  predicate Allowed(s: Topo, call: Call, a: CallAction) {
    match a
    case Begin(refused) => refused <==> MustRefuse(s, call)
    case Accept => s.busy < s.workers && !s.gate.released
    case Free(_) => s.busy > 0
    case _ => true
  }

  function Noted(s: Topo, call: Call, a: CallAction): Topo {
    match a
    case Accept => s.(busy := s.busy + 1)
    case Free(_) => if s.busy > 0 then s.(busy := s.busy - 1) else s
    case InTask(i, ta) =>
      if ta.LookupReturns? && i < |call.tasks| && ta.k < |call.tasks[i].providers|
      then s.(books := Notify(s.books, call.tasks[i].providers[ta.k], ta.ok))
      else s
    case _ => s
  }

  /** One step of a call of Shutdown. */
  function GateStep(g: Gate, offline: seq<nat>, a: TopoAction): Option<Gate> {
    match a
    case Announce(k) =>
      if k < |g.shutdowns| && g.shutdowns[k].Outside? && g.writer.None?
      then Some(g.(shutdowns := g.shutdowns[k := Pending], writer := Some(k)))
      else None
    case Acquire(k) =>
      if k < |g.shutdowns| && g.shutdowns[k].Pending? && g.readers == 0
      then Some(g.(shutdowns := g.shutdowns[k := Holding]))
      else None
    case Mark(k) =>
      if k < |g.shutdowns| && g.shutdowns[k].Holding?
      then Some(g.(shutdowns := g.shutdowns[k := Marked], closed := true))
      else None
    case Once(k) =>
      if !(k < |g.shutdowns| && g.shutdowns[k].Marked?) then None
      else if g.onceDone then Some(g.(shutdowns := g.shutdowns[k := Unlocking]))
      else Some(g.(shutdowns := g.shutdowns[k := Downing(offline)], released := true))
    case DownNext(k) =>
      if !(k < |g.shutdowns| && g.shutdowns[k].Downing?) then None
      else if g.shutdowns[k].rest == [] then Some(g.(shutdowns := g.shutdowns[k := Unlocking], onceDone := true))
      else Some(g.(shutdowns := g.shutdowns[k := Downing(g.shutdowns[k].rest[1..])],
                   downed := g.downed + [g.shutdowns[k].rest[0]]))
    case UnlockWriter(k) =>
      if k < |g.shutdowns| && g.shutdowns[k].Unlocking?
      then Some(g.(shutdowns := g.shutdowns[k := Finished], writer := None))
      else None
    case _ => None
  }

  ghost function Step(s: Topo, a: TopoAction): Option<Topo> {
    match a
    case StartCall(c) =>
      if c < |s.calls| && s.calls[c].stage.Idle? && s.gate.writer.None?
      then Some(SetCall(s, c, s.calls[c].(stage := Entered)).(gate := s.gate.(readers := s.gate.readers + 1)))
      else None
    case InCall(c, ca) =>
      if c < |s.calls| && CallStep(s.calls[c], ca).Some? && Allowed(s, s.calls[c], ca)
      then Some(Noted(SetCall(s, c, CallStep(s.calls[c], ca).value), s.calls[c], ca))
      else None
    case FinishCall(c) =>
      if c < |s.calls| && s.calls[c].stage.Returning? && s.gate.readers > 0
      then Some(SetCall(s, c, s.calls[c].(stage := Returned(s.calls[c].stage.outcome)))
                  .(gate := s.gate.(readers := s.gate.readers - 1)))
      else None
    case _ =>
      var r := GateStep(s.gate, s.offline, a);
      if r.Some? then Some(s.(gate := r.value)) else None
  }

  ghost function Run(s: Topo, acts: seq<TopoAction>): Option<Topo>
    decreases |acts|
  {
    if acts == [] then Some(s)
    else
      var r := Step(s, acts[0]);
      if r.None? then None else Run(r.value, acts[1..])
  }

  // ----- the invariant

  function Holds(t: Task): nat {
    if t.stage.Freed? then 0 else 1
  }

  function Occupied(c: Call): nat {
    Sum(Holds, c.tasks)
  }

  function Reading(c: Call): nat {
    if c.stage.Idle? || c.stage.Returned? then 0 else 1
  }

  /** The call may still schedule tasks or have tasks under way. */
  predicate Active(stage: CallerStage) {
    stage.Scheduling? || stage.Invoking? || stage.Collecting? || stage.AwaitResult? || stage.AwaitGroup?
  }

  predicate InsideLock(stage: ShutStage) {
    stage.Holding? || stage.Marked? || stage.Downing? || stage.Unlocking?
  }

  predicate PastMark(stage: ShutStage) {
    stage.Marked? || stage.Downing? || stage.Unlocking? || stage.Finished?
  }

  predicate ShutOk(g: Gate, k: nat)
    requires k < |g.shutdowns|
  {
    && (g.shutdowns[k].Pending? || InsideLock(g.shutdowns[k]) <==> g.writer == Some(k))
    && (InsideLock(g.shutdowns[k]) ==> g.readers == 0)
    && (PastMark(g.shutdowns[k]) ==> g.closed)
  }

  predicate LockOk(g: Gate, calls: seq<Call>) {
    && g.readers == Sum(Reading, calls)
    && (forall k :: 0 <= k < |g.shutdowns| ==> ShutOk(g, k))
    && (g.writer.Some? ==> g.writer.value < |g.shutdowns|)
    && (g.released || g.downed != [] ==> g.closed)
    && (g.closed ==> forall c :: 0 <= c < |calls| ==> !Active(calls[c].stage))
  }

  /** How far closeOnce has come: what is shut down, and what the Shutdown inside it still has to shut down. */
  predicate DownOk(g: Gate, offline: seq<nat>) {
    && (forall k :: 0 <= k < |g.shutdowns| && g.shutdowns[k].Downing? ==>
          g.downed + g.shutdowns[k].rest == offline && g.released && !g.onceDone)
    && (g.onceDone ==> g.downed == offline && g.released)
    && (forall k :: 0 <= k < |g.shutdowns| && (g.shutdowns[k].Unlocking? || g.shutdowns[k].Finished?) ==> g.onceDone)
    && (!g.onceDone && (forall k :: 0 <= k < |g.shutdowns| ==> !g.shutdowns[k].Downing?) ==> g.downed == [])
  }

  /** Lookups of provider p that have returned, in one task: without an error, or with one. */
  function ReturnedIn(replies: seq<Option<Reply>>, providers: seq<nat>, p: nat, ok: bool): nat
    requires |replies| == |providers|
  {
    if replies == [] then 0
    else
      var n := |replies| - 1;
      ReturnedIn(replies[..n], providers[..n], p, ok) + (if Came(replies[n], providers[n], p, ok) then 1 else 0)
  }

  predicate Came(r: Option<Reply>, provider: nat, p: nat, ok: bool) {
    r.Some? && provider == p && r.value.ok == ok
  }

  function TaskReturned(p: nat, ok: bool): Task -> nat {
    (t: Task) => if |t.replies| == |t.providers| then ReturnedIn(t.replies, t.providers, p, ok) else 0
  }

  function CallReturned(p: nat, ok: bool): Call -> nat {
    (c: Call) => Sum(TaskReturned(p, ok), c.tasks)
  }

  ghost predicate StatsOk(s: Topo, p: nat) {
    && Count(s.books.oks, p) == Sum(CallReturned(p, true), s.calls)
    && Count(s.books.errs, p) == Sum(CallReturned(p, false), s.calls)
    && Count(s.books.successes, p) == Count(s.books.oks, p) % UINT64
    && Count(s.books.failures, p) == Count(s.books.errs, p) % UINT64
  }

  ghost predicate Inv(s: Topo) {
    && (forall c :: 0 <= c < |s.calls| ==> CallInv(s.calls[c]))
    && s.busy == Sum(Occupied, s.calls)
    && s.busy <= s.workers
    && LockOk(s.gate, s.calls)
    && DownOk(s.gate, s.offline)
    && forall p :: StatsOk(s, p)
  }

  // ----- every step keeps it

  lemma {:induction false} ReturnedUpdate(replies: seq<Option<Reply>>, providers: seq<nat>, p: nat, ok: bool, k: nat, r: Reply)
    requires |replies| == |providers| && k < |replies| && replies[k].None?
    ensures ReturnedIn(replies[k := Some(r)], providers, p, ok)
         == ReturnedIn(replies, providers, p, ok) + (if providers[k] == p && r.ok == ok then 1 else 0)
    decreases |replies|
  {
    var n := |replies| - 1;
    var u := replies[k := Some(r)];
    if k == n {
      assert u[..n] == replies[..n];
    } else {
      assert u[..n] == replies[..n][k := Some(r)];
      ReturnedUpdate(replies[..n], providers[..n], p, ok, k, r);
    }
  }

  lemma {:induction false} NoneReturned(replies: seq<Option<Reply>>, providers: seq<nat>, p: nat, ok: bool)
    requires |replies| == |providers| && forall k :: 0 <= k < |replies| ==> replies[k].None?
    ensures ReturnedIn(replies, providers, p, ok) == 0
    decreases |replies|
  {
    if replies != [] {
      var n := |replies| - 1;
      NoneReturned(replies[..n], providers[..n], p, ok);
    }
  }

  /** Does this action of a task bring a lookup of provider p home, with this outcome? */
  predicate Brings(t: Task, ta: TaskAction, p: nat, ok: bool) {
    ta.LookupReturns? && ta.k < |t.providers| && t.providers[ta.k] == p && ta.ok == ok
  }

  lemma TaskReturns(t: Task, ta: TaskAction, ctxDone: bool, p: nat, ok: bool)
    requires TaskInv(t, ctxDone) && TaskStep(t, ta, ctxDone).Some?
    ensures TaskReturned(p, ok)(TaskStep(t, ta, ctxDone).value)
         == TaskReturned(p, ok)(t) + (if Brings(t, ta, p, ok) then 1 else 0)
  {
    RepliesRecorded(t, ta, ctxDone);
    TaskStepLocal(t, ta, ctxDone);
    if ta.LookupReturns? {
      assert LookupOk(t, ctxDone, ta.k);
      ReturnedUpdate(t.replies, t.providers, p, ok, ta.k, Reply(ta.ok, ta.country, ta.city));
    }
  }

  predicate CallBrings(c: Call, a: CallAction, p: nat, ok: bool) {
    a.InTask? && a.i < |c.tasks| && Brings(c.tasks[a.i], a.a, p, ok)
  }

  lemma CallReturns(c: Call, a: CallAction, p: nat, ok: bool)
    requires CallInv(c) && CallStep(c, a).Some?
    ensures CallReturned(p, ok)(CallStep(c, a).value)
         == CallReturned(p, ok)(c) + (if CallBrings(c, a, p, ok) then 1 else 0)
  {
    match a
    case InTask(i, ta) => InTaskReturns(c, i, ta, p, ok);
    case Accept => AcceptReturns(c, p, ok);
    case Deliver(i) => ClosedMeansDone(c, i); WorkerReturns(c, a, p, ok);
    case TaskDone(i) => ClosedMeansDone(c, i); WorkerReturns(c, a, p, ok);
    case Abandon(_) => WorkerReturns(c, a, p, ok);
    case Free(_) => WorkerReturns(c, a, p, ok);
    case _ => CallerReturns(c, a, p, ok);
  }

  lemma InTaskReturns(c: Call, i: nat, ta: TaskAction, p: nat, ok: bool)
    requires CallInv(c) && CallStep(c, InTask(i, ta)).Some?
    ensures CallReturned(p, ok)(CallStep(c, InTask(i, ta)).value)
         == CallReturned(p, ok)(c) + (if Brings(c.tasks[i], ta, p, ok) then 1 else 0)
  {
    assert TaskOk(c, i);
    TaskReturns(c.tasks[i], ta, c.ctxDone, p, ok);
    SumUpdate(TaskReturned(p, ok), c.tasks, i, TaskStep(c.tasks[i], ta, c.ctxDone).value);
  }

  lemma AcceptReturns(c: Call, p: nat, ok: bool)
    requires CallStep(c, Accept).Some?
    ensures CallReturned(p, ok)(CallStep(c, Accept).value) == CallReturned(p, ok)(c)
  {
    var t := NewTask(c.ips[|c.tasks|], c.providers);
    SumAppend(TaskReturned(p, ok), c.tasks, t);
    NoneReturned(t.replies, t.providers, p, ok);
  }

  lemma WorkerReturns(c: Call, a: CallAction, p: nat, ok: bool)
    requires a.Deliver? || a.Abandon? || a.TaskDone? || a.Free?
    requires CallStep(c, a).Some?
    requires a.Deliver? ==> !c.closed
    requires a.TaskDone? ==> c.wg > 0
    ensures CallReturned(p, ok)(CallStep(c, a).value) == CallReturned(p, ok)(c)
  {
    var t := CallStep(c, a).value.tasks[a.i];
    assert CallStep(c, a).value.tasks == c.tasks[a.i := t];
    assert t == c.tasks[a.i].(stage := t.stage);
    SumUpdate(TaskReturned(p, ok), c.tasks, a.i, t);
  }

  lemma CallerReturns(c: Call, a: CallAction, p: nat, ok: bool)
    requires !a.InTask? && !a.Deliver? && !a.Abandon? && !a.TaskDone? && !a.Free? && !a.Accept?
    requires CallStep(c, a).Some?
    ensures CallReturned(p, ok)(CallStep(c, a).value) == CallReturned(p, ok)(c)
  {
  }

  /** A wrapped counter and its history go up together. */
  lemma BumpCount(wrapped: map<nat, nat>, history: map<nat, nat>, q: nat, p: nat)
    requires Count(wrapped, p) == Count(history, p) % UINT64
    ensures Count(wrapped[q := (Count(wrapped, q) + 1) % UINT64], p)
         == Count(history[q := Count(history, q) + 1], p) % UINT64
  {
    if p == q {
      var b := Count(history, p);
      assert (b % UINT64 + 1) % UINT64 == (b + 1) % UINT64;
    }
  }

  lemma NotifyStats(b: Books, q: nat, ok: bool, p: nat)
    requires Count(b.successes, p) == Count(b.oks, p) % UINT64
    requires Count(b.failures, p) == Count(b.errs, p) % UINT64
    ensures var b' := Notify(b, q, ok);
      && Count(b'.oks, p) == Count(b.oks, p) + (if p == q && ok then 1 else 0)
      && Count(b'.errs, p) == Count(b.errs, p) + (if p == q && !ok then 1 else 0)
      && Count(b'.successes, p) == Count(b'.oks, p) % UINT64
      && Count(b'.failures, p) == Count(b'.errs, p) % UINT64
  {
    if ok {
      BumpCount(b.successes, b.oks, q, p);
    } else {
      BumpCount(b.failures, b.errs, q, p);
    }
  }

  lemma InCallStats(s: Topo, c: nat, ca: CallAction, p: nat)
    requires c < |s.calls| && CallInv(s.calls[c]) && StatsOk(s, p) && Step(s, InCall(c, ca)).Some?
    ensures StatsOk(Step(s, InCall(c, ca)).value, p)
  {
    var s' := Step(s, InCall(c, ca)).value;
    var call := s.calls[c];
    var call' := CallStep(call, ca).value;
    InCallSums(s, c, ca, p, true);
    InCallSums(s, c, ca, p, false);
    NotedCalls(SetCall(s, c, call'), call, ca);
    if ca.InTask? && ca.a.LookupReturns? {
      assert TaskOk(call, ca.i);
      NotifyStats(s.books, call.tasks[ca.i].providers[ca.a.k], ca.a.ok, p);
    }
  }

  lemma InCallSums(s: Topo, c: nat, ca: CallAction, p: nat, ok: bool)
    requires c < |s.calls| && CallInv(s.calls[c]) && CallStep(s.calls[c], ca).Some?
    ensures Sum(CallReturned(p, ok), s.calls[c := CallStep(s.calls[c], ca).value])
         == Sum(CallReturned(p, ok), s.calls) + (if CallBrings(s.calls[c], ca, p, ok) then 1 else 0)
  {
    CallReturns(s.calls[c], ca, p, ok);
    SumUpdate(CallReturned(p, ok), s.calls, c, CallStep(s.calls[c], ca).value);
  }

  lemma NotedCalls(s: Topo, call: Call, ca: CallAction)
    ensures Noted(s, call, ca).calls == s.calls
    ensures !(ca.InTask? && ca.a.LookupReturns?) ==> Noted(s, call, ca).books == s.books
  {
  }

  lemma NotedFrame(s: Topo, call: Call, ca: CallAction)
    ensures var s' := Noted(s, call, ca); s' == s.(busy := s'.busy, books := s'.books)
    ensures !ca.Accept? && !ca.Free? ==> Noted(s, call, ca).busy == s.busy
  {
  }

  /** The lock's books after a step of call c that does not enter or leave the lock. */
  lemma InCallLock(s: Topo, c: nat, ca: CallAction)
    requires LockOk(s.gate, s.calls) && c < |s.calls| && CallInv(s.calls[c]) && Step(s, InCall(c, ca)).Some?
    ensures LockOk(s.gate, s.calls[c := CallStep(s.calls[c], ca).value])
  {
    var call := s.calls[c];
    StageMoves(call, ca);
    SumUpdate(Reading, s.calls, c, CallStep(call, ca).value);
  }

  /** A step inside a call never starts it, never ends its hold of the lock, and only Begin(false) makes it active. */
  lemma StageMoves(call: Call, ca: CallAction)
    requires CallStep(call, ca).Some?
    ensures LockMoves(call, ca, CallStep(call, ca).value)
  {
    if ca.InTask? || ca.Deliver? || ca.Abandon? || ca.TaskDone? || ca.Free? {
      WorkerMoves(call, ca);
    } else {
      CallerMoves(call, ca);
    }
  }

  predicate LockMoves(call: Call, ca: CallAction, call': Call) {
    && Reading(call') == Reading(call)
    && (Active(call'.stage) ==> Active(call.stage) || ca == Begin(false))
  }

  lemma WorkerMoves(call: Call, ca: CallAction)
    requires (ca.InTask? || ca.Deliver? || ca.Abandon? || ca.TaskDone? || ca.Free?) && CallStep(call, ca).Some?
    ensures LockMoves(call, ca, CallStep(call, ca).value)
  {
  }

  lemma CallerMoves(call: Call, ca: CallAction)
    requires !ca.InTask? && !ca.Deliver? && !ca.Abandon? && !ca.TaskDone? && !ca.Free? && CallStep(call, ca).Some?
    ensures LockMoves(call, ca, CallStep(call, ca).value)
  {
  }

  lemma AcceptOccupies(call: Call)
    requires CallStep(call, Accept).Some?
    ensures Occupied(CallStep(call, Accept).value) == Occupied(call) + 1
  {
    SumAppend(Holds, call.tasks, NewTask(call.ips[|call.tasks|], call.providers));
  }

  /** Replacing task i changes the number of workers held by the difference. */
  lemma TaskOccupies(call: Call, i: nat, call': Call)
    requires i < |call.tasks| && |call'.tasks| == |call.tasks| && call'.tasks == call.tasks[i := call'.tasks[i]]
    ensures Occupied(call') + Holds(call.tasks[i]) == Occupied(call) + Holds(call'.tasks[i])
  {
    SumUpdate(Holds, call.tasks, i, call'.tasks[i]);
  }

  lemma WorkerOccupies(call: Call, ca: CallAction)
    requires ca.Deliver? || ca.Abandon? || ca.TaskDone? || ca.Free?
    requires CallStep(call, ca).Some?
    requires ca.Deliver? ==> !call.closed
    requires ca.TaskDone? ==> call.wg > 0
    ensures Occupied(CallStep(call, ca).value) + (if ca.Free? then 1 else 0) == Occupied(call)
  {
    TaskOccupies(call, ca.i, CallStep(call, ca).value);
  }

  /** Workers a call holds, after one of its steps. */
  lemma CallOccupies(call: Call, ca: CallAction)
    requires CallInv(call) && CallStep(call, ca).Some?
    ensures ca.Accept? ==> Occupied(CallStep(call, ca).value) == Occupied(call) + 1
    ensures ca.Free? ==> Occupied(CallStep(call, ca).value) + 1 == Occupied(call)
    ensures !ca.Accept? && !ca.Free? ==> Occupied(CallStep(call, ca).value) == Occupied(call)
  {
    match ca
    case Accept => AcceptOccupies(call);
    case InTask(i, ta) =>
      TaskHolds(call.tasks[i], ta, call.ctxDone);
      TaskOccupies(call, i, CallStep(call, ca).value);
    case Deliver(i) => ClosedMeansDone(call, i); WorkerOccupies(call, ca);
    case TaskDone(i) => ClosedMeansDone(call, i); WorkerOccupies(call, ca);
    case Abandon(_) => WorkerOccupies(call, ca);
    case Free(_) => WorkerOccupies(call, ca);
    case _ => CallerOccupies(call, ca);
  }

  lemma CallerOccupies(call: Call, ca: CallAction)
    requires !ca.InTask? && !ca.Deliver? && !ca.Abandon? && !ca.TaskDone? && !ca.Free? && !ca.Accept?
    requires CallStep(call, ca).Some?
    ensures Occupied(CallStep(call, ca).value) == Occupied(call)
  {
  }

  lemma InCallBusy(s: Topo, c: nat, ca: CallAction)
    requires s.busy == Sum(Occupied, s.calls) && s.busy <= s.workers
    requires c < |s.calls| && CallInv(s.calls[c]) && Step(s, InCall(c, ca)).Some?
    ensures var s' := Step(s, InCall(c, ca)).value; s'.busy == Sum(Occupied, s'.calls) && s'.busy <= s'.workers
  {
    var call := s.calls[c];
    var call' := CallStep(call, ca).value;
    CallOccupies(call, ca);
    SumUpdate(Occupied, s.calls, c, call');
    NotedFrame(SetCall(s, c, call'), call, ca);
  }

  lemma TaskHolds(t: Task, ta: TaskAction, ctxDone: bool)
    requires TaskStep(t, ta, ctxDone).Some?
    ensures Holds(TaskStep(t, ta, ctxDone).value) == Holds(t)
  {
  }

  lemma InCallKeeps(s: Topo, c: nat, ca: CallAction)
    requires Inv(s) && Step(s, InCall(c, ca)).Some?
    ensures Inv(Step(s, InCall(c, ca)).value)
  {
    var s' := Step(s, InCall(c, ca)).value;
    var call' := CallStep(s.calls[c], ca).value;
    assert CallInv(s.calls[c]);
    CallStepKeeps(s.calls[c], ca);
    NotedFrame(SetCall(s, c, call'), s.calls[c], ca);
    assert s'.calls == s.calls[c := call'];
    InCallBusy(s, c, ca);
    InCallLock(s, c, ca);
    InCallAllStats(s, c, ca);
  }

  lemma InCallAllStats(s: Topo, c: nat, ca: CallAction)
    requires c < |s.calls| && CallInv(s.calls[c]) && Step(s, InCall(c, ca)).Some?
    requires forall p :: StatsOk(s, p)
    ensures forall p :: StatsOk(Step(s, InCall(c, ca)).value, p)
  {
    forall p ensures StatsOk(Step(s, InCall(c, ca)).value, p) {
      assert StatsOk(s, p);
      InCallStats(s, c, ca, p);
    }
  }

  lemma EnterLeaveLock(s: Topo, a: TopoAction)
    requires a.StartCall? || a.FinishCall?
    requires LockOk(s.gate, s.calls) && Step(s, a).Some?
    ensures LockOk(Step(s, a).value.gate, Step(s, a).value.calls)
  {
    var s' := Step(s, a).value;
    SumUpdate(Reading, s.calls, a.c, s'.calls[a.c]);
    forall k | 0 <= k < |s'.gate.shutdowns| ensures ShutOk(s'.gate, k) {
      assert ShutOk(s.gate, k);
    }
  }

  lemma EnterLeaveKeeps(s: Topo, a: TopoAction)
    requires a.StartCall? || a.FinishCall?
    requires Inv(s) && Step(s, a).Some?
    ensures Inv(Step(s, a).value)
  {
    EnterLeaveLock(s, a);
    var s' := Step(s, a).value;
    var call' := s'.calls[a.c];
    StageOnly(s.calls[a.c], call'.stage);
    SumUpdate(Occupied, s.calls, a.c, call');
    SameStats(s, a.c, s');
  }

  /** The counters' books see a call only through its tasks. */
  lemma SameStats(s: Topo, c: nat, s': Topo)
    requires (forall p :: StatsOk(s, p)) && c < |s.calls| && |s'.calls| == |s.calls|
    requires s'.calls == s.calls[c := s'.calls[c]] && s'.calls[c].tasks == s.calls[c].tasks && s'.books == s.books
    ensures forall p :: StatsOk(s', p)
  {
    forall p ensures StatsOk(s', p) {
      assert StatsOk(s, p);
      SumUpdate(CallReturned(p, true), s.calls, c, s'.calls[c]);
      SumUpdate(CallReturned(p, false), s.calls, c, s'.calls[c]);
    }
  }

  lemma StageOnly(call: Call, stage: CallerStage)
    requires CallInv(call)
    requires (call.stage.Idle? && stage.Entered?) || (call.stage.Returning? && stage == Returned(call.stage.outcome))
    ensures CallInv(call.(stage := stage))
  {
    TasksFrame(call, call.(stage := stage));
  }

  /** The first mark finds no reader, hence no active call. */
  lemma GateKeeps(g: Gate, offline: seq<nat>, a: TopoAction, calls: seq<Call>)
    requires LockOk(g, calls) && GateStep(g, offline, a).Some?
    ensures LockOk(GateStep(g, offline, a).value, calls)
  {
    assert ShutOk(g, a.k);
    if a.Mark? {
      forall c | 0 <= c < |calls| ensures !Active(calls[c].stage) {
        SumAtLeast(Reading, calls, c);
      }
    }
    var g' := GateStep(g, offline, a).value;
    forall k | 0 <= k < |g'.shutdowns| ensures ShutOk(g', k) {
      assert ShutOk(g, k);
    }
  }

  /** The one Shutdown inside closeOnce moves the providers over one by one; nobody else touches them. */
  lemma DownKeeps(g: Gate, offline: seq<nat>, a: TopoAction)
    requires (forall k :: 0 <= k < |g.shutdowns| ==> ShutOk(g, k)) && DownOk(g, offline)
    requires GateStep(g, offline, a).Some?
    ensures DownOk(GateStep(g, offline, a).value, offline)
  {
    var g' := GateStep(g, offline, a).value;
    assert ShutOk(g, a.k);
    forall j | 0 <= j < |g.shutdowns| && j != a.k && InsideLock(g.shutdowns[a.k]) ensures !g.shutdowns[j].Downing? {
      assert ShutOk(g, j);
    }
    if a.DownNext? && g.shutdowns[a.k].rest != [] {
      assert g'.downed + g'.shutdowns[a.k].rest == g.downed + g.shutdowns[a.k].rest;
      assert g'.shutdowns[a.k].Downing?;
    } else if a.DownNext? {
      assert g.downed + [] == g.downed;
    } else if !a.Once? {
      assert forall j :: 0 <= j < |g.shutdowns| ==> (g'.shutdowns[j].Downing? <==> g.shutdowns[j].Downing?);
    } else if !g.onceDone {
      assert g.downed == [];
      assert g.downed + offline == offline;
      assert g'.shutdowns[a.k].Downing?;
    }
  }

  lemma ShutdownKeeps(s: Topo, a: TopoAction)
    requires !a.StartCall? && !a.InCall? && !a.FinishCall?
    requires Inv(s) && Step(s, a).Some?
    ensures Inv(Step(s, a).value)
  {
    GateKeeps(s.gate, s.offline, a, s.calls);
    DownKeeps(s.gate, s.offline, a);
    var s' := Step(s, a).value;
    forall p ensures StatsOk(s', p) {
      assert StatsOk(s, p);
    }
  }

  lemma StepKeeps(s: Topo, a: TopoAction)
    requires Inv(s) && Step(s, a).Some?
    ensures Inv(Step(s, a).value)
  {
    match a
    case StartCall(_) => EnterLeaveKeeps(s, a);
    case FinishCall(_) => EnterLeaveKeeps(s, a);
    case InCall(c, ca) => InCallKeeps(s, c, ca);
    case _ => ShutdownKeeps(s, a);
  }

  lemma {:induction false} RunKeeps(s: Topo, acts: seq<TopoAction>)
    requires Inv(s) && Run(s, acts).Some?
    ensures Inv(Run(s, acts).value)
    decreases |acts|
  {
    if acts != [] {
      StepKeeps(s, acts[0]);
      RunKeeps(Step(s, acts[0]).value, acts[1..]);
    }
  }

  // ----- the start

  predicate FreshCall(c: Call) {
    c == Fresh(c.kind, c.ips, c.providers) && (c.kind.Single? ==> |c.ips| == 1)
  }

  predicate Initial(s: Topo) {
    && s.busy == 0
    && s.gate == Gate(0, None, s.gate.shutdowns, false, false, false, [])
    && s.books == Books(map[], map[], map[], map[])
    && (forall c :: 0 <= c < |s.calls| ==> FreshCall(s.calls[c]))
    && (forall k :: 0 <= k < |s.gate.shutdowns| ==> s.gate.shutdowns[k].Outside?)
  }

  lemma InitialInv(s: Topo)
    requires Initial(s)
    ensures Inv(s)
  {
    forall c | 0 <= c < |s.calls| ensures CallInv(s.calls[c]) {
      FreshInv(s.calls[c].kind, s.calls[c].ips, s.calls[c].providers);
    }
    SumZero(Occupied, s.calls);
    SumZero(Reading, s.calls);
    forall p ensures StatsOk(s, p) {
      SumZero(CallReturned(p, true), s.calls);
      SumZero(CallReturned(p, false), s.calls);
    }
  }

  ghost predicate Reachable(s: Topo) {
    exists s0, acts :: Initial(s0) && Run(s0, acts) == Some(s)
  }

  lemma ReachableInv(s: Topo)
    requires Reachable(s)
    ensures Inv(s)
  {
    var s0, acts :| Initial(s0) && Run(s0, acts) == Some(s);
    InitialInv(s0);
    RunKeeps(s0, acts);
  }
}
