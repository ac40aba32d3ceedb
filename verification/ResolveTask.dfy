/**
 One pool task (`resolveIP`, topolib/topographer.go): the worker starts one lookup goroutine per
 provider and a closer, drains the task channel until it is closed, and then offers the merged result.

 What Go would panic on (a send on or a second close of a closed channel, a negative wait group)
 sets `panicked`; TaskInv proves it never happens.
 */
module ResolveTask {
  import opened Options
  import opened Sums

  /** The 16 bytes of an address after To16; empty for nil. */
  type IP = seq<nat>

  datatype Detail = Detail(provider: nat, country: nat, city: string)

  /**
   A lookup goroutine. `Offering`: at the select between ctx.Done() and the send. `Leaving`: past the
   select, the deferred wg.Done() still to run.
   */
  datatype Lookup =
    | NotSpawned
    | Calling
    | Offering(detail: Detail)
    | Leaving(sent: Option<Detail>)
    | Gone(sent: Option<Detail>)

  /** What a provider's Lookup returned: no error with a country and a city, or an error. */
  datatype Reply = Reply(ok: bool, country: nat, city: string)

  /** The worker. `Merging`: the range loop is over. `Departing`: past the final select. `Freed`: back in the pool. */
  datatype TaskStage = Spawning | Draining | Merging | Departing(sent: bool) | Done(sent: bool) | Freed(sent: bool)

  datatype Task = Task(
    ip: IP,
    providers: seq<nat>,
    stage: TaskStage,
    spawned: nat,
    lookups: seq<Lookup>,
    wg: nat,
    channel: seq<Detail>,
    closed: bool,
    rv: seq<Detail>,
    replies: seq<Option<Reply>>,
    panicked: bool)

  datatype TaskAction =
    | Spawn
    | BeginRange
    | LookupReturns(k: nat, ok: bool, country: nat, city: string)
    | Send(k: nat)
    | Skip(k: nat)
    | LookupDone(k: nat)
    | CloseTask
    | Receive
    | EndRange

  function NewTask(ip: IP, providers: seq<nat>): Task {
    Task(ip, providers, Spawning, 0, seq(|providers|, _ => NotSpawned), |providers|, [], false, [],
         seq(|providers|, _ => None), false)
  }

  function Answer(provider: nat, ok: bool, country: nat, city: string): Detail {
    if ok then Detail(provider, country, city) else Detail(provider, 0, "")
  }

  /** One step inside the task; `ctxDone` is the state of the shared context. None: not enabled. */
  function TaskStep(t: Task, a: TaskAction, ctxDone: bool): Option<Task> {
    match a
    case Spawn =>
      if t.stage.Spawning? && t.spawned < |t.providers| && t.spawned < |t.lookups|
      then Some(t.(lookups := t.lookups[t.spawned := Calling], spawned := t.spawned + 1))
      else None
    case BeginRange =>
      if t.stage.Spawning? && t.spawned == |t.providers| then Some(t.(stage := Draining)) else None
    case LookupReturns(k, ok, country, city) =>
      if k < |t.lookups| && k < |t.providers| && k < |t.replies| && t.lookups[k].Calling?
      then Some(t.(lookups := t.lookups[k := Offering(Answer(t.providers[k], ok, country, city))],
                   replies := t.replies[k := Some(Reply(ok, country, city))]))
      else None
    case Send(k) =>
      if !(k < |t.lookups| && t.lookups[k].Offering?) then None
      else if t.closed then Some(t.(panicked := true))
      else if |t.channel| < |t.providers|
      then Some(t.(lookups := t.lookups[k := Leaving(Some(t.lookups[k].detail))],
                   channel := t.channel + [t.lookups[k].detail]))
      else None
    case Skip(k) =>
      if k < |t.lookups| && t.lookups[k].Offering? && ctxDone
      then Some(t.(lookups := t.lookups[k := Leaving(None)]))
      else None
    case LookupDone(k) =>
      if !(k < |t.lookups| && t.lookups[k].Leaving?) then None
      else if t.wg == 0 then Some(t.(panicked := true))
      else Some(t.(lookups := t.lookups[k := Gone(t.lookups[k].sent)], wg := t.wg - 1))
    case CloseTask =>
      if t.wg == 0 && !t.closed then Some(t.(closed := true)) else None
    case Receive =>
      if t.stage.Draining? && t.channel != []
      then Some(t.(channel := t.channel[1..], rv := t.rv + [t.channel[0]]))
      else None
    case EndRange =>
      if t.stage.Draining? && t.channel == [] && t.closed then Some(t.(stage := Merging)) else None
  }

  // ----- the invariant

  function Alive(l: Lookup): nat {
    if l.Gone? then 0 else 1
  }

  function HasSent(l: Lookup): nat {
    if (l.Leaving? || l.Gone?) && l.sent.Some? then 1 else 0
  }

  ghost function SentBag(l: Lookup): multiset<Detail> {
    if (l.Leaving? || l.Gone?) && l.sent.Some? then multiset{l.sent.value} else multiset{}
  }

  /** The goroutine may be inside the provider's Lookup, or still call it. */
  predicate MayCall(l: Lookup) {
    l.NotSpawned? || l.Calling?
  }

  /** The detail says what the provider returned: its country and city, or neither when it failed. */
  predicate Tells(d: Detail, provider: nat, r: Option<Reply>) {
    && r.Some?
    && d.provider == provider
    && (r.value.ok ==> d.country == r.value.country && d.city == r.value.city)
    && (!r.value.ok ==> d.country == 0 && d.city == "")
  }

  predicate RangeOver(stage: TaskStage) {
    !stage.Spawning? && !stage.Draining?
  }

  predicate LookupOk(t: Task, ctxDone: bool, k: nat)
    requires k < |t.lookups| && |t.lookups| == |t.providers| == |t.replies|
  {
    var l := t.lookups[k];
    && (l.NotSpawned? <==> k >= t.spawned)
    && (MayCall(l) <==> t.replies[k].None?)
    && (l.Offering? ==> Tells(l.detail, t.providers[k], t.replies[k]))
    && ((l.Leaving? || l.Gone?) && l.sent.Some? ==> Tells(l.sent.value, t.providers[k], t.replies[k]))
    && ((l.Leaving? || l.Gone?) && l.sent.None? ==> ctxDone)
  }

  ghost predicate TaskInv(t: Task, ctxDone: bool) {
    && !t.panicked
    && |t.lookups| == |t.providers| == |t.replies|
    && t.spawned <= |t.providers|
    && (!t.stage.Spawning? ==> t.spawned == |t.providers|)
    && (forall k :: 0 <= k < |t.lookups| ==> LookupOk(t, ctxDone, k))
    && t.wg == Sum(Alive, t.lookups)
    && |t.channel| + |t.rv| == Sum(HasSent, t.lookups)
    && multiset(t.channel) + multiset(t.rv) == Bag(SentBag, t.lookups)
    && (t.closed ==> t.wg == 0)
    && (RangeOver(t.stage) ==> t.closed && t.channel == [])
  }

  lemma NewTaskInv(ip: IP, providers: seq<nat>, ctxDone: bool)
    ensures TaskInv(NewTask(ip, providers), ctxDone)
  {
    var t := NewTask(ip, providers);
    SumCount(Alive, t.lookups);
    SumZero(HasSent, t.lookups);
    assert Bag(SentBag, t.lookups) == multiset{} by {
      BagSize(SentBag, HasSent, t.lookups);
    }
  }

  /** The buffer of the task channel always has room for a lookup that has not sent. */
  lemma RoomToSend(t: Task, ctxDone: bool, k: nat)
    requires TaskInv(t, ctxDone) && k < |t.lookups| && HasSent(t.lookups[k]) == 0
    ensures |t.channel| < |t.providers|
  {
    SumCount(HasSent, t.lookups);
  }

  /** A closed task channel means that every lookup goroutine is gone. */
  lemma ClosedMeansGone(t: Task, ctxDone: bool)
    requires TaskInv(t, ctxDone) && t.closed
    ensures forall k :: 0 <= k < |t.lookups| ==> t.lookups[k].Gone?
  {
    forall k | 0 <= k < |t.lookups| ensures t.lookups[k].Gone? {
      SumAtLeast(Alive, t.lookups, k);
    }
  }

  /** A step that moves lookup k on to l and touches nothing but the wait group and the end of the channel. */
  lemma LookupMoves(t: Task, ctxDone: bool, k: nat, l: Lookup, t': Task)
    requires TaskInv(t, ctxDone) && k < |t.lookups|
    requires t' == t.(lookups := t.lookups[k := l], spawned := t'.spawned, wg := t'.wg, channel := t'.channel,
                      replies := t'.replies)
    requires |t'.replies| == |t.replies|
    requires t.spawned <= t'.spawned <= |t.providers| && (t.spawned != t'.spawned ==> t.stage.Spawning?)
    requires forall j :: 0 <= j < |t.lookups| ==> LookupOk(t', ctxDone, j)
    requires t'.wg + Alive(t.lookups[k]) == t.wg + Alive(l)
    requires HasSent(l) >= HasSent(t.lookups[k])
    requires HasSent(l) == HasSent(t.lookups[k]) ==>
      t'.channel == t.channel && SentBag(l) == SentBag(t.lookups[k])
    requires HasSent(l) > HasSent(t.lookups[k]) ==> l.sent.Some? && t'.channel == t.channel + [l.sent.value]
    requires t.closed ==> t'.wg == 0 && t'.channel == t.channel
    ensures TaskInv(t', ctxDone)
  {
    SumUpdate(Alive, t.lookups, k, l);
    SumUpdate(HasSent, t.lookups, k, l);
    if HasSent(l) == HasSent(t.lookups[k]) {
      assert SentBag(l) == SentBag(t.lookups[k]) + multiset{};
      BagGrows(SentBag, t.lookups, k, l, multiset{});
    } else {
      BagGrows(SentBag, t.lookups, k, l, multiset{l.sent.value});
      assert multiset(t'.channel) == multiset(t.channel) + multiset{l.sent.value};
    }
  }

  lemma LookupsStillOk(t: Task, ctxDone: bool, t': Task, k: nat)
    requires TaskInv(t, ctxDone) && |t'.lookups| == |t.lookups| && k < |t.lookups|
    requires t'.providers == t.providers && t'.lookups == t.lookups[k := t'.lookups[k]]
    requires |t'.replies| == |t.replies| == |t.lookups| && t'.replies == t.replies[k := t'.replies[k]]
    requires t'.spawned == t.spawned || (t'.spawned == t.spawned + 1 && k == t.spawned)
    requires LookupOk(t', ctxDone, k)
    ensures forall j :: 0 <= j < |t.lookups| ==> LookupOk(t', ctxDone, j)
  {
    forall j | 0 <= j < |t.lookups| ensures LookupOk(t', ctxDone, j) {
      assert LookupOk(t, ctxDone, j);
    }
  }

  lemma SendKeeps(t: Task, ctxDone: bool, k: nat)
    requires TaskInv(t, ctxDone) && TaskStep(t, Send(k), ctxDone).Some?
    ensures !t.closed && |t.channel| < |t.providers|
    ensures TaskInv(TaskStep(t, Send(k), ctxDone).value, ctxDone)
  {
    if t.closed {
      ClosedMeansGone(t, ctxDone);
      assert false;
    }
    var t' := TaskStep(t, Send(k), ctxDone).value;
    assert LookupOk(t, ctxDone, k);
    LookupsStillOk(t, ctxDone, t', k);
    LookupMoves(t, ctxDone, k, Leaving(Some(t.lookups[k].detail)), t');
  }

  lemma LookupDoneKeeps(t: Task, ctxDone: bool, k: nat)
    requires TaskInv(t, ctxDone) && TaskStep(t, LookupDone(k), ctxDone).Some?
    ensures t.wg > 0
    ensures TaskInv(TaskStep(t, LookupDone(k), ctxDone).value, ctxDone)
  {
    SumAtLeast(Alive, t.lookups, k);
    var t' := TaskStep(t, LookupDone(k), ctxDone).value;
    assert LookupOk(t, ctxDone, k);
    LookupsStillOk(t, ctxDone, t', k);
    LookupMoves(t, ctxDone, k, Gone(t.lookups[k].sent), t');
  }

  lemma OtherLookupKeeps(t: Task, a: TaskAction, ctxDone: bool)
    requires a.Spawn? || a.LookupReturns? || a.Skip?
    requires TaskInv(t, ctxDone) && TaskStep(t, a, ctxDone).Some?
    ensures TaskInv(TaskStep(t, a, ctxDone).value, ctxDone)
  {
    var t' := TaskStep(t, a, ctxDone).value;
    var k := if a.Spawn? then t.spawned else a.k;
    assert LookupOk(t, ctxDone, k);
    if t.closed {
      ClosedMeansGone(t, ctxDone);
    }
    LookupsStillOk(t, ctxDone, t', k);
    LookupMoves(t, ctxDone, k, t'.lookups[k], t');
  }

  lemma ReceiveKeeps(t: Task, ctxDone: bool)
    requires TaskInv(t, ctxDone) && TaskStep(t, Receive, ctxDone).Some?
    ensures TaskInv(TaskStep(t, Receive, ctxDone).value, ctxDone)
  {
    var t' := TaskStep(t, Receive, ctxDone).value;
    assert t.channel == [t.channel[0]] + t.channel[1..];
    assert multiset(t.channel) == multiset{t.channel[0]} + multiset(t.channel[1..]);
    forall k | 0 <= k < |t'.lookups| ensures LookupOk(t', ctxDone, k) {
      assert LookupOk(t, ctxDone, k);
    }
  }

  lemma TaskStepKeeps(t: Task, a: TaskAction, ctxDone: bool)
    requires TaskInv(t, ctxDone) && TaskStep(t, a, ctxDone).Some?
    ensures TaskInv(TaskStep(t, a, ctxDone).value, ctxDone)
  {
    match a
    case Receive => ReceiveKeeps(t, ctxDone);
    case Send(k) => SendKeeps(t, ctxDone, k);
    case LookupDone(k) => LookupDoneKeeps(t, ctxDone, k);
    case Spawn => OtherLookupKeeps(t, a, ctxDone);
    case LookupReturns(_, _, _, _) => OtherLookupKeeps(t, a, ctxDone);
    case Skip(_) => OtherLookupKeeps(t, a, ctxDone);
    case _ =>
      var t' := TaskStep(t, a, ctxDone).value;
      forall j | 0 <= j < |t'.lookups| ensures LookupOk(t', ctxDone, j) {
        assert LookupOk(t, ctxDone, j);
      }
  }

  /** The invariant survives the context being cancelled and the worker's last moves. */
  lemma TaskFrame(t: Task, ctxDone: bool, ctxDone': bool, stage: TaskStage)
    requires TaskInv(t, ctxDone) && (ctxDone ==> ctxDone')
    requires stage == t.stage || (RangeOver(stage) && RangeOver(t.stage))
    ensures TaskInv(t.(stage := stage), ctxDone')
  {
    var t' := t.(stage := stage);
    forall j | 0 <= j < |t'.lookups| ensures LookupOk(t', ctxDone', j) {
      assert LookupOk(t, ctxDone, j);
    }
  }

  // ----- every task reaches Merging

  function LookupWork(l: Lookup): nat {
    match l
    case NotSpawned => 5
    case Calling => 4
    case Offering(_) => 3
    case Leaving(_) => 1
    case Gone(_) => 0
  }

  function StageWork(s: TaskStage): nat {
    match s
    case Spawning => 6
    case Draining => 5
    case Merging => 4
    case Departing(_) => 2
    case Done(_) => 1
    case Freed(_) => 0
  }

  /** Steps left in a task, at most. */
  function TaskWork(t: Task): nat {
    Sum(LookupWork, t.lookups) + |t.channel| + (if t.closed then 0 else 1) + StageWork(t.stage)
  }

  lemma LookupWorks(t: Task, k: nat, l: Lookup)
    requires k < |t.lookups| && LookupWork(l) < LookupWork(t.lookups[k])
    ensures Sum(LookupWork, t.lookups[k := l]) + LookupWork(t.lookups[k]) == Sum(LookupWork, t.lookups) + LookupWork(l)
  {
    SumUpdate(LookupWork, t.lookups, k, l);
  }

  lemma TaskStepWorks(t: Task, a: TaskAction, ctxDone: bool)
    requires TaskInv(t, ctxDone) && TaskStep(t, a, ctxDone).Some?
    ensures TaskWork(TaskStep(t, a, ctxDone).value) < TaskWork(t)
  {
    match a
    case Spawn =>
      assert LookupOk(t, ctxDone, t.spawned);
      MovedWorks(t, t.spawned, TaskStep(t, a, ctxDone).value);
    case Send(k) => SendWorks(t, ctxDone, k);
    case LookupDone(k) => LookupDoneWorks(t, ctxDone, k);
    case LookupReturns(k, _, _, _) => MovedWorks(t, k, TaskStep(t, a, ctxDone).value);
    case Skip(k) => MovedWorks(t, k, TaskStep(t, a, ctxDone).value);
    case _ => WorkerWorks(t, a, ctxDone);
  }

  lemma SendWorks(t: Task, ctxDone: bool, k: nat)
    requires TaskInv(t, ctxDone) && TaskStep(t, Send(k), ctxDone).Some?
    ensures TaskWork(TaskStep(t, Send(k), ctxDone).value) < TaskWork(t)
  {
    SendKeeps(t, ctxDone, k);
    MovedWorks(t, k, TaskStep(t, Send(k), ctxDone).value);
  }

  lemma LookupDoneWorks(t: Task, ctxDone: bool, k: nat)
    requires TaskInv(t, ctxDone) && TaskStep(t, LookupDone(k), ctxDone).Some?
    ensures TaskWork(TaskStep(t, LookupDone(k), ctxDone).value) < TaskWork(t)
  {
    LookupDoneKeeps(t, ctxDone, k);
    MovedWorks(t, k, TaskStep(t, LookupDone(k), ctxDone).value);
  }

  /** One lookup has moved on, and may have put one detail into the channel. */
  lemma MovedWorks(t: Task, k: nat, t': Task)
    requires k < |t.lookups| == |t'.lookups| && t'.lookups == t.lookups[k := t'.lookups[k]]
    requires LookupWork(t'.lookups[k]) + |t'.channel| < LookupWork(t.lookups[k]) + |t.channel|
    requires LookupWork(t'.lookups[k]) < LookupWork(t.lookups[k])
    requires t'.closed == t.closed && t'.stage == t.stage
    ensures TaskWork(t') < TaskWork(t)
  {
    LookupWorks(t, k, t'.lookups[k]);
  }

  lemma WorkerWorks(t: Task, a: TaskAction, ctxDone: bool)
    requires (a.BeginRange? || a.CloseTask? || a.Receive? || a.EndRange?) && TaskStep(t, a, ctxDone).Some?
    ensures TaskWork(TaskStep(t, a, ctxDone).value) < TaskWork(t)
  {
  }

  /** Before Merging some step of the task is enabled, whatever the context does. */
  lemma TaskProgress(t: Task, ctxDone: bool) returns (a: TaskAction)
    requires TaskInv(t, ctxDone) && !RangeOver(t.stage)
    ensures TaskStep(t, a, ctxDone).Some?
  {
    if t.stage.Spawning? {
      a := if t.spawned < |t.providers| then Spawn else BeginRange;
    } else if t.channel != [] {
      a := Receive;
    } else if t.closed {
      a := EndRange;
    } else if t.wg == 0 {
      a := CloseTask;
    } else {
      var k := SumWitness(Alive, t.lookups);
      assert LookupOk(t, ctxDone, k);
      match t.lookups[k] {
        case Calling => a := LookupReturns(k, true, 0, "");
        case Offering(_) =>
          RoomToSend(t, ctxDone, k);
          a := Send(k);
        case Leaving(_) => a := LookupDone(k);
      }
    }
  }

  // ----- what the worker has collected

  /** The providers named in a list of details, in its order. */
  function Named(details: seq<Detail>): seq<nat> {
    seq(|details|, i requires 0 <= i < |details| => details[i].provider)
  }

  lemma NamedWithout(b: seq<Detail>, i: nat)
    requires i < |b|
    ensures Named(Without(b, i)) == Without(Named(b), i)
  {
  }

  lemma {:induction false} NamedBag(a: seq<Detail>, b: seq<Detail>)
    requires multiset(a) == multiset(b)
    ensures multiset(Named(a)) == multiset(Named(b))
    decreases |a|
  {
    if a == [] {
      assert |multiset(b)| == 0;
    } else {
      var j := FindIn(a, 0, b);
      TakeOut(a, 0, b, j);
      NamedWithout(a, 0);
      NamedWithout(b, j);
      NamedBag(Without(a, 0), Without(b, j));
      WithoutBag(Named(a), 0);
      WithoutBag(Named(b), j);
    }
  }

  /** Provider by provider, the details say what the lookups returned. */
  predicate Truthful(details: seq<Detail>, providers: seq<nat>, replies: seq<Option<Reply>>) {
    && |details| == |providers| == |replies|
    && forall k :: 0 <= k < |details| ==> Tells(details[k], providers[k], replies[k])
  }

  /** The record of replies is what the lookups brought: nothing else writes it. */
  lemma RepliesRecorded(t: Task, a: TaskAction, ctxDone: bool)
    requires TaskStep(t, a, ctxDone).Some?
    ensures TaskStep(t, a, ctxDone).value.replies ==
      match a
      case LookupReturns(k, ok, country, city) => t.replies[k := Some(Reply(ok, country, city))]
      case _ => t.replies
  {
  }

  /** The details sent by the lookups, provider by provider, when all have sent. */
  lemma {:induction false} AllSent(lookups: seq<Lookup>, providers: seq<nat>, replies: seq<Option<Reply>>)
    returns (details: seq<Detail>)
    requires |lookups| == |providers| == |replies|
    requires forall k :: 0 <= k < |lookups| ==>
      lookups[k].Gone? && lookups[k].sent.Some? && Tells(lookups[k].sent.value, providers[k], replies[k])
    ensures Truthful(details, providers, replies) && multiset(details) == Bag(SentBag, lookups)
    decreases |lookups|
  {
    if lookups == [] {
      details := [];
    } else {
      assert forall k :: 0 <= k < |lookups| - 1 ==>
        lookups[1..][k] == lookups[k + 1] && providers[1..][k] == providers[k + 1] && replies[1..][k] == replies[k + 1];
      var rest := AllSent(lookups[1..], providers[1..], replies[1..]);
      details := [lookups[0].sent.value] + rest;
      assert details[1..] == rest;
      assert multiset(details) == multiset{lookups[0].sent.value} + multiset(rest);
    }
  }

  /**
   Without cancellation the worker ends with exactly one detail per provider it was given, saying what that
   provider returned; only the order is open.
   */
  lemma OneDetailPerProvider(t: Task) returns (details: seq<Detail>)
    requires TaskInv(t, false) && RangeOver(t.stage)
    ensures Truthful(details, t.providers, t.replies) && multiset(t.rv) == multiset(details)
    ensures |t.rv| == |t.providers|
    ensures multiset(Named(t.rv)) == multiset(t.providers)
  {
    ClosedMeansGone(t, false);
    forall k | 0 <= k < |t.lookups|
      ensures t.lookups[k].Gone? && t.lookups[k].sent.Some?
      ensures Tells(t.lookups[k].sent.value, t.providers[k], t.replies[k])
    {
      assert LookupOk(t, false, k);
    }
    details := AllSent(t.lookups, t.providers, t.replies);
    assert multiset(t.rv) == multiset(details);
    assert Named(details) == t.providers;
    NamedBag(t.rv, details);
    SumCount(HasSent, t.lookups);
  }

  /** Cancelled or not, every detail the worker has collected says what some lookup of the task returned. */
  lemma DetailsAreTrue(t: Task, ctxDone: bool, d: Detail) returns (k: nat)
    requires TaskInv(t, ctxDone) && d in t.rv
    ensures k < |t.providers| && Tells(d, t.providers[k], t.replies[k])
  {
    assert d in multiset(t.rv);
    assert d in multiset(t.channel) + multiset(t.rv);
    BagMember(SentBag, t.lookups, d);
    k :| 0 <= k < |t.lookups| && d in SentBag(t.lookups[k]);
    assert LookupOk(t, ctxDone, k);
  }
}
