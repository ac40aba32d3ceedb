/**
 The two pieces of a resolve that run in the caller's goroutine before and during scheduling:
 `getProvidersToUse` (topolib/topographer.go) and `poolGroupRequest.Do` (topolib/pool_group_request.go).
 */
module PoolGroupRequests {
  import opened Options
  import opened ResolveCall

  /** Every key once, in some order: what ranging over a Go map yields. */
  ghost predicate Enumerates(order: seq<string>, keys: set<string>) {
    (forall k :: k in order <==> k in keys) && (forall i, j :: 0 <= i < j < |order| ==> order[i] != order[j])
  }

  /** The providers behind names that are all registered. */
  function Named(providers: map<string, nat>, names: seq<string>): (r: seq<nat>)
    requires forall n :: n in names ==> n in providers
    ensures |r| == |names| && forall i :: 0 <= i < |names| ==> r[i] == providers[names[i]]
  {
    seq(|names|, i requires 0 <= i < |names| => providers[names[i]])
  }

  /**
   No names: every registered provider once, in map order. Otherwise the named ones, in the order of the
   names and as often as they are named; one unknown name refuses the whole call.
   */
  method GetProvidersToUse(providers: map<string, nat>, names: seq<string>)
    returns (rv: Option<seq<nat>>, ghost order: seq<string>)
    ensures names == [] ==> rv.Some? && Enumerates(order, providers.Keys)
    ensures names != [] ==> order == names
    ensures rv.Some? <==> forall n :: n in names ==> n in providers
    ensures rv.Some? ==> (forall n :: n in order ==> n in providers) && rv.value == Named(providers, order)
  {
    var used: seq<nat> := [];
    order := [];
    if names == [] {
      var rest := providers.Keys;
      while rest != {}
        invariant rest <= providers.Keys
        invariant Enumerates(order, providers.Keys - rest)
        invariant used == Named(providers, order)
      {
        var k :| k in rest;
        rest := rest - {k};
        order := order + [k];
        used := used + [providers[k]];
      }
      assert providers.Keys - rest == providers.Keys;
    } else {
      for i := 0 to |names|
        invariant order == names[..i]
        invariant forall n :: n in order ==> n in providers
        invariant used == Named(providers, order)
      {
        if names[i] !in providers {
          order := names;
          return None, order;
        }
        order := order + [names[i]];
        used := used + [providers[names[i]]];
      }
    }
    rv := Some(used);
  }

  /** What one Do makes of the call in the protocol: the context check, then the pool's verdict. */
  ghost function DoSteps(c: Call, accepted: bool): Option<Call> {
    match CallStep(c, CheckCtx)
    case None => None
    case Some(c1) => if c1.stage.Invoking? then CallStep(c1, if accepted then Accept else Refuse) else Some(c1)
  }

  /** The call at the moment its scheduling loop reaches Do, as this group request sees it. */
  predicate Sees(c: Call, callerDone: bool, ctxDone: bool, wg: nat) {
    && c.stage.Scheduling? && |c.tasks| < |c.ips| && !c.closerStarted
    && c.outerDone == callerDone && c.ctxDone == ctxDone && c.wg == wg
  }

  datatype DoError = ContextIsClosed | CannotSchedule

  class PoolGroupRequest {
    var wg: nat
    var ctxDone: bool

    /** The group's context is derived from the caller's: done from the start if that one is. */
    constructor (callerDone: bool)
      ensures wg == 0 && ctxDone == callerDone
    {
      wg, ctxDone := 0, callerDone;
    }

    /**
     The end of the group's context: by `Do` after a refusal, or because the caller's context has ended later.
     The second is the protocol's step of that name.
     */
    method Cancel()
      modifies this`ctxDone
      ensures ctxDone
      ensures forall c: Call :: c.outerDone && !c.ctxDone && c.wg == wg ==>
        CallStep(c, CancelInner) == Some(c.(wg := wg, ctxDone := ctxDone))
    {
      ctxDone := true;
    }

    /**
     The caller's goroutine alone: `accepted` is what Invoke answers. A scheduled task is counted once, a
     refused one not at all, and a refusal cancels every task of the group; the state left behind is the one
     of the protocol's steps.
     */
    method Do(callerDone: bool, accepted: bool) returns (err: Option<DoError>)
      modifies this
      ensures err == None <==> !callerDone && !old(ctxDone) && accepted
      ensures err == Some(ContextIsClosed) <==> callerDone || old(ctxDone)
      ensures wg == old(wg) + (if err.None? then 1 else 0)
      ensures ctxDone <==> old(ctxDone) || err == Some(CannotSchedule)
      ensures forall c :: Sees(c, callerDone, old(ctxDone), old(wg)) ==>
        var after := DoSteps(c, accepted);
        && after.Some? && after.value.wg == wg && after.value.ctxDone == ctxDone
        && |after.value.tasks| == |c.tasks| + (if err.None? then 1 else 0)
    {
      if callerDone || ctxDone {
        return Some(ContextIsClosed);
      }
      wg := wg + 1;
      if !accepted {
        wg := wg - 1;
        Cancel();
        return Some(CannotSchedule);
      }
      return None;
    }
  }
}
