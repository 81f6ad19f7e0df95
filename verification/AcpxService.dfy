/**
 The deferred ACPX service as an object: its fields, the shared registry cell, and one
 method per await-free segment (extensions/acpx/register.runtime.ts). Each method performs
 the action of the transition system that bears its name.
 */
module AcpxService {
  import opened Prelude
  import opened AcpxProtocol

  /** The registry's entry for the ACPX backend; any plugin may write it. */
  class BackendRegistry {
    var backend: Option<Runtime>

    constructor ()
      ensures backend == None
    {
      backend := None;
    }

    method UnregisterOwned(runtime: Option<Runtime>)
      modifies this
      ensures backend == Unregister(old(backend), runtime)
    {
      if runtime.Some? && backend == runtime {
        backend := None;
      }
    }
  }

  class DeferredService {
    const registry: BackendRegistry
    var lifecycleRevision: nat
    var ctx: Option<nat>
    var ownedRuntime: Option<Runtime>
    var realRuntime: Option<Runtime>
    var realService: Option<nat>
    var startPromise: Option<nat>
    var stopping: Stopping
    var activations: seq<Activation>
    ghost var live: set<nat>
    ghost var abandoned: set<nat>

    ghost function View(): State
      reads this, registry
    {
      State(lifecycleRevision, ctx, ownedRuntime, realRuntime, realService, startPromise, stopping,
            registry.backend, activations, live, abandoned)
    }

    ghost predicate Valid()
      reads this, registry
    {
      Inv(View())
    }

    constructor (registry: BackendRegistry)
      requires registry.backend.None?
      ensures View() == INITIAL && Valid() && this.registry == registry
    {
      this.registry := registry;
      lifecycleRevision, ctx, ownedRuntime, realRuntime := 0, None, None, None;
      realService, startPromise, stopping, activations := None, None, Idle, [];
      live, abandoned := {}, {};
    }

    method Start(newCtx: nat)
      requires Valid() && Enabled(View(), HostStart(newCtx))
      modifies this, registry
      ensures Valid() && View() == Step(old(View()), HostStart(newCtx))
    {
      StepKeepsInv(View(), HostStart(newCtx));
      lifecycleRevision := lifecycleRevision + 1;
      ctx := Some(newCtx);
      var deferredRuntime := Deferred(lifecycleRevision);
      ownedRuntime := Some(deferredRuntime);
      registry.backend := Some(deferredRuntime);
    }

    /** What a proxied call finds: nothing to serve it, a runtime, or an activation to wait for. */
    method StartRealService(revision: nat) returns (r: Result<Option<Runtime>, ()>)
      requires Valid()
      modifies this
      ensures Valid() && View() == Step(old(View()), Call(revision))
      ensures r.Err? <==> revision != lifecycleRevision || ctx.None?
      ensures r.Ok? ==> r.value == old(realRuntime) && (r.value.None? ==> startPromise.Some?)
    {
      StepKeepsInv(View(), Call(revision));
      if lifecycleRevision != revision || ctx.None? {
        return Err(());
      }
      if realRuntime.Some? {
        return Ok(realRuntime);
      }
      if startPromise.Some? {
        return Ok(None);
      }
      startPromise := Some(|activations|);
      activations := activations + [Activation(revision, ctx.value, Loading, false, false)];
      r := Ok(None);
    }

    method ServiceCreated(a: nat)
      requires Valid() && Enabled(View(), Loaded(a))
      modifies this
      ensures Valid() && View() == Step(old(View()), Loaded(a))
    {
      StepKeepsInv(View(), Loaded(a));
      activations := activations[a := activations[a].(phase := Starting(None), created := true)];
      realService := Some(a);
      live := live + {a};
    }

    /** The callback handed to the inner service: compare the registry, then replace. */
    method PublishBackend(a: nat, id: nat) returns (ok: bool)
      requires Valid() && Enabled(View(), Publish(a, id))
      modifies this, registry
      ensures Valid() && View() == Step(old(View()), Publish(a, id))
      ensures ok <==> Current(old(View()), a) && old(registry.backend) == Some(Deferred(old(activations[a].revision)))
      ensures if ok then registry.backend == Some(Inner(a, id)) == ownedRuntime
              else registry.backend == old(registry.backend) && ownedRuntime == old(ownedRuntime)
    {
      StepKeepsInv(View(), Publish(a, id));
      var revision := activations[a].revision;
      if lifecycleRevision != revision || ctx != Some(activations[a].ctx) {
        return false;
      }
      if registry.backend != Some(Deferred(revision)) {
        return false;
      }
      registry.backend := Some(Inner(a, id));
      if activations[a].phase.Starting? {
        activations := activations[a := activations[a].(phase := Starting(Some(Inner(a, id))))];
      }
      ownedRuntime := Some(Inner(a, id));
      ok := true;
    }

    method RetractBackend(a: nat, id: nat)
      requires Valid() && Enabled(View(), Retract(a, id))
      modifies registry
      ensures Valid() && View() == Step(old(View()), Retract(a, id))
    {
      StepKeepsInv(View(), Retract(a, id));
      registry.UnregisterOwned(Some(Inner(a, id)));
    }

    /** After the inner start returned. */
    method FinishActivation(a: nat) returns (r: Result<Runtime, ()>)
      requires Valid() && Enabled(View(), Started(a))
      modifies this
      ensures Valid() && View() == Step(old(View()), Started(a))
      ensures r.Ok? <==> old(activations[a].phase.published).Some? && Current(old(View()), a)
                         && registry.backend == old(activations[a].phase.published)
      ensures r.Ok? ==> realRuntime == Some(r.value) == registry.backend
      ensures r.Err? ==> realRuntime == old(realRuntime) && activations[a].phase.Rejected?
    {
      StepKeepsInv(View(), Started(a));
      var x := activations[a];
      var published := x.phase.published;
      if lifecycleRevision != x.revision || ctx != Some(x.ctx) || published.None? || registry.backend != published {
        activations := activations[a := x.(phase := Rejected)];
        return Err(());
      }
      realRuntime := published;
      activations := activations[a := x.(phase := Resolved(published.value))];
      r := Ok(published.value);
    }

    /** The activation threw: while importing the module, or in the inner start. */
    method FailActivation(a: nat, action: Action)
      requires Valid() && Enabled(View(), action) && (action == LoadFailed(a) || action == StartFailed(a))
      modifies this
      ensures Valid() && View() == Step(old(View()), action)
    {
      StepKeepsInv(View(), action);
      activations := activations[a := activations[a].(phase := Rejected)];
    }

    /** The catch clause of the caller that began the activation. */
    method CatchFailure(a: nat)
      requires Valid() && Enabled(View(), Caught(a))
      modifies this
      ensures Valid() && View() == Step(old(View()), Caught(a))
    {
      StepKeepsInv(View(), Caught(a));
      activations := activations[a := activations[a].(caught := true)];
      if lifecycleRevision == activations[a].revision {
        abandoned := abandoned + AsSet(realService);
        startPromise := None;
        realService := None;
      }
    }

    /** Stop's first segment; a stop already under way is joined. */
    method Stop()
      requires Valid()
      modifies this, registry
      ensures Valid() && View() == Step(old(View()), HostStop)
    {
      StepKeepsInv(View(), HostStop);
      if !stopping.Idle? {
        return;
      }
      lifecycleRevision := lifecycleRevision + 1;
      ctx := None;
      registry.UnregisterOwned(ownedRuntime);
      stopping := AwaitingStart(startPromise, ownedRuntime);
    }

    /** The interrupted activation has settled: ask its service, if any, to stop. */
    method StopRealService()
      requires Valid() && Enabled(View(), StopService)
      modifies this
      ensures Valid() && View() == Step(old(View()), StopService)
    {
      StepKeepsInv(View(), StopService);
      stopping := AwaitingService(realService, stopping.owned);
    }

    /** The service has stopped, or stopping it threw: either way everything is cleared. */
    method FinishStop(ok: bool)
      requires Valid() && Enabled(View(), StopDone(ok))
      modifies this, registry
      ensures Valid() && View() == Step(old(View()), StopDone(ok))
    {
      StepKeepsInv(View(), StopDone(ok));
      registry.UnregisterOwned(stopping.owned);
      if ok {
        live := live - AsSet(stopping.service);
      } else {
        abandoned := abandoned + AsSet(stopping.service);
      }
      ownedRuntime, realRuntime, realService, startPromise := None, None, None, None;
      stopping := Idle;
    }
  }
}
