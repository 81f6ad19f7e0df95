/**
 The deferred ACPX runtime lifecycle (extensions/acpx/register.runtime.ts) as a transition
 system: one action per await-free segment of the host's start and stop, of an activation,
 of a proxied call, and of foreign writers to the registry.

 The host does not start again before it has stopped, and a start issued during a stop is
 the start action taken once that stop is done.
 */
module AcpxProtocol {
  import opened Prelude

  /** The lazy proxy of a revision, a runtime an activation's service published, or someone else's. */
  datatype Runtime = Deferred(revision: nat) | Inner(activation: nat, id: nat) | Foreign(id: nat)

  /** Where an activation is: importing the module, running the service's start, or settled. */
  datatype Phase = Loading | Starting(published: Option<Runtime>) | Resolved(runtime: Runtime) | Rejected

  /** `created`: its service exists; `caught`: its rejection was handled by the caller that began it. */
  datatype Activation = Activation(revision: nat, ctx: nat, phase: Phase, created: bool, caught: bool) {
    predicate Settled() { phase.Resolved? || phase.Rejected? }
  }

  /** Where a stop is: waiting for the activation it found, or for that service to stop. */
  datatype Stopping = Idle | AwaitingStart(start: Option<nat>, owned: Option<Runtime>)
      | AwaitingService(service: Option<nat>, owned: Option<Runtime>)

  /**
   The service's fields and the registry cell. Activations and services are numbered alike.
   `live` are the services started and not yet stopped; `abandoned` those of them whose last
   reference was dropped, by a failing activation or by a stop that threw.
   */
  datatype State = State(
    revision: nat, ctx: Option<nat>, owned: Option<Runtime>, realRuntime: Option<Runtime>,
    realService: Option<nat>, startPromise: Option<nat>, stopping: Stopping,
    registry: Option<Runtime>, activations: seq<Activation>, live: set<nat>, abandoned: set<nat>)

  const INITIAL := State(0, None, None, None, None, None, Idle, None, [], {}, {})

  datatype Action =
    | HostStart(ctx: nat)
    | Call(revision: nat)
    | Loaded(a: nat)
    | LoadFailed(a: nat)
    | Publish(a: nat, id: nat)
    | Retract(a: nat, id: nat)
    | Started(a: nat)
    | StartFailed(a: nat)
    | Caught(a: nat)
    | HostStop
    | StopService
    | StopDone(ok: bool)
    | ForeignWrite(runtime: Option<Runtime>)

  predicate IsActivation(s: State, a: nat) {
    a < |s.activations|
  }

  predicate Enabled(s: State, action: Action) {
    match action
    case HostStart(_) => s.stopping.Idle? && s.ctx.None?
    case Call(_) => true
    case Loaded(a) => IsActivation(s, a) && s.activations[a].phase.Loading?
    case LoadFailed(a) => IsActivation(s, a) && s.activations[a].phase.Loading?
    case Publish(a, _) => IsActivation(s, a) && s.activations[a].created
    case Retract(a, _) => IsActivation(s, a) && s.activations[a].created
    case Started(a) => IsActivation(s, a) && s.activations[a].phase.Starting?
    case StartFailed(a) => IsActivation(s, a) && s.activations[a].phase.Starting?
    case Caught(a) => IsActivation(s, a) && s.activations[a].phase.Rejected? && !s.activations[a].caught
    case HostStop => true
    case StopService => s.stopping.AwaitingStart? &&
      (s.stopping.start.Some? ==>
         IsActivation(s, s.stopping.start.value) && s.activations[s.stopping.start.value].Settled())
    case StopDone(_) => s.stopping.AwaitingService?
    case ForeignWrite(r) => r.Some? ==> r.value.Foreign?
  }

  function Unregister(registry: Option<Runtime>, runtime: Option<Runtime>): Option<Runtime> {
    if runtime.Some? && registry == runtime then None else registry
  }

  /** Whether the activation still belongs to the running revision. */
  predicate Current(s: State, a: nat)
    requires IsActivation(s, a)
  {
    s.revision == s.activations[a].revision && s.ctx == Some(s.activations[a].ctx)
  }

  function WithPhase(s: State, a: nat, phase: Phase): State
    requires IsActivation(s, a)
  {
    s.(activations := s.activations[a := s.activations[a].(phase := phase)])
  }

  function AsSet(service: Option<nat>): set<nat> {
    if service.Some? then {service.value} else {}
  }

  /** The first segment of a call through the proxy of `revision`: reuse, join, or begin an activation. */
  function Activate(s: State, revision: nat): State {
    if s.revision != revision || s.ctx.None? || s.realRuntime.Some? || s.startPromise.Some? then s
    else s.(startPromise := Some(|s.activations|),
            activations := s.activations + [Activation(revision, s.ctx.value, Loading, false, false)])
  }

  /** Compare-and-replace publication by the service of activation `a`. */
  function TryPublish(s: State, a: nat, id: nat): State
    requires IsActivation(s, a)
  {
    if !Current(s, a) || s.registry != Some(Deferred(s.activations[a].revision)) then s
    else
      var t := s.(registry := Some(Inner(a, id)), owned := Some(Inner(a, id)));
      if s.activations[a].phase.Starting? then WithPhase(t, a, Starting(Some(Inner(a, id)))) else t
  }

  /** After the service's start returned: the activation succeeds only if its runtime is still published. */
  function Conclude(s: State, a: nat): State
    requires IsActivation(s, a) && s.activations[a].phase.Starting?
  {
    var published := s.activations[a].phase.published;
    if !Current(s, a) || published.None? || s.registry != published then WithPhase(s, a, Rejected)
    else WithPhase(s, a, Resolved(published.value)).(realRuntime := published)
  }

  function Step(s: State, action: Action): State
    requires Enabled(s, action)
  {
    match action
    case HostStart(ctx) =>
      s.(revision := s.revision + 1, ctx := Some(ctx), owned := Some(Deferred(s.revision + 1)),
         registry := Some(Deferred(s.revision + 1)))
    case Call(revision) => Activate(s, revision)
    case Loaded(a) =>
      s.(activations := s.activations[a := s.activations[a].(phase := Starting(None), created := true)],
         realService := Some(a), live := s.live + {a})
    case LoadFailed(a) => WithPhase(s, a, Rejected)
    case Publish(a, id) => TryPublish(s, a, id)
    case Retract(a, id) => s.(registry := Unregister(s.registry, Some(Inner(a, id))))
    case Started(a) => Conclude(s, a)
    case StartFailed(a) => WithPhase(s, a, Rejected)
    case Caught(a) =>
      var t := s.(activations := s.activations[a := s.activations[a].(caught := true)]);
      if s.revision != s.activations[a].revision then t
      else t.(startPromise := None, realService := None, abandoned := s.abandoned + AsSet(s.realService))
    case HostStop =>
      if !s.stopping.Idle? then s
      else s.(revision := s.revision + 1, ctx := None, registry := Unregister(s.registry, s.owned),
              stopping := AwaitingStart(s.startPromise, s.owned))
    case StopService => s.(stopping := AwaitingService(s.realService, s.stopping.owned))
    case StopDone(ok) =>
      s.(registry := Unregister(s.registry, s.stopping.owned), owned := None, realRuntime := None,
         realService := None, startPromise := None, stopping := Idle,
         live := if ok then s.live - AsSet(s.stopping.service) else s.live,
         abandoned := if ok then s.abandoned else s.abandoned + AsSet(s.stopping.service))
    case ForeignWrite(r) => s.(registry := r)
  }

  // ---------------------------------------------------------------- the invariant

  predicate Ours(r: Runtime) {
    !r.Foreign?
  }

  /** A runtime of this service belongs to `revision`. */
  predicate Belongs(s: State, r: Runtime, revision: nat) {
    match r
    case Deferred(v) => v == revision
    case Inner(a, _) => IsActivation(s, a) && s.activations[a].revision == revision
    case Foreign(_) => false
  }

  /** Our runtimes in the registry are the one owned, of the running revision. */
  ghost predicate RegistryInv(s: State) {
    s.registry.Some? && Ours(s.registry.value) ==>
      s.owned == s.registry && s.ctx.Some? && Belongs(s, s.registry.value, s.revision)
  }

  /** The fields name one activation, which holds the only service not abandoned. */
  ghost predicate FieldsInv(s: State) {
    && (s.owned.Some? ==> Ours(s.owned.value))
    && (!s.stopping.Idle? && s.stopping.owned.Some? ==> Ours(s.stopping.owned.value))
    && (s.ctx.Some? ==> s.stopping.Idle?)
    && (s.startPromise.Some? ==>
          IsActivation(s, s.startPromise.value) && (s.ctx.Some? ==> Current(s, s.startPromise.value)))
    && (s.realService ==
          if s.startPromise.Some? && s.activations[s.startPromise.value].created then s.startPromise else None)
    && (s.stopping.Idle? && s.ctx.None? ==>
          s.startPromise.None? && s.realRuntime.None? && s.owned.None?)
    && (s.stopping.AwaitingStart? ==> s.stopping.start == s.startPromise)
    && (s.stopping.AwaitingService? ==> s.stopping.service == s.realService)
    && (s.realRuntime.Some? ==>
          s.startPromise.Some? && s.activations[s.startPromise.value].phase == Resolved(s.realRuntime.value))
  }

  /** Unsettled, and unhandled failures of the running revision, are the shared activation. */
  ghost predicate ActivationInv(s: State, a: nat)
    requires IsActivation(s, a)
  {
    var x := s.activations[a];
    && x.revision <= s.revision && (s.ctx.None? ==> x.revision < s.revision)
    && (!x.Settled() ==> s.startPromise == Some(a) && !s.stopping.AwaitingService?)
    && (x.phase.Rejected? && !x.caught && x.revision == s.revision ==> s.startPromise == Some(a))
    && (x.phase.Loading? ==> !x.created)
  }

  ghost predicate ServicesInv(s: State) {
    && s.live == s.abandoned + AsSet(s.realService)
    && s.abandoned !! AsSet(s.realService)
    && (forall v :: v in s.abandoned ==> IsActivation(s, v) && s.activations[v].created && s.startPromise != Some(v))
  }

  ghost predicate Inv(s: State) {
    && RegistryInv(s) && FieldsInv(s) && ServicesInv(s)
    && forall a :: 0 <= a < |s.activations| ==> ActivationInv(s, a)
  }

  lemma {:induction false} InitialInv()
    ensures Inv(INITIAL)
  {
  }

  /** Changing one activation's phase from an unsettled one keeps the invariant of the others. */
  lemma {:induction false} StepKeepsRegistry(s: State, action: Action)
    requires Inv(s) && Enabled(s, action)
    ensures RegistryInv(Step(s, action))
  {
    UnsettledIsShared(s);
  }

  lemma {:induction false} UnsettledIsShared(s: State)
    requires Inv(s)
    ensures forall a :: 0 <= a < |s.activations| && !s.activations[a].Settled() ==> s.startPromise == Some(a)
  {
    forall a | 0 <= a < |s.activations| && !s.activations[a].Settled() ensures s.startPromise == Some(a) {
      assert ActivationInv(s, a);
    }
  }

  /** The activation an action is about satisfies its invariant. */
  lemma {:induction false} SubjectInv(s: State, action: Action)
    requires Inv(s) && Enabled(s, action)
    ensures match action
            case Loaded(a) => ActivationInv(s, a)
            case LoadFailed(a) => ActivationInv(s, a)
            case Publish(a, _) => ActivationInv(s, a)
            case Started(a) => ActivationInv(s, a)
            case StartFailed(a) => ActivationInv(s, a)
            case Caught(a) => ActivationInv(s, a)
            case _ => true
  {
  }

  lemma {:induction false} StepKeepsFields(s: State, action: Action)
    requires Inv(s) && Enabled(s, action)
    ensures FieldsInv(Step(s, action))
  {
    SubjectInv(s, action);
  }

  lemma {:induction false} StepKeepsServices(s: State, action: Action)
    requires Inv(s) && Enabled(s, action)
    ensures ServicesInv(Step(s, action))
  {
    SubjectInv(s, action);
  }

  lemma {:induction false} StepKeepsActivation(s: State, action: Action, a: nat)
    requires Inv(s) && Enabled(s, action) && IsActivation(Step(s, action), a)
    ensures ActivationInv(Step(s, action), a)
  {
    SubjectInv(s, action);
    if IsActivation(s, a) {
      assert ActivationInv(s, a);
    }
    UnsettledIsShared(s);
  }

  /** Every action keeps the invariant. */
  lemma {:induction false} StepKeepsInv(s: State, action: Action)
    requires Inv(s) && Enabled(s, action)
    ensures Inv(Step(s, action))
  {
    StepKeepsRegistry(s, action);
    StepKeepsFields(s, action);
    StepKeepsServices(s, action);
    forall a | 0 <= a < |Step(s, action).activations| ensures ActivationInv(Step(s, action), a) {
      StepKeepsActivation(s, action, a);
    }
  }

  // ---------------------------------------------------------------- what every run keeps

  /** Any interleaving of actions from the initial state. */
  ghost predicate IsRun(states: seq<State>, actions: seq<Action>) {
    && |states| == |actions| + 1 && states[0] == INITIAL
    && forall i {:trigger actions[i]} :: 0 <= i < |actions| ==>
        Enabled(states[i], actions[i]) && states[i + 1] == Step(states[i], actions[i])
  }

  lemma {:induction false} RunKeepsInv(states: seq<State>, actions: seq<Action>, i: nat)
    requires IsRun(states, actions) && i < |states|
    ensures Inv(states[i])
    decreases i
  {
    if i == 0 {
      InitialInv();
    } else {
      RunKeepsInv(states, actions, i - 1);
      assert states[i] == Step(states[i - 1], actions[i - 1]);
      StepKeepsInv(states[i - 1], actions[i - 1]);
    }
  }

  /** In every run, a runtime of this service in the registry is the owned one, of the running revision. */
  lemma {:induction false} RegisteredIsOwned(states: seq<State>, actions: seq<Action>, i: nat)
    requires IsRun(states, actions) && i < |states|
    requires states[i].registry.Some? && Ours(states[i].registry.value)
    ensures states[i].owned == states[i].registry && states[i].ctx.Some?
    ensures Belongs(states[i], states[i].registry.value, states[i].revision)
  {
    RunKeepsInv(states, actions, i);
  }

  /** Once stop has run its first segment, no late activation can put a runtime back before the next start. */
  lemma {:induction false} NothingComesBack(states: seq<State>, actions: seq<Action>, i: nat, j: nat)
    requires IsRun(states, actions) && i <= j < |states| && states[i].ctx.None?
    requires forall k :: i <= k < j ==> !actions[k].HostStart?
    ensures states[j].ctx.None? && (states[j].registry.Some? ==> !Ours(states[j].registry.value))
    decreases j - i
  {
    RunKeepsInv(states, actions, j);
    if i < j {
      NothingComesBack(states, actions, i, j - 1);
      assert states[j] == Step(states[j - 1], actions[j - 1]);
    }
  }

  /** The first segment of stop takes our runtime out of the registry. */
  lemma {:induction false} StopUnregisters(s: State)
    requires Inv(s)
    ensures Step(s, HostStop).ctx.None?
    ensures Step(s, HostStop).registry == if s.registry.Some? && Ours(s.registry.value) then None else s.registry
  {
  }

  /** Only the host's start and foreign writers ever replace a foreign runtime. */
  lemma {:induction false} ForeignIsNeverRemoved(s: State, action: Action)
    requires Inv(s) && Enabled(s, action) && !action.HostStart? && !action.ForeignWrite?
    requires s.registry.Some? && s.registry.value.Foreign?
    ensures Step(s, action).registry == s.registry
  {
  }

  // ---------------------------------------------------------------- one activation, one service

  /** At most one activation is unsettled, and every caller of its revision joins it. */
  lemma {:induction false} ActivationIsShared(s: State, a: nat, b: nat)
    requires Inv(s) && IsActivation(s, a) && IsActivation(s, b)
    requires !s.activations[a].Settled() && !s.activations[b].Settled()
    ensures a == b && s.startPromise == Some(a)
    ensures s.ctx.Some? ==> s.activations[a].revision == s.revision && Step(s, Call(s.revision)) == s
  {
    assert ActivationInv(s, a) && ActivationInv(s, b);
  }

  /** A revision that a stop or a newer start has ended. */
  predicate Over(s: State, revision: nat) {
    s.revision > revision || (s.revision == revision && s.ctx.None?)
  }

  /** Once a revision is over, its proxy may be called as often as one likes: no activation of it ever begins. */
  lemma {:induction false} EndedRevisionBeginsNothing(
      states: seq<State>, actions: seq<Action>, i: nat, j: nat, revision: nat, a: nat)
    requires IsRun(states, actions) && i <= j < |states| && Over(states[i], revision)
    requires |states[i].activations| <= a < |states[j].activations|
    ensures Over(states[j], revision) && states[j].activations[a].revision != revision
    decreases j - i
  {
    OverForGood(states, actions, i, j - 1, revision);
    assert states[j] == Step(states[j - 1], actions[j - 1]);
    if a < |states[j - 1].activations| {
      EndedRevisionBeginsNothing(states, actions, i, j - 1, revision, a);
    }
  }

  lemma {:induction false} OverForGood(states: seq<State>, actions: seq<Action>, i: nat, j: nat, revision: nat)
    requires IsRun(states, actions) && i <= j < |states| && Over(states[i], revision)
    ensures Over(states[j], revision)
    decreases j - i
  {
    if i < j {
      OverForGood(states, actions, i, j - 1, revision);
      assert states[j] == Step(states[j - 1], actions[j - 1]);
    }
  }

  /** A failing activation of an older revision clears nothing of the running one. */
  lemma {:induction false} StaleFailureClearsNothing(s: State, a: nat)
    requires Inv(s) && Enabled(s, Caught(a))
    ensures var t := Step(s, Caught(a));
            t.(activations := s.activations) == s
                || (s.startPromise == Some(a) && s.activations[a].revision == s.revision)
  {
    assert ActivationInv(s, a);
  }

  /** The services that are live are the one the fields hold and the abandoned ones, all different. */
  lemma {:induction false} LiveServicesCounted(s: State)
    requires Inv(s)
    ensures s.live == s.abandoned + AsSet(s.realService)
    ensures |s.live| == |s.abandoned| + |AsSet(s.realService)|
  {
  }

  /** An action that drops the last reference to a service that has not been stopped. */
  predicate Drops(s: State, action: Action) {
    || (action.Caught? && IsActivation(s, action.a)
        && s.activations[action.a].revision == s.revision && s.activations[action.a].created)
    || (action.StopDone? && !action.ok && s.stopping.AwaitingService? && s.stopping.service.Some?)
  }

  /**
   A service is abandoned exactly when an activation that created it fails while its
   revision still runs, or when stopping it fails.
   */
  lemma {:induction false} AbandonedExactlyWhen(s: State, action: Action)
    requires Inv(s) && Enabled(s, action)
    ensures Step(s, action).abandoned != s.abandoned <==> Drops(s, action)
    ensures Step(s, action).abandoned == if Drops(s, action) then s.abandoned + AsSet(s.realService) else s.abandoned
    ensures Drops(s, action) ==> s.realService.Some? && Step(s, action).realService.None?
  {
    SubjectInv(s, action);
  }

  // ---------------------------------------------------------------- an activation succeeds

  /** The service publishes while its start is under way, and takes the place of its revision's proxy. */
  predicate Publishes(s: State, action: Action, a: nat, id: nat) {
    && action == Publish(a, id) && IsActivation(s, a) && s.activations[a].phase.Starting? && Current(s, a)
    && s.registry == Some(Deferred(s.activations[a].revision))
  }

  /** What takes a published runtime away again. */
  predicate TakesAway(action: Action, a: nat, id: nat) {
    action.HostStop? || action.ForeignWrite? || action == Retract(a, id)
  }

  predicate Ends(action: Action, a: nat) {
    action == Started(a) || action == StartFailed(a)
  }

  /** The activation is under way, and the registry holds the runtime it published. */
  predicate IsReady(s: State, a: nat, id: nat) {
    && IsActivation(s, a) && s.activations[a].phase == Starting(Some(Inner(a, id))) && Current(s, a)
    && s.registry == Some(Inner(a, id))
  }

  lemma {:induction false} ReadyStep(s: State, action: Action, a: nat, id: nat)
    requires Inv(s) && Enabled(s, action)
    ensures IsReady(Step(s, action), a, id) <==>
        (IsReady(s, a, id) && !TakesAway(action, a, id) && !Ends(action, a)) || Publishes(s, action, a, id)
  {
    SubjectInv(s, action);
    if IsActivation(s, a) {
      assert ActivationInv(s, a);
    }
  }

  /** Published at `i`, and nothing has taken it away up to `j`. */
  ghost predicate PublishedSince(states: seq<State>, actions: seq<Action>, i: nat, j: nat, a: nat, id: nat) {
    && i < j <= |actions| && i < |states| && Publishes(states[i], actions[i], a, id)
    && forall k :: i < k < j ==> !TakesAway(actions[k], a, id)
  }

  lemma {:induction false} ReadyIsPublished(states: seq<State>, actions: seq<Action>, j: nat, a: nat, id: nat)
    returns (i: nat)
    requires IsRun(states, actions) && j < |states| && IsReady(states[j], a, id)
    ensures PublishedSince(states, actions, i, j, a, id)
    decreases j
  {
    i := j - 1;
    RunKeepsInv(states, actions, j - 1);
    assert states[j] == Step(states[j - 1], actions[j - 1]);
    ReadyStep(states[j - 1], actions[j - 1], a, id);
    if !Publishes(states[j - 1], actions[j - 1], a, id) {
      i := ReadyIsPublished(states, actions, j - 1, a, id);
    }
  }

  lemma {:induction false} SettledStays(states: seq<State>, actions: seq<Action>, i: nat, j: nat, a: nat)
    requires IsRun(states, actions) && i <= j < |states| && IsActivation(states[i], a)
        && states[i].activations[a].Settled()
    ensures IsActivation(states[j], a) && states[j].activations[a].phase == states[i].activations[a].phase
    decreases j - i
  {
    if i < j {
      SettledStays(states, actions, i, j - 1, a);
      assert states[j] == Step(states[j - 1], actions[j - 1]);
    }
  }

  lemma {:induction false} EndsOnce(states: seq<State>, actions: seq<Action>, k: nat, j: nat, a: nat)
    requires IsRun(states, actions) && k < j < |actions| && actions[j] == Started(a)
    ensures !Ends(actions[k], a)
  {
    assert Enabled(states[j], actions[j]) && Enabled(states[k], actions[k]);
    assert states[k + 1] == Step(states[k], actions[k]);
    if Ends(actions[k], a) {
      SettledStays(states, actions, k + 1, j, a);
    }
  }

  lemma {:induction false} PublishedIsReady(
      states: seq<State>, actions: seq<Action>, i: nat, k: nat, j: nat, a: nat, id: nat)
    requires IsRun(states, actions) && PublishedSince(states, actions, i, j, a, id) && i < k <= j < |actions|
    requires actions[j] == Started(a)
    ensures IsReady(states[k], a, id)
    decreases k - i
  {
    var s, action := states[k - 1], actions[k - 1];
    RunKeepsInv(states, actions, k - 1);
    assert states[k] == Step(s, action);
    ReadyStep(s, action, a, id);
    if k - 1 > i {
      PublishedIsReady(states, actions, i, k - 1, j, a, id);
      EndsOnce(states, actions, k - 1, j, a);
    }
  }

  /**
   The start of an activation succeeds, and its runtime is what the service serves from then
   on, exactly if it published that runtime in place of its revision's proxy, and since then
   there was no stop, no foreign write to the registry and no retraction.
   */
  lemma {:induction false} ActivationSucceedsExactly(
      states: seq<State>, actions: seq<Action>, j: nat, a: nat, id: nat)
    requires IsRun(states, actions) && j < |actions| && actions[j] == Started(a)
    ensures IsActivation(states[j + 1], a)
    ensures states[j + 1].activations[a].phase == Resolved(Inner(a, id)) <==>
        exists i :: PublishedSince(states, actions, i, j, a, id)
    ensures states[j + 1].activations[a].phase == Resolved(Inner(a, id)) ==>
        states[j + 1].realRuntime == states[j + 1].registry == Some(Inner(a, id))
    ensures states[j + 1].activations[a].phase.Resolved? ==>
        exists other :: states[j + 1].activations[a].phase.runtime == Inner(a, other)
  {
    var s := states[j];
    RunKeepsInv(states, actions, j);
    assert states[j + 1] == Step(s, actions[j]) && Enabled(s, actions[j]);
    PublishedIsOwn(states, actions, j, a);
    if IsReady(s, a, id) {
      var i := ReadyIsPublished(states, actions, j, a, id);
    }
    if i :| PublishedSince(states, actions, i, j, a, id) {
      PublishedIsReady(states, actions, i, j, j, a, id);
    }
  }

  /** What an activation is said to have published, it published. */
  lemma {:induction false} PublishedIsOwn(states: seq<State>, actions: seq<Action>, j: nat, a: nat)
    requires IsRun(states, actions) && j < |states| && IsActivation(states[j], a)
        && states[j].activations[a].phase.Starting?
    ensures var published := states[j].activations[a].phase.published;
            published.Some? ==> published.value.Inner? && published.value.activation == a
    decreases j
  {
    if j > 0 {
      var s := states[j - 1];
      assert states[j] == Step(s, actions[j - 1]);
      if IsActivation(s, a) && s.activations[a].phase.Starting? {
        PublishedIsOwn(states, actions, j - 1, a);
      }
    }
  }

  /** From then on every call of that revision is served that runtime, until the host stops it. */
  lemma {:induction false} ServedUntilStop(states: seq<State>, actions: seq<Action>, i: nat, j: nat)
    requires IsRun(states, actions) && i <= j < |states| && states[i].realRuntime.Some? && states[i].ctx.Some?
    requires forall k :: i <= k < j ==> !actions[k].HostStop?
    ensures states[j].realRuntime == states[i].realRuntime
    ensures states[j].ctx == states[i].ctx && states[j].revision == states[i].revision
    decreases j - i
  {
    if i < j {
      ServedUntilStop(states, actions, i, j - 1);
      RunKeepsInv(states, actions, j - 1);
      assert states[j] == Step(states[j - 1], actions[j - 1]) && Enabled(states[j - 1], actions[j - 1]);
      ReadyRuntimeIsStable(states[j - 1], actions[j - 1]);
    }
  }

  function OrdinaryScript(ctx: nat, id: nat, n: nat): State {
    var started := State(1, Some(ctx), Some(Deferred(1)), None, None, None, Idle, Some(Deferred(1)), [], {}, {});
    var called := started.(startPromise := Some(0));
    var loaded := called.(realService := Some(0), live := {0});
    var published := loaded.(owned := Some(Inner(0, id)), registry := Some(Inner(0, id)));
    match n
    case 0 => INITIAL
    case 1 => started
    case 2 => called.(activations := [Activation(1, ctx, Loading, false, false)])
    case 3 => loaded.(activations := [Activation(1, ctx, Starting(None), true, false)])
    case 4 => published.(activations := [Activation(1, ctx, Starting(Some(Inner(0, id))), true, false)])
    case _ => published.(activations := [Activation(1, ctx, Resolved(Inner(0, id)), true, false)],
                         realRuntime := Some(Inner(0, id)))
  }

  function OrdinaryActions(ctx: nat, id: nat): (actions: seq<Action>)
    ensures |actions| == 5
  {
    [HostStart(ctx), Call(1), Loaded(0), Publish(0, id), Started(0)]
  }

  lemma {:induction false} OrdinaryStep(ctx: nat, id: nat, n: nat)
    requires n < 5
    ensures Enabled(OrdinaryScript(ctx, id, n), OrdinaryActions(ctx, id)[n])
    ensures OrdinaryScript(ctx, id, n + 1) == Step(OrdinaryScript(ctx, id, n), OrdinaryActions(ctx, id)[n])
  {
  }

  /** The ordinary start: the first call begins the activation, which publishes its runtime and ends ready. */
  lemma {:induction false} OrdinaryStart(ctx: nat, id: nat) returns (states: seq<State>, actions: seq<Action>)
    ensures IsRun(states, actions)
    ensures actions == [HostStart(ctx), Call(1), Loaded(0), Publish(0, id), Started(0)]
    ensures states[5].realRuntime == states[5].registry == Some(Inner(0, id)) && states[5].live == {0}
  {
    actions := OrdinaryActions(ctx, id);
    states := seq(6, n requires 0 <= n < 6 => OrdinaryScript(ctx, id, n));
    forall n | 0 <= n < |actions|
      ensures Enabled(states[n], actions[n]) && states[n + 1] == Step(states[n], actions[n])
    {
      OrdinaryStep(ctx, id, n);
    }
  }

  // ---------------------------------------------------------------- at most one live service

  /** What one step of a run does to the recorded and the abandoned services. */
  lemma {:induction false} ServiceStep(states: seq<State>, actions: seq<Action>, j: nat)
    requires IsRun(states, actions) && j < |actions|
    ensures var s, t, action := states[j], states[j + 1], actions[j];
            && t.abandoned == (if Drops(s, action) then s.abandoned + AsSet(s.realService) else s.abandoned)
            && (Drops(s, action) ==> s.realService.Some? && t.realService.None?)
            && (s.realService.None? && t.realService.Some? ==> action.Loaded?)
            && (action.Loaded? ==> t.realService == Some(action.a))
    ensures states[j].abandoned !! AsSet(states[j].realService)
  {
    RunKeepsInv(states, actions, j);
    assert states[j + 1] == Step(states[j], actions[j]);
    AbandonedExactlyWhen(states[j], actions[j]);
  }

  lemma {:induction false} LiveCountedAt(states: seq<State>, actions: seq<Action>, i: nat)
    requires IsRun(states, actions) && i < |states|
    ensures |states[i].live| == |states[i].abandoned| + if states[i].realService.Some? then 1 else 0
  {
    RunKeepsInv(states, actions, i);
    LiveServicesCounted(states[i]);
  }

  /** A service appears only by being loaded. */
  lemma {:induction false} LoadedBetween(states: seq<State>, actions: seq<Action>, i: nat, j: nat) returns (m: nat)
    requires IsRun(states, actions) && i <= j < |states| && states[i].realService.None? && states[j].realService.Some?
    ensures i <= m < j && actions[m].Loaded?
    decreases j - i
  {
    ServiceStep(states, actions, j - 1);
    if states[j - 1].realService.None? {
      m := j - 1;
    } else {
      m := LoadedBetween(states, actions, i, j - 1);
    }
  }

  /** Abandoned services stay abandoned, and more of them come only from another drop. */
  lemma {:induction false} DropBetween(states: seq<State>, actions: seq<Action>, i: nat, j: nat) returns (k: nat)
    requires IsRun(states, actions) && i <= j < |states|
    ensures states[i].abandoned <= states[j].abandoned
    ensures states[i].abandoned != states[j].abandoned ==> i <= k < j && Drops(states[k], actions[k])
    decreases j - i
  {
    k := 0;
    if i < j {
      ServiceStep(states, actions, j - 1);
      k := DropBetween(states, actions, i, j - 1);
      if Drops(states[j - 1], actions[j - 1]) {
        k := j - 1;
      }
    }
  }

  /** The first drop of a run leaves one abandoned service and none recorded. */
  lemma {:induction false} FirstDrop(states: seq<State>, actions: seq<Action>, j: nat) returns (k: nat)
    requires IsRun(states, actions) && j < |states| && states[j].abandoned != {}
    ensures k < j && Drops(states[k], actions[k])
    ensures |states[k + 1].abandoned| == 1 && states[k + 1].realService.None?
    decreases j
  {
    ServiceStep(states, actions, j - 1);
    if states[j - 1].abandoned != {} {
      k := FirstDrop(states, actions, j - 1);
    } else {
      k := j - 1;
      assert states[j].abandoned == AsSet(states[k].realService);
    }
  }

  /** Two live services come from a load after a drop. */
  lemma {:induction false} TwoLiveNeedLoad(states: seq<State>, actions: seq<Action>, i: nat) returns (k: nat, m: nat)
    requires IsRun(states, actions) && i < |states| && |states[i].live| >= 2
    ensures k < m < |actions| && Drops(states[k], actions[k]) && actions[m].Loaded?
  {
    LiveCountedAt(states, actions, i);
    k := FirstDrop(states, actions, i);
    if states[i].realService.Some? {
      m := LoadedBetween(states, actions, k + 1, i);
    } else {
      var next := DropBetween(states, actions, k + 1, i);
      ServiceStep(states, actions, next);
      m := LoadedBetween(states, actions, k + 1, next);
    }
  }

  /** A load after a drop makes two live services. */
  lemma {:induction false} LoadMakesTwoLive(states: seq<State>, actions: seq<Action>, k: nat, m: nat)
    requires IsRun(states, actions) && k < m < |actions| && Drops(states[k], actions[k]) && actions[m].Loaded?
    ensures |states[m + 1].live| >= 2
  {
    ServiceStep(states, actions, k);
    ServiceStep(states, actions, m);
    var _ := DropBetween(states, actions, k + 1, m + 1);
    LiveCountedAt(states, actions, m + 1);
    assert states[k].realService.value in states[m + 1].abandoned;
  }

  ghost predicate LoadAfterDrop(states: seq<State>, actions: seq<Action>, k: nat, m: nat) {
    k < m < |actions| && k < |states| && Drops(states[k], actions[k]) && actions[m].Loaded?
  }

  /** In a run at most one service is live at a time, unless and only unless one is loaded after another was dropped. */
  lemma {:induction false} TwoLiveExactlyWhen(states: seq<State>, actions: seq<Action>)
    requires IsRun(states, actions)
    ensures (exists i :: 0 <= i < |states| && |states[i].live| >= 2) <==>
        (exists k: nat, m: nat :: LoadAfterDrop(states, actions, k, m))
  {
    if i :| 0 <= i < |states| && |states[i].live| >= 2 {
      var k, m := TwoLiveNeedLoad(states, actions, i);
      assert LoadAfterDrop(states, actions, k, m);
    }
    if k: nat, m: nat :| LoadAfterDrop(states, actions, k, m) {
      LoadMakesTwoLive(states, actions, k, m);
    }
  }

  /**
   When stop is done nothing is under way and the fields are clear; the service of the
   activation it interrupted has been stopped, or stopping it has failed and it is abandoned.
   */
  lemma {:induction false} StopLeavesNothing(s: State, ok: bool)
    requires Inv(s) && Enabled(s, StopDone(ok))
    ensures var t := Step(s, StopDone(ok));
            && t.live == t.abandoned == s.abandoned + (if ok then {} else AsSet(s.realService))
            && t.startPromise.None? && t.realService.None? && t.realRuntime.None? && t.owned.None?
            && forall a :: 0 <= a < |t.activations| ==> t.activations[a].Settled()
  {
    forall a | 0 <= a < |s.activations| ensures s.activations[a].Settled() {
      assert ActivationInv(s, a);
    }
  }

  /** A successful activation's runtime is what every later caller gets until stop. */
  lemma {:induction false} ReadyRuntimeIsStable(s: State, action: Action)
    requires Inv(s) && Enabled(s, action) && s.realRuntime.Some? && !action.StopDone?
    ensures Step(s, action).realRuntime == s.realRuntime
  {
    SubjectInv(s, action);
  }

  /**
   A service can be live beside another: the registry is lost between publication and the
   end of the first activation, which drops its service unstopped, and a caller begins again.
   */
  lemma {:induction false} TwoLiveServices() returns (states: seq<State>, actions: seq<Action>)
    ensures IsRun(states, actions)
    ensures states[|states| - 1].live == {0, 1} && states[|states| - 1].abandoned == {0}
  {
    actions := [HostStart(7), Call(1), Loaded(0), Publish(0, 0), ForeignWrite(Some(Foreign(9))), Started(0), Caught(0),
        Call(1), Loaded(1)];
    states := [INITIAL];
    for i := 0 to |actions|
      invariant |states| == i + 1 && states[0] == INITIAL
      invariant forall k {:trigger actions[k]} :: 0 <= k < i ==>
          Enabled(states[k], actions[k]) && states[k + 1] == Step(states[k], actions[k])
      invariant states[i] == Script(i)
    {
      states := states + [Step(states[i], actions[i])];
    }
  }

  function Script(i: nat): State
    requires i <= 9
  {
    var act0 := Activation(1, 7, Loading, false, false);
    var live0 := act0.(phase := Starting(Some(Inner(0, 0))), created := true);
    var base := State(1, Some(7), Some(Deferred(1)), None, None, None, Idle, Some(Deferred(1)), [], {}, {});
    var owned := base.(owned := Some(Inner(0, 0)), registry := Some(Inner(0, 0)));
    var failed := live0.(phase := Rejected, caught := true);
    match i
    case 0 => INITIAL
    case 1 => base
    case 2 => base.(startPromise := Some(0), activations := [act0])
    case 3 => base.(startPromise := Some(0), realService := Some(0), live := {0},
        activations := [live0.(phase := Starting(None))])
    case 4 => owned.(startPromise := Some(0), realService := Some(0), live := {0}, activations := [live0])
    case 5 => owned.(startPromise := Some(0), realService := Some(0), live := {0}, activations := [live0],
        registry := Some(Foreign(9)))
    case 6 => owned.(startPromise := Some(0), realService := Some(0), live := {0},
        activations := [live0.(phase := Rejected)], registry := Some(Foreign(9)))
    case 7 => owned.(live := {0}, abandoned := {0}, activations := [failed], registry := Some(Foreign(9)))
    case 8 => owned.(live := {0}, abandoned := {0}, startPromise := Some(1), activations := [failed, act0],
        registry := Some(Foreign(9)))
    case _ => owned.(live := {0, 1}, abandoned := {0}, startPromise := Some(1), realService := Some(1),
                     activations := [failed, act0.(phase := Starting(None), created := true)],
                     registry := Some(Foreign(9)))
  }
}
