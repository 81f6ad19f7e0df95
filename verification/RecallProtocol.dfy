/**
 The registry of recalls per agent run (extensions/active-memory/recall-state.ts,
 resolveActiveRecallForRun and forgetActiveRecallRun) as a transition system: one action
 per await-free segment of a caller, of the recall itself, and of the callbacks attached
 to its promises.

 A recall announces at most one timeout cleanup, before it settles.
 */
module RecallProtocol {
  import opened Prelude

  type RunId = nat

  datatype Phase = Created | Running | Fulfilled(result: nat) | Failed

  datatype Cleanup = NoCleanup | CleanupPending | CleanupSettled

  datatype Entry = Entry(run: RunId, phase: Phase, cleanup: Cleanup) {
    predicate Settled() { phase.Fulfilled? || phase.Failed? }

    /** Nothing of this recall, nor of its cleanup, is still going on. */
    predicate Finished() { Settled() && !cleanup.CleanupPending? }
  }

  /** A caller waits for a timed-out recall to be over, or for a recall's result. */
  datatype Caller = Waiting(run: RunId, entry: nat) | Joined(run: RunId, entry: nat)
      | Done(run: RunId, result: Option<nat>)

  /** `floors` counts, for every run that was forgotten, the recalls there were when it last was. */
  datatype State = State(runs: map<RunId, nat>, entries: seq<Entry>, callers: seq<Caller>, floors: map<RunId, nat>)

  const INITIAL := State(map[], [], [], map[])

  /** The recalls of a run from here on were begun since it was last forgotten. */
  function Floor(s: State, run: RunId): nat {
    if run in s.floors then s.floors[run] else 0
  }

  datatype Action =
    | Enter(run: RunId)
    | Resume(caller: nat)
    | Begin(entry: nat)
    | AnnounceCleanup(entry: nat)
    | Settle(entry: nat, phase: Phase)
    | SettleCleanup(entry: nat)
    | OnRejected(entry: nat)
    | OnBothSettled(entry: nat)
    | Deliver(caller: nat)
    | Forget(run: RunId)

  predicate Enabled(s: State, action: Action) {
    match action
    case Enter(_) => true
    case Resume(c) => c < |s.callers| && s.callers[c].Waiting? && s.callers[c].entry < |s.entries|
                      && s.entries[s.callers[c].entry].Settled()
                          && s.entries[s.callers[c].entry].cleanup.CleanupSettled?
    case Begin(e) => e < |s.entries| && s.entries[e].phase.Created?
    case AnnounceCleanup(e) => e < |s.entries| && s.entries[e].phase.Running? && s.entries[e].cleanup.NoCleanup?
    case Settle(e, phase) => e < |s.entries| && s.entries[e].phase.Running? && (phase.Fulfilled? || phase.Failed?)
    case SettleCleanup(e) => e < |s.entries| && s.entries[e].cleanup.CleanupPending?
    case OnRejected(e) => e < |s.entries| && s.entries[e].phase.Failed?
    case OnBothSettled(e) => e < |s.entries| && s.entries[e].Settled() && s.entries[e].cleanup.CleanupSettled?
    case Deliver(c) => c < |s.callers| && s.callers[c].Joined? && s.callers[c].entry < |s.entries|
        && s.entries[s.callers[c].entry].Settled()
    case Forget(_) => true
  }

  /** Remove the run's entry if it is still this one. */
  function Release(runs: map<RunId, nat>, run: RunId, e: nat): map<RunId, nat> {
    if run in runs && runs[run] == e then runs - {run} else runs
  }

  /** Look the run up: wait for a timed-out recall, join a recall, or create one and join it. */
  function LookUp(s: State, run: RunId): (State, Caller) {
    if run in s.runs && s.runs[run] < |s.entries| then
      var e := s.runs[run];
      (s, if s.entries[e].cleanup.NoCleanup? then Joined(run, e) else Waiting(run, e))
    else
      var e := |s.entries|;
      (s.(runs := s.runs[run := e], entries := s.entries + [Entry(run, Created, NoCleanup)]), Joined(run, e))
  }

  function WithEntry(s: State, e: nat, x: Entry): State
    requires e < |s.entries|
  {
    s.(entries := s.entries[e := x])
  }

  function Step(s: State, action: Action): State
    requires Enabled(s, action)
  {
    match action
    case Enter(run) =>
      var (t, caller) := LookUp(s, run);
      t.(callers := t.callers + [caller])
    case Resume(c) =>
      var run := s.callers[c].run;
      var (t, caller) := LookUp(s.(runs := Release(s.runs, run, s.callers[c].entry)), run);
      t.(callers := t.callers[c := caller])
    case Begin(e) => WithEntry(s, e, s.entries[e].(phase := Running))
    case AnnounceCleanup(e) => WithEntry(s, e, s.entries[e].(cleanup := CleanupPending))
    case Settle(e, phase) => WithEntry(s, e, s.entries[e].(phase := phase))
    case SettleCleanup(e) => WithEntry(s, e, s.entries[e].(cleanup := CleanupSettled))
    case OnRejected(e) =>
      if s.entries[e].cleanup.NoCleanup? then s.(runs := Release(s.runs, s.entries[e].run, e)) else s
    case OnBothSettled(e) => s.(runs := Release(s.runs, s.entries[e].run, e))
    case Deliver(c) =>
      var x := s.entries[s.callers[c].entry];
      s.(callers := s.callers[c := Done(s.callers[c].run, if x.phase.Fulfilled? then Some(x.phase.result) else None)])
    case Forget(run) => s.(runs := s.runs - {run}, floors := s.floors[run := |s.entries|])
  }

  // ---------------------------------------------------------------- the invariant

  /** A registered entry is of its run, begun since that was last forgotten, and the newest of it. */
  ghost predicate RunInv(s: State, run: RunId) {
    && Floor(s, run) <= |s.entries|
    && (run in s.runs ==>
          && Floor(s, run) <= s.runs[run] < |s.entries| && s.entries[s.runs[run]].run == run
          && forall e :: s.runs[run] < e < |s.entries| ==> s.entries[e].run != run)
  }

  /** An entry begun since its run was last forgotten is registered, or over for a reason that released it. */
  ghost predicate EntryInv(s: State, e: nat)
    requires e < |s.entries|
  {
    var x := s.entries[e];
    && (x.phase.Created? ==> x.cleanup.NoCleanup?)
    && (e < Floor(s, x.run) || (x.run in s.runs && s.runs[x.run] == e)
        || (x.Finished() && (x.phase.Failed? || x.cleanup.CleanupSettled?)))
  }

  ghost predicate CallerInv(s: State, c: nat)
    requires c < |s.callers|
  {
    var x := s.callers[c];
    && (x.Joined? ==> x.entry < |s.entries| && s.entries[x.entry].run == x.run)
    && (x.Waiting? ==>
          x.entry < |s.entries| && s.entries[x.entry].run == x.run && !s.entries[x.entry].cleanup.NoCleanup?)
  }

  ghost predicate Inv(s: State) {
    && (forall run :: RunInv(s, run))
    && (forall e :: 0 <= e < |s.entries| ==> EntryInv(s, e))
    && (forall c :: 0 <= c < |s.callers| ==> CallerInv(s, c))
  }

  lemma {:induction false} StepKeepsRuns(s: State, action: Action, run: RunId)
    requires Inv(s) && Enabled(s, action)
    ensures RunInv(Step(s, action), run)
  {
    assert RunInv(s, run);
  }

  lemma {:induction false} StepKeepsEntry(s: State, action: Action, e: nat)
    requires Inv(s) && Enabled(s, action) && e < |Step(s, action).entries|
    ensures EntryInv(Step(s, action), e)
  {
    if e < |s.entries| {
      assert EntryInv(s, e);
      assert RunInv(s, s.entries[e].run);
    }
    if action.Resume? {
      assert CallerInv(s, action.caller);
    }
  }

  lemma {:induction false} StepKeepsCaller(s: State, action: Action, c: nat)
    requires Inv(s) && Enabled(s, action) && c < |Step(s, action).callers|
    ensures CallerInv(Step(s, action), c)
  {
    if c < |s.callers| {
      assert CallerInv(s, c);
    }
    if action.Enter? {
      assert RunInv(s, action.run);
    } else if action.Resume? {
      assert CallerInv(s, action.caller) && RunInv(s, s.callers[action.caller].run);
    }
  }

  /** Every action keeps the invariant. */
  lemma {:induction false} StepKeepsInv(s: State, action: Action)
    requires Inv(s) && Enabled(s, action)
    ensures Inv(Step(s, action))
  {
    var t := Step(s, action);
    forall run ensures RunInv(t, run) {
      StepKeepsRuns(s, action, run);
    }
    forall e | 0 <= e < |t.entries| ensures EntryInv(t, e) {
      StepKeepsEntry(s, action, e);
    }
    forall c | 0 <= c < |t.callers| ensures CallerInv(t, c) {
      StepKeepsCaller(s, action, c);
    }
  }

  /** Any interleaving of actions from the empty registry. */
  ghost predicate IsRun(states: seq<State>, actions: seq<Action>) {
    && |states| == |actions| + 1 && states[0] == INITIAL
    && forall i {:trigger actions[i]} :: 0 <= i < |actions| ==>
        Enabled(states[i], actions[i]) && states[i + 1] == Step(states[i], actions[i])
  }

  lemma {:induction false} RunKeepsInv(states: seq<State>, actions: seq<Action>, i: nat)
    requires IsRun(states, actions) && i < |states|
    ensures Inv(states[i])
    decreases i
  {
    if i > 0 {
      RunKeepsInv(states, actions, i - 1);
      assert states[i] == Step(states[i - 1], actions[i - 1]);
      StepKeepsInv(states[i - 1], actions[i - 1]);
    }
  }

  // ---------------------------------------------------------------- single flight

  /** Of two recalls begun since their run was last forgotten, the older and its cleanup are over. */
  lemma {:induction false} OlderRecallsAreOver(states: seq<State>, actions: seq<Action>, i: nat, d: nat, e: nat)
    requires IsRun(states, actions) && i < |states| && d < e < |states[i].entries|
    requires states[i].entries[d].run == states[i].entries[e].run && Floor(states[i], states[i].entries[d].run) <= d
    ensures states[i].entries[d].Finished()
  {
    RunKeepsInv(states, actions, i);
    assert EntryInv(states[i], d);
    assert RunInv(states[i], states[i].entries[d].run);
  }

  // ---------------------------------------------------------------- a recall over time

  ghost predicate Registered(s: State, run: RunId, e: nat) {
    run in s.runs && s.runs[run] == e
  }

  /** Entries stay entries of their run; settled phases and announced cleanups stay. */
  lemma {:induction false} EntriesStay(states: seq<State>, actions: seq<Action>, i: nat, j: nat, e: nat)
    requires IsRun(states, actions) && i <= j < |states| && e < |states[i].entries|
    ensures e < |states[j].entries| && states[j].entries[e].run == states[i].entries[e].run
    ensures !states[i].entries[e].cleanup.NoCleanup? ==> !states[j].entries[e].cleanup.NoCleanup?
    ensures states[i].entries[e].Settled() ==>
              && states[j].entries[e].phase == states[i].entries[e].phase
              && (states[i].entries[e].cleanup.NoCleanup? ==> states[j].entries[e].cleanup.NoCleanup?)
    decreases j - i
  {
    if i < j {
      EntriesStay(states, actions, i, j - 1, e);
      assert states[j] == Step(states[j - 1], actions[j - 1]);
    }
  }

  /** The floor of a run moves exactly when it is forgotten. */
  lemma {:induction false} FloorMoves(states: seq<State>, actions: seq<Action>, i: nat, j: nat, run: RunId, e: nat)
    requires IsRun(states, actions) && i <= j < |states| && e < |states[i].entries|
    ensures Floor(states[j], run) <= e <==>
        Floor(states[i], run) <= e && forall k :: i <= k < j ==> actions[k] != Forget(run)
    decreases j - i
  {
    if i < j {
      FloorMoves(states, actions, i, j - 1, run, e);
      EntriesStay(states, actions, i, j - 1, e);
      assert states[j] == Step(states[j - 1], actions[j - 1]);
    }
  }

  /** A recall that lost its registration never gets it back. */
  lemma {:induction false} GoneStaysGone(s: State, action: Action, run: RunId, e: nat)
    requires Inv(s) && Enabled(s, action) && e < |s.entries| && !Registered(s, run, e)
    ensures !Registered(Step(s, action), run, e)
  {
    assert RunInv(s, run);
  }

  /** A recall without cleanup loses its registration exactly by its own rejection, or by its run being forgotten. */
  lemma {:induction false} RegisteredUntilRejected(s: State, action: Action, run: RunId, e: nat)
    requires Inv(s) && Enabled(s, action) && Registered(s, run, e) && e < |s.entries| && s.entries[e].cleanup.NoCleanup?
    ensures Registered(Step(s, action), run, e) <==> action != Forget(run) && action != OnRejected(e)
  {
    assert RunInv(s, run);
    if action.Resume? {
      assert CallerInv(s, action.caller);
    }
  }

  /** Over a stretch of a run that does not forget it: still registered if and only if not rejected meanwhile. */
  lemma {:induction false} RegisteredExactly(
      states: seq<State>, actions: seq<Action>, i: nat, j: nat, run: RunId, e: nat)
    requires IsRun(states, actions) && i <= j < |states| && e < |states[i].entries| && Registered(states[i], run, e)
    requires states[i].entries[e].run == run
    requires e < |states[j].entries| && states[j].entries[e].cleanup.NoCleanup?
    requires forall k :: i <= k < j ==> actions[k] != Forget(run)
    ensures Registered(states[j], run, e) <==> forall k :: i <= k < j ==> actions[k] != OnRejected(e)
    decreases j - i
  {
    if i < j {
      EntriesStay(states, actions, i, j - 1, e);
      EntriesStay(states, actions, j - 1, j, e);
      RegisteredExactly(states, actions, i, j - 1, run, e);
      RunKeepsInv(states, actions, j - 1);
      assert states[j] == Step(states[j - 1], actions[j - 1]);
      if Registered(states[j - 1], run, e) {
        RegisteredUntilRejected(states[j - 1], actions[j - 1], run, e);
      } else {
        GoneStaysGone(states[j - 1], actions[j - 1], run, e);
      }
    }
  }

  // ---------------------------------------------------------------- callers

  /** A caller of the run arrives, or one that waited looks the run up again. */
  predicate LooksUp(s: State, action: Action, run: RunId) {
    action == Enter(run) || (action.Resume? && action.caller < |s.callers| && s.callers[action.caller].run == run)
  }

  function CallerOf(s: State, action: Action): nat
    requires action.Enter? || action.Resume?
  {
    if action.Enter? then |s.callers| else action.caller
  }

  /** Looking the run up joins an existing recall exactly when it is registered without cleanup. */
  lemma {:induction false} JoinedExactly(s: State, action: Action, run: RunId, e: nat)
    requires Inv(s) && Enabled(s, action) && LooksUp(s, action, run) && e < |s.entries|
    ensures CallerOf(s, action) < |Step(s, action).callers|
    ensures Step(s, action).callers[CallerOf(s, action)] == Joined(run, e)
      <==> Registered(s, run, e) && s.entries[e].cleanup.NoCleanup?
  {
    assert RunInv(s, run);
    if action.Resume? {
      assert CallerInv(s, action.caller);
    }
  }

  /** A caller that looked the run up joined what is then registered, without cleanup. */
  lemma {:induction false} JoinedIsRegistered(s: State, action: Action, run: RunId, e: nat)
    requires Inv(s) && Enabled(s, action) && LooksUp(s, action, run)
    requires CallerOf(s, action) < |Step(s, action).callers|
        && Step(s, action).callers[CallerOf(s, action)] == Joined(run, e)
    ensures e < |Step(s, action).entries| && Registered(Step(s, action), run, e)
    ensures Step(s, action).entries[e].run == run && Step(s, action).entries[e].cleanup.NoCleanup?
  {
    assert RunInv(s, run);
    if action.Resume? {
      assert CallerInv(s, action.caller);
    }
  }

  /**
   Of two callers that wait for one timed-out recall, with the first joining the replacement
   `e`, the second joins it too if and only if `e` is still registered without cleanup when it
   resumes; that is, if and only if `e` announced no cleanup and was not rejected meanwhile.
   This holds in whatever order segments run; RecallJobs shows that in the order of promise
   jobs the second always joins.
   */
  lemma {:induction false} WaitersShareExactly(states: seq<State>, actions: seq<Action>, i: nat, j: nat,
                                               first: nat, second: nat, run: RunId, d: nat, e: nat)
    requires IsRun(states, actions) && i < j < |actions| && actions[i] == Resume(first) && actions[j] == Resume(second)
    requires first < |states[i].callers| && states[i].callers[first] == Waiting(run, d)
    requires second < |states[j].callers| && states[j].callers[second] == Waiting(run, d)
    requires first < |states[i + 1].callers| && states[i + 1].callers[first] == Joined(run, e)
    requires forall k :: i < k < j ==> actions[k] != Forget(run)
    ensures e < |states[j].entries| && second < |states[j + 1].callers|
    ensures states[j + 1].callers[second] == Joined(run, e)
      <==> Registered(states[j], run, e) && states[j].entries[e].cleanup.NoCleanup?
    ensures states[j + 1].callers[second] == Joined(run, e)
      <==> states[j].entries[e].cleanup.NoCleanup? && forall k :: i < k < j ==> actions[k] != OnRejected(e)
  {
    RunKeepsInv(states, actions, i);
    RunKeepsInv(states, actions, j);
    assert states[i + 1] == Step(states[i], actions[i]) && states[j + 1] == Step(states[j], actions[j]);
    JoinedIsRegistered(states[i], actions[i], run, e);
    EntriesStay(states, actions, i + 1, j, e);
    JoinedExactly(states[j], actions[j], run, e);
    if states[j].entries[e].cleanup.NoCleanup? {
      RegisteredExactly(states, actions, i + 1, j, run, e);
    }
  }

  /** Once a recall's cleanup is announced, no caller joins it any more. */
  lemma {:induction false} NobodyJoinsAfterCleanup(
      states: seq<State>, actions: seq<Action>, i: nat, j: nat, e: nat, c: nat)
    requires IsRun(states, actions) && i <= j < |actions| && e < |states[i].entries|
        && !states[i].entries[e].cleanup.NoCleanup?
    requires c < |states[j + 1].callers| && states[j + 1].callers[c].Joined? && states[j + 1].callers[c].entry == e
    ensures c < |states[j].callers| && states[j].callers[c] == states[j + 1].callers[c]
  {
    var s, action := states[j], actions[j];
    RunKeepsInv(states, actions, j);
    EntriesStay(states, actions, i, j, e);
    assert states[j + 1] == Step(s, action);
    if action.Enter? {
      JoinedExactly(s, action, action.run, e);
    } else if action.Resume? {
      JoinedExactly(s, action, s.callers[action.caller].run, e);
    }
  }

  /** A fulfilled recall is registered unless its run was forgotten since or its cleanup has released it. */
  lemma {:induction false} FulfilledIsRegistered(s: State, run: RunId, e: nat)
    requires Inv(s) && e < |s.entries| && s.entries[e].run == run && s.entries[e].phase.Fulfilled?
        && s.entries[e].cleanup.NoCleanup?
    ensures Registered(s, run, e) <==> Floor(s, run) <= e
  {
    assert EntryInv(s, e) && RunInv(s, run);
  }

  /**
   A caller that looks its run up after a recall of it was fulfilled gets that recall, and
   its result unchanged, if and only if no timeout cleanup was announced for it and the run
   was not forgotten since the recall was begun.
   */
  lemma {:induction false} LaterCallersGetTheResultExactly(states: seq<State>, actions: seq<Action>, i: nat, j: nat,
                                                           run: RunId, e: nat, result: nat)
    requires IsRun(states, actions) && i <= j < |actions| && e < |states[i].entries|
    requires states[i].entries[e].run == run && states[i].entries[e].phase == Fulfilled(result)
    requires LooksUp(states[j], actions[j], run)
    ensures CallerOf(states[j], actions[j]) < |states[j + 1].callers|
    ensures states[j + 1].callers[CallerOf(states[j], actions[j])] == Joined(run, e) <==>
            && states[i].entries[e].cleanup.NoCleanup?
            && Floor(states[i], run) <= e && forall k :: i <= k < j ==> actions[k] != Forget(run)
    ensures states[j + 1].callers[CallerOf(states[j], actions[j])] == Joined(run, e) ==>
              var c := CallerOf(states[j], actions[j]);
              Enabled(states[j + 1], Deliver(c))
                  && Step(states[j + 1], Deliver(c)).callers[c] == Done(run, Some(result))
  {
    RunKeepsInv(states, actions, j);
    assert states[j + 1] == Step(states[j], actions[j]);
    EntriesStay(states, actions, i, j, e);
    EntriesStay(states, actions, j, j + 1, e);
    FloorMoves(states, actions, i, j, run, e);
    JoinedExactly(states[j], actions[j], run, e);
    if states[j].entries[e].cleanup.NoCleanup? {
      FulfilledIsRegistered(states[j], run, e);
    }
  }

  /** Callbacks and resumed callers remove a registration only if it is the one they are about, and it is over. */
  lemma {:induction false} StaleCallbacksRemoveNothing(s: State, action: Action, run: RunId)
    requires Inv(s) && Enabled(s, action) && run in s.runs && !action.Forget?
    requires run !in Step(s, action).runs || Step(s, action).runs[run] != s.runs[run]
    ensures s.runs[run] < |s.entries| && s.entries[s.runs[run]].Finished()
    ensures match action
            case OnRejected(e) => e == s.runs[run]
            case OnBothSettled(e) => e == s.runs[run]
            case Resume(c) => s.callers[c].entry == s.runs[run]
            case _ => false
  {
    assert RunInv(s, run);
    if action.Resume? {
      assert CallerInv(s, action.caller);
    }
  }
}
