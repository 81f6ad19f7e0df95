/**
 The recall registry under the order in which promise jobs run
 (extensions/active-memory/recall-state.ts, resolveActiveRecallForRun): the segments that
 follow an await and the promise callbacks are jobs of one first-in-first-out queue.

 A recall is asynchronous: what it does, settling and announcing its cleanup included, comes
 behind everything that was queued when it was begun.
 */
module RecallJobs {
  import opened Prelude
  import opened RecallProtocol

  /** Waiting for two promises takes two jobs once both have settled: a reaction, then what waits for it. */
  datatype Job =
    | Start(entry: nat)
    | Proceed(entry: nat)
    | Reaction(caller: nat)
    | Wake(caller: nat)
    | BothReaction(entry: nat)
    | BothCallback(entry: nat)
    | RejectedCallback(entry: nat)

  datatype World = World(s: State, queue: seq<Job>)

  /**
   Something outside the queue happens, with the order in which it releases waiting callers;
   or the job at the head of the queue runs.
   */
  datatype Event = Host(action: Action, order: seq<nat>) | RunJob

  const EMPTY := World(INITIAL, [])

  function ActionOf(job: Job): Option<Action> {
    match job
    case Start(e) => Some(Begin(e))
    case Wake(c) => Some(Resume(c))
    case BothCallback(e) => Some(OnBothSettled(e))
    case RejectedCallback(e) => Some(OnRejected(e))
    case Proceed(_) => None
    case Reaction(_) => None
    case BothReaction(_) => None
  }

  /** The recall and its cleanup have both settled. */
  predicate Over(s: State, e: nat) {
    e < |s.entries| && s.entries[e].Settled() && s.entries[e].cleanup.CleanupSettled?
  }

  function Reactions(order: seq<nat>): (r: seq<Job>)
    ensures |r| == |order| && forall k :: 0 <= k < |r| ==> r[k] == Reaction(order[k])
  {
    seq(|order|, k requires 0 <= k < |order| => Reaction(order[k]))
  }

  /** A caller that looks its run up queues the start of a new recall, or waits for what is already over. */
  function LookUpJobs(s: State, t: State, c: nat): seq<Job> {
    (if |t.entries| > |s.entries| then [Start(|s.entries|)] else [])
    + if Enabled(t, Resume(c)) then [Reaction(c)] else []
  }

  function ReleaseJobs(t: State, e: nat, order: seq<nat>): seq<Job> {
    if Over(t, e) then [BothReaction(e)] + Reactions(order) else []
  }

  /** What an action puts at the end of the queue. */
  function ActionJobs(s: State, action: Action, order: seq<nat>): seq<Job>
    requires Enabled(s, action)
  {
    var t := Step(s, action);
    match action
    case Enter(_) => LookUpJobs(s, t, |s.callers|)
    case Resume(c) => LookUpJobs(s, t, c)
    case Begin(e) => [Proceed(e)]
    case Settle(e, phase) => (if phase.Failed? then [RejectedCallback(e)] else []) + ReleaseJobs(t, e, order)
    case SettleCleanup(e) => ReleaseJobs(t, e, order)
    case _ => []
  }

  /** `order` lists the callers that wait for the recall, each once. */
  ghost predicate ListsWaiters(s: State, e: nat, order: seq<nat>) {
    && (forall j, k :: 0 <= j < k < |order| ==> order[j] != order[k])
    && (forall c: nat {:trigger c in order} ::
          c in order <==> c < |s.callers| && s.callers[c].Waiting? && s.callers[c].entry == e)
  }

  ghost predicate HostMay(w: World, action: Action, order: seq<nat>) {
    && Enabled(w.s, action)
    && match action
       case Enter(_) => true
       case Forget(_) => true
       case Deliver(_) => true
       case AnnounceCleanup(e) => Proceed(e) !in w.queue
       case Settle(e, _) => Proceed(e) !in w.queue && ListsWaiters(w.s, e, order)
       case SettleCleanup(e) => ListsWaiters(w.s, e, order)
       case _ => false
  }

  /** The action an event performs, if any. */
  function ActionAt(w: World, event: Event): Option<Action> {
    if event.Host? then Some(event.action) else if w.queue == [] then None else ActionOf(w.queue[0])
  }

  ghost predicate May(w: World, event: Event) {
    match event
    case Host(action, order) => HostMay(w, action, order)
    case RunJob => w.queue != [] && (ActionAt(w, RunJob).Some? ==> Enabled(w.s, ActionAt(w, RunJob).value))
  }

  /** What the event leaves of the queue, and what it puts behind that. */
  function Rest(w: World, event: Event): seq<Job> {
    if event.Host? || w.queue == [] then w.queue else w.queue[1..]
  }

  function Added(w: World, event: Event): seq<Job>
    requires ActionAt(w, event).Some? ==> Enabled(w.s, ActionAt(w, event).value)
  {
    match ActionAt(w, event)
    case Some(action) => ActionJobs(w.s, action, if event.Host? then event.order else [])
    case None =>
      if w.queue == [] then []
      else if w.queue[0].Reaction? then [Wake(w.queue[0].caller)]
      else if w.queue[0].BothReaction? then [BothCallback(w.queue[0].entry)]
      else []
  }

  function StateAfter(w: World, event: Event): State
    requires ActionAt(w, event).Some? ==> Enabled(w.s, ActionAt(w, event).value)
  {
    if ActionAt(w, event).Some? then Step(w.s, ActionAt(w, event).value) else w.s
  }

  ghost function Next(w: World, event: Event): World
    requires May(w, event)
  {
    World(StateAfter(w, event), Rest(w, event) + Added(w, event))
  }

  /** Any sequence of events from the empty registry. */
  ghost predicate IsJobRun(worlds: seq<World>, events: seq<Event>) {
    && |worlds| == |events| + 1 && worlds[0] == EMPTY
    && forall i {:trigger events[i]} :: 0 <= i < |events| ==>
        May(worlds[i], events[i]) && worlds[i + 1] == Next(worlds[i], events[i])
  }

  lemma {:induction false} JobStep(worlds: seq<World>, events: seq<Event>, k: nat)
    requires IsJobRun(worlds, events) && k < |events|
    ensures May(worlds[k], events[k]) && worlds[k + 1].s == StateAfter(worlds[k], events[k])
  {
    assert worlds[k + 1] == Next(worlds[k], events[k]);
  }

  lemma {:induction false} LongerRun(states: seq<State>, actions: seq<Action>, s: State, action: Action)
    requires IsRun(states, actions) && states[|states| - 1] == s && Enabled(s, action)
    ensures IsRun(states + [Step(s, action)], actions + [action])
  {
  }

  /** What is reached in the order of jobs is reached by a run of the registry. */
  lemma {:induction false} JobRunIsRun(worlds: seq<World>, events: seq<Event>, n: nat)
    returns (states: seq<State>, actions: seq<Action>)
    requires IsJobRun(worlds, events) && n < |worlds|
    ensures IsRun(states, actions) && states[|states| - 1] == worlds[n].s
  {
    if n == 0 {
      states, actions := [INITIAL], [];
    } else {
      states, actions := JobRunIsRun(worlds, events, n - 1);
      JobStep(worlds, events, n - 1);
      var action := ActionAt(worlds[n - 1], events[n - 1]);
      if action.Some? {
        LongerRun(states, actions, worlds[n - 1].s, action.value);
        states, actions := states + [worlds[n].s], actions + [action.value];
      }
    }
  }

  // ---------------------------------------------------------------- every job can run

  /** A job in the queue can run when it comes to it. */
  predicate JobOk(s: State, job: Job) {
    match job
    case Start(e) => e < |s.entries| && s.entries[e].phase.Created?
    case Proceed(e) => e < |s.entries| && s.entries[e].phase.Running?
    case Reaction(c) => Enabled(s, Resume(c))
    case Wake(c) => Enabled(s, Resume(c))
    case BothReaction(e) => Over(s, e)
    case BothCallback(e) => Over(s, e)
    case RejectedCallback(e) => Enabled(s, OnRejected(e))
  }

  /** Two jobs that cannot both be in the queue. */
  predicate Excludes(a: Job, b: Job) {
    || a == b
    || (a.Reaction? && b.Wake? && a.caller == b.caller)
    || (a.Wake? && b.Reaction? && a.caller == b.caller)
    || (a.BothReaction? && b.BothCallback? && a.entry == b.entry)
    || (a.BothCallback? && b.BothReaction? && a.entry == b.entry)
  }

  ghost predicate AllOk(s: State, jobs: seq<Job>) {
    forall job {:trigger JobOk(s, job)} :: job in jobs ==> JobOk(s, job)
  }

  ghost predicate Apart(jobs: seq<Job>) {
    forall i, j :: 0 <= i < j < |jobs| ==> !Excludes(jobs[i], jobs[j])
  }

  ghost predicate QueueInv(w: World) {
    AllOk(w.s, w.queue) && Apart(w.queue)
  }

  /** A job that can run still can after another action: its own comes once. */
  lemma {:induction false} JobStaysOk(s: State, action: Action, job: Job)
    requires Enabled(s, action) && JobOk(s, job)
    requires match action
             case Begin(e) => job != Start(e)
             case Resume(c) => !Excludes(Wake(c), job)
             case Settle(e, _) => job != Proceed(e)
             case _ => true
    ensures JobOk(Step(s, action), job)
  {
  }

  lemma {:induction false} InRest(w: World, event: Event, job: Job)
    requires QueueInv(w) && May(w, event) && job in Rest(w, event)
    ensures job in w.queue && JobOk(w.s, job) && (event.RunJob? ==> !Excludes(w.queue[0], job))
  {
    var k :| 0 <= k < |Rest(w, event)| && Rest(w, event)[k] == job;
    if event.RunJob? {
      assert job == w.queue[k + 1] && !Excludes(w.queue[0], w.queue[k + 1]);
    }
  }

  lemma {:induction false} RestOk(w: World, event: Event, job: Job)
    requires QueueInv(w) && May(w, event) && job in Rest(w, event)
    ensures JobOk(StateAfter(w, event), job)
  {
    InRest(w, event, job);
    if ActionAt(w, event).Some? {
      JobStaysOk(w.s, ActionAt(w, event).value, job);
    }
  }

  lemma {:induction false} ReleaseJobsOk(s: State, t: State, e: nat, order: seq<nat>, job: Job)
    requires t.callers == s.callers && !Over(s, e) && ListsWaiters(s, e, order) && job in ReleaseJobs(t, e, order)
    ensures JobOk(t, job) && !JobOk(s, job)
  {
    if job != BothReaction(e) {
      var k :| 0 <= k < |order| && Reactions(order)[k] == job;
      assert order[k] in order;
    }
  }

  lemma {:induction false} LookUpJobsOk(s: State, action: Action, order: seq<nat>, job: Job)
    requires Inv(s) && Enabled(s, action) && (action.Enter? || action.Resume?) && job in ActionJobs(s, action, order)
    ensures JobOk(Step(s, action), job) && (!JobOk(s, job) || (action.Resume? && job == Reaction(action.caller)))
  {
  }

  lemma {:induction false} ActionJobsOk(s: State, action: Action, order: seq<nat>, job: Job)
    requires Inv(s) && Enabled(s, action) && job in ActionJobs(s, action, order)
    requires action.Settle? || action.SettleCleanup? ==> ListsWaiters(s, action.entry, order)
    ensures JobOk(Step(s, action), job) && (!JobOk(s, job) || (action.Resume? && job == Reaction(action.caller)))
  {
    if action.Enter? || action.Resume? {
      LookUpJobsOk(s, action, order, job);
    } else if action.Settle? || action.SettleCleanup? {
      if job in ReleaseJobs(Step(s, action), action.entry, order) {
        ReleaseJobsOk(s, Step(s, action), action.entry, order, job);
      }
    }
  }

  /** A job is put in the queue when it can run: only then, or as the next job of the one at the head. */
  lemma {:induction false} AddedOk(w: World, event: Event, job: Job)
    requires Inv(w.s) && QueueInv(w) && May(w, event) && job in Added(w, event)
    ensures JobOk(StateAfter(w, event), job)
    ensures !JobOk(w.s, job) || (event.RunJob? && Excludes(w.queue[0], job))
  {
    if ActionAt(w, event).Some? {
      ActionJobsOk(w.s, ActionAt(w, event).value, if event.Host? then event.order else [], job);
    } else {
      assert JobOk(w.s, w.queue[0]);
    }
  }

  lemma {:induction false} AddedApartFromRest(w: World, event: Event, job: Job, other: Job)
    requires Inv(w.s) && QueueInv(w) && May(w, event) && job in Added(w, event) && other in Rest(w, event)
    ensures !Excludes(other, job)
  {
    AddedOk(w, event, job);
    InRest(w, event, other);
  }

  lemma {:induction false} ActionJobsApart(s: State, action: Action, order: seq<nat>)
    requires Enabled(s, action) && (action.Settle? || action.SettleCleanup? ==> ListsWaiters(s, action.entry, order))
    ensures Apart(ActionJobs(s, action, order))
  {
  }

  lemma {:induction false} AddedApart(w: World, event: Event)
    requires May(w, event)
    ensures Apart(Added(w, event))
  {
    if ActionAt(w, event).Some? {
      ActionJobsApart(w.s, ActionAt(w, event).value, if event.Host? then event.order else []);
    }
  }

  lemma {:induction false} ApartConcat(a: seq<Job>, b: seq<Job>)
    requires Apart(a) && Apart(b) && forall x, y :: x in a && y in b ==> !Excludes(x, y)
    ensures Apart(a + b)
  {
  }

  lemma {:induction false} RestApart(w: World, event: Event)
    requires QueueInv(w) && May(w, event)
    ensures Apart(Rest(w, event))
  {
  }

  lemma {:induction false} NextKeepsQueue(w: World, event: Event)
    requires Inv(w.s) && QueueInv(w) && May(w, event)
    ensures Inv(Next(w, event).s) && QueueInv(Next(w, event))
  {
    var rest, added, t := Rest(w, event), Added(w, event), StateAfter(w, event);
    if ActionAt(w, event).Some? {
      StepKeepsInv(w.s, ActionAt(w, event).value);
    }
    forall job | job in rest + added ensures JobOk(t, job) {
      if job in rest {
        RestOk(w, event, job);
      } else {
        AddedOk(w, event, job);
      }
    }
    forall x, y | x in rest && y in added ensures !Excludes(x, y) {
      AddedApartFromRest(w, event, y, x);
    }
    RestApart(w, event);
    AddedApart(w, event);
    ApartConcat(rest, added);
  }

  // ---------------------------------------------------------------- waiting callers are in the queue

  /** A caller whose recall is over has its job in the queue. */
  ghost predicate IsQueued(w: World, c: nat) {
    Enabled(w.s, Resume(c)) ==> Reaction(c) in w.queue || Wake(c) in w.queue
  }

  /** Whatever is in the queue stays there, but for its head, which makes way for what it puts behind. */
  lemma {:induction false} StaysQueued(w: World, event: Event, job: Job)
    requires May(w, event) && job in w.queue
    ensures job in Next(w, event).queue || (event.RunJob? && job == w.queue[0])
  {
    var k :| 0 <= k < |w.queue| && w.queue[k] == job;
    if event.RunJob? && k > 0 {
      assert job == w.queue[1..][k - 1];
    }
  }

  lemma {:induction false} AddedInNext(w: World, event: Event, job: Job)
    requires May(w, event) && job in Added(w, event)
    ensures job in Next(w, event).queue
  {
  }

  /** A caller that begins to wait for what is over, or whose recall gets over, has its reaction queued. */
  lemma {:induction false} NewlyReleased(s: State, action: Action, order: seq<nat>, c: nat)
    requires Enabled(s, action) && Enabled(Step(s, action), Resume(c))
    requires !Enabled(s, Resume(c)) || action == Resume(c)
    requires action.Settle? || action.SettleCleanup? ==> ListsWaiters(s, action.entry, order)
    ensures Reaction(c) in ActionJobs(s, action, order)
  {
    if action.Settle? || action.SettleCleanup? {
      assert c in order;
      var k :| 0 <= k < |order| && order[k] == c;
      assert Reactions(order)[k] == Reaction(c);
    }
  }

  lemma {:induction false} NextKeepsQueued(w: World, event: Event, c: nat)
    requires Inv(w.s) && QueueInv(w) && May(w, event) && IsQueued(w, c)
    ensures IsQueued(Next(w, event), c)
  {
    if Enabled(StateAfter(w, event), Resume(c)) {
      if !Enabled(w.s, Resume(c)) || ActionAt(w, event) == Some(Resume(c)) {
        NewlyReleased(w.s, ActionAt(w, event).value, if event.Host? then event.order else [], c);
        AddedInNext(w, event, Reaction(c));
      } else if Reaction(c) in w.queue {
        StaysQueued(w, event, Reaction(c));
      } else {
        StaysQueued(w, event, Wake(c));
      }
    }
  }

  // ---------------------------------------------------------------- a replacement comes behind its callers

  ghost predicate Before(queue: seq<Job>, a: Job, b: Job) {
    exists i, j :: 0 <= i < j < |queue| && queue[i] == a && queue[j] == b
  }

  /** The caller's job comes before the replacement can settle or announce its cleanup. */
  ghost predicate Behind(w: World, c: nat, e: nat)
    requires e < |w.s.entries|
  {
    && w.s.entries[e].cleanup.NoCleanup?
    && match w.s.entries[e].phase
       case Created => Wake(c) in w.queue || Before(w.queue, Reaction(c), Start(e))
       case Running => Before(w.queue, Wake(c), Proceed(e))
       case _ => false
  }

  /** The caller's recall is over, and `e` is a newer one of the run, not forgotten since the older was begun. */
  predicate Replaces(s: State, c: nat, e: nat) {
    && Enabled(s, Resume(c)) && e < |s.entries| && s.entries[e].run == s.callers[c].run
    && Floor(s, s.callers[c].run) <= s.callers[c].entry < e
  }

  ghost predicate OrderInv(w: World, c: nat, e: nat) {
    Replaces(w.s, c, e) ==> Behind(w, c, e)
  }

  /** A caller released just now has no replacement yet. */
  lemma {:induction false} NoReplacementYet(w: World, event: Event, c: nat, e: nat)
    requires Inv(w.s) && May(w, event) && Replaces(StateAfter(w, event), c, e)
    ensures Enabled(w.s, Resume(c)) && ActionAt(w, event) != Some(Resume(c))
  {
    var t := StateAfter(w, event);
    if ActionAt(w, event).Some? {
      StepKeepsInv(w.s, ActionAt(w, event).value);
    }
    var d, run := t.callers[c].entry, t.callers[c].run;
    assert RunInv(w.s, run) && RunInv(t, run);
    if d < |w.s.entries| {
      assert EntryInv(w.s, d);
    }
    assert CallerInv(t, c);
  }

  lemma {:induction false} BeforeStays(w: World, event: Event, a: Job, b: Job)
    requires May(w, event) && Before(w.queue, a, b) && (event.RunJob? ==> w.queue[0] != a)
    ensures Before(Next(w, event).queue, a, b)
  {
    var i, j :| 0 <= i < j < |w.queue| && w.queue[i] == a && w.queue[j] == b;
    if event.RunJob? {
      assert Next(w, event).queue[i - 1] == a && Next(w, event).queue[j - 1] == b;
    } else {
      assert Next(w, event).queue[i] == a && Next(w, event).queue[j] == b;
    }
  }

  lemma {:induction false} BeforeAdded(w: World, event: Event, a: Job, b: Job)
    requires May(w, event) && a in w.queue && (event.RunJob? ==> w.queue[0] != a) && b in Added(w, event)
    ensures Before(Next(w, event).queue, a, b)
  {
    var rest, added := Rest(w, event), Added(w, event);
    var i :| 0 <= i < |w.queue| && w.queue[i] == a;
    var k := if event.RunJob? then i - 1 else i;
    var j :| 0 <= j < |added| && added[j] == b;
    assert (rest + added)[k] == a && (rest + added)[|rest| + j] == b;
  }

  /** The caller's own job is not the one at the head. */
  lemma {:induction false} WakeStays(w: World, event: Event, c: nat)
    requires May(w, event) && Wake(c) in w.queue && ActionAt(w, event) != Some(Resume(c))
    ensures Wake(c) in Next(w, event).queue && (event.RunJob? ==> w.queue[0] != Wake(c))
  {
    StaysQueued(w, event, Wake(c));
  }

  lemma {:induction false} NewReplacementBehind(w: World, event: Event, c: nat, e: nat)
    requires May(w, event) && IsQueued(w, c) && Enabled(w.s, Resume(c)) && ActionAt(w, event) != Some(Resume(c))
    requires e == |w.s.entries| < |StateAfter(w, event).entries|
    ensures Behind(Next(w, event), c, e)
  {
    if Wake(c) in w.queue {
      WakeStays(w, event, c);
    } else {
      assert Start(e) in Added(w, event);
      BeforeAdded(w, event, Reaction(c), Start(e));
    }
  }

  lemma {:induction false} CreatedStaysBehind(w: World, event: Event, c: nat, e: nat)
    requires May(w, event) && ActionAt(w, event) != Some(Resume(c)) && ActionAt(w, event) != Some(Begin(e))
    requires Wake(c) in w.queue || Before(w.queue, Reaction(c), Start(e))
    ensures Wake(c) in Next(w, event).queue || Before(Next(w, event).queue, Reaction(c), Start(e))
  {
    if Wake(c) in w.queue {
      WakeStays(w, event, c);
    } else if event.RunJob? && w.queue[0] == Reaction(c) {
      AddedInNext(w, event, Wake(c));
    } else {
      BeforeStays(w, event, Reaction(c), Start(e));
    }
  }

  lemma {:induction false} NothingBeforeHead(queue: seq<Job>, a: Job)
    requires queue != [] && Apart(queue)
    ensures !Before(queue, a, queue[0])
  {
  }

  /** When the replacement is begun, the caller is through its reaction. */
  lemma {:induction false} BegunBehind(w: World, event: Event, c: nat, e: nat)
    requires QueueInv(w) && May(w, event) && ActionAt(w, event) == Some(Begin(e))
    requires Wake(c) in w.queue || Before(w.queue, Reaction(c), Start(e))
    ensures Before(Next(w, event).queue, Wake(c), Proceed(e))
  {
    NothingBeforeHead(w.queue, Reaction(c));
    BeforeAdded(w, event, Wake(c), Proceed(e));
  }

  lemma {:induction false} RunningStays(s: State, action: Action, e: nat)
    requires Enabled(s, action) && e < |s.entries| && s.entries[e].phase.Running? && s.entries[e].cleanup.NoCleanup?
    requires action != AnnounceCleanup(e) && (action.Settle? ==> action.entry != e)
    ensures e < |Step(s, action).entries| && Step(s, action).entries[e] == s.entries[e]
  {
  }

  /** What the recall does itself has to wait for the caller. */
  lemma {:induction false} RunningStaysBehind(w: World, event: Event, c: nat, e: nat)
    requires May(w, event) && ActionAt(w, event) != Some(Resume(c)) && e < |w.s.entries|
    requires w.s.entries[e].phase.Running? && w.s.entries[e].cleanup.NoCleanup? && Before(w.queue, Wake(c), Proceed(e))
    ensures e < |StateAfter(w, event).entries| && StateAfter(w, event).entries[e] == w.s.entries[e]
    ensures Before(Next(w, event).queue, Wake(c), Proceed(e))
  {
    assert Proceed(e) in w.queue;
    if ActionAt(w, event).Some? {
      RunningStays(w.s, ActionAt(w, event).value, e);
    }
    WakeStays(w, event, c);
    BeforeStays(w, event, Wake(c), Proceed(e));
  }

  /** A recall that has not begun does nothing else first. */
  lemma {:induction false} CreatedStays(s: State, action: Action, e: nat)
    requires Enabled(s, action) && e < |s.entries| && s.entries[e].phase.Created? && s.entries[e].cleanup.NoCleanup?
    ensures e < |Step(s, action).entries| && Step(s, action).entries[e].cleanup.NoCleanup?
    ensures Step(s, action).entries[e].phase == if action == Begin(e) then Running else Created
  {
  }

  lemma {:induction false} OldReplacementBehind(w: World, event: Event, c: nat, e: nat)
    requires QueueInv(w) && May(w, event) && ActionAt(w, event) != Some(Resume(c)) && e < |w.s.entries|
    requires Behind(w, c, e)
    ensures e < |StateAfter(w, event).entries| && Behind(Next(w, event), c, e)
  {
    if w.s.entries[e].phase.Running? {
      RunningStaysBehind(w, event, c, e);
    } else {
      if ActionAt(w, event).Some? {
        CreatedStays(w.s, ActionAt(w, event).value, e);
      }
      if ActionAt(w, event) == Some(Begin(e)) {
        BegunBehind(w, event, c, e);
      } else {
        CreatedStaysBehind(w, event, c, e);
      }
    }
  }

  lemma {:induction false} NextKeepsOrder(w: World, event: Event, c: nat, e: nat)
    requires Inv(w.s) && QueueInv(w) && IsQueued(w, c) && OrderInv(w, c, e) && May(w, event)
    ensures OrderInv(Next(w, event), c, e)
  {
    if Replaces(StateAfter(w, event), c, e) {
      NoReplacementYet(w, event, c, e);
      if e >= |w.s.entries| {
        NewReplacementBehind(w, event, c, e);
      } else {
        OldReplacementBehind(w, event, c, e);
      }
    }
  }

  // ---------------------------------------------------------------- one replacement for all

  ghost predicate JobInv(w: World) {
    && Inv(w.s) && QueueInv(w)
    && (forall c: nat {:trigger IsQueued(w, c)} :: IsQueued(w, c))
    && (forall c: nat, e: nat {:trigger OrderInv(w, c, e)} :: OrderInv(w, c, e))
  }

  lemma {:induction false} NextKeepsJobInv(w: World, event: Event)
    requires JobInv(w) && May(w, event)
    ensures JobInv(Next(w, event))
  {
    NextKeepsQueue(w, event);
    forall c: nat ensures IsQueued(Next(w, event), c) {
      NextKeepsQueued(w, event, c);
    }
    forall c: nat, e: nat ensures OrderInv(Next(w, event), c, e) {
      assert IsQueued(w, c) && OrderInv(w, c, e);
      NextKeepsOrder(w, event, c, e);
    }
  }

  lemma {:induction false} JobRunKeepsInv(worlds: seq<World>, events: seq<Event>, i: nat)
    requires IsJobRun(worlds, events) && i < |worlds|
    ensures JobInv(worlds[i])
    decreases i
  {
    if i > 0 {
      JobRunKeepsInv(worlds, events, i - 1);
      assert worlds[i] == Next(worlds[i - 1], events[i - 1]);
      NextKeepsJobInv(worlds[i - 1], events[i - 1]);
    }
  }

  /** The job at the head of the queue can always run: the order never deadlocks. */
  lemma {:induction false} HeadCanRun(worlds: seq<World>, events: seq<Event>, i: nat)
    requires IsJobRun(worlds, events) && i < |worlds| && worlds[i].queue != []
    ensures May(worlds[i], RunJob)
  {
    JobRunKeepsInv(worlds, events, i);
    assert JobOk(worlds[i].s, worlds[i].queue[0]);
  }

  /** In the world, the head of the queue lets this caller go on, which waited for recall `d`. */
  predicate Resumes(w: World, event: Event, c: nat, run: RunId, d: nat) {
    event.RunJob? && w.queue != [] && w.queue[0] == Wake(c) && c < |w.s.callers| && w.s.callers[c] == Waiting(run, d)
  }

  /** While a caller of an older recall has yet to go on, its replacement is registered and can be joined. */
  lemma {:induction false} ReplacementIsThere(w: World, c: nat, e: nat)
    requires JobInv(w) && Replaces(w.s, c, e)
    ensures Registered(w.s, w.s.callers[c].run, e) && w.s.entries[e].cleanup.NoCleanup?
  {
    assert OrderInv(w, c, e) && EntryInv(w.s, e);
  }

  /** A caller that goes on joins the replacement there is, or begins it. */
  lemma {:induction false} JoinsReplacement(w: World, event: Event, c: nat, run: RunId, d: nat) returns (e: nat)
    requires JobInv(w) && May(w, event) && Resumes(w, event, c, run, d) && Floor(w.s, run) <= d
    ensures c < |Next(w, event).s.callers| && Next(w, event).s.callers[c] == Joined(run, e)
    ensures d < e < |Next(w, event).s.entries| && Next(w, event).s.entries[e].run == run
    ensures forall e' :: d < e' < |w.s.entries| && w.s.entries[e'].run == run ==> e == e'
  {
    var s := w.s;
    assert JobOk(s, w.queue[0]) && CallerInv(s, c) && RunInv(s, run) && EntryInv(s, d);
    forall e' | d < e' < |s.entries| && s.entries[e'].run == run
      ensures Registered(s, run, e') && s.entries[e'].cleanup.NoCleanup?
    {
      ReplacementIsThere(w, c, e');
    }
    e := if run in s.runs && s.runs[run] != d then s.runs[run] else |s.entries|;
  }

  lemma {:induction false} StepKeepsFloor(s: State, action: Action, run: RunId, e: nat)
    requires Enabled(s, action) && action != Forget(run) && e < |s.entries|
    ensures Floor(Step(s, action), run) == Floor(s, run)
    ensures e < |Step(s, action).entries| && Step(s, action).entries[e].run == s.entries[e].run
  {
  }

  ghost predicate Forgets(worlds: seq<World>, events: seq<Event>, k: nat, run: RunId)
    requires k < |worlds| && k < |events|
  {
    events[k].Host? && events[k].action == Forget(run)
  }

  lemma {:induction false} FloorStep(worlds: seq<World>, events: seq<Event>, k: nat, run: RunId, e: nat)
    requires IsJobRun(worlds, events) && k < |events| && !Forgets(worlds, events, k, run) && e < |worlds[k].s.entries|
    ensures Floor(worlds[k + 1].s, run) == Floor(worlds[k].s, run)
    ensures e < |worlds[k + 1].s.entries| && worlds[k + 1].s.entries[e].run == worlds[k].s.entries[e].run
  {
    JobStep(worlds, events, k);
    var action := ActionAt(worlds[k], events[k]);
    if action.Some? {
      StepKeepsFloor(worlds[k].s, action.value, run, e);
    }
  }

  lemma {:induction false} FloorStays(worlds: seq<World>, events: seq<Event>, i: nat, j: nat, run: RunId, e: nat)
    requires IsJobRun(worlds, events) && i <= j < |worlds| && e < |worlds[i].s.entries| && Floor(worlds[i].s, run) <= e
    requires forall k :: i <= k < j ==> !Forgets(worlds, events, k, run)
    ensures Floor(worlds[j].s, run) <= e < |worlds[j].s.entries|
    ensures worlds[j].s.entries[e].run == worlds[i].s.entries[e].run
    decreases j - i
  {
    if i < j {
      FloorStays(worlds, events, i, j - 1, run, e);
      FloorStep(worlds, events, j - 1, run, e);
    }
  }

  /**
   All callers that waited on one timed-out recall join one and the same replacement, unless
   the run is forgotten: whatever happens between the two, the later one joins what the
   first one joined.
   */
  lemma {:induction false} WaitersShareOneReplacement(
      worlds: seq<World>, events: seq<Event>, i: nat, j: nat, first: nat, second: nat, run: RunId, d: nat)
    returns (e: nat)
    requires IsJobRun(worlds, events) && i < j < |events| && d < |worlds[i].s.entries|
    requires Resumes(worlds[i], events[i], first, run, d) && Resumes(worlds[j], events[j], second, run, d)
    requires Floor(worlds[i].s, run) <= d
    requires forall k :: i <= k < j ==> !Forgets(worlds, events, k, run)
    ensures d < e && first < |worlds[i + 1].s.callers| && worlds[i + 1].s.callers[first] == Joined(run, e)
    ensures second < |worlds[j + 1].s.callers| && worlds[j + 1].s.callers[second] == Joined(run, e)
  {
    JobRunKeepsInv(worlds, events, i);
    JobRunKeepsInv(worlds, events, j);
    assert worlds[i + 1] == Next(worlds[i], events[i]) && worlds[j + 1] == Next(worlds[j], events[j]);
    e := JoinsReplacement(worlds[i], events[i], first, run, d);
    FloorStays(worlds, events, i, j, run, d);
    FloorStays(worlds, events, i, i + 1, run, d);
    FloorStays(worlds, events, i + 1, j, run, e);
    var e' := JoinsReplacement(worlds[j], events[j], second, run, d);
  }

  // ---------------------------------------------------------------- witnesses

  ghost predicate Follows(script: nat -> World, events: seq<Event>, n: nat) {
    n < |events| ==> May(script(n), events[n]) && Next(script(n), events[n]) == script(n + 1)
  }

  /** A script whose steps are steps is a run. */
  lemma {:induction false} ScriptIsRun(script: nat -> World, events: seq<Event>) returns (worlds: seq<World>)
    requires script(0) == EMPTY && forall n: nat :: Follows(script, events, n)
    ensures IsJobRun(worlds, events) && forall n :: 0 <= n < |worlds| ==> worlds[n] == script(n)
  {
    worlds := seq(|events| + 1, n requires 0 <= n < |events| + 1 => script(n));
    forall n | 0 <= n < |events|
      ensures May(worlds[n], events[n]) && worlds[n + 1] == Next(worlds[n], events[n])
    {
      assert Follows(script, events, n);
    }
  }

  function OverlapScript(run: RunId, n: nat): World {
    var created, running := Entry(run, Created, NoCleanup), Entry(run, Running, NoCleanup);
    var one, both := [Joined(run, 0)], [Joined(run, 0), Joined(run, 1)];
    match n
    case 0 => EMPTY
    case 1 => World(State(map[run := 0], [created], one, map[]), [Start(0)])
    case 2 => World(State(map[run := 0], [running], one, map[]), [Proceed(0)])
    case 3 => World(State(map[], [running], one, map[run := 1]), [Proceed(0)])
    case 4 => World(State(map[run := 1], [running, created], both, map[run := 1]), [Proceed(0), Start(1)])
    case 5 => World(State(map[run := 1], [running, created], both, map[run := 1]), [Start(1)])
    case _ => World(State(map[run := 1], [running, running], both, map[run := 1]), [Proceed(1)])
  }

  function OverlapEvents(run: RunId): (events: seq<Event>)
    ensures |events| == 6
  {
    [Host(Enter(run), []), RunJob, Host(Forget(run), []), Host(Enter(run), []), RunJob, RunJob]
  }

  lemma {:induction false} OverlapStep(run: RunId, n: nat)
    requires n < 6
    ensures May(OverlapScript(run, n), OverlapEvents(run)[n])
    ensures Next(OverlapScript(run, n), OverlapEvents(run)[n]) == OverlapScript(run, n + 1)
  {
  }

  /** Forgetting a run gives single flight up: the next caller begins a recall beside the one still running. */
  lemma {:induction false} ForgettingAllowsOverlap(run: RunId) returns (worlds: seq<World>, events: seq<Event>)
    ensures IsJobRun(worlds, events) && |worlds| == 7
    ensures worlds[6].s.entries == [Entry(run, Running, NoCleanup), Entry(run, Running, NoCleanup)]
  {
    var script := (n: nat) => OverlapScript(run, n);
    events := OverlapEvents(run);
    forall n: nat ensures Follows(script, events, n) {
      if n < 6 {
        OverlapStep(run, n);
      }
    }
    worlds := ScriptIsRun(script, events);
  }

  /** The queue of the withheld run after its first `n` events. */
  function WithheldQueue(n: nat): seq<Job> {
    match n
    case 0 => []
    case 1 => [Start(0)]
    case 2 => [Proceed(0)]
    case 8 => [BothReaction(0), Reaction(1), Reaction(2)]
    case 9 => [Reaction(1), Reaction(2), BothCallback(0)]
    case 10 => [Reaction(2), BothCallback(0), Wake(1)]
    case 11 => [BothCallback(0), Wake(1), Wake(2)]
    case 12 => [Wake(1), Wake(2)]
    case 13 => [Wake(2), Start(1)]
    case 14 => [Start(1)]
    case _ => []
  }

  /** Its registry: recall 0 announces its cleanup, fulfils, and two more callers come in before that is over. */
  function WithheldState(run: RunId, result: nat, n: nat): State {
    var callers := [Joined(run, 0), Waiting(run, 0), Waiting(run, 0)];
    var over, next := Entry(run, Fulfilled(result), CleanupSettled), Entry(run, Created, NoCleanup);
    match n
    case 0 => INITIAL
    case 1 => State(map[run := 0], [next], callers[..1], map[])
    case 2 => State(map[run := 0], [Entry(run, Running, NoCleanup)], callers[..1], map[])
    case 3 => State(map[run := 0], [Entry(run, Running, NoCleanup)], callers[..1], map[])
    case 4 => State(map[run := 0], [Entry(run, Running, CleanupPending)], callers[..1], map[])
    case 5 => State(map[run := 0], [Entry(run, Fulfilled(result), CleanupPending)], callers[..1], map[])
    case 6 => State(map[run := 0], [Entry(run, Fulfilled(result), CleanupPending)], callers[..2], map[])
    case 7 => State(map[run := 0], [Entry(run, Fulfilled(result), CleanupPending)], callers, map[])
    case 12 => State(map[], [over], callers, map[])
    case 13 => State(map[run := 1], [over, next], callers[1 := Joined(run, 1)], map[])
    case _ =>
      if n < 12 then State(map[run := 0], [over], callers, map[])
      else State(map[run := 1], [over, next], [Joined(run, 0), Joined(run, 1), Joined(run, 1)], map[])
  }

  function WithheldScript(run: RunId, result: nat, n: nat): World {
    World(WithheldState(run, result, n), WithheldQueue(n))
  }

  function WithheldEvents(run: RunId, result: nat): (events: seq<Event>)
    ensures |events| == 14
  {
    [
      Host(Enter(run), []), RunJob, RunJob, Host(AnnounceCleanup(0), []), Host(Settle(0, Fulfilled(result)), []),
      Host(Enter(run), []), Host(Enter(run), []), Host(SettleCleanup(0), [1, 2]),
      RunJob, RunJob, RunJob, RunJob, RunJob, RunJob
    ]
  }

  lemma {:induction false} WithheldBegins(run: RunId, result: nat, n: nat)
    requires n < 4
    ensures May(WithheldScript(run, result, n), WithheldEvents(run, result)[n])
    ensures Next(WithheldScript(run, result, n), WithheldEvents(run, result)[n]) == WithheldScript(run, result, n + 1)
  {
  }

  lemma {:induction false} WithheldWaits(run: RunId, result: nat, n: nat)
    requires 4 <= n < 7
    ensures May(WithheldScript(run, result, n), WithheldEvents(run, result)[n])
    ensures Next(WithheldScript(run, result, n), WithheldEvents(run, result)[n]) == WithheldScript(run, result, n + 1)
  {
  }

  lemma {:induction false} TwoWaitersListed(s: State)
    requires |s.callers| == 3 && !s.callers[0].Waiting?
    requires forall c :: 1 <= c < 3 ==> s.callers[c].Waiting? && s.callers[c].entry == 0
    ensures ListsWaiters(s, 0, [1, 2]) && Reactions([1, 2]) == [Reaction(1), Reaction(2)]
  {
  }

  lemma {:induction false} WithheldIsReleased(run: RunId, result: nat, n: nat)
    requires n == 7
    ensures May(WithheldScript(run, result, n), WithheldEvents(run, result)[n])
    ensures Next(WithheldScript(run, result, n), WithheldEvents(run, result)[n]) == WithheldScript(run, result, n + 1)
  {
    TwoWaitersListed(WithheldState(run, result, n));
  }

  lemma {:induction false} WithheldIsOver(run: RunId, result: nat, n: nat)
    requires 8 <= n < 11
    ensures May(WithheldScript(run, result, n), WithheldEvents(run, result)[n])
    ensures Next(WithheldScript(run, result, n), WithheldEvents(run, result)[n]) == WithheldScript(run, result, n + 1)
  {
  }

  lemma {:induction false} WithheldJoins(run: RunId, result: nat, n: nat)
    requires 11 <= n < 14
    ensures May(WithheldScript(run, result, n), WithheldEvents(run, result)[n])
    ensures Next(WithheldScript(run, result, n), WithheldEvents(run, result)[n]) == WithheldScript(run, result, n + 1)
  {
  }

  /**
   A fulfilled recall can be withheld from later callers, its cleanup having been announced;
   they share a replacement.
   */
  lemma {:induction false} FulfilledCanBeWithheld(run: RunId, result: nat)
    returns (worlds: seq<World>, events: seq<Event>)
    ensures IsJobRun(worlds, events) && |worlds| == 15
    ensures worlds[5].s.entries == [Entry(run, Fulfilled(result), CleanupPending)]
    ensures worlds[5].s.callers == [Joined(run, 0)]
    ensures worlds[14].s.callers == [Joined(run, 0), Joined(run, 1), Joined(run, 1)]
  {
    var script := (n: nat) => WithheldScript(run, result, n);
    events := WithheldEvents(run, result);
    forall n: nat ensures Follows(script, events, n) {
      if n < 4 {
        WithheldBegins(run, result, n);
      } else if n < 7 {
        WithheldWaits(run, result, n);
      } else if n == 7 {
        WithheldIsReleased(run, result, n);
      } else if n < 11 {
        WithheldIsOver(run, result, n);
      } else if n < 14 {
        WithheldJoins(run, result, n);
      }
    }
    worlds := ScriptIsRun(script, events);
  }
}
