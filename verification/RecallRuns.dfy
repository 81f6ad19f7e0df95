/**
 The run registry as an object: the map of runs, its entries, and one method per
 await-free segment (extensions/active-memory/recall-state.ts). Each method performs the
 action of the transition system that bears its name.
 */
module RecallRuns {
  import opened Prelude
  import opened RecallProtocol

  class RecallRegistry {
    var runs: map<RunId, nat>
    var entries: seq<Entry>
    var callers: seq<Caller>
    ghost var floors: map<RunId, nat>

    ghost function View(): State
      reads this
    {
      State(runs, entries, callers, floors)
    }

    ghost predicate Valid()
      reads this
    {
      Inv(View())
    }

    constructor ()
      ensures View() == INITIAL && Valid()
    {
      runs, entries, callers, floors := map[], [], [], map[];
    }

    /** The segment up to the first await: wait, join, or register a new recall. */
    method LookUpRun(run: RunId) returns (caller: Caller)
      requires run in runs ==> runs[run] < |entries|
      modifies this`runs, this`entries
      ensures View() == LookUp(old(View()), run).0 && caller == LookUp(old(View()), run).1
    {
      if run in runs {
        var existing := runs[run];
        if entries[existing].cleanup.NoCleanup? {
          return Joined(run, existing);
        }
        return Waiting(run, existing);
      }
      var entry := |entries|;
      entries := entries + [Entry(run, Created, NoCleanup)];
      runs := runs[run := entry];
      caller := Joined(run, entry);
    }

    method Resolve(run: RunId)
      requires Valid()
      modifies this
      ensures Valid() && View() == Step(old(View()), Enter(run))
    {
      StepKeepsInv(View(), Enter(run));
      assert run in runs ==> RunInv(View(), run);
      var caller := LookUpRun(run);
      callers := callers + [caller];
    }

    /** The timed-out recall and its cleanup are over: release it if still registered, then look up again. */
    method ResumeCaller(c: nat)
      requires Valid() && Enabled(View(), Resume(c))
      modifies this
      ensures Valid() && View() == Step(old(View()), Resume(c))
    {
      StepKeepsInv(View(), Resume(c));
      var run, existing := callers[c].run, callers[c].entry;
      assert run in runs ==> RunInv(View(), run);
      ReleaseRun(run, existing);
      var caller := LookUpRun(run);
      callers := callers[c := caller];
    }

    method ReleaseRun(run: RunId, entry: nat)
      modifies this`runs
      ensures runs == Release(old(runs), run, entry)
    {
      if run in runs && runs[run] == entry {
        runs := runs - {run};
      }
    }

    method BeginRecall(e: nat)
      requires Valid() && Enabled(View(), Begin(e))
      modifies this
      ensures Valid() && View() == Step(old(View()), Begin(e))
    {
      StepKeepsInv(View(), Begin(e));
      entries := entries[e := entries[e].(phase := Running)];
    }

    /** The callback handed to the recall. */
    method OnTimeoutCleanup(e: nat)
      requires Valid() && Enabled(View(), AnnounceCleanup(e))
      modifies this
      ensures Valid() && View() == Step(old(View()), AnnounceCleanup(e))
    {
      StepKeepsInv(View(), AnnounceCleanup(e));
      entries := entries[e := entries[e].(cleanup := CleanupPending)];
    }

    method SettleRecall(e: nat, phase: Phase)
      requires Valid() && Enabled(View(), Settle(e, phase))
      modifies this
      ensures Valid() && View() == Step(old(View()), Settle(e, phase))
    {
      StepKeepsInv(View(), Settle(e, phase));
      entries := entries[e := entries[e].(phase := phase)];
    }

    method FinishCleanup(e: nat)
      requires Valid() && Enabled(View(), SettleCleanup(e))
      modifies this
      ensures Valid() && View() == Step(old(View()), SettleCleanup(e))
    {
      StepKeepsInv(View(), SettleCleanup(e));
      entries := entries[e := entries[e].(cleanup := CleanupSettled)];
    }

    /** A failure before any cleanup frees the run. */
    method HandleRejection(e: nat)
      requires Valid() && Enabled(View(), OnRejected(e))
      modifies this
      ensures Valid() && View() == Step(old(View()), OnRejected(e))
    {
      StepKeepsInv(View(), OnRejected(e));
      if entries[e].cleanup.NoCleanup? {
        ReleaseRun(entries[e].run, e);
      }
    }

    method HandleBothSettled(e: nat)
      requires Valid() && Enabled(View(), OnBothSettled(e))
      modifies this
      ensures Valid() && View() == Step(old(View()), OnBothSettled(e))
    {
      StepKeepsInv(View(), OnBothSettled(e));
      ReleaseRun(entries[e].run, e);
    }

    method DeliverResult(c: nat) returns (result: Option<nat>)
      requires Valid() && Enabled(View(), Deliver(c))
      modifies this
      ensures Valid() && View() == Step(old(View()), Deliver(c))
      ensures result == if entries[old(callers[c].entry)].phase.Fulfilled?
                        then Some(entries[old(callers[c].entry)].phase.result) else None
    {
      StepKeepsInv(View(), Deliver(c));
      var x := entries[callers[c].entry];
      result := if x.phase.Fulfilled? then Some(x.phase.result) else None;
      callers := callers[c := Done(callers[c].run, result)];
    }

    method ForgetRun(run: RunId)
      requires Valid()
      modifies this
      ensures Valid() && View() == Step(old(View()), Forget(run))
    {
      StepKeepsInv(View(), Forget(run));
      runs := runs - {run};
      floors := floors[run := |entries|];
    }
  }
}
