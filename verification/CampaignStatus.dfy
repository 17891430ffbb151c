// What an execution records for its run at the end, in both outcomes.
module CampaignStatus {
  import opened Store
  import opened Campaign
  import opened CampaignProtocol
  import opened CampaignProofs
  import opened CampaignResume

  // A repetition has a row, and it did not end ok.
  predicate EndedBadly(db: Db, key: ScenarioKey) {
    key in db.scenarios && db.scenarios[key].status != Ok
  }

  lemma BadRowStays(db0: Db, inv: Invocation, p: Progress, q: Progress, key: ScenarioKey)
    requires At(db0, inv, p, Idle) && At(db0, inv, q, Idle) && p.trace <= q.trace && EndedBadly(p.db, key)
    ensures EndedBadly(q.db, key)
  {
    assert q.trace[..|p.trace|] == p.trace;
    ClosedRowIsFrozen(db0, q.trace, |p.trace|, key);
  }

  // One of the first n repetitions of a binding ended badly.
  predicate BadRepeat(db: Db, run: string, b: Binding, n: nat) {
    exists rep: nat | rep < n :: EndedBadly(db, KeyFor(run, b, rep))
  }

  lemma {:induction false} FailedRepeatLeavesRow(db0: Db, inv: Invocation, p: Progress, i: nat, n: nat)
    requires i < |inv.campaign.bindings| && n <= Times(inv.campaign.bindings[i].repeats)
    requires inv.campaign.bindings[i].kind in inv.env.runners
    requires Consistent(db0) && At(db0, inv, p, Idle) && !p.halted && !p.failed
    ensures var b := inv.campaign.bindings[i];
            var q := RunRepeats(p, inv.run, i, b, n, inv.env, inv.campaign.cleanup);
            !q.halted && q.failed ==> BadRepeat(q.db, inv.run, b, n)
  {
    hide RunRepeat, Lawful, Faithful, Watch, Consistent, OthersKept, Blocked;
    if n > 0 {
      var b, mode := inv.campaign.bindings[i], inv.campaign.cleanup;
      FailedRepeatLeavesRow(db0, inv, p, i, n - 1);
      RunRepeatsAt(db0, inv, p, i, n - 1);
      var before := RunRepeats(p, inv.run, i, b, n - 1, inv.env, mode);
      var q := RunRepeats(p, inv.run, i, b, n, inv.env, mode);
      if before.halted {
        HaltedRepeatsStay(p, inv.run, i, b, inv.env, mode, n - 1, n);
      } else {
        RunRepeatAt(db0, inv, before, i, n - 1);
        if !q.halted && q.failed {
          if before.failed {
            var rep: nat :| rep < n - 1 && EndedBadly(before.db, KeyFor(inv.run, b, rep));
            BadRowStays(db0, inv, before, q, KeyFor(inv.run, b, rep));
          } else {
            assert EndedBadly(q.db, KeyFor(inv.run, b, n - 1));
          }
        }
      }
    }
  }

  // One of the first n bindings has no runner, or a repetition that ended badly.
  predicate BadBinding(db: Db, inv: Invocation, n: nat)
    requires n <= |inv.campaign.bindings|
  {
    exists i: nat | i < n ::
      var b := inv.campaign.bindings[i];
      b.kind !in inv.env.runners || BadRepeat(db, inv.run, b, Times(b.repeats))
  }

  lemma BadRepeatStays(db0: Db, inv: Invocation, p: Progress, q: Progress, b: Binding, n: nat)
    requires At(db0, inv, p, Idle) && At(db0, inv, q, Idle) && p.trace <= q.trace && BadRepeat(p.db, inv.run, b, n)
    ensures BadRepeat(q.db, inv.run, b, n)
  {
    var rep: nat :| rep < n && EndedBadly(p.db, KeyFor(inv.run, b, rep));
    BadRowStays(db0, inv, p, q, KeyFor(inv.run, b, rep));
  }

  lemma {:induction false} FailureLeavesRow(db0: Db, inv: Invocation, p: Progress, n: nat)
    requires n <= |inv.campaign.bindings|
    requires Consistent(db0) && At(db0, inv, p, Idle) && !p.halted && !p.failed
    ensures var q := RunBindings(p, inv, n);
            && (!q.halted && q.failed ==> BadBinding(q.db, inv, n))
            && (!q.halted && !q.failed ==> forall i | 0 <= i < n :: inv.campaign.bindings[i].kind in inv.env.runners)
  {
    hide RunRepeats, Lawful, Faithful, Watch, Consistent, BadRepeat, RowsOkUpTo;
    if n > 0 {
      FailureLeavesRow(db0, inv, p, n - 1);
      RunBindingsAt(db0, inv, p, n - 1);
      var b := inv.campaign.bindings[n - 1];
      var before, q := RunBindings(p, inv, n - 1), RunBindings(p, inv, n);
      if before.halted {
        HaltedStays(p, inv, n - 1, n);
      } else if b.kind in inv.env.runners {
        RunRepeatsAt(db0, inv, before, n - 1, Times(b.repeats));
        if !q.halted && q.failed {
          if before.failed {
            BadBindingStays(db0, inv, before, q, n - 1);
          } else {
            FailedRepeatLeavesRow(db0, inv, before, n - 1, Times(b.repeats));
          }
        }
      }
    }
  }

  lemma BadBindingStays(db0: Db, inv: Invocation, p: Progress, q: Progress, n: nat)
    requires n <= |inv.campaign.bindings| && BadBinding(p.db, inv, n)
    requires At(db0, inv, p, Idle) && At(db0, inv, q, Idle) && p.trace <= q.trace
    ensures BadBinding(q.db, inv, n)
  {
    hide BadRepeat, Lawful, Faithful, Watch;
    var i: nat :| i < n && var b := inv.campaign.bindings[i];
                  b.kind !in inv.env.runners || BadRepeat(p.db, inv.run, b, Times(b.repeats));
    var b := inv.campaign.bindings[i];
    if b.kind in inv.env.runners {
      BadRepeatStays(db0, inv, p, q, b, Times(b.repeats));
    }
  }

  lemma BadBindingIsSeen(db: Db, inv: Invocation)
    requires BadBinding(db, inv, |inv.campaign.bindings|)
    ensures !KindsRegistered(inv) || !AllRowsOk(db, inv)
  {
    var i: nat :| i < |inv.campaign.bindings| && var b := inv.campaign.bindings[i];
                  b.kind !in inv.env.runners || BadRepeat(db, inv.run, b, Times(b.repeats));
    var b := inv.campaign.bindings[i];
    if b.kind in inv.env.runners {
      var rep: nat :| rep < Times(b.repeats) && EndedBadly(db, KeyFor(inv.run, b, rep));
      assert IsSlot(inv, i, rep, KeyFor(inv.run, b, rep));
    }
  }

  // An execution that reaches its end closes its run, with ok exactly when every scenario kind has a
  // runner and every repetition of every binding has a row that ended ok, and as failed otherwise.
  lemma RunStatusExactlyWhen(db: Db, inv: Invocation)
    requires Consistent(db) && !Invoke(db, inv).halted
    ensures var after, trace := Invoke(db, inv).db, Invoke(db, inv).trace;
            var status := if KindsRegistered(inv) && AllRowsOk(after, inv) then Ok else Failed;
            && trace != [] && trace[|trace| - 1] == Tx(FinishRun(inv.run, status))
            && (inv.run in after.runs ==> after.runs[inv.run].status == status)
  {
    var n := |inv.campaign.bindings|;
    BeginAt(db, inv);
    var p := Begin(db, inv);
    if p.halted {
      HaltedStays(p, inv, 0, n);
    }
    FailureLeavesRow(db, inv, p, n);
    RunBindingsAt(db, inv, p, n);
    var q := RunBindings(p, inv, n);
    CleanTargetsAt(db, inv, q, n);
    hide Begin, RunBindings, CleanTargets, Lawful, Faithful, Watch, Consistent, BadBinding;
    if q.failed {
      BadBindingIsSeen(q.db, inv);
    }
    assert Invoke(db, inv).db.scenarios == q.db.scenarios;
  }
}
