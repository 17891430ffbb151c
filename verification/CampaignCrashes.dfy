// The shortest crash that no resumption survives.
module CampaignCrashes {
  import opened Store
  import opened Campaign
  import opened CampaignProtocol
  import opened CampaignProofs
  import opened CampaignHistory

  lemma {:induction false} RepeatsGrow(db0: Db, inv: Invocation, p: Progress, i: nat, m: nat, n: nat)
    requires i < |inv.campaign.bindings| && m <= n <= Times(inv.campaign.bindings[i].repeats)
    requires inv.campaign.bindings[i].kind in inv.env.runners
    requires Consistent(db0) && At(db0, inv, p, Idle) && !p.halted
    ensures var b, mode := inv.campaign.bindings[i], inv.campaign.cleanup;
            RunRepeats(p, inv.run, i, b, m, inv.env, mode).trace <= RunRepeats(p, inv.run, i, b, n, inv.env, mode).trace
  {
    hide RunRepeat, Lawful, Faithful, Watch, Consistent, OthersKept, Blocked, RepeatDone;
    if m < n {
      var b, mode := inv.campaign.bindings[i], inv.campaign.cleanup;
      RepeatsGrow(db0, inv, p, i, m, n - 1);
      RunRepeatsAt(db0, inv, p, i, n - 1);
      var before := RunRepeats(p, inv.run, i, b, n - 1, inv.env, mode);
      if before.halted {
        HaltedRepeatsStay(p, inv.run, i, b, inv.env, mode, n - 1, n);
      } else {
        RunRepeatAt(db0, inv, before, i, n - 1);
      }
    }
  }

  lemma {:induction false} BindingsGrow(db0: Db, inv: Invocation, p: Progress, m: nat, n: nat)
    requires m <= n <= |inv.campaign.bindings|
    requires Consistent(db0) && At(db0, inv, p, Idle) && !p.halted
    ensures RunBindings(p, inv, m).trace <= RunBindings(p, inv, n).trace
  {
    hide RunRepeats, Lawful, Faithful, Watch, Consistent;
    if m < n {
      BindingsGrow(db0, inv, p, m, n - 1);
      RunBindingsAt(db0, inv, p, n - 1);
      var b, before := inv.campaign.bindings[n - 1], RunBindings(p, inv, n - 1);
      if !before.halted && b.kind in inv.env.runners {
        RunRepeatsAt(db0, inv, before, n - 1, Times(b.repeats));
      }
    }
  }

  function FirstRow(inv: Invocation): Action
    requires inv.campaign.bindings != []
  {
    var b := inv.campaign.bindings[0];
    Tx(StartScenario(KeyFor(inv.run, b, 0), b.kind, b.target))
  }

  // The first repetition opens its row.
  lemma FirstRepeatOpens(db: Db, inv: Invocation, p: Progress)
    requires Consistent(db) && At(db, inv, p, Idle) && !p.halted && inv.run in p.db.runs
    requires inv.campaign.bindings != [] && inv.campaign.bindings[0].repeats > 0
    requires inv.campaign.bindings[0].kind in inv.env.runners
    requires KeyFor(inv.run, inv.campaign.bindings[0], 0) !in p.db.scenarios
    ensures p.trace + [FirstRow(inv)] <=
            RunRepeat(p, inv.run, 0, inv.campaign.bindings[0], 0, inv.env, inv.campaign.cleanup).trace
  {
    hide Lawful, Faithful, Watch, Consistent, Attempt, MetricsOf;
    var b := inv.campaign.bindings[0];
    var key := KeyFor(inv.run, b, 0);
    PrepareAt(db, inv, p, 0, 0);
    AttemptAt(db, inv, Do(Try(p, StartScenario(key, b.kind, b.target)), Prepare(key)), 0, 0);
  }

  lemma {:induction false} CleaningGrows(p: Progress, bs: seq<Binding>, env: Environment, n: nat)
    requires n <= |bs|
    ensures p.trace <= CleanTargets(p, bs, env, n).trace
  {
    if n > 0 {
      CleaningGrows(p, bs, env, n - 1);
    }
  }

  lemma {:induction false} InvokeGrows(db: Db, inv: Invocation)
    ensures RunBindings(Begin(db, inv), inv, |inv.campaign.bindings|).trace <= Invoke(db, inv).trace
  {
    hide Begin, RunBindings, CleanTargets;
    var q := RunBindings(Begin(db, inv), inv, |inv.campaign.bindings|);
    CleaningGrows(q, inv.campaign.bindings, inv.env, |inv.campaign.bindings|);
  }

  lemma SecondActionOpensRow(db: Db, inv: Invocation)
    requires Consistent(db) && inv.isNew && inv.run !in db.runs
    requires inv.campaign.bindings != [] && inv.campaign.bindings[0].repeats > 0
    requires inv.campaign.bindings[0].kind in inv.env.runners
    ensures [Tx(StartRun(inv.run, inv.campaign.name)), FirstRow(inv)] <= Invoke(db, inv).trace
  {
    hide Invoke, RunRepeat, Lawful, Faithful, Watch;
    var b, mode := inv.campaign.bindings[0], inv.campaign.cleanup;
    BeginAt(db, inv);
    var p := Begin(db, inv);
    assert p.trace == [Tx(StartRun(inv.run, inv.campaign.name))];
    FirstRepeatOpens(db, inv, p);
    RepeatsGrow(db, inv, p, 0, 1, Times(b.repeats));
    assert RunRepeats(p, inv.run, 0, b, 0, inv.env, mode) == p;
    assert RunRepeats(p, inv.run, 0, b, 1, inv.env, mode) == RunRepeat(p, inv.run, 0, b, 0, inv.env, mode);
    assert RunBindings(p, inv, 0) == p;
    assert RunBindings(p, inv, 1) == RunRepeats(p, inv.run, 0, b, Times(b.repeats), inv.env, mode);
    BindingsGrow(db, inv, p, 1, |inv.campaign.bindings|);
    InvokeGrows(db, inv);
  }

  // A new run that dies right after opening its first row can never be finished, whatever is tried
  // afterwards: the row stays running and blocks.
  lemma EarlyCrashBlocksForever(db: Db, inv: Invocation, later: seq<Session>)
    requires Consistent(db) && inv.isNew && inv.run !in db.runs
    requires inv.campaign.bindings != [] && inv.campaign.bindings[0].repeats > 0
    requires inv.campaign.bindings[0].kind in inv.env.runners
    requires OneCampaign(later, inv)
    ensures var key, last := KeyFor(inv.run, inv.campaign.bindings[0], 0), After(db, [Session(inv, 2)] + later);
            && key in last.scenarios && last.scenarios[key].status == Running
            && Blocked(last, key) && !RecordedOk(last, inv)
  {
    var first, h := Session(inv, 2), [Session(inv, 2)] + later;
    var key := KeyFor(inv.run, inv.campaign.bindings[0], 0);
    TwoActionsLeaveRow(db, inv);
    assert h[..1] == [first];
    forall s | s in h && s.inv.run == inv.run
      ensures s.inv.campaign == inv.campaign
    {
      assert s == first || s in later;
    }
    FoundRowIsFrozen(db, h, 1, key);
    LeftoverRowBlocksForever(db, h, 1, inv, 0, 0);
  }

  lemma TwoActionsLeaveRow(db: Db, inv: Invocation)
    requires Consistent(db) && inv.isNew && inv.run !in db.runs
    requires inv.campaign.bindings != [] && inv.campaign.bindings[0].repeats > 0
    requires inv.campaign.bindings[0].kind in inv.env.runners
    ensures var key, after := KeyFor(inv.run, inv.campaign.bindings[0], 0), After(db, [Session(inv, 2)]);
            key in after.scenarios && after.scenarios[key].status == Running
  {
    SecondActionOpensRow(db, inv);
    hide Invoke, Consistent;
    var start, row := Tx(StartRun(inv.run, inv.campaign.name)), FirstRow(inv);
    var h := [Session(inv, 2)];
    assert h[..|h| - 1] == [] && TraceOf(db, []) == [] && Watch(db, []).db == db;
    assert Performed(db, h[0]) == [start, row];
    assert TraceOf(db, h) == [] + [Restart] + [start, row];
    WatchAcrossRestart(db, [], [start, row]);
    assert [start, row][..1] == [start] && [start][..0] == [];
  }
}
