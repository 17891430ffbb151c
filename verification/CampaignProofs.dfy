// Every execution of a campaign obeys the protocol and vouches for what it records.
module CampaignProofs {
  import opened Wrappers
  import opened Store
  import opened Campaign
  import opened CampaignProtocol

  lemma {:induction false} MetricsOfPut(db: Db, key: ScenarioKey, records: seq<MetricRecord>)
    ensures MetricsOf(db.(metrics := PutAll(db.metrics, key, records)), key) == PutAll(MetricsOf(db, key), key, records)
  {
    if records != [] {
      MetricsOfPut(db, key, records[..|records| - 1]);
    }
  }

  lemma {:induction false} RecordJobsAt(db0: Db, inv: Invocation, p: Progress, key: ScenarioKey, i: nat, rep: nat,
      n: nat)
    requires At(db0, inv, p, Measuring(key))
    requires !p.halted && key.run in p.db.runs && MetricsOf(p.db, key) == map[]
    ensures var q := RecordJobs(p, key, inv.env, i, rep, n);
            && At(db0, inv, q, Measuring(key)) && p.trace <= q.trace
            && !q.halted && q.failed == p.failed
            && q.db.runs == p.db.runs && q.db.scenarios == p.db.scenarios
            && MetricsOf(q.db, key) == MetricsOfJobs(inv.env, key, i, rep, n)
  {
    if n > 0 {
      RecordJobsAt(db0, inv, p, key, i, rep, n - 1);
      var q := RecordJobs(p, key, inv.env, i, rep, n - 1);
      var outcome := inv.env.job(i, rep, n - 1);
      if outcome.JobOk? && outcome.metrics != [] {
        MetricsOfPut(q.db, key, outcome.metrics);
        DoStep(db0, inv, q, Measuring(key), Tx(RecordMetrics(key, outcome.metrics)));
      }
    }
  }

  // q follows p in one process, with the tables of runs as they were.
  ghost predicate Follows(db0: Db, inv: Invocation, p: Progress, q: Progress) {
    At(db0, inv, q, Idle) && p.trace <= q.trace && q.db.runs == p.db.runs
    && (p.failed ==> q.failed) && (p.halted ==> q.halted)
  }

  predicate SameRow(a: Db, b: Db, k: ScenarioKey) {
    (k in a.scenarios <==> k in b.scenarios) && (k in a.scenarios ==> a.scenarios[k] == b.scenarios[k])
  }

  ghost predicate OthersKept(a: Db, b: Db, key: ScenarioKey) {
    forall k: ScenarioKey :: k != key ==> SameRow(a, b, k)
  }

  // A repetition is blocked by a row that did not end ok, or by a missing run.
  predicate Blocked(db: Db, key: ScenarioKey) {
    if key in db.scenarios then db.scenarios[key].status != Ok else key.run !in db.runs
  }

  // Prepare and all jobs of repetition rep of binding i turn out well.
  predicate Succeeds(env: Environment, i: nat, rep: nat, jobs: nat) {
    env.prepareError(i, rep).None? && forall j: nat | j < jobs :: env.job(i, rep, j).JobOk?
  }

  lemma SucceedsWhen(env: Environment, i: nat, rep: nat, jobs: nat)
    ensures Succeeds(env, i, rep, jobs) <==> env.prepareError(i, rep).None? && AllJobsOk(env, i, rep, jobs)
  {
  }

  // A row just inserted for the binding.
  predicate RowOpened(db: Db, key: ScenarioKey, b: Binding) {
    key in db.scenarios && db.scenarios[key] == ScenarioRow(b.kind, b.target, Running, None)
  }

  // The row of a repetition that is over: the binding's, ok or failed, with what prepare raised.
  predicate RowEnded(db: Db, key: ScenarioKey, b: Binding, env: Environment, i: nat, rep: nat) {
    && key in db.scenarios
    && db.scenarios[key] ==
       ScenarioRow(b.kind, b.target, if Succeeds(env, i, rep, |b.jobs|) then Ok else Failed, env.prepareError(i, rep))
  }

  // The new row is inserted and prepare is called.
  lemma PrepareAt(db0: Db, inv: Invocation, p: Progress, i: nat, rep: nat)
    requires i < |inv.campaign.bindings| && rep < Times(inv.campaign.bindings[i].repeats)
    requires inv.campaign.bindings[i].kind in inv.env.runners
    requires Consistent(db0) && At(db0, inv, p, Idle) && !p.halted
    requires var key := KeyFor(inv.run, inv.campaign.bindings[i], rep);
             key !in p.db.scenarios && key.run in p.db.runs
    ensures var b := inv.campaign.bindings[i];
            var key := KeyFor(inv.run, b, rep);
            var start := StartScenario(key, b.kind, b.target);
            var prepared := Do(Try(p, start), Prepare(key));
            && Commit(p.db, start).Some? && !prepared.halted && prepared.failed == p.failed
            && At(db0, inv, prepared, Prepared(key)) && p.trace <= prepared.trace
            && prepared.db.runs == p.db.runs && MetricsOf(prepared.db, key) == map[]
            && OthersKept(p.db, prepared.db, key) && RowOpened(prepared.db, key, b)
  {
    var b := inv.campaign.bindings[i];
    var key := KeyFor(inv.run, b, rep);
    assert IsSlot(inv, i, rep, key);
    OpenRowIsRunning(db0, p.trace);
    var start := StartScenario(key, b.kind, b.target);
    DoStep(db0, inv, p, Idle, Tx(start));
    DoStep(db0, inv, Try(p, start), Started(key), Prepare(key));
  }

  // The row is closed after the jobs; an ok row vouches for its metrics.
  lemma {:induction false} FinishAt(db0: Db, inv: Invocation, measured: Progress, i: nat, rep: nat, finish: Action)
    requires i < |inv.campaign.bindings| && rep < Times(inv.campaign.bindings[i].repeats)
    requires var jobs := |inv.campaign.bindings[i].jobs|;
             var key := KeyFor(inv.run, inv.campaign.bindings[i], rep);
             var ok := AllJobsOk(inv.env, i, rep, jobs);
             && finish == Tx(FinishScenario(key, if ok then Ok else Failed, None))
             && At(db0, inv, measured, Measuring(key)) && key in measured.db.scenarios
             && MetricsOf(measured.db, key) == MetricsOfJobs(inv.env, key, i, rep, jobs)
    ensures At(db0, inv, Do(measured, finish), Idle)
  {
    var jobs := |inv.campaign.bindings[i].jobs|;
    var key := KeyFor(inv.run, inv.campaign.bindings[i], rep);
    var after := Apply(measured.db, finish);
    assert MetricsOf(after, key) == MetricsOf(measured.db, key);
    if AllJobsOk(inv.env, i, rep, jobs) {
      assert IsSlot(inv, i, rep, key);
      assert Measured(after, inv, i, rep, key);
    }
    DoStep(db0, inv, measured, Measuring(key), finish);
  }

  // The row of a repetition is open and prepare has been called.
  ghost predicate Opened(db0: Db, inv: Invocation, p: Progress, i: nat, rep: nat) {
    && i < |inv.campaign.bindings| && rep < Times(inv.campaign.bindings[i].repeats)
    && var key := KeyFor(inv.run, inv.campaign.bindings[i], rep);
       && At(db0, inv, p, Prepared(key)) && !p.halted && RowOpened(p.db, key, inv.campaign.bindings[i])
       && key.run in p.db.runs && MetricsOf(p.db, key) == map[]
  }

  // What has come of it in q.
  ghost predicate Ended(db0: Db, inv: Invocation, p: Progress, q: Progress, i: nat, rep: nat)
    requires i < |inv.campaign.bindings|
  {
    var b := inv.campaign.bindings[i];
    var key := KeyFor(inv.run, b, rep);
    && Follows(db0, inv, p, q) && !q.halted
    && OthersKept(p.db, q.db, key) && RowEnded(q.db, key, b, inv.env, i, rep)
    && (q.failed <==> p.failed || !Succeeds(inv.env, i, rep, |b.jobs|))
  }

  lemma FailedPrepareAt(db0: Db, inv: Invocation, prepared: Progress, i: nat, rep: nat)
    requires Opened(db0, inv, prepared, i, rep) && inv.env.prepareError(i, rep).Some?
    ensures var b := inv.campaign.bindings[i];
            var key := KeyFor(inv.run, b, rep);
            Ended(db0, inv, prepared, Attempt(prepared, key, i, b, rep, inv.env, inv.campaign.cleanup), i, rep)
  {
    hide Lawful, Faithful, Watch, MetricsOf, MetricsOfJobs;
    var key := KeyFor(inv.run, inv.campaign.bindings[i], rep);
    DoStep(db0, inv, prepared, Prepared(key), Tx(FinishScenario(key, Failed, inv.env.prepareError(i, rep))));
  }

  // What closing the row after the jobs does to the tables.
  lemma RowCloses(db: Db, measured: Db, key: ScenarioKey, b: Binding, env: Environment, i: nat, rep: nat)
    requires env.prepareError(i, rep).None? && RowOpened(db, key, b)
    requires measured.scenarios == db.scenarios && measured.runs == db.runs
    ensures var ok := AllJobsOk(env, i, rep, |b.jobs|);
            var after := Apply(measured, Tx(FinishScenario(key, if ok then Ok else Failed, None)));
            after.runs == db.runs && OthersKept(db, after, key) && RowEnded(after, key, b, env, i, rep)
  {
    SucceedsWhen(env, i, rep, |b.jobs|);
    hide AllJobsOk, Succeeds;
  }

  lemma MeasuredAt(db0: Db, inv: Invocation, prepared: Progress, i: nat, rep: nat)
    requires Opened(db0, inv, prepared, i, rep) && inv.env.prepareError(i, rep).None?
    ensures var b := inv.campaign.bindings[i];
            var key := KeyFor(inv.run, b, rep);
            Ended(db0, inv, prepared, Attempt(prepared, key, i, b, rep, inv.env, inv.campaign.cleanup), i, rep)
  {
    hide Lawful, Faithful, Watch, MetricsOf, MetricsOfJobs, AllJobsOk, Succeeds, RowEnded, OthersKept;
    var b := inv.campaign.bindings[i];
    var key := KeyFor(inv.run, b, rep);
    SucceedsWhen(inv.env, i, rep, |b.jobs|);
    var running := Do(prepared, RunJobs(key));
    DoStep(db0, inv, prepared, Prepared(key), RunJobs(key));
    RecordJobsAt(db0, inv, running, key, i, rep, |b.jobs|);
    hide RecordJobs;
    var measured := RecordJobs(running, key, inv.env, i, rep, |b.jobs|);
    RowCloses(prepared.db, measured.db, key, b, inv.env, i, rep);
    hide RowOpened;
    var ok := AllJobsOk(inv.env, i, rep, |b.jobs|);
    var finish := Tx(FinishScenario(key, if ok then Ok else Failed, None));
    FinishAt(db0, inv, measured, i, rep, finish);
    DoStep(db0, inv, Do(measured, finish), Idle, CleanUp(b.target, b.kind));
  }

  lemma AttemptAt(db0: Db, inv: Invocation, prepared: Progress, i: nat, rep: nat)
    requires Opened(db0, inv, prepared, i, rep)
    ensures var b := inv.campaign.bindings[i];
            var key := KeyFor(inv.run, b, rep);
            Ended(db0, inv, prepared, Attempt(prepared, key, i, b, rep, inv.env, inv.campaign.cleanup), i, rep)
  {
    hide Opened, Ended, Attempt;
    if inv.env.prepareError(i, rep).Some? {
      FailedPrepareAt(db0, inv, prepared, i, rep);
    } else {
      MeasuredAt(db0, inv, prepared, i, rep);
    }
  }

  // The row after a repetition: as it was, or new and as the repetition turned out.
  predicate RepeatDone(before: Db, after: Db, inv: Invocation, i: nat, rep: nat)
    requires i < |inv.campaign.bindings|
  {
    var b := inv.campaign.bindings[i];
    var key := KeyFor(inv.run, b, rep);
    && key in after.scenarios
    && if key in before.scenarios then SameRow(before, after, key)
       else RowEnded(after, key, b, inv.env, i, rep)
  }

  lemma RunRepeatAt(db0: Db, inv: Invocation, p: Progress, i: nat, rep: nat)
    requires i < |inv.campaign.bindings| && rep < Times(inv.campaign.bindings[i].repeats)
    requires inv.campaign.bindings[i].kind in inv.env.runners
    requires Consistent(db0) && At(db0, inv, p, Idle) && !p.halted
    ensures var b := inv.campaign.bindings[i];
            var key := KeyFor(inv.run, b, rep);
            var q := RunRepeat(p, inv.run, i, b, rep, inv.env, inv.campaign.cleanup);
            && Follows(db0, inv, p, q)
            && (q.halted <==> Blocked(p.db, key))
            && OthersKept(p.db, q.db, key)
            && (!q.halted && !q.failed ==> Completed(q.db, key))
            && (!q.halted ==> RepeatDone(p.db, q.db, inv, i, rep))
            && (!q.halted && !p.failed ==> (q.failed <==> !Completed(q.db, key)))
  {
    hide Attempt, Lawful, Faithful, Watch, MetricsOf, Consistent, AllJobsOk;
    var b := inv.campaign.bindings[i];
    var key := KeyFor(inv.run, b, rep);
    if key !in p.db.scenarios && inv.run in p.db.runs {
      PrepareAt(db0, inv, p, i, rep);
      var prepared := Do(Try(p, StartScenario(key, b.kind, b.target)), Prepare(key));
      AttemptAt(db0, inv, prepared, i, rep);
      var q := Attempt(prepared, key, i, b, rep, inv.env, inv.campaign.cleanup);
      forall k: ScenarioKey | k != key
        ensures SameRow(p.db, q.db, k)
      {
        assert SameRow(p.db, prepared.db, k) && SameRow(prepared.db, q.db, k);
      }
    }
  }

  // An ok row stays ok as the process goes on.
  lemma OkSurvives(db0: Db, inv: Invocation, p: Progress, q: Progress, key: ScenarioKey)
    requires Consistent(db0) && At(db0, inv, p, Idle) && At(db0, inv, q, Idle) && p.trace <= q.trace
    requires Completed(p.db, key)
    ensures Completed(q.db, key)
  {
    assert q.trace[..|p.trace|] == p.trace;
    OkIsFrozen(db0, q.trace, |p.trace|, key);
  }

  predicate RepeatsOk(db: Db, run: string, b: Binding, n: nat) {
    forall rep: nat | rep < n :: Completed(db, KeyFor(run, b, rep))
  }

  lemma RepeatsOkSurvive(db0: Db, inv: Invocation, p: Progress, q: Progress, b: Binding, n: nat)
    requires Consistent(db0) && At(db0, inv, p, Idle) && At(db0, inv, q, Idle) && p.trace <= q.trace
    requires RepeatsOk(p.db, inv.run, b, n)
    ensures RepeatsOk(q.db, inv.run, b, n)
  {
    forall rep: nat | rep < n
      ensures Completed(q.db, KeyFor(inv.run, b, rep))
    {
      OkSurvives(db0, inv, p, q, KeyFor(inv.run, b, rep));
    }
  }

  lemma {:induction false} RunRepeatsAt(db0: Db, inv: Invocation, p: Progress, i: nat, n: nat)
    requires i < |inv.campaign.bindings| && n <= Times(inv.campaign.bindings[i].repeats)
    requires inv.campaign.bindings[i].kind in inv.env.runners
    requires Consistent(db0) && At(db0, inv, p, Idle) && !p.halted
    ensures var b := inv.campaign.bindings[i];
            var q := RunRepeats(p, inv.run, i, b, n, inv.env, inv.campaign.cleanup);
            Follows(db0, inv, p, q) && (!q.halted && !q.failed ==> RepeatsOk(q.db, inv.run, b, n))
  {
    hide RunRepeat, Lawful, Faithful, Watch, Consistent, OthersKept, Blocked;
    if n > 0 {
      RunRepeatsAt(db0, inv, p, i, n - 1);
      var b := inv.campaign.bindings[i];
      var before := RunRepeats(p, inv.run, i, b, n - 1, inv.env, inv.campaign.cleanup);
      var q := RunRepeats(p, inv.run, i, b, n, inv.env, inv.campaign.cleanup);
      if before.halted {
        HaltedRepeatsStay(p, inv.run, i, b, inv.env, inv.campaign.cleanup, n - 1, n);
      } else {
        RunRepeatAt(db0, inv, before, i, n - 1);
        if !q.halted && !q.failed {
          RepeatsOkSurvive(db0, inv, before, q, b, n - 1);
        }
      }
    }
  }

  ghost predicate RowsOkUpTo(db: Db, inv: Invocation, n: nat) {
    forall i: nat, rep: nat, key :: IsSlot(inv, i, rep, key) && i < n ==> Completed(db, key)
  }

  lemma {:induction false} RunBindingsAt(db0: Db, inv: Invocation, p: Progress, n: nat)
    requires n <= |inv.campaign.bindings|
    requires Consistent(db0) && At(db0, inv, p, Idle) && !p.halted
    ensures var q := RunBindings(p, inv, n);
            Follows(db0, inv, p, q) && (!q.halted && !q.failed ==> RowsOkUpTo(q.db, inv, n))
  {
    if n > 0 {
      RunBindingsAt(db0, inv, p, n - 1);
      var b := inv.campaign.bindings[n - 1];
      var before := RunBindings(p, inv, n - 1);
      var q := RunBindings(p, inv, n);
      if before.halted {
        HaltedStays(p, inv, n - 1, n);
      } else if b.kind in inv.env.runners {
        hide RunRepeats, Lawful, Faithful, Watch, Consistent;
        RunRepeatsAt(db0, inv, before, n - 1, Times(b.repeats));
        if !q.halted && !q.failed {
          forall i: nat, rep: nat, key | IsSlot(inv, i, rep, key) && i < n
            ensures Completed(q.db, key)
          {
            assert key == KeyFor(inv.run, inv.campaign.bindings[i], rep);
            if i < n - 1 {
              OkSurvives(db0, inv, before, q, key);
            }
          }
        }
      }
    }
  }

  lemma {:induction false} CleanTargetsAt(db0: Db, inv: Invocation, p: Progress, n: nat)
    requires n <= |inv.campaign.bindings|
    requires At(db0, inv, p, Idle)
    ensures var q := CleanTargets(p, inv.campaign.bindings, inv.env, n);
            Follows(db0, inv, p, q) && q.db == p.db && q.failed == p.failed
  {
    hide Lawful, Faithful, Watch;
    if n > 0 {
      CleanTargetsAt(db0, inv, p, n - 1);
      var q := CleanTargets(p, inv.campaign.bindings, inv.env, n - 1);
      var b := inv.campaign.bindings[n - 1];
      DoStep(db0, inv, q, Idle, CleanUp(b.target, b.kind));
    }
  }

  lemma BeginAt(db: Db, inv: Invocation)
    ensures At(db, inv, Begin(db, inv), Idle)
    ensures Begin(db, inv).halted <==> inv.isNew && inv.run in db.runs
  {
    var p := Progress(db, [], false, false);
    if inv.isNew && inv.run !in db.runs {
      DoStep(db, inv, p, Idle, Tx(StartRun(inv.run, inv.campaign.name)));
    }
  }

  // The whole of one execution obeys the protocol, and vouches for every row it finishes.
  lemma InvokeObeysProtocol(db: Db, inv: Invocation)
    requires Consistent(db)
    ensures At(db, inv, Invoke(db, inv), Idle)
  {
    var n := |inv.campaign.bindings|;
    BeginAt(db, inv);
    var p := Begin(db, inv);
    if p.halted {
      HaltedStays(p, inv, 0, n);
    } else {
      RunBindingsAt(db, inv, p, n);
      var q := RunBindings(p, inv, n);
      if !q.halted {
        CleanTargetsAt(db, inv, q, n);
        var r := BeforeFinish(db, inv);
        if !r.halted {
          var finish := Tx(FinishRun(inv.run, if r.failed then Failed else Ok));
          if !r.failed {
            assert Apply(r.db, finish).scenarios == r.db.scenarios;
            forall i: nat, rep: nat, key | IsSlot(inv, i, rep, key)
              ensures Completed(Apply(r.db, finish), key)
            {
              assert Completed(q.db, key);
            }
          }
          DoStep(db, inv, r, Idle, finish);
        }
      }
    }
  }
}
