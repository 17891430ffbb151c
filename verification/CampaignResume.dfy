// When a resumed run gets to its end, which crashes can be resumed, and what a run without
// failures records.
module CampaignResume {
  import opened Wrappers
  import opened Store
  import opened Campaign
  import opened CampaignProtocol
  import opened CampaignProofs
  import opened CampaignHistory

  predicate KindsRegistered(inv: Invocation) {
    forall i | 0 <= i < |inv.campaign.bindings| :: inv.campaign.bindings[i].kind in inv.env.runners
  }

  // ----- when a resumption reaches its end -----

  // A slot whose scenario kind has a runner: the others are skipped.
  predicate IsRunnable(inv: Invocation, i: nat, rep: nat, key: ScenarioKey) {
    IsSlot(inv, i, rep, key) && inv.campaign.bindings[i].kind in inv.env.runners
  }

  // The first of the first n bindings that runs the repetition with the key.
  function Opener(inv: Invocation, n: nat, key: ScenarioKey): (opener: Option<nat>)
    requires n <= |inv.campaign.bindings|
    ensures opener.Some? ==> opener.value < n && IsRunnable(inv, opener.value, key.repetition, key)
  {
    if n == 0 then None
    else
      var before := Opener(inv, n - 1, key);
      if before.None? && IsRunnable(inv, n - 1, key.repetition, key) then Some(n - 1) else before
  }

  predicate OpenerSucceeds(inv: Invocation, i: nat, key: ScenarioKey)
    requires i < |inv.campaign.bindings|
  {
    Succeeds(inv.env, i, key.repetition, |inv.campaign.bindings[i].jobs|)
  }

  // Whether binding i finds its repetition blocked: by the row that was there when the process
  // began, or by the row that an earlier binding with the same scenario name opened and failed.
  predicate BlockedAt(db: Db, inv: Invocation, i: nat, key: ScenarioKey)
    requires i <= |inv.campaign.bindings|
  {
    var opener := Opener(inv, i, key);
    if key !in db.scenarios && opener.Some? then !OpenerSucceeds(inv, opener.value, key) else Blocked(db, key)
  }

  ghost predicate AnySlotBlocked(db: Db, inv: Invocation, n: nat) {
    exists i: nat, rep: nat, key :: i < n && IsRunnable(inv, i, rep, key) && BlockedAt(db, inv, i, key)
  }

  // Some repetition is blocked by a row, or by a missing run, when the process begins.
  ghost predicate AnyRowBlocks(db: Db, inv: Invocation) {
    exists i: nat, rep: nat, key :: IsRunnable(inv, i, rep, key) && Blocked(db, key)
  }

  // The row of a key when the first n bindings are through.
  predicate RowAfter(db: Db, after: Db, inv: Invocation, n: nat, key: ScenarioKey)
    requires n <= |inv.campaign.bindings|
  {
    var opener := Opener(inv, n, key);
    if key in db.scenarios || opener.None? then SameRow(db, after, key)
    else key in after.scenarios && (Completed(after, key) <==> OpenerSucceeds(inv, opener.value, key))
  }

  ghost predicate RowsAfter(db: Db, after: Db, inv: Invocation, n: nat)
    requires n <= |inv.campaign.bindings|
  {
    forall key :: RowAfter(db, after, inv, n, key)
  }

  predicate AnyRepeatBlocked(db: Db, run: string, b: Binding, n: nat) {
    exists rep: nat | rep < n :: Blocked(db, KeyFor(run, b, rep))
  }

  // All repetitions of one binding, in terms of the tables it finds.
  ghost predicate RepeatsDone(before: Db, after: Db, inv: Invocation, i: nat, n: nat)
    requires i < |inv.campaign.bindings|
  {
    forall rep: nat | rep < n :: RepeatDone(before, after, inv, i, rep)
  }

  ghost predicate OtherRowsKept(before: Db, after: Db, run: string, b: Binding, n: nat) {
    forall k: ScenarioKey ::
      k.run != run || k.scenario != b.scenario || k.repetition >= n ==> SameRow(before, after, k)
  }

  lemma {:induction false} RepeatsHaltWhenBlocked(db0: Db, inv: Invocation, p: Progress, i: nat, n: nat)
    requires i < |inv.campaign.bindings| && n <= Times(inv.campaign.bindings[i].repeats)
    requires inv.campaign.bindings[i].kind in inv.env.runners
    requires Consistent(db0) && At(db0, inv, p, Idle) && !p.halted
    ensures var b := inv.campaign.bindings[i];
            var q := RunRepeats(p, inv.run, i, b, n, inv.env, inv.campaign.cleanup);
            && (q.halted <==> AnyRepeatBlocked(p.db, inv.run, b, n))
            && OtherRowsKept(p.db, q.db, inv.run, b, n)
            && (!q.halted ==> RepeatsDone(p.db, q.db, inv, i, n))
  {
    hide RunRepeat, Lawful, Faithful, Watch, Consistent, RepeatDone, Blocked;
    if n > 0 {
      var b, mode := inv.campaign.bindings[i], inv.campaign.cleanup;
      RepeatsHaltWhenBlocked(db0, inv, p, i, n - 1);
      RunRepeatsAt(db0, inv, p, i, n - 1);
      var before := RunRepeats(p, inv.run, i, b, n - 1, inv.env, mode);
      var key := KeyFor(inv.run, b, n - 1);
      assert SameRow(p.db, before.db, key);
      if before.halted {
        HaltedRepeatsStay(p, inv.run, i, b, inv.env, mode, n - 1, n);
      } else {
        RunRepeatAt(db0, inv, before, i, n - 1);
        SameRowSameBlock(p.db, before.db, key);
        NextRepeatDone(p.db, before.db, RunRepeats(p, inv.run, i, b, n, inv.env, mode).db, inv, i, n);
      }
    }
  }

  lemma SameRowSameBlock(a: Db, b: Db, key: ScenarioKey)
    requires SameRow(a, b, key) && a.runs == b.runs
    ensures Blocked(a, key) <==> Blocked(b, key)
  {
  }

  lemma NextRepeatDone(p: Db, before: Db, q: Db, inv: Invocation, i: nat, n: nat)
    requires i < |inv.campaign.bindings| && n > 0
    requires var b := inv.campaign.bindings[i];
             && OtherRowsKept(p, before, inv.run, b, n - 1) && OthersKept(before, q, KeyFor(inv.run, b, n - 1))
    ensures OtherRowsKept(p, q, inv.run, inv.campaign.bindings[i], n)
    ensures RepeatsDone(p, before, inv, i, n - 1) && RepeatDone(before, q, inv, i, n - 1)
            ==> RepeatsDone(p, q, inv, i, n)
  {
    var b := inv.campaign.bindings[i];
    forall k: ScenarioKey | k.run != inv.run || k.scenario != b.scenario || k.repetition >= n
      ensures SameRow(p, q, k)
    {
      assert SameRow(p, before, k) && SameRow(before, q, k);
    }
    if RepeatsDone(p, before, inv, i, n - 1) && RepeatDone(before, q, inv, i, n - 1) {
      forall rep: nat | rep < n
        ensures RepeatDone(p, q, inv, i, rep)
      {
        var key := KeyFor(inv.run, b, rep);
        if rep < n - 1 {
          assert RepeatDone(p, before, inv, i, rep) && SameRow(before, q, key);
        } else {
          assert SameRow(p, before, key);
        }
      }
    }
  }

  lemma {:induction false} BindingsHaltWhenBlocked(db0: Db, inv: Invocation, p: Progress, n: nat)
    requires n <= |inv.campaign.bindings|
    requires Consistent(db0) && At(db0, inv, p, Idle) && !p.halted
    ensures var q := RunBindings(p, inv, n);
            && (q.halted <==> AnySlotBlocked(p.db, inv, n))
            && (!q.halted ==> RowsAfter(p.db, q.db, inv, n))
  {
    hide RunRepeats, Lawful, Faithful, Watch, Consistent, RowAfter, BlockedAt, RepeatDone;
    if n == 0 {
      forall key
        ensures RowAfter(p.db, p.db, inv, 0, key)
      {
        NoBindingYet(p.db, inv, key);
      }
    } else {
      var b := inv.campaign.bindings[n - 1];
      BindingsHaltWhenBlocked(db0, inv, p, n - 1);
      RunBindingsAt(db0, inv, p, n - 1);
      var before, q := RunBindings(p, inv, n - 1), RunBindings(p, inv, n);
      if before.halted {
        HaltedStays(p, inv, n - 1, n);
      } else if b.kind in inv.env.runners {
        RepeatsHaltWhenBlocked(db0, inv, before, n - 1, Times(b.repeats));
        SlotBlockedByLast(p.db, before.db, inv, n);
        if !q.halted {
          RowsAfterLast(p.db, before.db, q.db, inv, n);
        }
      } else {
        forall key
          ensures RowAfter(p.db, q.db, inv, n, key)
        {
          assert RowAfter(p.db, before.db, inv, n - 1, key);
          BindingSkipped(p.db, before.db, inv, n, key);
        }
      }
    }
  }

  lemma NoBindingYet(db: Db, inv: Invocation, key: ScenarioKey)
    ensures RowAfter(db, db, inv, 0, key)
  {
  }

  lemma BindingSkipped(db: Db, before: Db, inv: Invocation, n: nat, key: ScenarioKey)
    requires 0 < n <= |inv.campaign.bindings| && inv.campaign.bindings[n - 1].kind !in inv.env.runners
    requires RowAfter(db, before, inv, n - 1, key)
    ensures RowAfter(db, before, inv, n, key)
  {
  }

  // What blocks the last binding when it is reached is what was foreseen at the start.
  lemma BlockForeseen(db: Db, before: Db, inv: Invocation, i: nat, key: ScenarioKey)
    requires i <= |inv.campaign.bindings| && before.runs == db.runs && RowAfter(db, before, inv, i, key)
    ensures Blocked(before, key) <==> BlockedAt(db, inv, i, key)
  {
  }

  lemma SlotBlockedByLast(db: Db, before: Db, inv: Invocation, n: nat)
    requires 0 < n <= |inv.campaign.bindings| && inv.campaign.bindings[n - 1].kind in inv.env.runners
    requires before.runs == db.runs && !AnySlotBlocked(db, inv, n - 1)
    requires RowsAfter(db, before, inv, n - 1)
    ensures var b := inv.campaign.bindings[n - 1];
            AnyRepeatBlocked(before, inv.run, b, Times(b.repeats)) <==> AnySlotBlocked(db, inv, n)
  {
    hide RowAfter, BlockedAt, Blocked;
    var b := inv.campaign.bindings[n - 1];
    if rep: nat :| rep < Times(b.repeats) && Blocked(before, KeyFor(inv.run, b, rep)) {
      var key := KeyFor(inv.run, b, rep);
      assert RowAfter(db, before, inv, n - 1, key);
      BlockForeseen(db, before, inv, n - 1, key);
      assert IsRunnable(inv, n - 1, rep, key);
    }
    if AnySlotBlocked(db, inv, n) {
      var i: nat, rep: nat, key :| i < n && IsRunnable(inv, i, rep, key) && BlockedAt(db, inv, i, key);
      assert i == n - 1 && key == KeyFor(inv.run, b, rep);
      assert RowAfter(db, before, inv, n - 1, key);
      BlockForeseen(db, before, inv, n - 1, key);
    }
  }

  lemma RowsAfterLast(db: Db, before: Db, after: Db, inv: Invocation, n: nat)
    requires 0 < n <= |inv.campaign.bindings| && inv.campaign.bindings[n - 1].kind in inv.env.runners
    requires RowsAfter(db, before, inv, n - 1)
    requires var b := inv.campaign.bindings[n - 1];
             && OtherRowsKept(before, after, inv.run, b, Times(b.repeats))
             && RepeatsDone(before, after, inv, n - 1, Times(b.repeats))
    ensures RowsAfter(db, after, inv, n)
  {
    var b := inv.campaign.bindings[n - 1];
    forall key
      ensures RowAfter(db, after, inv, n, key)
    {
      assert RowAfter(db, before, inv, n - 1, key);
      if IsRunnable(inv, n - 1, key.repetition, key) {
        assert RepeatDone(before, after, inv, n - 1, key.repetition);
      } else {
        assert SameRow(before, after, key);
      }
    }
  }

  lemma {:induction false} CleaningHaltsWhen(p: Progress, inv: Invocation, n: nat)
    requires n <= |inv.campaign.bindings| && !p.halted
    ensures CleanTargets(p, inv.campaign.bindings, inv.env, n).halted
            <==> exists i | 0 <= i < n :: inv.campaign.bindings[i].kind !in inv.env.runners
  {
    if n > 0 {
      CleaningHaltsWhen(p, inv, n - 1);
    }
  }

  // A resumed run, of any campaign, gets to its end exactly when no repetition that has a runner is
  // blocked when it is reached, and the cleanup after the campaign finds a runner for every kind.
  // With distinct scenario names this is decided by the rows it finds, whatever prepare and the jobs
  // do: each of them must have ended ok, and a row it lacks must have a run to belong to.
  lemma ResumeReachesTheEndExactlyWhen(db: Db, inv: Invocation)
    requires Consistent(db) && !inv.isNew
    ensures var cleaned := inv.campaign.cleanup == AfterCampaign ==> KindsRegistered(inv);
            && (!Invoke(db, inv).halted <==> !AnySlotBlocked(db, inv, |inv.campaign.bindings|) && cleaned)
            && (DistinctNames(inv.campaign) ==> (!Invoke(db, inv).halted <==> !AnyRowBlocks(db, inv) && cleaned))
  {
    var n := |inv.campaign.bindings|;
    BeginAt(db, inv);
    BindingsHaltWhenBlocked(db, inv, Begin(db, inv), n);
    var q := RunBindings(Begin(db, inv), inv, n);
    if !q.halted {
      CleaningHaltsWhen(q, inv, n);
    }
    if DistinctNames(inv.campaign) {
      OnlyFoundRowsBlock(db, inv);
    }
  }

  lemma OnlyFoundRowsBlock(db: Db, inv: Invocation)
    requires DistinctNames(inv.campaign)
    ensures AnySlotBlocked(db, inv, |inv.campaign.bindings|) <==> AnyRowBlocks(db, inv)
  {
    forall i: nat, rep: nat, key | IsRunnable(inv, i, rep, key)
      ensures BlockedAt(db, inv, i, key) <==> Blocked(db, key)
    {
    }
  }

  // In one process, the only row of its own it leaves running is the open one.
  lemma {:induction false} OneRowRunning(db: Db, inv: Invocation, trace: seq<Action>, key: ScenarioKey)
    requires Lawful(db, trace) && Faithful(db, inv, trace) && key !in db.scenarios
    ensures var m := Watch(db, trace);
            key in m.db.scenarios && m.db.scenarios[key].status == Running ==> !m.stage.Idle? && m.stage.key == key
  {
    if trace != [] {
      OneRowRunning(db, inv, trace[..|trace| - 1], key);
    }
  }

  lemma {:induction false} StartedRunIsThere(db: Db, inv: Invocation, steps: nat)
    requires Consistent(db) && inv.isNew && inv.run !in db.runs && steps > 0
    ensures inv.run in Watch(db, Performed(db, Session(inv, steps))).db.runs
  {
    BeginAt(db, inv);
    InvokeObeysProtocol(db, inv);
    var start := Tx(StartRun(inv.run, inv.campaign.name));
    var whole := Invoke(db, inv).trace;
    InvokeBeginsWith(db, inv);
    var trace := Performed(db, Session(inv, steps));
    assert trace[..1] == [start];
    FirstStepStays(db, trace, start, inv);
  }

  lemma {:induction false} FirstStepStays(db: Db, trace: seq<Action>, start: Action, inv: Invocation)
    requires |trace| > 0 && trace[0] == start == Tx(StartRun(inv.run, inv.campaign.name))
    ensures inv.run in Watch(db, trace).db.runs
  {
    if |trace| > 1 {
      FirstStepStays(db, trace[..|trace| - 1], start, inv);
    } else {
      assert trace[..0] == [];
    }
  }

  lemma InvokeBeginsWith(db: Db, inv: Invocation)
    requires Consistent(db) && inv.isNew && inv.run !in db.runs
    ensures |Invoke(db, inv).trace| > 0 && Invoke(db, inv).trace[0] == Tx(StartRun(inv.run, inv.campaign.name))
  {
    var n := |inv.campaign.bindings|;
    BeginAt(db, inv);
    var p := Begin(db, inv);
    assert p.trace == [Tx(StartRun(inv.run, inv.campaign.name))];
    RunBindingsAt(db, inv, p, n);
    var q := RunBindings(p, inv, n);
    CleanTargetsAt(db, inv, q, n);
    assert p.trace <= BeforeFinish(db, inv).trace;
  }

  ghost predicate AnySlotFailed(db: Db, inv: Invocation) {
    exists i: nat, rep: nat, key ::
      IsSlot(inv, i, rep, key) && key in db.scenarios && db.scenarios[key].status == Failed
  }

  // A process that dies between the insertion of a row and its end leaves a run that no resumption
  // can finish; dying anywhere else is harmless unless a repetition had failed.
  lemma {:induction false} CrashIsResumableExactlyWhen(db: Db, inv: Invocation, steps: nat)
    requires Consistent(db) && inv.isNew && inv.run !in db.runs && steps > 0
    ensures var m := Watch(db, Performed(db, Session(inv, steps)));
            AnyRowBlocks(m.db, inv) <==> !m.stage.Idle? || AnySlotFailed(m.db, inv)
  {
    var trace := Performed(db, Session(inv, steps));
    var m := Watch(db, trace);
    PerformedIsLawful(db, Session(inv, steps));
    StartedRunIsThere(db, inv, steps);
    OpenRowIsRunning(db, trace);
    if !m.stage.Idle? {
      OpenRowIsOwn(db, inv, trace);
      RowIsRunnable(db, inv, trace, m.stage.key);
    }
    if AnySlotFailed(m.db, inv) {
      var i: nat, rep: nat, key :|
        IsSlot(inv, i, rep, key) && key in m.db.scenarios && m.db.scenarios[key].status == Failed;
      RowIsRunnable(db, inv, trace, key);
    }
    if AnyRowBlocks(m.db, inv) {
      var i: nat, rep: nat, key :| IsRunnable(inv, i, rep, key) && Blocked(m.db, key);
      OneRowRunning(db, inv, trace, key);
    }
  }

  // The rows a process adds are slots of its campaign that have a runner.
  lemma {:induction false} RowIsRunnable(db: Db, inv: Invocation, trace: seq<Action>, key: ScenarioKey)
    requires Lawful(db, trace) && Faithful(db, inv, trace)
    requires key !in db.scenarios && key in Watch(db, trace).db.scenarios
    ensures exists i: nat, rep: nat :: IsRunnable(inv, i, rep, key)
  {
    if key in Watch(db, trace[..|trace| - 1]).db.scenarios {
      RowIsRunnable(db, inv, trace[..|trace| - 1], key);
    } else {
      var i: nat, rep: nat :| IsSlot(inv, i, rep, key) && inv.campaign.bindings[i].kind in inv.env.runners;
      assert IsRunnable(inv, i, rep, key);
    }
  }

  // ----- a run in which nothing fails -----

  ghost predicate NothingFails(env: Environment) {
    && (forall i: nat, rep: nat :: env.prepareError(i, rep).None?)
    && (forall i: nat, rep: nat, n: nat :: AllJobsOk(env, i, rep, n))
  }

  lemma {:induction false} JobsKeepFlag(p: Progress, key: ScenarioKey, env: Environment, i: nat, rep: nat, n: nat)
    ensures RecordJobs(p, key, env, i, rep, n).failed == p.failed
  {
    if n > 0 {
      JobsKeepFlag(p, key, env, i, rep, n - 1);
    }
  }

  // Going well: no exception, no failure, and every row of the run so far is ok.
  ghost predicate GoingWell(p: Progress, run: string) {
    !p.halted && !p.failed && run in p.db.runs && forall k :: k in p.db.scenarios && k.run == run ==> Completed(p.db, k)
  }

  lemma RepeatGoesWell(db0: Db, inv: Invocation, p: Progress, i: nat, rep: nat)
    requires i < |inv.campaign.bindings| && rep < Times(inv.campaign.bindings[i].repeats)
    requires inv.campaign.bindings[i].kind in inv.env.runners
    requires Consistent(db0) && At(db0, inv, p, Idle) && GoingWell(p, inv.run) && NothingFails(inv.env)
    ensures GoingWell(RunRepeat(p, inv.run, i, inv.campaign.bindings[i], rep, inv.env, inv.campaign.cleanup), inv.run)
  {
    hide Lawful, Faithful, Watch, Consistent;
    var b := inv.campaign.bindings[i];
    var key := KeyFor(inv.run, b, rep);
    assert AllJobsOk(inv.env, i, rep, |b.jobs|);
    RunRepeatAt(db0, inv, p, i, rep);
    var prepared := Do(Try(p, StartScenario(key, b.kind, b.target)), Prepare(key));
    JobsKeepFlag(Do(prepared, RunJobs(key)), key, inv.env, i, rep, |b.jobs|);
    var q := RunRepeat(p, inv.run, i, b, rep, inv.env, inv.campaign.cleanup);
    forall k | k in q.db.scenarios && k.run == inv.run
      ensures Completed(q.db, k)
    {
      assert k != key ==> SameRow(p.db, q.db, k);
    }
  }

  lemma {:induction false} RepeatsGoWell(db0: Db, inv: Invocation, p: Progress, i: nat, n: nat)
    requires i < |inv.campaign.bindings| && n <= Times(inv.campaign.bindings[i].repeats)
    requires inv.campaign.bindings[i].kind in inv.env.runners
    requires Consistent(db0) && At(db0, inv, p, Idle) && GoingWell(p, inv.run) && NothingFails(inv.env)
    ensures GoingWell(RunRepeats(p, inv.run, i, inv.campaign.bindings[i], n, inv.env, inv.campaign.cleanup), inv.run)
  {
    hide RunRepeat, Lawful, Faithful, Watch, Consistent;
    if n > 0 {
      RepeatsGoWell(db0, inv, p, i, n - 1);
      RunRepeatsAt(db0, inv, p, i, n - 1);
      var before := RunRepeats(p, inv.run, i, inv.campaign.bindings[i], n - 1, inv.env, inv.campaign.cleanup);
      RepeatGoesWell(db0, inv, before, i, n - 1);
    }
  }

  lemma {:induction false} BindingsGoWell(db0: Db, inv: Invocation, p: Progress, n: nat)
    requires n <= |inv.campaign.bindings| && KindsRegistered(inv)
    requires Consistent(db0) && At(db0, inv, p, Idle) && GoingWell(p, inv.run) && NothingFails(inv.env)
    ensures GoingWell(RunBindings(p, inv, n), inv.run)
  {
    hide RunRepeats, Lawful, Faithful, Watch, Consistent;
    if n > 0 {
      BindingsGoWell(db0, inv, p, n - 1);
      RunBindingsAt(db0, inv, p, n - 1);
      RepeatsGoWell(db0, inv, RunBindings(p, inv, n - 1), n - 1, Times(inv.campaign.bindings[n - 1].repeats));
    }
  }

  lemma BeginsWell(db: Db, inv: Invocation)
    requires Consistent(db)
    requires if inv.isNew then inv.run !in db.runs
             else inv.run in db.runs && forall k :: k in db.scenarios && k.run == inv.run ==> Completed(db, k)
    ensures GoingWell(Begin(db, inv), inv.run)
  {
  }

  // When nothing fails, a new run is recorded as ok, whether or not its scenario names are distinct;
  // so is the resumption of a run of which every row ended ok.
  lemma FaultlessRunIsRecordedOk(db: Db, inv: Invocation)
    requires Consistent(db) && NothingFails(inv.env) && KindsRegistered(inv)
    requires if inv.isNew then inv.run !in db.runs
             else inv.run in db.runs && forall k :: k in db.scenarios && k.run == inv.run ==> Completed(db, k)
    ensures !Invoke(db, inv).halted && RecordedOk(Invoke(db, inv).db, inv)
  {
    var n := |inv.campaign.bindings|;
    BeginAt(db, inv);
    BeginsWell(db, inv);
    hide Begin, Lawful, Faithful, Watch, Consistent, RunBindings, CleanTargets, NothingFails;
    var p := Begin(db, inv);
    BindingsGoWell(db, inv, p, n);
    RunBindingsAt(db, inv, p, n);
    var q := RunBindings(p, inv, n);
    CleaningHaltsWhen(q, inv, n);
    CleanTargetsAt(db, inv, q, n);
  }

  lemma OneSession(db: Db, inv: Invocation)
    requires Consistent(db)
    ensures After(db, [Session(inv, |Invoke(db, inv).trace|)]) == Invoke(db, inv).db
  {
    hide Invoke, Lawful, Faithful, Consistent;
    InvokeObeysProtocol(db, inv);
    var trace := Invoke(db, inv).trace;
    var h := [Session(inv, |trace|)];
    assert h[..|h| - 1] == [] && Performed(db, h[0]) == trace;
    assert TraceOf(db, []) == [] && Watch(db, []).db == db;
    assert TraceOf(db, h) == [] + [Restart] + trace;
    WatchAcrossRestart(db, [], trace);
  }

  // One execution of a new run that shares a scenario name between targets, and in which nothing
  // fails, is recorded as ok without having measured every target.
  lemma SharedNameHidesTarget(db: Db, inv: Invocation)
    requires Consistent(db) && inv.isNew && inv.run !in db.runs
    requires NothingFails(inv.env) && KindsRegistered(inv) && !SharedNamesShareTargets(inv.campaign)
    ensures var h := [Session(inv, |Invoke(db, inv).trace|)];
            RecordedOk(After(db, h), inv) && !EveryRowHasItsTarget(After(db, h), inv)
  {
    OneSession(db, inv);
    FaultlessRunIsRecordedOk(db, inv);
    hide Invoke, RecordedOk, EveryRowHasItsTarget, SharedNamesShareTargets, After, Consistent;
    var h := [Session(inv, |Invoke(db, inv).trace|)];
    assert RecordedOk(After(db, h), inv);
    OwnTargetsExactlyWhen(db, h, inv);
  }
}
