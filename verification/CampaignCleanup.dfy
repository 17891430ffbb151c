// Which cleanups an execution performs, and when, told from its actions alone.
module CampaignCleanup {
  import opened Wrappers
  import opened Store
  import opened Campaign
  import opened CampaignProtocol
  import opened CampaignProofs

  // The last action ended a repetition whose jobs had been started.
  predicate Due(db: Db, trace: seq<Action>) {
    && trace != [] && trace[|trace| - 1].Tx? && trace[|trace| - 1].tx.FinishScenario?
    && Watch(db, trace[..|trace| - 1]).stage.Measuring?
  }

  // The action cleans up what the repetition that just ended was run on.
  predicate CleansLast(db: Db, before: seq<Action>, a: Action)
    requires Due(db, before)
  {
    var key, tables := before[|before| - 1].tx.key, Watch(db, before).db;
    key in tables.scenarios && a == CleanUp(tables.scenarios[key].target, tables.scenarios[key].kind)
  }

  // After each run: a cleanup where one is due, and nowhere else. Otherwise: none.
  predicate CleanStep(db: Db, mode: Cleanup, before: seq<Action>, a: Action) {
    if mode == AfterEachRun then (a.CleanUp? <==> Due(db, before)) && (a.CleanUp? ==> CleansLast(db, before, a))
    else !a.CleanUp?
  }

  ghost predicate Tidy(db: Db, mode: Cleanup, trace: seq<Action>) {
    forall k | 0 <= k < |trace| :: CleanStep(db, mode, trace[..k], trace[k])
  }

  // Tidy, with no cleanup outstanding.
  ghost predicate Rests(db: Db, mode: Cleanup, trace: seq<Action>) {
    Tidy(db, mode, trace) && (mode == AfterEachRun ==> !Due(db, trace))
  }

  lemma TidyThen(db: Db, mode: Cleanup, trace: seq<Action>, a: Action)
    requires Tidy(db, mode, trace) && CleanStep(db, mode, trace, a)
    ensures Tidy(db, mode, trace + [a])
  {
    forall k | 0 <= k < |trace + [a]|
      ensures CleanStep(db, mode, (trace + [a])[..k], (trace + [a])[k])
    {
      if k < |trace| {
        assert (trace + [a])[..k] == trace[..k];
      } else {
        assert (trace + [a])[..k] == trace;
      }
    }
  }

  // Any action but a cleanup and the end of a measured repetition leaves the trace at rest.
  lemma {:induction false} RestsThen(db: Db, mode: Cleanup, trace: seq<Action>, a: Action)
    requires Rests(db, mode, trace) && !a.CleanUp?
    requires a.Tx? && a.tx.FinishScenario? ==> !Watch(db, trace).stage.Measuring?
    ensures Rests(db, mode, trace + [a])
  {
    TidyThen(db, mode, trace, a);
    assert (trace + [a])[..|trace|] == trace;
  }

  lemma {:induction false} RecordJobsRest(db0: Db, inv: Invocation, p: Progress, key: ScenarioKey, i: nat, rep: nat,
      n: nat)
    requires At(db0, inv, p, Measuring(key)) && Rests(db0, inv.campaign.cleanup, p.trace)
    requires !p.halted && key.run in p.db.runs && MetricsOf(p.db, key) == map[]
    ensures Rests(db0, inv.campaign.cleanup, RecordJobs(p, key, inv.env, i, rep, n).trace)
  {
    hide Rests, Lawful, Faithful, Watch, MetricsOf;
    if n > 0 {
      RecordJobsRest(db0, inv, p, key, i, rep, n - 1);
      RecordJobsAt(db0, inv, p, key, i, rep, n - 1);
      var q, outcome := RecordJobs(p, key, inv.env, i, rep, n - 1), inv.env.job(i, rep, n - 1);
      if outcome.JobOk? && outcome.metrics != [] {
        RestsThen(db0, inv.campaign.cleanup, q.trace, Tx(RecordMetrics(key, outcome.metrics)));
      }
    }
  }

  // The end of a measured repetition, and the cleanup behind it if there is to be one.
  lemma {:induction false} FinishRests(db0: Db, inv: Invocation, measured: Progress, key: ScenarioKey, b: Binding,
      finish: Action)
    requires Watch(db0, measured.trace) == Monitor(measured.db, Measuring(key)) && RowOpened(measured.db, key, b)
    requires Rests(db0, inv.campaign.cleanup, measured.trace)
    requires finish.Tx? && finish.tx.FinishScenario? && finish.tx.key == key
    ensures var finished := Do(measured, finish);
            var mode := inv.campaign.cleanup;
            var cleaned := if mode == AfterEachRun then Do(finished, CleanUp(b.target, b.kind)) else finished;
            Rests(db0, mode, cleaned.trace)
  {
    var mode, finished, clean := inv.campaign.cleanup, Do(measured, finish), CleanUp(b.target, b.kind);
    assert finished.trace[..|measured.trace|] == measured.trace;
    TidyThen(db0, mode, measured.trace, finish);
    if mode == AfterEachRun {
      assert Due(db0, finished.trace);
      assert Watch(db0, finished.trace).db == finished.db;
      TidyThen(db0, mode, finished.trace, clean);
      assert (finished.trace + [clean])[|finished.trace|] == clean;
    }
  }

  lemma AttemptRests(db0: Db, inv: Invocation, prepared: Progress, i: nat, rep: nat)
    requires i < |inv.campaign.bindings| && rep < Times(inv.campaign.bindings[i].repeats)
    requires var key := KeyFor(inv.run, inv.campaign.bindings[i], rep);
             && At(db0, inv, prepared, Prepared(key)) && !prepared.halted
             && RowOpened(prepared.db, key, inv.campaign.bindings[i])
             && key.run in prepared.db.runs && MetricsOf(prepared.db, key) == map[]
    requires Rests(db0, inv.campaign.cleanup, prepared.trace)
    ensures var b := inv.campaign.bindings[i];
            var q := Attempt(prepared, KeyFor(inv.run, b, rep), i, b, rep, inv.env, inv.campaign.cleanup);
            Rests(db0, inv.campaign.cleanup, q.trace)
  {
    hide Lawful, Faithful, Watch, MetricsOf, AllJobsOk, Rests;
    var b := inv.campaign.bindings[i];
    var key := KeyFor(inv.run, b, rep);
    if inv.env.prepareError(i, rep).Some? {
      var finish := Tx(FinishScenario(key, Failed, inv.env.prepareError(i, rep)));
      RestsThen(db0, inv.campaign.cleanup, prepared.trace, finish);
    } else {
      DoStep(db0, inv, prepared, Prepared(key), RunJobs(key));
      RestsThen(db0, inv.campaign.cleanup, prepared.trace, RunJobs(key));
      var running := Do(prepared, RunJobs(key));
      RecordJobsAt(db0, inv, running, key, i, rep, |b.jobs|);
      RecordJobsRest(db0, inv, running, key, i, rep, |b.jobs|);
      var measured := RecordJobs(running, key, inv.env, i, rep, |b.jobs|);
      var ok := AllJobsOk(inv.env, i, rep, |b.jobs|);
      FinishRests(db0, inv, measured, key, b, Tx(FinishScenario(key, if ok then Ok else Failed, None)));
    }
  }

  lemma RepeatRests(db0: Db, inv: Invocation, p: Progress, i: nat, rep: nat)
    requires i < |inv.campaign.bindings| && rep < Times(inv.campaign.bindings[i].repeats)
    requires inv.campaign.bindings[i].kind in inv.env.runners
    requires Consistent(db0) && At(db0, inv, p, Idle) && !p.halted && Rests(db0, inv.campaign.cleanup, p.trace)
    ensures Rests(db0, inv.campaign.cleanup,
                  RunRepeat(p, inv.run, i, inv.campaign.bindings[i], rep, inv.env, inv.campaign.cleanup).trace)
  {
    hide Attempt, Lawful, Faithful, Watch, MetricsOf, Consistent, Rests;
    var b := inv.campaign.bindings[i];
    var key := KeyFor(inv.run, b, rep);
    if key !in p.db.scenarios && inv.run in p.db.runs {
      var start := Tx(StartScenario(key, b.kind, b.target));
      PrepareAt(db0, inv, p, i, rep);
      RestsThen(db0, inv.campaign.cleanup, p.trace, start);
      RestsThen(db0, inv.campaign.cleanup, p.trace + [start], Prepare(key));
      AttemptRests(db0, inv, Do(Try(p, start.tx), Prepare(key)), i, rep);
    }
  }

  lemma {:induction false} RepeatsRest(db0: Db, inv: Invocation, p: Progress, i: nat, n: nat)
    requires i < |inv.campaign.bindings| && n <= Times(inv.campaign.bindings[i].repeats)
    requires inv.campaign.bindings[i].kind in inv.env.runners
    requires Consistent(db0) && At(db0, inv, p, Idle) && !p.halted && Rests(db0, inv.campaign.cleanup, p.trace)
    ensures Rests(db0, inv.campaign.cleanup,
                  RunRepeats(p, inv.run, i, inv.campaign.bindings[i], n, inv.env, inv.campaign.cleanup).trace)
  {
    hide RunRepeat, Lawful, Faithful, Watch, Consistent, Rests;
    if n > 0 {
      var b, mode := inv.campaign.bindings[i], inv.campaign.cleanup;
      RepeatsRest(db0, inv, p, i, n - 1);
      RunRepeatsAt(db0, inv, p, i, n - 1);
      var before := RunRepeats(p, inv.run, i, b, n - 1, inv.env, mode);
      if before.halted {
        HaltedRepeatsStay(p, inv.run, i, b, inv.env, mode, n - 1, n);
      } else {
        RepeatRests(db0, inv, before, i, n - 1);
      }
    }
  }

  lemma {:induction false} BindingsRest(db0: Db, inv: Invocation, p: Progress, n: nat)
    requires n <= |inv.campaign.bindings|
    requires Consistent(db0) && At(db0, inv, p, Idle) && !p.halted && Rests(db0, inv.campaign.cleanup, p.trace)
    ensures Rests(db0, inv.campaign.cleanup, RunBindings(p, inv, n).trace)
  {
    hide RunRepeats, Lawful, Faithful, Watch, Consistent, Rests;
    if n > 0 {
      BindingsRest(db0, inv, p, n - 1);
      RunBindingsAt(db0, inv, p, n - 1);
      var b, before := inv.campaign.bindings[n - 1], RunBindings(p, inv, n - 1);
      if !before.halted && b.kind in inv.env.runners {
        RepeatsRest(db0, inv, before, n - 1, Times(b.repeats));
      }
    }
  }

  // What all executions do up to the end of the last scenario.
  lemma {:induction false} ScenariosRest(db: Db, inv: Invocation)
    requires Consistent(db)
    ensures Rests(db, inv.campaign.cleanup, RunBindings(Begin(db, inv), inv, |inv.campaign.bindings|).trace)
  {
    hide Lawful, Faithful, Consistent, RunBindings;
    BeginAt(db, inv);
    var p := Begin(db, inv);
    assert Rests(db, inv.campaign.cleanup, []);
    if p.trace != [] {
      assert p.trace == [] + [Tx(StartRun(inv.run, inv.campaign.name))];
      RestsThen(db, inv.campaign.cleanup, [], Tx(StartRun(inv.run, inv.campaign.name)));
    }
    if p.halted {
      NoBindings(p, inv);
      HaltedStays(p, inv, 0, |inv.campaign.bindings|);
    } else {
      BindingsRest(db, inv, p, |inv.campaign.bindings|);
    }
  }

  lemma {:induction false} NoBindings(p: Progress, inv: Invocation)
    ensures RunBindings(p, inv, 0) == p
  {
  }

  // ----- the three ways to clean up -----

  // The last action ended a repetition, and its jobs had been started.
  predicate JobsRan(trace: seq<Action>) {
    && trace != [] && trace[|trace| - 1].Tx? && trace[|trace| - 1].tx.FinishScenario?
    && RunJobs(trace[|trace| - 1].tx.key) in trace
  }

  // The row that a process works on was inserted by it, and jobs under way were started by it.
  lemma {:induction false} StageWasReached(db: Db, trace: seq<Action>)
    requires Lawful(db, trace)
    ensures var m := Watch(db, trace);
            && (!m.stage.Idle? ==>
                  && m.stage.key in m.db.scenarios
                  && var row := m.db.scenarios[m.stage.key];
                     Tx(StartScenario(m.stage.key, row.kind, row.target)) in trace)
            && (m.stage.Measuring? ==> RunJobs(m.stage.key) in trace)
  {
    if trace != [] {
      var init, a := trace[..|trace| - 1], trace[|trace| - 1];
      assert trace == init + [a];
      StageWasReached(db, init);
    }
  }

  // Due, told from the actions alone.
  lemma {:induction false} DueExactlyWhen(db: Db, trace: seq<Action>)
    requires Lawful(db, trace)
    ensures Due(db, trace) <==> JobsRan(trace)
  {
    if trace != [] && trace[|trace| - 1].Tx? && trace[|trace| - 1].tx.FinishScenario? {
      var init, key := trace[..|trace| - 1], trace[|trace| - 1].tx.key;
      assert trace == init + [trace[|trace| - 1]];
      StageWasReached(db, init);
      AtMostOnce(db, init, key);
      if RunJobs(key) in init {
        Occurs(init, RunJobs(key));
      }
    }
  }

  lemma {:induction false} Occurs(trace: seq<Action>, a: Action)
    requires a in trace
    ensures Occurrences(trace, a) > 0
  {
    var init := trace[..|trace| - 1];
    if trace[|trace| - 1] != a {
      assert trace == init + [trace[|trace| - 1]];
      Occurs(init, a);
    }
  }

  // The cleanup is of the target, and by the runner, with which the row was started.
  lemma {:induction false} CleansWhatStarted(db: Db, before: seq<Action>, a: Action)
    requires Lawful(db, before) && Due(db, before) && CleansLast(db, before, a)
    ensures a.CleanUp? && Tx(StartScenario(before[|before| - 1].tx.key, a.kind, a.target)) in before
  {
    var init := before[..|before| - 1];
    assert before == init + [before[|before| - 1]];
    StageWasReached(db, init);
  }

  // With cleanup after each run, a cleanup of what it ran on follows each repetition whose jobs were
  // started, at once, and there is no other.
  lemma AfterEachRunCleansEach(db: Db, inv: Invocation)
    requires Consistent(db) && inv.campaign.cleanup == AfterEachRun
    ensures var trace := Invoke(db, inv).trace;
            && (forall k | 0 <= k < |trace| :: trace[k].CleanUp? <==> JobsRan(trace[..k]))
            && (forall k | 0 <= k < |trace| && trace[k].CleanUp? ::
                  Tx(StartScenario(trace[k - 1].tx.key, trace[k].kind, trace[k].target)) in trace[..k])
            && !JobsRan(trace)
  {
    ScenariosRest(db, inv);
    FinishingRests(db, inv);
    InvokeObeysProtocol(db, inv);
    var trace := Invoke(db, inv).trace;
    hide Invoke, Due, CleansLast, JobsRan, Lawful;
    assert Rests(db, AfterEachRun, trace);
    DueExactlyWhen(db, trace);
    forall k | 0 <= k < |trace|
      ensures trace[k].CleanUp? <==> JobsRan(trace[..k])
      ensures trace[k].CleanUp? ==> k > 0 && trace[k - 1].Tx? && trace[k - 1].tx.FinishScenario?
      ensures trace[k].CleanUp? ==> Tx(StartScenario(trace[k - 1].tx.key, trace[k].kind, trace[k].target)) in trace[..k]
    {
      var before := trace[..k];
      assert CleanStep(db, AfterEachRun, before, trace[k]);
      LawfulPrefix(db, trace, k);
      DueExactlyWhen(db, before);
      if trace[k].CleanUp? {
        DueEnds(db, before);
        CleansWhatStarted(db, before, trace[k]);
      }
    }
  }

  lemma DueEnds(db: Db, trace: seq<Action>)
    requires Due(db, trace)
    ensures trace != [] && trace[|trace| - 1].Tx? && trace[|trace| - 1].tx.FinishScenario?
  {
  }

  // Without it, nothing is ever cleaned up when cleanup is off.
  lemma NeverCleansNothing(db: Db, inv: Invocation)
    requires Consistent(db) && inv.campaign.cleanup == Never
    ensures forall a | a in Invoke(db, inv).trace :: !a.CleanUp?
  {
    ScenariosRest(db, inv);
    FinishingRests(db, inv);
    var trace := Invoke(db, inv).trace;
    forall a | a in trace
      ensures !a.CleanUp?
    {
      var k :| 0 <= k < |trace| && trace[k] == a;
      assert CleanStep(db, Never, trace[..k], trace[k]);
    }
  }

  lemma {:induction false} FinishingRests(db: Db, inv: Invocation)
    requires inv.campaign.cleanup != AfterCampaign
    requires Rests(db, inv.campaign.cleanup, RunBindings(Begin(db, inv), inv, |inv.campaign.bindings|).trace)
    ensures Rests(db, inv.campaign.cleanup, Invoke(db, inv).trace)
  {
    hide Rests, RunBindings, Begin;
    var q := RunBindings(Begin(db, inv), inv, |inv.campaign.bindings|);
    if !q.halted {
      RestsThen(db, inv.campaign.cleanup, q.trace, Tx(FinishRun(inv.run, if q.failed then Failed else Ok)));
    }
  }

  // How many cleanups of a target by name, for a kind.
  function Cleanups(trace: seq<Action>, name: string, kind: string): nat {
    if trace == [] then 0
    else
      var a := trace[|trace| - 1];
      Cleanups(trace[..|trace| - 1], name, kind)
      + if a.CleanUp? && a.target.name == name && a.kind == kind then 1 else 0
  }

  // The first n bindings have one with the target name and the kind.
  predicate Bound(bs: seq<Binding>, n: nat, name: string, kind: string)
    requires n <= |bs|
  {
    exists i | 0 <= i < n :: bs[i].target.name == name && bs[i].kind == kind
  }

  lemma {:induction false} NoneCleaned(trace: seq<Action>, name: string, kind: string)
    requires forall a | a in trace :: !a.CleanUp?
    ensures Cleanups(trace, name, kind) == 0
  {
    if trace != [] {
      NoneCleaned(trace[..|trace| - 1], name, kind);
    }
  }

  // From m on there are only cleanups, of targets of the bindings.
  ghost predicate OnlyCleanups(trace: seq<Action>, m: nat, bs: seq<Binding>) {
    m <= |trace| && forall k | m <= k < |trace| ::
      trace[k].CleanUp? && exists i | 0 <= i < |bs| :: trace[k] == CleanUp(bs[i].target, bs[i].kind)
  }

  lemma NextTarget(p: Progress, bs: seq<Binding>, env: Environment, i: nat)
    requires i < |bs| && !CleanTargets(p, bs, env, i + 1).halted
    ensures var before, q := CleanTargets(p, bs, env, i), CleanTargets(p, bs, env, i + 1);
            && !before.halted
            && q.trace == if (bs[i].target.name, bs[i].kind) in Seen(bs, i) then before.trace
                          else before.trace + [CleanUp(bs[i].target, bs[i].kind)]
  {
  }

  lemma {:induction false} NoTargets(p: Progress, bs: seq<Binding>, env: Environment)
    ensures CleanTargets(p, bs, env, 0) == p
    ensures Firsts([], bs, 0) && CleansUp(p.trace[|p.trace|..], bs, [])
  {
  }

  lemma {:induction false} EachIsCleanedOnce(p: Progress, inv: Invocation, n: nat, name: string, kind: string)
    requires n <= |inv.campaign.bindings| && forall a | a in p.trace :: !a.CleanUp?
    requires !CleanTargets(p, inv.campaign.bindings, inv.env, n).halted
    ensures var q := CleanTargets(p, inv.campaign.bindings, inv.env, n);
            && p.trace <= q.trace && OnlyCleanups(q.trace, |p.trace|, inv.campaign.bindings)
            && Cleanups(q.trace, name, kind) == if Bound(inv.campaign.bindings, n, name, kind) then 1 else 0
  {
    var bs := inv.campaign.bindings;
    if n == 0 {
      NoneCleaned(p.trace, name, kind);
    } else {
      NextTarget(p, bs, inv.env, n - 1);
      hide OnlyCleanups, Bound, Seen, Cleanups, CleanTargets;
      EachIsCleanedOnce(p, inv, n - 1, name, kind);
      var before, b := CleanTargets(p, bs, inv.env, n - 1), bs[n - 1];
      BoundMore(bs, n, name, kind);
      SeenIsBound(bs, n - 1, b.target.name, b.kind);
      if (b.target.name, b.kind) !in Seen(bs, n - 1) {
        OneMoreCleanup(before.trace, |p.trace|, bs, n - 1, name, kind);
      }
    }
  }

  lemma {:induction false} OneMoreCleanup(trace: seq<Action>, m: nat, bs: seq<Binding>, i: nat, name: string,
      kind: string)
    requires i < |bs| && OnlyCleanups(trace, m, bs)
    ensures var b := bs[i];
            var more := trace + [CleanUp(b.target, b.kind)];
            && OnlyCleanups(more, m, bs)
            && Cleanups(more, name, kind)
               == Cleanups(trace, name, kind) + if b.target.name == name && b.kind == kind then 1 else 0
  {
    assert (trace + [CleanUp(bs[i].target, bs[i].kind)])[..|trace|] == trace;
  }

  lemma SeenIsBound(bs: seq<Binding>, n: nat, name: string, kind: string)
    requires n <= |bs|
    ensures (name, kind) in Seen(bs, n) <==> Bound(bs, n, name, kind)
  {
  }

  lemma BoundMore(bs: seq<Binding>, n: nat, name: string, kind: string)
    requires 0 < n <= |bs|
    ensures Bound(bs, n, name, kind) <==>
            Bound(bs, n - 1, name, kind) || (bs[n - 1].target.name == name && bs[n - 1].kind == kind)
  {
  }

  // No earlier binding has the target name and the kind of binding i.
  predicate IsFirst(bs: seq<Binding>, i: nat)
    requires i < |bs|
  {
    forall j | 0 <= j < i :: bs[j].target.name != bs[i].target.name || bs[j].kind != bs[i].kind
  }

  // pos: in rising order, exactly the first bindings for their target name and kind, of the first n.
  ghost predicate Firsts(pos: seq<nat>, bs: seq<Binding>, n: nat)
    requires n <= |bs|
  {
    && (forall j, k | 0 <= j < k < |pos| :: pos[j] < pos[k])
    && (forall k | 0 <= k < |pos| :: pos[k] < n)
    && (forall i: nat | i < n :: i in pos <==> IsFirst(bs, i))
  }

  predicate CleansUp(cleanups: seq<Action>, bs: seq<Binding>, pos: seq<nat>) {
    && |cleanups| == |pos|
    && forall k | 0 <= k < |pos| :: pos[k] < |bs| && cleanups[k] == CleanUp(bs[pos[k]].target, bs[pos[k]].kind)
  }

  lemma NextFirst(pos: seq<nat>, bs: seq<Binding>, n: nat)
    requires n < |bs| && Firsts(pos, bs, n)
    ensures Firsts(if IsFirst(bs, n) then pos + [n] else pos, bs, n + 1)
  {
    assert n !in pos;
  }

  lemma {:induction false} CleaningOrder(p: Progress, inv: Invocation, n: nat) returns (pos: seq<nat>)
    requires n <= |inv.campaign.bindings| && !CleanTargets(p, inv.campaign.bindings, inv.env, n).halted
    ensures var q := CleanTargets(p, inv.campaign.bindings, inv.env, n);
            && Firsts(pos, inv.campaign.bindings, n)
            && p.trace <= q.trace && CleansUp(q.trace[|p.trace|..], inv.campaign.bindings, pos)
  {
    hide Firsts, Seen, IsFirst, CleansUp, CleanTargets;
    var bs := inv.campaign.bindings;
    pos := [];
    NoTargets(p, bs, inv.env);
    if n > 0 {
      NextTarget(p, bs, inv.env, n - 1);
      var before := CleanTargets(p, bs, inv.env, n - 1);
      pos := CleaningOrder(p, inv, n - 1);
      NextFirst(pos, bs, n - 1);
      FirstIsUnseen(bs, n - 1);
      if IsFirst(bs, n - 1) {
        CleansOneMore(before.trace, |p.trace|, bs, pos, n - 1);
        pos := pos + [n - 1];
      }
    }
  }

  lemma CleansOneMore(trace: seq<Action>, m: nat, bs: seq<Binding>, pos: seq<nat>, i: nat)
    requires m <= |trace| && i < |bs| && CleansUp(trace[m..], bs, pos)
    ensures CleansUp((trace + [CleanUp(bs[i].target, bs[i].kind)])[m..], bs, pos + [i])
  {
    var clean := CleanUp(bs[i].target, bs[i].kind);
    assert (trace + [clean])[m..] == trace[m..] + [clean];
  }

  lemma FirstIsUnseen(bs: seq<Binding>, i: nat)
    requires i < |bs|
    ensures IsFirst(bs, i) <==> (bs[i].target.name, bs[i].kind) !in Seen(bs, i)
  {
  }

  // With cleanup after the campaign, an execution that reaches its end cleans every target up exactly
  // once for each kind of scenario bound to it, after everything else and right before the run is
  // recorded as over.
  lemma {:induction false} AfterCampaignCleansOnce(db: Db, inv: Invocation, name: string, kind: string)
    requires Consistent(db) && inv.campaign.cleanup == AfterCampaign && !Invoke(db, inv).halted
    ensures var trace, bs := Invoke(db, inv).trace, inv.campaign.bindings;
            && Cleanups(trace, name, kind) == (if Bound(bs, |bs|, name, kind) then 1 else 0)
            && trace != [] && trace[|trace| - 1].Tx? && trace[|trace| - 1].tx.FinishRun?
            && trace[|trace| - 1].tx.run == inv.run
            && (forall j, k | 0 <= j < k < |trace| - 1 && trace[j].CleanUp? :: trace[k].CleanUp?)
            && (forall a | a in trace && a.CleanUp? ::
                  exists i | 0 <= i < |bs| :: a == CleanUp(bs[i].target, bs[i].kind))
  {
    ScenariosRest(db, inv);
    var bs, q := inv.campaign.bindings, RunBindings(Begin(db, inv), inv, |inv.campaign.bindings|);
    forall a | a in q.trace
      ensures !a.CleanUp?
    {
      var k :| 0 <= k < |q.trace| && q.trace[k] == a;
      assert CleanStep(db, AfterCampaign, q.trace[..k], q.trace[k]);
    }
    EachIsCleanedOnce(q, inv, |bs|, name, kind);
    var r, trace := CleanTargets(q, bs, inv.env, |bs|), Invoke(db, inv).trace;
    hide RunBindings, CleanTargets, Begin;
    assert trace[..|trace| - 1] == r.trace && trace[|trace| - 1].Tx?;
    forall k | 0 <= k < |trace| - 1
      ensures trace[k].CleanUp? <==> k >= |q.trace|
    {
      assert trace[k] == r.trace[k];
      if k < |q.trace| {
        assert trace[k] == q.trace[k] && q.trace[k] in q.trace;
      }
    }
    forall a | a in trace && a.CleanUp?
      ensures exists i | 0 <= i < |bs| :: a == CleanUp(bs[i].target, bs[i].kind)
    {
      var k :| 0 <= k < |trace| && trace[k] == a;
      assert trace[k] == r.trace[k] && k >= |q.trace|;
    }
  }

  // The cleanups come in the order of the bindings, each of the first binding for its name and kind.
  lemma AfterCampaignCleansInOrder(db: Db, inv: Invocation)
    requires Consistent(db) && inv.campaign.cleanup == AfterCampaign && !Invoke(db, inv).halted
    ensures var trace, bs := Invoke(db, inv).trace, inv.campaign.bindings;
            exists m: nat, pos: seq<nat> ::
              && m < |trace| && Firsts(pos, bs, |bs|) && CleansUp(trace[m..|trace| - 1], bs, pos)
              && forall a | a in trace[..m] :: !a.CleanUp?
  {
    ScenariosRest(db, inv);
    var bs, q := inv.campaign.bindings, RunBindings(Begin(db, inv), inv, |inv.campaign.bindings|);
    var pos := CleaningOrder(q, inv, |bs|);
    var r, trace, m := CleanTargets(q, bs, inv.env, |bs|), Invoke(db, inv).trace, |q.trace|;
    hide RunBindings, CleanTargets, Begin, Firsts, CleansUp;
    assert trace[m..|trace| - 1] == r.trace[m..];
    forall a | a in trace[..m]
      ensures !a.CleanUp?
    {
      var k :| 0 <= k < m && trace[k] == a;
      assert trace[k] == q.trace[k];
      assert CleanStep(db, AfterCampaign, q.trace[..k], q.trace[k]);
    }
    assert Firsts(pos, bs, |bs|) && CleansUp(trace[m..|trace| - 1], bs, pos);
  }
}
