// The order in which an orchestrator may act, as a monitor over its actions, and the proof that
// every execution of a campaign obeys it.
module CampaignProtocol {
  import opened Store
  import opened Campaign

  // Where the running process is with the scenario row it opened.
  datatype Stage = Idle | Started(key: ScenarioKey) | Prepared(key: ScenarioKey) | Measuring(key: ScenarioKey)

  datatype Monitor = Monitor(db: Db, stage: Stage)

  predicate Allowed(m: Monitor, a: Action) {
    match a
    case Tx(StartRun(run, name)) => m.stage.Idle? && run !in m.db.runs
    case Tx(FinishRun(_, _)) => m.stage.Idle?
    case Tx(StartScenario(key, _, _)) => m.stage.Idle? && key !in m.db.scenarios && key.run in m.db.runs
    case Tx(RecordMetrics(key, records)) => m.stage == Measuring(key)
    case Tx(FinishScenario(key, status, _)) =>
      (m.stage == Prepared(key) && status == Failed) || (m.stage == Measuring(key) && status != Running)
    case Prepare(key) => m.stage == Started(key)
    case RunJobs(key) => m.stage == Prepared(key)
    case CleanUp(_, _) => m.stage.Idle?
    case Restart => true
  }

  function NextStage(stage: Stage, a: Action): Stage {
    match a
    case Tx(StartScenario(key, _, _)) => Started(key)
    case Prepare(key) => Prepared(key)
    case RunJobs(key) => Measuring(key)
    case Tx(FinishScenario(_, _, _)) => Idle
    case Restart => Idle
    case _ => stage
  }

  function Watch(db: Db, trace: seq<Action>): Monitor {
    if trace == [] then Monitor(db, Idle)
    else
      var m := Watch(db, trace[..|trace| - 1]);
      var a := trace[|trace| - 1];
      Monitor(Apply(m.db, a), NextStage(m.stage, a))
  }

  predicate Lawful(db: Db, trace: seq<Action>) {
    trace == [] ||
    (Lawful(db, trace[..|trace| - 1]) && Allowed(Watch(db, trace[..|trace| - 1]), trace[|trace| - 1]))
  }

  // ----- what an action of one invocation vouches for, in the tables it leaves -----

  predicate IsSlot(inv: Invocation, i: nat, rep: nat, key: ScenarioKey) {
    i < |inv.campaign.bindings| &&
    rep < inv.campaign.bindings[i].repeats &&
    key == ScenarioKey(inv.run, inv.campaign.bindings[i].scenario, rep)
  }

  // Every repetition of every binding has a row that ended ok.
  ghost predicate AllRowsOk(db: Db, inv: Invocation) {
    forall i: nat, rep: nat, key :: IsSlot(inv, i, rep, key) ==> Completed(db, key)
  }

  // The metric rows of one scenario row, as the jobs' outcomes say.
  function MetricsOfJobs(env: Environment, key: ScenarioKey, i: nat, rep: nat, n: nat): map<MetricKey, real> {
    if n == 0 then map[]
    else
      var before := MetricsOfJobs(env, key, i, rep, n - 1);
      match env.job(i, rep, n - 1)
      case JobOk(metrics) => PutAll(before, key, metrics)
      case _ => before
  }

  predicate Measured(db: Db, inv: Invocation, i: nat, rep: nat, key: ScenarioKey) {
    IsSlot(inv, i, rep, key) &&
    (forall j: nat | j < |inv.campaign.bindings[i].jobs| :: inv.env.job(i, rep, j).JobOk?) &&
    MetricsOf(db, key) == MetricsOfJobs(inv.env, key, i, rep, |inv.campaign.bindings[i].jobs|)
  }

  ghost predicate Vouched(after: Db, inv: Invocation, a: Action) {
    match a
    case Tx(StartRun(run, _)) => run == inv.run && inv.isNew
    case Tx(FinishRun(run, status)) => run == inv.run && (status == Ok ==> AllRowsOk(after, inv))
    case Tx(StartScenario(key, kind, target)) =>
      exists i: nat, rep: nat :: IsSlot(inv, i, rep, key) && kind in inv.env.runners
                                 && kind == inv.campaign.bindings[i].kind && target == inv.campaign.bindings[i].target
    case Tx(FinishScenario(key, status, _)) =>
      status == Ok ==> exists i: nat, rep: nat :: Measured(after, inv, i, rep, key)
    case Restart => false
    case _ => true
  }

  ghost predicate Faithful(db: Db, inv: Invocation, trace: seq<Action>) {
    trace == [] ||
    (Faithful(db, inv, trace[..|trace| - 1]) && Vouched(Watch(db, trace).db, inv, trace[|trace| - 1]))
  }

  // Metric rows belong to scenario rows, and those to runs.
  ghost predicate Consistent(db: Db) {
    (forall m :: m in db.metrics ==> m.owner in db.scenarios) &&
    (forall k :: k in db.scenarios ==> k.run in db.runs)
  }

  // p was reached from db0 by obeying the protocol, and stands at the given stage.
  ghost predicate At(db0: Db, inv: Invocation, p: Progress, stage: Stage) {
    Lawful(db0, p.trace) && Faithful(db0, inv, p.trace) && Watch(db0, p.trace) == Monitor(p.db, stage)
  }

  lemma DoStep(db0: Db, inv: Invocation, p: Progress, stage: Stage, a: Action)
    requires At(db0, inv, p, stage)
    requires Allowed(Monitor(p.db, stage), a)
    requires Vouched(Apply(p.db, a), inv, a)
    ensures At(db0, inv, Do(p, a), NextStage(stage, a))
    ensures p.trace <= Do(p, a).trace
  {
    assert (p.trace + [a])[..|p.trace|] == p.trace;
  }

  // ----- properties of every lawful trace -----

  lemma {:induction false} LawfulPrefix(db: Db, trace: seq<Action>, n: nat)
    requires Lawful(db, trace) && n <= |trace|
    ensures Lawful(db, trace[..n])
  {
    if n < |trace| {
      LawfulPrefix(db, trace[..|trace| - 1], n);
      assert trace[..|trace| - 1][..n] == trace[..n];
    } else {
      assert trace[..n] == trace;
    }
  }

  lemma {:induction false} FaithfulPrefix(db: Db, inv: Invocation, trace: seq<Action>, n: nat)
    requires Faithful(db, inv, trace) && n <= |trace|
    ensures Faithful(db, inv, trace[..n])
  {
    if n < |trace| {
      FaithfulPrefix(db, inv, trace[..|trace| - 1], n);
      assert trace[..|trace| - 1][..n] == trace[..n];
    } else {
      assert trace[..n] == trace;
    }
  }

  // The tables stay consistent, and the row of the open scenario is the one marked running.
  lemma {:induction false} OpenRowIsRunning(db: Db, trace: seq<Action>)
    requires Lawful(db, trace) && Consistent(db)
    ensures Consistent(Watch(db, trace).db)
    ensures var m := Watch(db, trace);
            !m.stage.Idle? ==> m.stage.key in m.db.scenarios && m.db.scenarios[m.stage.key].status == Running
  {
    if trace != [] {
      var init, a := trace[..|trace| - 1], trace[|trace| - 1];
      OpenRowIsRunning(db, init);
      if a.Tx? && a.tx.RecordMetrics? {
        PutAllOwners(Watch(db, init).db, a.tx.key, a.tx.records);
      }
    }
  }

  lemma {:induction false} PutAllOwners(db: Db, key: ScenarioKey, records: seq<MetricRecord>)
    ensures forall m :: m in PutAll(db.metrics, key, records) ==> m in db.metrics || m.owner == key
    ensures forall m :: m in db.metrics ==> m in PutAll(db.metrics, key, records)
    ensures forall m :: m in db.metrics && m.owner != key ==> PutAll(db.metrics, key, records)[m] == db.metrics[m]
  {
    if records != [] {
      PutAllOwners(db, key, records[..|records| - 1]);
    }
  }

  function Occurrences(trace: seq<Action>, a: Action): nat {
    if trace == [] then 0
    else Occurrences(trace[..|trace| - 1], a) + (if trace[|trace| - 1] == a then 1 else 0)
  }

  // Each key can be prepared, and its jobs run, at most once for as long as the store lives.
  lemma {:induction false} AtMostOnce(db: Db, trace: seq<Action>, key: ScenarioKey)
    requires Lawful(db, trace)
    ensures Occurrences(trace, Prepare(key)) <= 1 && Occurrences(trace, RunJobs(key)) <= 1
    ensures key in db.scenarios ==> Occurrences(trace, Prepare(key)) == 0 && Occurrences(trace, RunJobs(key)) == 0
    ensures key in db.scenarios ==> key in Watch(db, trace).db.scenarios
    ensures var m := Watch(db, trace);
            var left := (if key in m.db.scenarios then 0 else 1) + (if m.stage == Started(key) then 1 else 0);
            && Occurrences(trace, Prepare(key)) + left <= 1
            && Occurrences(trace, RunJobs(key)) + left + (if m.stage == Prepared(key) then 1 else 0) <= 1
            && (key in db.scenarios ==> m.stage != Started(key) && m.stage != Prepared(key))
  {
    if trace != [] {
      AtMostOnce(db, trace[..|trace| - 1], key);
    }
  }

  predicate SameRecord(a: Db, b: Db, key: ScenarioKey) {
    key in a.scenarios && key in b.scenarios && a.scenarios[key] == b.scenarios[key] &&
    MetricsOf(a, key) == MetricsOf(b, key)
  }

  // The row that the running process is working on.
  predicate IsOpen(m: Monitor, key: ScenarioKey) {
    !m.stage.Idle? && m.stage.key == key
  }

  lemma ClosedRowStep(m: Monitor, a: Action, key: ScenarioKey)
    requires Allowed(m, a) && key in m.db.scenarios && !IsOpen(m, key)
    ensures SameRecord(m.db, Apply(m.db, a), key)
    ensures !IsOpen(Monitor(Apply(m.db, a), NextStage(m.stage, a)), key)
  {
    if a.Tx? && a.tx.RecordMetrics? {
      PutAllOwners(m.db, a.tx.key, a.tx.records);
    }
  }

  // A row that no process is working on never changes again, whatever its status, nor do its
  // metric rows: a process works only on rows that it inserted itself.
  lemma {:induction false} ClosedRowIsFrozen(db: Db, trace: seq<Action>, n: nat, key: ScenarioKey)
    requires Lawful(db, trace) && n <= |trace|
    requires var m := Watch(db, trace[..n]); key in m.db.scenarios && !IsOpen(m, key)
    ensures SameRecord(Watch(db, trace[..n]).db, Watch(db, trace).db, key)
    ensures !IsOpen(Watch(db, trace), key)
  {
    hide Allowed, Apply, NextStage, IsOpen, MetricsOf;
    if n == |trace| {
      assert trace[..n] == trace;
    } else {
      var init := trace[..|trace| - 1];
      assert init[..n] == trace[..n];
      ClosedRowIsFrozen(db, init, n, key);
      ClosedRowStep(Watch(db, init), trace[|trace| - 1], key);
    }
  }

  // Once a row is ok, neither it nor its metric rows change again.
  lemma {:induction false} OkIsFrozen(db: Db, trace: seq<Action>, n: nat, key: ScenarioKey)
    requires Lawful(db, trace) && Consistent(db) && n <= |trace|
    requires Completed(Watch(db, trace[..n]).db, key)
    ensures SameRecord(Watch(db, trace[..n]).db, Watch(db, trace).db, key)
  {
    LawfulPrefix(db, trace, n);
    OpenRowIsRunning(db, trace[..n]);
    ClosedRowIsFrozen(db, trace, n, key);
  }
}
