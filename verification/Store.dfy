// The result store: tables keyed by their primary keys, one transaction per call.
module Store {
  import opened Wrappers

  datatype Status = Running | Ok | Failed

  datatype Target = Target(name: string, node: string, path: string)

  datatype RunRow = RunRow(campaign: string, status: Status)

  datatype ScenarioKey = ScenarioKey(run: string, scenario: string, repetition: nat)

  datatype ScenarioRow = ScenarioRow(kind: string, target: Target, status: Status, error: Option<string>)

  datatype MetricRecord = MetricRecord(job: string, op: string, metric: string, value: real)

  datatype MetricKey = MetricKey(owner: ScenarioKey, job: string, op: string, metric: string)

  datatype Db = Db(
    runs: map<string, RunRow>,
    scenarios: map<ScenarioKey, ScenarioRow>,
    metrics: map<MetricKey, real>)

  datatype Transaction =
    | StartRun(run: string, campaign: string)
    | FinishRun(run: string, status: Status)
    | StartScenario(key: ScenarioKey, kind: string, target: Target)
    | FinishScenario(key: ScenarioKey, status: Status, error: Option<string>)
    | RecordMetrics(key: ScenarioKey, records: seq<MetricRecord>)

  function KeyOf(owner: ScenarioKey, r: MetricRecord): MetricKey {
    MetricKey(owner, r.job, r.op, r.metric)
  }

  // Rows written one after the other, a later one replacing an earlier one with its key.
  function PutAll(metrics: map<MetricKey, real>, owner: ScenarioKey, records: seq<MetricRecord>): map<MetricKey, real> {
    if records == [] then metrics
    else
      var last := records[|records| - 1];
      PutAll(metrics, owner, records[..|records| - 1])[KeyOf(owner, last) := last.value]
  }

  // One transaction: the new tables, or None when a primary-key or foreign-key constraint rolls it back.
  function Commit(db: Db, tx: Transaction): Option<Db> {
    match tx
    case StartRun(run, campaign) =>
      if run in db.runs then None
      else Some(db.(runs := db.runs[run := RunRow(campaign, Running)]))
    case FinishRun(run, status) =>
      if run !in db.runs then Some(db)
      else Some(db.(runs := db.runs[run := db.runs[run].(status := status)]))
    case StartScenario(key, kind, target) =>
      if key in db.scenarios || key.run !in db.runs then None
      else Some(db.(scenarios := db.scenarios[key := ScenarioRow(kind, target, Running, None)]))
    case FinishScenario(key, status, error) =>
      if key !in db.scenarios then Some(db)
      else Some(db.(scenarios := db.scenarios[key := db.scenarios[key].(status := status, error := error)]))
    case RecordMetrics(key, records) =>
      if records == [] then Some(db)
      else if key.run !in db.runs then None
      else Some(db.(metrics := PutAll(db.metrics, key, records)))
  }

  predicate Completed(db: Db, key: ScenarioKey) {
    key in db.scenarios && db.scenarios[key].status == Ok
  }

  // The metric rows stored under one scenario key.
  function MetricsOf(db: Db, key: ScenarioKey): map<MetricKey, real> {
    map m | m in db.metrics && m.owner == key :: db.metrics[m]
  }

  // A key that no record carries keeps whatever it had.
  lemma {:induction false} PutAllFrame(metrics: map<MetricKey, real>, owner: ScenarioKey, records: seq<MetricRecord>,
      m: MetricKey)
    requires forall i | 0 <= i < |records| :: KeyOf(owner, records[i]) != m
    ensures m in PutAll(metrics, owner, records) <==> m in metrics
    ensures m in metrics ==> PutAll(metrics, owner, records)[m] == metrics[m]
  {
    if records != [] {
      PutAllFrame(metrics, owner, records[..|records| - 1], m);
    }
  }

  // The last record written with a key decides its value.
  lemma {:induction false} PutAllLast(metrics: map<MetricKey, real>, owner: ScenarioKey, records: seq<MetricRecord>,
      i: nat)
    requires i < |records|
    requires forall j | i < j < |records| :: KeyOf(owner, records[j]) != KeyOf(owner, records[i])
    ensures KeyOf(owner, records[i]) in PutAll(metrics, owner, records)
    ensures PutAll(metrics, owner, records)[KeyOf(owner, records[i])] == records[i].value
  {
    if i < |records| - 1 {
      var init := records[..|records| - 1];
      assert init[i] == records[i];
      PutAllLast(metrics, owner, init, i);
    }
  }

  class Store {
    var runs: map<string, RunRow>
    var scenarios: map<ScenarioKey, ScenarioRow>
    var metrics: map<MetricKey, real>

    function View(): Db
      reads this
    {
      Db(runs, scenarios, metrics)
    }

    constructor ()
      ensures View() == Db(map[], map[], map[])
    {
      runs, scenarios, metrics := map[], map[], map[];
    }

    method InsertRun(run: string, campaign: string) returns (ok: bool)
      modifies this
      ensures ok <==> Commit(old(View()), StartRun(run, campaign)).Some?
      ensures View() == Commit(old(View()), StartRun(run, campaign)).GetOr(old(View()))
      ensures ok <==> run !in old(runs)
      ensures runs == if ok then old(runs)[run := RunRow(campaign, Running)] else old(runs)
      ensures scenarios == old(scenarios) && metrics == old(metrics)
    {
      ok := run !in runs;
      if ok {
        runs := runs[run := RunRow(campaign, Running)];
      }
    }

    method UpdateRun(run: string, status: Status)
      modifies this
      ensures Some(View()) == Commit(old(View()), FinishRun(run, status))
      ensures runs.Keys == old(runs).Keys && scenarios == old(scenarios) && metrics == old(metrics)
      ensures run in runs ==> runs[run] == RunRow(old(runs)[run].campaign, status)
      ensures forall other | other in runs && other != run :: runs[other] == old(runs)[other]
    {
      if run in runs {
        runs := runs[run := runs[run].(status := status)];
      }
    }

    method InsertScenario(key: ScenarioKey, kind: string, target: Target) returns (ok: bool)
      modifies this
      ensures ok <==> Commit(old(View()), StartScenario(key, kind, target)).Some?
      ensures View() == Commit(old(View()), StartScenario(key, kind, target)).GetOr(old(View()))
      ensures ok <==> key !in old(scenarios) && key.run in old(runs)
      ensures scenarios ==
              if ok then old(scenarios)[key := ScenarioRow(kind, target, Running, None)] else old(scenarios)
      ensures runs == old(runs) && metrics == old(metrics)
    {
      ok := key !in scenarios && key.run in runs;
      if ok {
        scenarios := scenarios[key := ScenarioRow(kind, target, Running, None)];
      }
    }

    method UpdateScenario(key: ScenarioKey, status: Status, error: Option<string>)
      modifies this
      ensures Some(View()) == Commit(old(View()), FinishScenario(key, status, error))
      ensures scenarios.Keys == old(scenarios).Keys && runs == old(runs) && metrics == old(metrics)
      ensures key in scenarios ==>
                scenarios[key] == ScenarioRow(old(scenarios)[key].kind, old(scenarios)[key].target, status, error)
      ensures forall other | other in scenarios && other != key :: scenarios[other] == old(scenarios)[other]
    {
      if key in scenarios {
        scenarios := scenarios[key := scenarios[key].(status := status, error := error)];
      }
    }

    method ScenarioCompleted(key: ScenarioKey) returns (done: bool)
      ensures done <==> Completed(View(), key)
      ensures done <==> key in scenarios && scenarios[key].status == Ok
    {
      done := false;
      if key in scenarios {
        done := scenarios[key].status == Ok;
      }
    }

    // All rows or none: a missing run rolls the whole batch back, an empty batch opens no transaction.
    method InsertMetrics(key: ScenarioKey, records: seq<MetricRecord>) returns (ok: bool)
      modifies this
      ensures ok <==> Commit(old(View()), RecordMetrics(key, records)).Some?
      ensures View() == Commit(old(View()), RecordMetrics(key, records)).GetOr(old(View()))
      ensures ok <==> records == [] || key.run in old(runs)
      ensures metrics == if ok then PutAll(old(metrics), key, records) else old(metrics)
      ensures runs == old(runs) && scenarios == old(scenarios)
    {
      if |records| == 0 {
        return true;
      }
      if key.run !in runs {
        return false;
      }
      var rows := metrics;
      for n := 0 to |records|
        invariant rows == PutAll(metrics, key, records[..n])
      {
        assert records[..n + 1][..n] == records[..n];
        rows := rows[KeyOf(key, records[n]) := records[n].value];
      }
      assert records[..|records|] == records;
      metrics := rows;
      ok := true;
    }
  }
}
