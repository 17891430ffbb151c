// No metric of a run recorded as ok is lost.
module CampaignMetrics {
  import opened Store
  import opened Campaign
  import opened CampaignProtocol
  import opened CampaignHistory

  // What the fio parser yields: records named after their job, one for each (op, metric).
  predicate NamedAfter(outcome: JobOutcome, job: string) {
    outcome.JobOk? ==>
      (forall r | r in outcome.metrics :: r.job == job) &&
      (forall a, b | 0 <= a < b < |outcome.metrics| ::
         outcome.metrics[a].op != outcome.metrics[b].op || outcome.metrics[a].metric != outcome.metrics[b].metric)
  }

  predicate DistinctJobs(jobs: seq<string>) {
    forall a, b | 0 <= a < b < |jobs| :: jobs[a] != jobs[b]
  }

  predicate RecordsNamed(env: Environment, i: nat, rep: nat, jobs: seq<string>) {
    forall a: nat | a < |jobs| :: NamedAfter(env.job(i, rep, a), jobs[a])
  }

  // With unique job names, the rows stored for a repetition hold every record of every one of its jobs.
  lemma {:induction false} EveryMetricIsKept(env: Environment, key: ScenarioKey, i: nat, rep: nat, jobs: seq<string>,
      n: nat, j: nat, r: int)
    requires n <= |jobs| && j < n && env.job(i, rep, j).JobOk? && 0 <= r < |env.job(i, rep, j).metrics|
    requires DistinctJobs(jobs) && RecordsNamed(env, i, rep, jobs)
    ensures var record := env.job(i, rep, j).metrics[r];
            var rows := MetricsOfJobs(env, key, i, rep, n);
            KeyOf(key, record) in rows && rows[KeyOf(key, record)] == record.value
  {
    var record := env.job(i, rep, j).metrics[r];
    var before := MetricsOfJobs(env, key, i, rep, n - 1);
    if j == n - 1 {
      PutAllLast(before, key, env.job(i, rep, j).metrics, r);
    } else {
      EveryMetricIsKept(env, key, i, rep, jobs, n - 1, j, r);
      match env.job(i, rep, n - 1)
      case JobOk(metrics) =>
        assert NamedAfter(env.job(i, rep, n - 1), jobs[n - 1]) && NamedAfter(env.job(i, rep, j), jobs[j]);
        assert record in env.job(i, rep, j).metrics;
        forall a | 0 <= a < |metrics|
          ensures KeyOf(key, metrics[a]) != KeyOf(key, record)
        {
          assert metrics[a] in metrics;
        }
        PutAllFrame(before, key, metrics, KeyOf(key, record));
      case _ =>
    }
  }

  predicate RecordStored(db: Db, key: ScenarioKey, record: MetricRecord) {
    KeyOf(key, record) in db.metrics && db.metrics[KeyOf(key, record)] == record.value
  }

  // All jobs of the repetition succeeded in this process, and all their records are in the tables.
  ghost predicate AllRecordsStored(db: Db, inv: Invocation, i: nat, rep: nat)
    requires i < |inv.campaign.bindings|
  {
    var b := inv.campaign.bindings[i];
    && AllJobsOk(inv.env, i, rep, |b.jobs|)
    && forall j: nat, r: nat | j < |b.jobs| && inv.env.job(i, rep, j).JobOk? && r < |inv.env.job(i, rep, j).metrics| ::
      RecordStored(db, KeyFor(inv.run, b, rep), inv.env.job(i, rep, j).metrics[r])
  }

  // With unique job names, and records named after their jobs, no record of any job is missing from
  // the tables of a run recorded as ok, or has another value there.
  lemma RecordedMetricsAreKept(db: Db, h: seq<Session>, inv: Invocation, i: nat, rep: nat)
    requires Consistent(db) && inv.run !in db.runs && OneCampaign(h, inv)
    requires RecordedOk(After(db, h), inv) && DistinctNames(inv.campaign)
    requires i < |inv.campaign.bindings| && rep < Times(inv.campaign.bindings[i].repeats)
    requires DistinctJobs(inv.campaign.bindings[i].jobs)
    requires forall s | s in h && s.inv.run == inv.run :: RecordsNamed(s.inv.env, i, rep, inv.campaign.bindings[i].jobs)
    ensures exists s :: s in h && s.inv.run == inv.run && AllRecordsStored(After(db, h), s.inv, i, rep)
  {
    var jobs, key := inv.campaign.bindings[i].jobs, KeyFor(inv.run, inv.campaign.bindings[i], rep);
    assert IsSlot(inv, i, rep, key);
    RecordedOkIsComplete(db, h, inv, i, rep, key);
    var s :| s in h && s.inv.run == inv.run && Measured(After(db, h), s.inv, i, rep, key);
    var rows := MetricsOf(After(db, h), key);
    forall j: nat, r: nat | j < |jobs| && s.inv.env.job(i, rep, j).JobOk? && r < |s.inv.env.job(i, rep, j).metrics|
      ensures RecordStored(After(db, h), key, s.inv.env.job(i, rep, j).metrics[r])
    {
      EveryMetricIsKept(s.inv.env, key, i, rep, jobs, |jobs|, j, r);
      assert KeyOf(key, s.inv.env.job(i, rep, j).metrics[r]) in rows;
    }
    assert AllRecordsStored(After(db, h), s.inv, i, rep);
  }
}
