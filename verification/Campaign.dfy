// One execution of a campaign: the spec of what run_campaign does to the store and to the
// targets, step by step, and the loops that perform it.
module Campaign {
  import opened Wrappers
  import opened Store

  datatype Cleanup = AfterCampaign | AfterEachRun | Never

  // A scenario bound to a target, to be repeated.
  datatype Binding = Binding(scenario: string, kind: string, target: Target, repeats: int, jobs: seq<string>)

  datatype Campaign = Campaign(name: string, bindings: seq<Binding>, cleanup: Cleanup)

  datatype JobOutcome = JobOk(metrics: seq<MetricRecord>) | JobFailed | JobTimedOut

  // Everything that is not decided by the campaign and the store: which scenario kinds have a
  // runner, and how prepare and each job turn out. Indices are binding, repetition, job.
  datatype Environment = Environment(
    runners: set<string>,
    prepareError: (nat, nat) -> Option<string>,
    job: (nat, nat, nat) -> JobOutcome)

  // A fresh start (the run row is inserted) or a resumption of an existing run.
  datatype Invocation = Invocation(isNew: bool, run: string, campaign: Campaign, env: Environment)

  // What a process does, in the order it does it. Restart separates two processes.
  datatype Action =
    | Tx(tx: Transaction)
    | Prepare(key: ScenarioKey)
    | RunJobs(key: ScenarioKey)
    | CleanUp(target: Target, kind: string)
    | Restart

  // halted: an exception left run_campaign. failed: some repetition failed.
  datatype Progress = Progress(db: Db, trace: seq<Action>, halted: bool, failed: bool)

  function Apply(db: Db, a: Action): Db {
    match a
    case Tx(tx) => Commit(db, tx).GetOr(db)
    case _ => db
  }

  function Do(p: Progress, a: Action): Progress {
    p.(db := Apply(p.db, a), trace := p.trace + [a])
  }

  function Try(p: Progress, tx: Transaction): Progress {
    if Commit(p.db, tx).Some? then Do(p, Tx(tx)) else p.(halted := true)
  }

  function Times(repeats: int): nat {
    if repeats < 0 then 0 else repeats
  }

  function KeyFor(run: string, b: Binding, rep: nat): ScenarioKey {
    ScenarioKey(run, b.scenario, rep)
  }

  predicate AllJobsOk(env: Environment, i: nat, rep: nat, n: nat) {
    forall j: nat | j < n :: env.job(i, rep, j).JobOk?
  }

  // The first n jobs, the metrics of each successful one recorded.
  function RecordJobs(p: Progress, key: ScenarioKey, env: Environment, i: nat, rep: nat, n: nat): Progress {
    if n == 0 then p
    else
      var q := RecordJobs(p, key, env, i, rep, n - 1);
      var outcome := env.job(i, rep, n - 1);
      if q.halted || !outcome.JobOk? || outcome.metrics == [] then q
      else Try(q, RecordMetrics(key, outcome.metrics))
  }

  // One repetition once its row is open: prepare has been called.
  function Attempt(prepared: Progress, key: ScenarioKey, i: nat, b: Binding, rep: nat, env: Environment,
      mode: Cleanup): Progress
  {
    if env.prepareError(i, rep).Some? then
      Try(prepared, FinishScenario(key, Failed, env.prepareError(i, rep))).(failed := true)
    else
      var measured := RecordJobs(Do(prepared, RunJobs(key)), key, env, i, rep, |b.jobs|);
      if measured.halted then measured
      else
        var ok := AllJobsOk(env, i, rep, |b.jobs|);
        var finish := FinishScenario(key, if ok then Ok else Failed, None);
        var finished := Try(measured, finish).(failed := prepared.failed || !ok);
        if mode == AfterEachRun then Do(finished, CleanUp(b.target, b.kind)) else finished
  }

  function RunRepeat(p: Progress, run: string, i: nat, b: Binding, rep: nat, env: Environment,
      mode: Cleanup): Progress
  {
    var key := KeyFor(run, b, rep);
    if p.halted || Completed(p.db, key) then p
    else
      var started := Try(p, StartScenario(key, b.kind, b.target));
      if started.halted then started
      else Attempt(Do(started, Prepare(key)), key, i, b, rep, env, mode)
  }

  function RunRepeats(p: Progress, run: string, i: nat, b: Binding, n: nat, env: Environment, mode: Cleanup): Progress {
    if n == 0 then p
    else RunRepeat(RunRepeats(p, run, i, b, n - 1, env, mode), run, i, b, n - 1, env, mode)
  }

  function RunBinding(p: Progress, run: string, i: nat, b: Binding, env: Environment, mode: Cleanup): Progress {
    if p.halted then p
    else if b.kind !in env.runners then p.(failed := true)
    else RunRepeats(p, run, i, b, Times(b.repeats), env, mode)
  }

  function RunBindings(p: Progress, inv: Invocation, n: nat): Progress
    requires n <= |inv.campaign.bindings|
  {
    if n == 0 then p
    else
      var b := inv.campaign.bindings[n - 1];
      RunBinding(RunBindings(p, inv, n - 1), inv.run, n - 1, b, inv.env, inv.campaign.cleanup)
  }

  function Seen(bs: seq<Binding>, n: nat): set<(string, string)>
    requires n <= |bs|
  {
    set j | 0 <= j < n :: (bs[j].target.name, bs[j].kind)
  }

  // One cleanup for each distinct (target name, kind); an unregistered kind raises.
  function CleanTargets(p: Progress, bs: seq<Binding>, env: Environment, n: nat): Progress
    requires n <= |bs|
  {
    if n == 0 then p
    else
      var q := CleanTargets(p, bs, env, n - 1);
      var b := bs[n - 1];
      if q.halted || (b.target.name, b.kind) in Seen(bs, n - 1) then q
      else if b.kind !in env.runners then q.(halted := true)
      else Do(q, CleanUp(b.target, b.kind))
  }

  function Begin(db: Db, inv: Invocation): Progress {
    var p := Progress(db, [], false, false);
    if inv.isNew then Try(p, StartRun(inv.run, inv.campaign.name)) else p
  }

  function BeforeFinish(db: Db, inv: Invocation): Progress {
    var p := RunBindings(Begin(db, inv), inv, |inv.campaign.bindings|);
    if p.halted || inv.campaign.cleanup != AfterCampaign then p
    else CleanTargets(p, inv.campaign.bindings, inv.env, |inv.campaign.bindings|)
  }

  // The whole of run_campaign, when nothing kills the process.
  function Invoke(db: Db, inv: Invocation): Progress {
    var p := BeforeFinish(db, inv);
    if p.halted then p else Try(p, FinishRun(inv.run, if p.failed then Failed else Ok))
  }

  lemma {:induction false} HaltedStays(p: Progress, inv: Invocation, m: nat, n: nat)
    requires m <= n <= |inv.campaign.bindings|
    requires RunBindings(p, inv, m).halted
    ensures RunBindings(p, inv, n) == RunBindings(p, inv, m)
  {
    if m < n {
      HaltedStays(p, inv, m, n - 1);
    }
  }

  lemma {:induction false} HaltedRepeatsStay(p: Progress, run: string, i: nat, b: Binding, env: Environment,
      mode: Cleanup, m: nat, n: nat)
    requires m <= n
    requires RunRepeats(p, run, i, b, m, env, mode).halted
    ensures RunRepeats(p, run, i, b, n, env, mode) == RunRepeats(p, run, i, b, m, env, mode)
  {
    if m < n {
      HaltedRepeatsStay(p, run, i, b, env, mode, m, n - 1);
    }
  }

  lemma {:induction false} HaltedJobsStay(p: Progress, key: ScenarioKey, env: Environment, i: nat, rep: nat, m: nat,
      n: nat)
    requires m <= n
    requires RecordJobs(p, key, env, i, rep, m).halted
    ensures RecordJobs(p, key, env, i, rep, n) == RecordJobs(p, key, env, i, rep, m)
  {
    if m < n {
      HaltedJobsStay(p, key, env, i, rep, m, n - 1);
    }
  }

  class Orchestrator {
    const store: Store
    // Every committed transaction and every call into a runner, in order.
    var trace: seq<Action>

    constructor (store: Store)
      ensures this.store == store && trace == []
    {
      this.store := store;
      trace := [];
    }

    function State(halted: bool, failed: bool): Progress
      reads this, store
    {
      Progress(store.View(), trace, halted, failed)
    }

    // Returns whether an exception escaped (halted) and whether any repetition failed.
    method RunCampaign(inv: Invocation) returns (halted: bool, failed: bool)
      requires trace == []
      modifies this, store
      ensures State(halted, failed) == Invoke(old(store.View()), inv)
    {
      ghost var db0 := store.View();
      var bs := inv.campaign.bindings;
      failed := false;
      if inv.isNew {
        var ok := store.InsertRun(inv.run, inv.campaign.name);
        if !ok {
          HaltedStays(Begin(db0, inv), inv, 0, |bs|);
          return true, false;
        }
        trace := trace + [Tx(StartRun(inv.run, inv.campaign.name))];
      }
      for i := 0 to |bs|
        invariant State(false, failed) == RunBindings(Begin(db0, inv), inv, i)
      {
        var stop, bad := ExecuteScenario(inv.run, i, bs[i], inv.env, inv.campaign.cleanup, failed);
        failed := bad;
        if stop {
          HaltedStays(Begin(db0, inv), inv, i + 1, |bs|);
          return true, failed;
        }
      }
      if inv.campaign.cleanup == AfterCampaign {
        var stop := CleanupTargets(bs, inv.env, failed);
        if stop {
          return true, failed;
        }
      }
      store.UpdateRun(inv.run, if failed then Failed else Ok);
      trace := trace + [Tx(FinishRun(inv.run, if failed then Failed else Ok))];
      halted := false;
    }

    // One scenario bound to one target, all its repeats.
    method ExecuteScenario(run: string, i: nat, b: Binding, env: Environment, mode: Cleanup, failedBefore: bool)
      returns (halted: bool, failed: bool)
      modifies this, store
      ensures State(halted, failed) == RunBinding(old(State(false, failedBefore)), run, i, b, env, mode)
    {
      ghost var p0 := State(false, failedBefore);
      failed := failedBefore;
      if b.kind !in env.runners {
        return false, true;
      }
      for rep := 0 to Times(b.repeats)
        invariant State(false, failed) == RunRepeats(p0, run, i, b, rep, env, mode)
      {
        var stop, bad := ExecuteRepeat(run, i, b, rep, env, mode, failed);
        failed := bad;
        if stop {
          HaltedRepeatsStay(p0, run, i, b, env, mode, rep + 1, Times(b.repeats));
          return true, failed;
        }
      }
      halted := false;
    }

    method ExecuteRepeat(run: string, i: nat, b: Binding, rep: nat, env: Environment, mode: Cleanup, failedBefore: bool)
      returns (halted: bool, failed: bool)
      modifies this, store
      ensures State(halted, failed) == RunRepeat(old(State(false, failedBefore)), run, i, b, rep, env, mode)
    {
      ghost var p := State(false, failedBefore);
      var key := KeyFor(run, b, rep);
      failed := failedBefore;
      var done := store.ScenarioCompleted(key);
      if done {
        return false, failed;
      }
      var ok := store.InsertScenario(key, b.kind, b.target);
      if !ok {
        return true, failed;
      }
      trace := trace + [Tx(StartScenario(key, b.kind, b.target))];
      trace := trace + [Prepare(key)];
      ghost var prepared := Do(Try(p, StartScenario(key, b.kind, b.target)), Prepare(key));
      assert State(false, failed) == prepared;
      if env.prepareError(i, rep).Some? {
        store.UpdateScenario(key, Failed, env.prepareError(i, rep));
        trace := trace + [Tx(FinishScenario(key, Failed, env.prepareError(i, rep)))];
        return false, true;
      }
      trace := trace + [RunJobs(key)];
      var stop, jobsOk := RunAndRecord(key, i, rep, |b.jobs|, env, failed);
      assert State(stop, failed) == RecordJobs(Do(prepared, RunJobs(key)), key, env, i, rep, |b.jobs|);
      if stop {
        return true, failed;
      }
      store.UpdateScenario(key, if jobsOk then Ok else Failed, None);
      trace := trace + [Tx(FinishScenario(key, if jobsOk then Ok else Failed, None))];
      if !jobsOk {
        failed := true;
      }
      if mode == AfterEachRun {
        trace := trace + [CleanUp(b.target, b.kind)];
      }
      halted := false;
    }

    method RunAndRecord(key: ScenarioKey, i: nat, rep: nat, jobs: nat, env: Environment, ghost failed: bool)
      returns (halted: bool, allOk: bool)
      modifies this, store
      ensures State(halted, failed) == RecordJobs(old(State(false, failed)), key, env, i, rep, jobs)
      ensures !halted ==> (allOk <==> AllJobsOk(env, i, rep, jobs))
    {
      ghost var p0 := State(false, failed);
      allOk := true;
      for j := 0 to jobs
        invariant State(false, failed) == RecordJobs(p0, key, env, i, rep, j)
        invariant allOk <==> AllJobsOk(env, i, rep, j)
      {
        match env.job(i, rep, j)
        case JobOk(metrics) =>
          if metrics != [] {
            var ok := store.InsertMetrics(key, metrics);
            if !ok {
              HaltedJobsStay(p0, key, env, i, rep, j + 1, jobs);
              return true, false;
            }
            trace := trace + [Tx(RecordMetrics(key, metrics))];
          }
        case _ =>
          allOk := false;
      }
      halted := false;
    }

    method CleanupTargets(bs: seq<Binding>, env: Environment, ghost failed: bool) returns (halted: bool)
      modifies this
      ensures State(halted, failed) == CleanTargets(old(State(false, failed)), bs, env, |bs|)
    {
      ghost var p0 := State(false, failed);
      var seen: set<(string, string)> := {};
      halted := false;
      for n := 0 to |bs|
        invariant seen == Seen(bs, n)
        invariant State(halted, failed) == CleanTargets(p0, bs, env, n)
      {
        var b := bs[n];
        if !halted && (b.target.name, b.kind) !in seen {
          if b.kind in env.runners {
            trace := trace + [CleanUp(b.target, b.kind)];
          } else {
            halted := true;
          }
        }
        seen := seen + {(b.target.name, b.kind)};
      }
    }
  }
}
