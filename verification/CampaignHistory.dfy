// Histories: executions and resumptions one after another over one store, each possibly killed
// between any two of its actions.
module CampaignHistory {
  import opened Store
  import opened Campaign
  import opened CampaignProtocol
  import opened CampaignProofs

  // One process: it performs at most the given number of actions before it dies.
  datatype Session = Session(inv: Invocation, steps: nat)

  function Performed(db: Db, s: Session): seq<Action> {
    var trace := Invoke(db, s.inv).trace;
    if s.steps < |trace| then trace[..s.steps] else trace
  }

  function TraceOf(db: Db, h: seq<Session>): seq<Action> {
    if h == [] then []
    else
      var before := TraceOf(db, h[..|h| - 1]);
      before + [Restart] + Performed(Watch(db, before).db, h[|h| - 1])
  }

  function After(db: Db, h: seq<Session>): Db {
    Watch(db, TraceOf(db, h)).db
  }

  lemma {:induction false} WatchAcrossRestart(db: Db, before: seq<Action>, trace: seq<Action>)
    ensures Watch(db, before + [Restart] + trace) == Watch(Watch(db, before).db, trace)
    ensures Lawful(db, before) && Lawful(Watch(db, before).db, trace) ==> Lawful(db, before + [Restart] + trace)
  {
    var whole := before + [Restart] + trace;
    if trace == [] {
      assert whole[..|whole| - 1] == before;
    } else {
      assert whole[..|whole| - 1] == before + [Restart] + trace[..|trace| - 1];
      WatchAcrossRestart(db, before, trace[..|trace| - 1]);
    }
  }

  lemma {:induction false} PerformedIsLawful(db: Db, s: Session)
    requires Consistent(db)
    ensures Lawful(db, Performed(db, s)) && Faithful(db, s.inv, Performed(db, s))
  {
    InvokeObeysProtocol(db, s.inv);
    var trace := Invoke(db, s.inv).trace;
    if s.steps < |trace| {
      LawfulPrefix(db, trace, s.steps);
      FaithfulPrefix(db, s.inv, trace, s.steps);
    }
  }

  // Whatever dies when, the actions of a whole history obey the protocol.
  lemma {:induction false} HistoryObeysProtocol(db: Db, h: seq<Session>)
    requires Consistent(db)
    ensures Lawful(db, TraceOf(db, h)) && Consistent(After(db, h))
  {
    if h != [] {
      var init := h[..|h| - 1];
      HistoryObeysProtocol(db, init);
      PerformedIsLawful(After(db, init), h[|h| - 1]);
      WatchAcrossRestart(db, TraceOf(db, init), Performed(After(db, init), h[|h| - 1]));
      OpenRowIsRunning(db, TraceOf(db, h));
    }
  }

  // Prepare and run_jobs start at most once for each row key, in any history of any runs.
  lemma {:induction false} NothingStartsTwice(db: Db, h: seq<Session>, key: ScenarioKey)
    requires Consistent(db)
    ensures Occurrences(TraceOf(db, h), Prepare(key)) <= 1
    ensures Occurrences(TraceOf(db, h), RunJobs(key)) <= 1
  {
    HistoryObeysProtocol(db, h);
    AtMostOnce(db, TraceOf(db, h), key);
  }

  // From the moment a row is ok, it and its metric rows are the same at every later moment.
  lemma {:induction false} OkRowsNeverChange(db: Db, h: seq<Session>, m: nat, n: nat, key: ScenarioKey)
    requires Consistent(db) && m <= n <= |TraceOf(db, h)|
    requires Completed(Watch(db, TraceOf(db, h)[..m]).db, key)
    ensures SameRecord(Watch(db, TraceOf(db, h)[..m]).db, Watch(db, TraceOf(db, h)[..n]).db, key)
  {
    var trace := TraceOf(db, h);
    HistoryObeysProtocol(db, h);
    LawfulPrefix(db, trace, n);
    assert trace[..n][..m] == trace[..m];
    OkIsFrozen(db, trace[..n], m, key);
  }

  // A row found in the tables when no process runs is the same after any later history.
  lemma {:induction false} FoundRowIsFrozen(db: Db, h: seq<Session>, m: nat, key: ScenarioKey)
    requires Consistent(db) && m <= |h| && key in After(db, h[..m]).scenarios
    ensures SameRecord(After(db, h[..m]), After(db, h), key)
  {
    hide Lawful, Watch, Consistent;
    if m == |h| {
      assert h[..m] == h;
    } else {
      var init, s := h[..|h| - 1], h[|h| - 1];
      assert init[..m] == h[..m];
      FoundRowIsFrozen(db, init, m, key);
      HistoryObeysProtocol(db, init);
      LastSessionKeeps(db, h, key);
    }
  }

  lemma LastSessionKeeps(db: Db, h: seq<Session>, key: ScenarioKey)
    requires h != [] && Consistent(After(db, h[..|h| - 1])) && key in After(db, h[..|h| - 1]).scenarios
    ensures SameRecord(After(db, h[..|h| - 1]), After(db, h), key)
  {
    var init, s := h[..|h| - 1], h[|h| - 1];
    var mid := After(db, init);
    PerformedIsLawful(mid, s);
    WatchAcrossRestart(db, TraceOf(db, init), Performed(mid, s));
    assert Performed(mid, s)[..0] == [];
    ClosedRowIsFrozen(mid, Performed(mid, s), 0, key);
  }

  // ----- what a run recorded as ok has done -----

  ghost predicate OneCampaign(h: seq<Session>, inv: Invocation) {
    forall s | s in h && s.inv.run == inv.run :: s.inv.campaign == inv.campaign
  }

  predicate RowOf(db: Db, inv: Invocation, i: nat, rep: nat, key: ScenarioKey) {
    IsSlot(inv, i, rep, key) && key in db.scenarios
    && db.scenarios[key].kind == inv.campaign.bindings[i].kind
    && db.scenarios[key].target == inv.campaign.bindings[i].target
  }

  ghost predicate MeasuredBy(db: Db, inv: Invocation, h: seq<Session>, key: ScenarioKey) {
    exists s, i: nat, rep: nat :: s in h && s.inv.run == inv.run && Measured(db, s.inv, i, rep, key)
  }

  ghost predicate Provenance(db: Db, inv: Invocation, h: seq<Session>) {
    && (inv.run in db.runs && db.runs[inv.run].status == Ok ==> AllRowsOk(db, inv))
    && (forall key | key in db.scenarios && key.run == inv.run ::
          exists i: nat, rep: nat :: RowOf(db, inv, i, rep, key))
    && (forall key | Completed(db, key) && key.run == inv.run :: MeasuredBy(db, inv, h, key))
  }

  lemma {:induction false} OpenRowIsOwn(db: Db, inv: Invocation, trace: seq<Action>)
    requires Lawful(db, trace) && Faithful(db, inv, trace)
    ensures var m := Watch(db, trace); !m.stage.Idle? ==> m.stage.key.run == inv.run
  {
    if trace != [] {
      OpenRowIsOwn(db, inv, trace[..|trace| - 1]);
    }
  }

  lemma {:induction false} OkFrozenByStep(db: Db, trace: seq<Action>, key: ScenarioKey)
    requires Lawful(db, trace) && Consistent(db) && trace != []
    requires Completed(Watch(db, trace[..|trace| - 1]).db, key)
    ensures SameRecord(Watch(db, trace[..|trace| - 1]).db, Watch(db, trace).db, key)
  {
    OkIsFrozen(db, trace, |trace| - 1, key);
  }

  // One step of one session keeps the provenance of every row of the run.
  lemma {:induction false} ProvenanceStep(db: Db, inv: Invocation, s: Session, h: seq<Session>, trace: seq<Action>)
    requires Lawful(db, trace) && Faithful(db, s.inv, trace) && Consistent(db) && trace != []
    requires s in h && (s.inv.run == inv.run ==> s.inv.campaign == inv.campaign)
    requires Provenance(Watch(db, trace[..|trace| - 1]).db, inv, h)
    ensures Provenance(Watch(db, trace).db, inv, h)
  {
    var before, after := Watch(db, trace[..|trace| - 1]), Watch(db, trace).db;
    var a := trace[|trace| - 1];
    OpenRowIsRunning(db, trace[..|trace| - 1]);
    OpenRowIsOwn(db, s.inv, trace[..|trace| - 1]);
    forall key | Completed(before.db, key)
      ensures SameRecord(before.db, after, key)
    {
      OkFrozenByStep(db, trace, key);
    }
    if inv.run in after.runs && after.runs[inv.run].status == Ok {
      forall i: nat, rep: nat, key | IsSlot(inv, i, rep, key)
        ensures Completed(after, key)
      {
        if a.Tx? && a.tx.FinishRun? && a.tx.run == inv.run {
          assert IsSlot(s.inv, i, rep, key);
        } else {
          assert Completed(before.db, key);
        }
      }
    }
    RowsKeepTheirBinding(db, inv, s, h, trace);
    forall key | Completed(after, key) && key.run == inv.run
      ensures MeasuredBy(after, inv, h, key)
    {
      if Completed(before.db, key) {
        var s', i: nat, rep: nat :| s' in h && s'.inv.run == inv.run && Measured(before.db, s'.inv, i, rep, key);
        assert Measured(after, s'.inv, i, rep, key);
      } else {
        var i: nat, rep: nat :| Measured(after, s.inv, i, rep, key);
      }
    }
  }

  lemma {:induction false} RowsKeepTheirBinding(db: Db, inv: Invocation, s: Session, h: seq<Session>,
      trace: seq<Action>)
    requires Lawful(db, trace) && Faithful(db, s.inv, trace) && trace != []
    requires s.inv.run == inv.run ==> s.inv.campaign == inv.campaign
    requires Provenance(Watch(db, trace[..|trace| - 1]).db, inv, h)
    ensures var after := Watch(db, trace).db;
            forall key | key in after.scenarios && key.run == inv.run ::
              exists i: nat, rep: nat :: RowOf(after, inv, i, rep, key)
  {
    var before, after := Watch(db, trace[..|trace| - 1]).db, Watch(db, trace).db;
    var a := trace[|trace| - 1];
    forall key | key in after.scenarios && key.run == inv.run
      ensures exists i: nat, rep: nat :: RowOf(after, inv, i, rep, key)
    {
      if key in before.scenarios {
        var i: nat, rep: nat :| RowOf(before, inv, i, rep, key);
        assert RowOf(after, inv, i, rep, key);
      } else {
        assert a.Tx? && a.tx.StartScenario? && a.tx.key == key;
        var i: nat, rep: nat :| IsSlot(s.inv, i, rep, key)
                                && a.tx.kind == s.inv.campaign.bindings[i].kind
                                && a.tx.target == s.inv.campaign.bindings[i].target;
        assert IsSlot(inv, i, rep, key);
        assert RowOf(after, inv, i, rep, key);
      }
    }
  }

  lemma {:induction false} SessionKeepsProvenance(db: Db, inv: Invocation, s: Session, h: seq<Session>,
      trace: seq<Action>)
    requires Lawful(db, trace) && Faithful(db, s.inv, trace) && Consistent(db)
    requires s in h && (s.inv.run == inv.run ==> s.inv.campaign == inv.campaign)
    requires Provenance(db, inv, h)
    ensures Provenance(Watch(db, trace).db, inv, h)
  {
    if trace != [] {
      SessionKeepsProvenance(db, inv, s, h, trace[..|trace| - 1]);
      ProvenanceStep(db, inv, s, h, trace);
    }
  }

  lemma ProvenanceGrows(db: Db, inv: Invocation, h: seq<Session>, s: Session)
    requires Provenance(db, inv, h)
    ensures Provenance(db, inv, h + [s])
  {
    forall key | Completed(db, key) && key.run == inv.run
      ensures MeasuredBy(db, inv, h + [s], key)
    {
      var s', i: nat, rep: nat :| s' in h && s'.inv.run == inv.run && Measured(db, s'.inv, i, rep, key);
      assert s' in h + [s];
    }
  }

  lemma {:induction false} HistoryHasProvenance(db: Db, inv: Invocation, h: seq<Session>)
    requires Consistent(db) && inv.run !in db.runs && OneCampaign(h, inv)
    ensures Provenance(After(db, h), inv, h)
  {
    if h != [] {
      var init, s := h[..|h| - 1], h[|h| - 1];
      assert h == init + [s];
      HistoryHasProvenance(db, inv, init);
      HistoryObeysProtocol(db, init);
      var mid := After(db, init);
      PerformedIsLawful(mid, s);
      ProvenanceGrows(mid, inv, init, s);
      SessionKeepsProvenance(mid, inv, s, h, Performed(mid, s));
      WatchAcrossRestart(db, TraceOf(db, init), Performed(mid, s));
    }
  }

  predicate DistinctNames(c: Campaign) {
    forall i, j | 0 <= i < j < |c.bindings| :: c.bindings[i].scenario != c.bindings[j].scenario
  }

  predicate RecordedOk(db: Db, inv: Invocation) {
    inv.run in db.runs && db.runs[inv.run].status == Ok
  }

  // A run recorded as ok, fresh or resumed after any crashes, has an ok row for every repetition of
  // every binding; with distinct scenario names the row carries that binding's own target and
  // exactly the metrics its jobs produced in one of the processes.
  lemma RecordedOkIsComplete(db: Db, h: seq<Session>, inv: Invocation, i: nat, rep: nat, key: ScenarioKey)
    requires Consistent(db) && inv.run !in db.runs && OneCampaign(h, inv)
    requires RecordedOk(After(db, h), inv) && IsSlot(inv, i, rep, key)
    ensures Completed(After(db, h), key)
    ensures DistinctNames(inv.campaign) ==>
              && After(db, h).scenarios[key].target == inv.campaign.bindings[i].target
              && exists s :: s in h && s.inv.run == inv.run && Measured(After(db, h), s.inv, i, rep, key)
  {
    HistoryHasProvenance(db, inv, h);
    var last := After(db, h);
    assert MeasuredBy(last, inv, h, key);
    var s, i', rep': nat :| s in h && 0 <= i' && s.inv.run == inv.run && Measured(last, s.inv, i', rep', key);
    assert IsSlot(s.inv, i', rep', key);
    var j: nat, r: nat :| RowOf(last, inv, j, r, key);
  }

  // Bindings that share a scenario name, and so share row keys, also share their target.
  predicate SharedNamesShareTargets(c: Campaign) {
    forall i, j | 0 <= i < |c.bindings| && 0 <= j < |c.bindings|
                  && c.bindings[i].scenario == c.bindings[j].scenario
                  && c.bindings[i].repeats > 0 && c.bindings[j].repeats > 0 ::
      c.bindings[i].target == c.bindings[j].target
  }

  ghost predicate EveryRowHasItsTarget(db: Db, inv: Invocation) {
    forall i: nat, rep: nat, key | IsSlot(inv, i, rep, key) ::
      key in db.scenarios && db.scenarios[key].target == inv.campaign.bindings[i].target
  }

  // One scenario bound to several targets is measured on one of them only, and the run is still
  // recorded as ok: the rows say what every binding asked for exactly when shared names share targets.
  lemma OwnTargetsExactlyWhen(db: Db, h: seq<Session>, inv: Invocation)
    requires Consistent(db) && inv.run !in db.runs && OneCampaign(h, inv)
    requires RecordedOk(After(db, h), inv)
    ensures EveryRowHasItsTarget(After(db, h), inv) <==> SharedNamesShareTargets(inv.campaign)
  {
    HistoryHasProvenance(db, inv, h);
    var last, bs := After(db, h), inv.campaign.bindings;
    if SharedNamesShareTargets(inv.campaign) {
      forall i: nat, rep: nat, key | IsSlot(inv, i, rep, key)
        ensures key in last.scenarios && last.scenarios[key].target == bs[i].target
      {
        assert Completed(last, key);
        var j: nat, r: nat :| RowOf(last, inv, j, r, key);
      }
    }
    if EveryRowHasItsTarget(last, inv) {
      forall i, j | 0 <= i < |bs| && 0 <= j < |bs| && bs[i].scenario == bs[j].scenario
                    && bs[i].repeats > 0 && bs[j].repeats > 0
        ensures bs[i].target == bs[j].target
      {
        assert IsSlot(inv, i, 0, KeyFor(inv.run, bs[i], 0));
        assert IsSlot(inv, j, 0, KeyFor(inv.run, bs[i], 0));
      }
    }
  }

  // A row that a crash or a failure leaves behind blocks its repetition in every later history, and
  // a campaign that asks for that repetition is never recorded as ok.
  lemma LeftoverRowBlocksForever(db: Db, h: seq<Session>, m: nat, inv: Invocation, i: nat, rep: nat)
    requires Consistent(db) && inv.run !in db.runs && OneCampaign(h, inv) && m <= |h|
    requires i < |inv.campaign.bindings| && rep < Times(inv.campaign.bindings[i].repeats)
    requires var key := KeyFor(inv.run, inv.campaign.bindings[i], rep);
             key in After(db, h[..m]).scenarios && After(db, h[..m]).scenarios[key].status != Ok
    ensures Blocked(After(db, h), KeyFor(inv.run, inv.campaign.bindings[i], rep))
    ensures !RecordedOk(After(db, h), inv)
  {
    var key := KeyFor(inv.run, inv.campaign.bindings[i], rep);
    FoundRowIsFrozen(db, h, m, key);
    assert IsSlot(inv, i, rep, key);
    if RecordedOk(After(db, h), inv) {
      RecordedOkIsComplete(db, h, inv, i, rep, key);
    }
  }
}
