// A campaign over one target: its actions as operations on the testfile, and what the jobs find.
module CampaignTestfile {
  import opened Store
  import opened Campaign
  import opened CampaignProtocol
  import opened CampaignHistory
  import Testfile
  import TestfileHistory

  // The target, the bytes that a row's scenario asks for, and how the remote side takes action k:
  // its answer to a prepare, how much of the file jobs leave written, what a cleanup removes.
  datatype World = World(
    target: Target,
    bytes: ScenarioKey -> nat,
    answer: nat -> Testfile.Answer,
    written: nat -> nat,
    fileGone: nat -> bool,
    markerGone: nat -> bool)

  // The row is on the target.
  predicate Here(tables: Db, key: ScenarioKey, w: World) {
    key in tables.scenarios && tables.scenarios[key].target == w.target
  }

  function Preparation(key: ScenarioKey, k: nat, w: World): TestfileHistory.Op {
    TestfileHistory.Prepare(w.bytes(key), w.answer(k))
  }

  // What action k does to the target.
  function OpsOf(a: Action, k: nat, tables: Db, w: World): seq<TestfileHistory.Op> {
    match a
    case Prepare(key) => if Here(tables, key, w) then [Preparation(key, k, w)] else []
    case RunJobs(key) => if Here(tables, key, w) then [TestfileHistory.Measure(w.written(k))] else []
    case CleanUp(target, _) =>
      if target == w.target then [TestfileHistory.Cleanup(w.fileGone(k), w.markerGone(k))] else []
    case _ => []
  }

  function OpsTo(trace: seq<Action>, n: nat, tables: Db, w: World): seq<TestfileHistory.Op>
    requires n <= |trace|
  {
    if n == 0 then [] else OpsTo(trace, n - 1, tables, w) + OpsOf(trace[n - 1], n - 1, tables, w)
  }

  // The target before action n.
  function StateAt(trace: seq<Action>, n: nat, tables: Db, w: World, free: nat): TestfileHistory.State
    requires n <= |trace|
  {
    TestfileHistory.Run(TestfileHistory.Empty(free), OpsTo(trace, n, tables, w))
  }

  // The jobs of a row on the target start only behind a prepare that returned.
  ghost predicate PrepareIsHeeded(trace: seq<Action>, tables: Db, w: World, free: nat) {
    forall k: nat, key | k + 1 < |trace| && trace[k] == Prepare(key) && trace[k + 1] == RunJobs(key)
                         && Here(tables, key, w) ::
      var s, op := StateAt(trace, k, tables, w, free), Preparation(key, k, w);
      TestfileHistory.Possible(s, op) && TestfileHistory.Returns(s, op)
  }

  // No row prepared on the target before action n asks for less.
  ghost predicate NoneAskedLess(trace: seq<Action>, n: nat, tables: Db, w: World, bytes: nat) {
    forall j, key | 0 <= j < n <= |trace| && trace[j] == Prepare(key) && Here(tables, key, w) :: w.bytes(key) >= bytes
  }

  // A row is being prepared only right behind its prepare.
  lemma {:induction false} PreparedRightBefore(db: Db, trace: seq<Action>, key: ScenarioKey)
    requires Lawful(db, trace) && Watch(db, trace).stage == Prepared(key)
    ensures trace != [] && trace[|trace| - 1] == Prepare(key)
  {
  }

  lemma {:induction false} JobsFollowPrepare(db: Db, trace: seq<Action>, k: nat, key: ScenarioKey)
    requires Lawful(db, trace) && k < |trace| && trace[k] == RunJobs(key)
    ensures k > 0 && trace[k - 1] == Prepare(key)
  {
    LawfulPrefix(db, trace, k + 1);
    assert trace[..k + 1][..k] == trace[..k];
    PreparedRightBefore(db, trace[..k], key);
  }

  lemma {:induction false} NoPrepareAskedLess(trace: seq<Action>, n: nat, tables: Db, w: World, bytes: nat)
    requires n <= |trace| && NoneAskedLess(trace, n, tables, w, bytes)
    ensures TestfileHistory.NoPrepareBelow(OpsTo(trace, n, tables, w), bytes)
  {
    if n > 0 {
      NoPrepareAskedLess(trace, n - 1, tables, w, bytes);
    }
  }

  // In any history of executions and resumptions, killed anywhere: as long as no cleanup leaves a
  // marker without its file and no earlier row on the target asked for less, the jobs of a row start
  // with every byte that its scenario asks for written.
  lemma {:induction false} JobsFindTheirBytes(db: Db, h: seq<Session>, w: World, free: nat, k: nat, key: ScenarioKey)
    requires Consistent(db) && k < |TraceOf(db, h)| && TraceOf(db, h)[k] == RunJobs(key)
    requires Here(After(db, h), key, w) && PrepareIsHeeded(TraceOf(db, h), After(db, h), w, free)
    requires NoneAskedLess(TraceOf(db, h), k, After(db, h), w, w.bytes(key))
    requires TestfileHistory.NothingTorn(TestfileHistory.Empty(free), OpsTo(TraceOf(db, h), k, After(db, h), w))
    ensures Testfile.WrittenOf(StateAt(TraceOf(db, h), k, After(db, h), w, free).disk.file) >= w.bytes(key)
  {
    HistoryObeysProtocol(db, h);
    var trace, tables := TraceOf(db, h), After(db, h);
    JobsFollowPrepare(db, trace, k, key);
    hide Lawful, Watch, Consistent, TraceOf, After;
    PreparedBytes(trace, tables, w, free, k, key);
  }

  // One process apart: the jobs stand behind a prepare that was heeded.
  lemma {:induction false} PreparedBytes(trace: seq<Action>, tables: Db, w: World, free: nat, k: nat,
      key: ScenarioKey)
    requires 0 < k < |trace| && trace[k] == RunJobs(key) && trace[k - 1] == Prepare(key)
    requires Here(tables, key, w) && PrepareIsHeeded(trace, tables, w, free)
    requires NoneAskedLess(trace, k, tables, w, w.bytes(key))
    requires TestfileHistory.NothingTorn(TestfileHistory.Empty(free), OpsTo(trace, k, tables, w))
    ensures Testfile.WrittenOf(StateAt(trace, k, tables, w, free).disk.file) >= w.bytes(key)
  {
    hide TestfileHistory.Step, TestfileHistory.Possible, TestfileHistory.Returns;
    var ops, op := OpsTo(trace, k - 1, tables, w), Preparation(key, k - 1, w);
    assert OpsTo(trace, k, tables, w) == ops + [op];
    assert trace[k - 1] == Prepare(key) && trace[k - 1 + 1] == RunJobs(key);
    TestfileHistory.NothingTornBefore(TestfileHistory.Empty(free), ops + [op], |ops|);
    assert (ops + [op])[..|ops|] == ops;
    NoPrepareAskedLess(trace, k - 1, tables, w, w.bytes(key));
    TestfileHistory.NonIncreasingSizesAreWritten(free, ops, op);
    TestfileHistory.RunThen(TestfileHistory.Empty(free), ops, op);
  }
}
