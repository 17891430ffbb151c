// Teardown has no gates: which failing unmounts break the dependency order.
module LustreFailures {
  import opened Arithmetic
  import opened Lustre
  import opened LustreProofs

  // The unmounts that fail whenever they are tried.
  datatype Failing = Failing(servers: set<Server>, clients: set<Node>)

  predicate Determined(c: Cluster, n: Node, cmd: Command, status: nat, f: Failing) {
    match cmd
    case UnmountClient => n in c.clients ==> (status == 2 <==> n in f.clients)
    case Unmount(s) => s in c.servers ==> (status == 2 <==> s in f.servers)
    case _ => true
  }

  ghost predicate FirstFails(d: Driver, d': Driver, f: Failing) {
    exists status: nat :: RunsFirst(d, d', status) && Determined(d.cluster, N1, d.first[0], status, f)
  }

  ghost predicate SecondFails(d: Driver, d': Driver, f: Failing) {
    exists status: nat :: RunsSecond(d, d', status) && Determined(d.cluster, N2, d.second[0], status, f)
  }

  ghost predicate NextFailing(d: Driver, d': Driver, f: Failing) {
    FirstFails(d, d', f) || SecondFails(d, d', f) || Advances(Teardown, d, d')
  }

  // A complete teardown of a dependency-closed cluster, with exactly these failures, in any
  // interleaving.
  ghost predicate TeardownFailing(b: seq<Driver>, f: Failing) {
    && b != [] && Closed(b[0].cluster) && b[0] == Initial(Teardown, b[0].cluster)
    && (forall i | 0 <= i < |b| - 1 :: NextFailing(b[i], b[i + 1], f))
    && Finished(Teardown, b[|b| - 1])
  }

  // Mounted at the start, and left mounted.
  predicate Stuck(s: Server, c0: Cluster, f: Failing) {
    s in c0.servers && s in f.servers
  }

  predicate StuckClient(n: Node, c0: Cluster, f: Failing) {
    n in c0.clients && n in f.clients
  }

  // The condition: a client left mounted keeps both OSTs up, and OST1 left mounted keeps the MDT up.
  predicate OrderSurvives(c0: Cluster, f: Failing) {
    && (StuckClient(N1, c0, f) || StuckClient(N2, c0, f) ==> Stuck(OST1, c0, f) && Stuck(OST0, c0, f))
    && (Stuck(OST1, c0, f) ==> Stuck(OST0, c0, f) || Stuck(MDT0, c0, f))
  }

  // ----- exactly what is mounted at each moment, c0 being the cluster at the start -----

  predicate ClientExact(c: Cluster, at: nat, n: Node, left: seq<Command>, c0: Cluster, f: Failing) {
    n in c.clients <==> n in c0.clients && ((at == 0 && left != []) || n in f.clients)
  }

  // A server as it was at the start, or taken down unless the condition holds.
  predicate Still(s: Server, c: Cluster, c0: Cluster, kept: bool) {
    s in c.servers <==> s in c0.servers && kept
  }

  // The unmounts of N1 in their order: the first that fails keeps itself and all later ones.
  predicate FirstExact(c: Cluster, at: nat, left: nat, c0: Cluster, f: Failing) {
    var running := at < 2 || (at == 2 && left > 0);
    var pending := if at < 2 then 4 else if at == 2 then left else 0;
    var ost0, mdt0 := Stuck(OST0, c0, f), Stuck(OST0, c0, f) || Stuck(MDT0, c0, f);
    && Still(OST0, c, c0, pending >= 4 || Stuck(OST0, c0, f))
    && Still(MDT0, c, c0, pending >= 3 || mdt0)
    && Still(MGS, c, c0, pending >= 2 || mdt0 || Stuck(MGS, c0, f))
    && (running && pending < 4 ==> !ost0)
    && (running && pending < 3 ==> !mdt0)
    && (running && pending < 2 ==> !Stuck(MGS, c0, f))
  }

  predicate SecondExact(c: Cluster, at: nat, left: nat, c0: Cluster, f: Failing) {
    Still(OST1, c, c0, at == 0 || (at == 1 && left == 2) || Stuck(OST1, c0, f))
  }

  // What is mounted keeps its pool, its modules and its NID.
  predicate Supports(c: Cluster) {
    && (forall s | s in c.servers :: s in c.pools && Home(s) in c.modules && Home(s) in c.nids)
    && (forall n | n in c.clients :: n in c.modules && n in c.nids)
  }

  predicate Exact(d: Driver, c0: Cluster, f: Failing) {
    && ScriptsFit(Teardown, d) && Supports(d.cluster)
    && ClientExact(d.cluster, d.at, N1, d.first, c0, f) && ClientExact(d.cluster, d.at, N2, d.second, c0, f)
    && FirstExact(d.cluster, d.at, |d.first|, c0, f) && SecondExact(d.cluster, d.at, |d.second|, c0, f)
  }

  predicate IsTeardown(cmd: Command) {
    cmd.UnmountClient? || cmd.Unmount? || cmd.ExportPools?
  }

  lemma TeardownKeepsSupport(c: Cluster, n: Node, cmd: Command, c': Cluster, status: nat)
    requires Supports(c) && Executes(c, n, cmd, c', status)
    requires IsTeardown(cmd)
    ensures Supports(c')
  {
  }

  // What one command with a determined outcome does to the mounts.
  ghost predicate Effect(c: Cluster, n: Node, cmd: Command, c': Cluster, status: nat, f: Failing) {
    match cmd
    case UnmountClient =>
      && c'.servers == c.servers && (status == 2 <==> n in c.clients && n in f.clients)
      && forall m :: m in c'.clients <==> m in c.clients && (m != n || n in f.clients)
    case Unmount(t) =>
      && c'.clients == c.clients && (status == 2 <==> t in c.servers && t in f.servers)
      && forall s :: s in c'.servers <==> s in c.servers && (s != t || s in f.servers)
    case _ => c'.clients == c.clients && c'.servers == c.servers && status < 2
  }

  lemma CommandHasEffect(c: Cluster, n: Node, cmd: Command, c': Cluster, status: nat, f: Failing)
    requires Executes(c, n, cmd, c', status) && Determined(c, n, cmd, status, f)
    requires IsTeardown(cmd)
    ensures Effect(c, n, cmd, c', status, f)
  {
  }

  function LeftAfter(left: seq<Command>, status: nat): seq<Command>
    requires left != []
  {
    if status == 2 then [] else left[1..]
  }

  lemma ClientStep(c: Cluster, c': Cluster, at: nat, n: Node, left: seq<Command>, m: Node, others: seq<Command>,
      status: nat, c0: Cluster, f: Failing)
    requires TeardownCommandAt(at, n, left) && m != n
    requires Effect(c, n, left[0], c', status, f)
    requires ClientExact(c, at, n, left, c0, f) && ClientExact(c, at, m, others, c0, f)
    ensures ClientExact(c', at, n, LeftAfter(left, status), c0, f) && ClientExact(c', at, m, others, c0, f)
  {
    if at == 0 {
      assert n in c'.clients <==> n in c.clients && n in f.clients;
      assert m in c'.clients <==> m in c.clients;
    } else {
      assert c'.clients == c.clients;
    }
  }

  lemma FirstServerStep(c: Cluster, c': Cluster, at: nat, left: seq<Command>, other: nat, status: nat, c0: Cluster,
      f: Failing)
    requires TeardownCommandAt(at, N1, left)
    requires Effect(c, N1, left[0], c', status, f)
    requires FirstExact(c, at, |left|, c0, f) && SecondExact(c, at, other, c0, f)
    ensures FirstExact(c', at, |LeftAfter(left, status)|, c0, f) && SecondExact(c', at, other, c0, f)
  {
  }

  lemma SecondServerStep(c: Cluster, c': Cluster, at: nat, left: seq<Command>, other: nat, status: nat, c0: Cluster,
      f: Failing)
    requires TeardownCommandAt(at, N2, left)
    requires Effect(c, N2, left[0], c', status, f)
    requires FirstExact(c, at, other, c0, f) && SecondExact(c, at, |left|, c0, f)
    ensures FirstExact(c', at, other, c0, f) && SecondExact(c', at, |LeftAfter(left, status)|, c0, f)
  {
  }

  lemma TeardownCommandOnly(at: nat, n: Node, left: seq<Command>)
    requires TeardownCommandAt(at, n, left)
    ensures IsTeardown(left[0])
  {
  }

  lemma ExactFirst(d: Driver, d': Driver, c0: Cluster, f: Failing, status: nat)
    requires Exact(d, c0, f) && RunsFirst(d, d', status) && Determined(d.cluster, N1, d.first[0], status, f)
    ensures Exact(d', c0, f)
  {
    hide LeftOf, Supports, Executes, Script, Determined, Effect, IsTeardown;
    hide ClientExact, FirstExact, SecondExact, TeardownCommandAt, TeardownNextIs;
    TeardownCommandIs(d.at, N1, d.first);
    TeardownCommandOnly(d.at, N1, d.first);
    TeardownKeepsSupport(d.cluster, N1, d.first[0], d'.cluster, status);
    LeftOfRest(d.first, Script(Teardown, d.at, N1));
    CommandHasEffect(d.cluster, N1, d.first[0], d'.cluster, status, f);
    ClientStep(d.cluster, d'.cluster, d.at, N1, d.first, N2, d.second, status, c0, f);
    FirstServerStep(d.cluster, d'.cluster, d.at, d.first, |d.second|, status, c0, f);
  }

  lemma ExactSecond(d: Driver, d': Driver, c0: Cluster, f: Failing, status: nat)
    requires Exact(d, c0, f) && RunsSecond(d, d', status) && Determined(d.cluster, N2, d.second[0], status, f)
    ensures Exact(d', c0, f)
  {
    hide LeftOf, Supports, Executes, Script, Determined, Effect, IsTeardown;
    hide ClientExact, FirstExact, SecondExact, TeardownCommandAt, TeardownNextIs;
    TeardownCommandIs(d.at, N2, d.second);
    TeardownCommandOnly(d.at, N2, d.second);
    TeardownKeepsSupport(d.cluster, N2, d.second[0], d'.cluster, status);
    LeftOfRest(d.second, Script(Teardown, d.at, N2));
    CommandHasEffect(d.cluster, N2, d.second[0], d'.cluster, status, f);
    ClientStep(d.cluster, d'.cluster, d.at, N2, d.second, N1, d.first, status, c0, f);
    SecondServerStep(d.cluster, d'.cluster, d.at, d.second, |d.first|, status, c0, f);
  }

  lemma ClientAdvance(c: Cluster, at: nat, n: Node, c0: Cluster, f: Failing)
    requires ClientExact(c, at, n, [], c0, f)
    ensures ClientExact(c, at + 1, n, Script(Teardown, at + 1, n), c0, f)
  {
  }

  lemma ServersAdvance(c: Cluster, at: nat, c0: Cluster, f: Failing)
    requires at < 3 && FirstExact(c, at, 0, c0, f) && SecondExact(c, at, 0, c0, f)
    ensures FirstExact(c, at + 1, |Script(Teardown, at + 1, N1)|, c0, f)
    ensures SecondExact(c, at + 1, |Script(Teardown, at + 1, N2)|, c0, f)
  {
    hide Still, Stuck;
    TeardownScript(at + 1, N1);
    TeardownScript(at + 1, N2);
  }

  lemma ExactAdvance(d: Driver, d': Driver, c0: Cluster, f: Failing)
    requires Exact(d, c0, f) && Advances(Teardown, d, d')
    ensures Exact(d', c0, f)
  {
    hide Supports, LeftOf, Script, ClientExact, FirstExact, SecondExact;
    LeftOfWhole(Teardown, d.at + 1);
    ClientAdvance(d.cluster, d.at, N1, c0, f);
    ClientAdvance(d.cluster, d.at, N2, c0, f);
    ServersAdvance(d.cluster, d.at, c0, f);
  }

  lemma ExactStarts(c: Cluster, f: Failing)
    requires Closed(c)
    ensures Exact(Initial(Teardown, c), c, f)
  {
    hide Closed, Supports, LeftOf;
    ClosedSupports(c);
    LeftOfWhole(Teardown, 0);
  }

  lemma ClosedSupports(c: Cluster)
    requires Closed(c)
    ensures Supports(c)
  {
  }

  lemma {:induction false} ExactHolds(b: seq<Driver>, f: Failing, i: nat)
    requires TeardownFailing(b, f) && i < |b|
    ensures Exact(b[i], b[0].cluster, f)
  {
    hide Exact, RunsFirst, RunsSecond, Advances, Determined, Closed;
    if i == 0 {
      ExactStarts(b[0].cluster, f);
    } else {
      ExactHolds(b, f, i - 1);
      assert NextFailing(b[i - 1], b[i - 1 + 1], f);
      ExactNext(b[i - 1], b[i], b[0].cluster, f);
    }
  }

  lemma ExactNext(d: Driver, d': Driver, c0: Cluster, f: Failing)
    requires Exact(d, c0, f) && NextFailing(d, d', f)
    ensures Exact(d', c0, f)
  {
    hide Exact, Executes, Determined;
    if FirstFails(d, d', f) {
      var status: nat :| RunsFirst(d, d', status) && Determined(d.cluster, N1, d.first[0], status, f);
      ExactFirst(d, d', c0, f, status);
    } else if SecondFails(d, d', f) {
      var status: nat :| RunsSecond(d, d', status) && Determined(d.cluster, N2, d.second[0], status, f);
      ExactSecond(d, d', c0, f, status);
    } else {
      ExactAdvance(d, d', c0, f);
    }
  }

  // Servers that stay up hold up those that stay above them.
  lemma ServersInOrder(d: Driver, c0: Cluster, f: Failing)
    requires Exact(d, c0, f) && Closed(c0) && OrderSurvives(c0, f)
    ensures var c := d.cluster;
            && (MDT0 in c.servers ==> MGS in c.servers)
            && (OST0 in c.servers || OST1 in c.servers ==> MDT0 in c.servers)
  {
    hide ScriptsFit, Supports, ClientExact;
  }

  lemma ClientsHaveServers(d: Driver, c0: Cluster, f: Failing)
    requires Exact(d, c0, f) && Closed(c0) && OrderSurvives(c0, f)
    ensures N1 in d.cluster.clients || N2 in d.cluster.clients ==> AllServers(d.cluster.servers)
  {
    hide Supports, LeftOf;
  }

  lemma ExactIsClosed(d: Driver, c0: Cluster, f: Failing)
    requires Exact(d, c0, f) && Closed(c0) && OrderSurvives(c0, f)
    ensures Closed(d.cluster)
  {
    ServersInOrder(d, c0, f);
    ClientsHaveServers(d, c0, f);
    hide ClientExact, FirstExact, SecondExact, ScriptsFit, OrderSurvives;
    var c := d.cluster;
    forall n | n in c.clients
      ensures n in c.modules && n in c.nids && AllServers(c.servers)
    {
      match n
      case N1 =>
      case N2 =>
    }
  }

  lemma FinalClosedSurvives(d: Driver, c0: Cluster, f: Failing)
    requires Exact(d, c0, f) && Closed(c0) && Finished(Teardown, d) && Closed(d.cluster)
    ensures OrderSurvives(c0, f)
  {
  }

  // A teardown of any dependency-closed cluster stays dependency-closed throughout exactly when the
  // unmounts that fail leave the order intact.
  lemma TeardownStaysClosedExactlyWhen(b: seq<Driver>, f: Failing)
    requires TeardownFailing(b, f)
    ensures (forall i | 0 <= i < |b| :: Closed(b[i].cluster)) <==> OrderSurvives(b[0].cluster, f)
  {
    hide Exact, Closed, OrderSurvives;
    var c0 := b[0].cluster;
    ExactHolds(b, f, |b| - 1);
    if forall i | 0 <= i < |b| :: Closed(b[i].cluster) {
      FinalClosedSurvives(b[|b| - 1], c0, f);
    }
    if OrderSurvives(c0, f) {
      forall i | 0 <= i < |b|
        ensures Closed(b[i].cluster)
      {
        ExactHolds(b, f, i);
        ExactIsClosed(b[i], c0, f);
      }
    }
  }

  // ----- every combination of failures can occur -----

  ghost predicate LeadsTo(b: seq<Driver>, c0: Cluster, d: Driver, f: Failing) {
    && b != [] && b[0] == Initial(Teardown, c0) && b[|b| - 1] == d
    && forall i | 0 <= i < |b| - 1 :: NextFailing(b[i], b[i + 1], f)
  }

  ghost predicate Arrives(c0: Cluster, d: Driver, f: Failing) {
    exists b :: LeadsTo(b, c0, d, f)
  }

  lemma ArrivesNext(c0: Cluster, d: Driver, d': Driver, f: Failing)
    requires Arrives(c0, d, f) && NextFailing(d, d', f)
    ensures Arrives(c0, d', f)
  {
    hide NextFailing;
    var b :| LeadsTo(b, c0, d, f);
    var longer := b + [d'];
    forall i | 0 <= i < |longer| - 1
      ensures NextFailing(longer[i], longer[i + 1], f)
    {
      if i < |b| - 1 {
        assert longer[i] == b[i] && longer[i + 1] == b[i + 1];
      }
    }
    assert LeadsTo(longer, c0, d', f);
  }

  lemma CommandCanEnd(c: Cluster, n: Node, cmd: Command, f: Failing) returns (c': Cluster, status: nat)
    requires IsTeardown(cmd)
    ensures Executes(c, n, cmd, c', status) && Determined(c, n, cmd, status, f)
  {
    if cmd.UnmountClient? {
      var done := n in c.clients && n !in f.clients;
      c' := if done then c.(clients := c.clients - {n}) else c;
      status := if n in c.clients && !done then 2 else 0;
    } else if cmd.Unmount? {
      var done := cmd.server in c.servers && cmd.server !in f.servers;
      c' := if done then c.(servers := c.servers - {cmd.server}) else c;
      status := if cmd.server in c.servers && !done then 2 else 0;
    } else {
      c' := c.(pools := set s | s in c.pools && (Home(s) != n || s in c.servers));
      status := if exists s | s in c'.pools :: Home(s) == n then 1 else 0;
    }
  }

  predicate TeardownOnly(script: seq<Command>) {
    forall k | 0 <= k < |script| :: IsTeardown(script[k])
  }

  lemma {:induction false} FirstCanFinish(c0: Cluster, d: Driver, f: Failing) returns (d': Driver)
    requires Arrives(c0, d, f) && !d.halted && TeardownOnly(d.first)
    ensures Arrives(c0, d', f) && !d'.halted && d'.at == d.at && d'.first == [] && d'.second == d.second
    decreases |d.first|
  {
    hide Arrives, Executes, Determined, IsTeardown;
    if d.first == [] {
      d' := d;
    } else {
      var c', status := CommandCanEnd(d.cluster, N1, d.first[0], f);
      var next := d.(cluster := c', first := LeftAfter(d.first, status), worst := Max(d.worst, status));
      assert RunsFirst(d, next, status);
      ArrivesNext(c0, d, next, f);
      d' := FirstCanFinish(c0, next, f);
    }
  }

  lemma {:induction false} SecondCanFinish(c0: Cluster, d: Driver, f: Failing) returns (d': Driver)
    requires Arrives(c0, d, f) && !d.halted && TeardownOnly(d.second)
    ensures Arrives(c0, d', f) && !d'.halted && d'.at == d.at && d'.second == [] && d'.first == d.first
    decreases |d.second|
  {
    hide Arrives, Executes, Determined, IsTeardown;
    if d.second == [] {
      d' := d;
    } else {
      var c', status := CommandCanEnd(d.cluster, N2, d.second[0], f);
      var next := d.(cluster := c', second := LeftAfter(d.second, status), worst := Max(d.worst, status));
      assert RunsSecond(d, next, status);
      ArrivesNext(c0, d, next, f);
      d' := SecondCanFinish(c0, next, f);
    }
  }

  lemma {:induction false} PhaseCanBeReached(c0: Cluster, at: nat, f: Failing) returns (d: Driver)
    requires at <= 3
    ensures Arrives(c0, d, f) && !d.halted && d == Enter(Teardown, d, at)
  {
    if at == 0 {
      d := Initial(Teardown, c0);
      assert LeadsTo([d], c0, d, f);
    } else {
      hide Arrives;
      d := PhaseCanBeReached(c0, at - 1, f);
      TeardownScript(at - 1, N1);
      TeardownScript(at - 1, N2);
      d := FirstCanFinish(c0, d, f);
      d := SecondCanFinish(c0, d, f);
      assert Advances(Teardown, d, Enter(Teardown, d, at));
      ArrivesNext(c0, d, Enter(Teardown, d, at), f);
      d := Enter(Teardown, d, at);
    }
  }

  // Any dependency-closed cluster can be torn down with any unmounts failing, in particular with
  // those that break the order.
  lemma TeardownCanFail(c0: Cluster, f: Failing) returns (b: seq<Driver>)
    requires Closed(c0)
    ensures TeardownFailing(b, f) && b[0].cluster == c0
  {
    var d := PhaseCanBeReached(c0, 3, f);
    b :| LeadsTo(b, c0, d, f);
  }
}
