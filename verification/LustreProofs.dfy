// Safety of bringup and teardown over every run.
module LustreProofs {
  import opened Lustre

  // ----- bringup -----

  // What node n's script of the first phase has established when `left` commands remain.
  predicate NodePrepared(c: Cluster, n: Node, left: seq<Command>) {
    && (|left| <= 2 ==> HasPools(c, n))
    && (|left| <= 1 ==> n in c.modules)
    && (left == [] ==> n in c.nids)
  }

  // As long as nothing was red, what a phase is for on a node is done when its script is over.
  predicate Kept(c: Cluster, at: nat, n: Node, left: seq<Command>) {
    match at
    case 0 => NodePrepared(c, n, left)
    case 2 => n == N1 && left == [] ==> MGS in c.servers
    case 3 => n == N1 && left == [] ==> MDT0 in c.servers
    case 4 => left == [] ==> (if n == N1 then OST0 else OST1) in c.servers
    case 6 => left == [] ==> n in c.clients
    case 7 => n in c.clients
    case _ => true
  }

  // The commands left belong to the phase, whatever has happened.
  predicate LeftOf(left: seq<Command>, script: seq<Command>) {
    |left| <= |script| && left == script[|script| - |left|..]
  }

  predicate ScriptsFit(plan: Plan, d: Driver) {
    d.at <= Phases(plan) && LeftOf(d.first, Script(plan, d.at, N1)) && LeftOf(d.second, Script(plan, d.at, N2))
  }

  // What the gates have established before phase `at`.
  predicate Established(c: Cluster, at: nat) {
    && (at >= 1 ==> AllServers(c.pools) && BothNodes(c.modules) && BothNodes(c.nids))
    && (at >= 3 ==> MGS in c.servers)
    && (at >= 4 ==> MDT0 in c.servers)
    && (at >= 5 ==> OST0 in c.servers && OST1 in c.servers)
  }

  predicate BringupInvariant(d: Driver) {
    && ScriptsFit(Bringup, d) && Closed(d.cluster) && Established(d.cluster, d.at)
    && (d.worst < 2 ==> Kept(d.cluster, d.at, N1, d.first) && Kept(d.cluster, d.at, N2, d.second))
  }

  predicate Grows(c: Cluster, c': Cluster) {
    && c.pools <= c'.pools && c.modules <= c'.modules && c.nids <= c'.nids
    && c.servers <= c'.servers && c.clients <= c'.clients
  }

  predicate Achieved(c: Cluster, n: Node, cmd: Command) {
    match cmd
    case ImportPools => HasPools(c, n)
    case LoadModules => n in c.modules
    case AddNid => n in c.nids
    case Mount(s) => s in c.servers
    case MountClient => n in c.clients
    case _ => true
  }

  predicate IsBringup(cmd: Command) {
    cmd.ImportPools? || cmd.LoadModules? || cmd.AddNid? || cmd.Ping? || cmd.Mount? || cmd.CheckOsts? || cmd.MountClient?
  }

  // What must already be there when a command may mount something.
  predicate Supported(c: Cluster, n: Node, cmd: Command) {
    match cmd
    case Mount(s) =>
      && s in c.pools && Home(s) in c.modules && Home(s) in c.nids
      && (s == MDT0 ==> MGS in c.servers)
      && (s == OST0 || s == OST1 ==> MDT0 in c.servers)
    case MountClient => n in c.modules && n in c.nids && AllServers(c.servers)
    case _ => true
  }

  lemma BringupCommand(c: Cluster, n: Node, cmd: Command, c': Cluster, status: nat)
    requires Closed(c) && IsBringup(cmd) && Executes(c, n, cmd, c', status) && Supported(c, n, cmd)
    ensures Closed(c') && Grows(c, c')
    ensures status < 2 ==> Achieved(c', n, cmd)
    ensures Achieved(c, n, cmd) ==> c' == c
  {
  }

  // Every command of the plan finds what it needs, thanks to the gates before its phase.
  lemma GatesSupport(c: Cluster, at: nat, n: Node, k: nat)
    requires k < |Script(Bringup, at, n)| && Established(c, at)
    ensures var cmd := Script(Bringup, at, n)[k]; IsBringup(cmd) && Supported(c, n, cmd)
  {
  }

  lemma EstablishedStays(c: Cluster, c': Cluster, at: nat)
    requires Established(c, at) && Grows(c, c')
    ensures Established(c', at)
  {
  }

  lemma LeftOfRest(left: seq<Command>, script: seq<Command>)
    requires LeftOf(left, script) && left != []
    ensures left[0] == script[|script| - |left|]
    ensures LeftOf(left[1..], script) && LeftOf([], script)
  {
  }

  lemma KeptStays(c: Cluster, c': Cluster, at: nat, n: Node, left: seq<Command>)
    requires Kept(c, at, n, left) && Grows(c, c')
    ensures Kept(c', at, n, left)
  {
  }

  // The next command of a bringup script, by what is left of the script.
  predicate BringupCommandAt(at: nat, n: Node, left: seq<Command>) {
    left != [] &&
    match at
    case 0 =>
      |left| <= 3 && left[0] == (if |left| == 3 then ImportPools else if |left| == 2 then LoadModules else AddNid)
    case 2 => n == N1 && |left| == 1 && left[0] == Mount(MGS)
    case 3 => n == N1 && |left| == 1 && left[0] == Mount(MDT0)
    case 4 => |left| == 1 && left[0] == Mount(if n == N1 then OST0 else OST1)
    case 6 => |left| == 1 && left[0] == MountClient
    case _ => at == 1 || at == 5
  }

  lemma BringupCommandIs(at: nat, n: Node, left: seq<Command>)
    requires LeftOf(left, Script(Bringup, at, n)) && left != []
    ensures BringupCommandAt(at, n, left)
  {
    var script := Script(Bringup, at, n);
    LeftOfRest(left, script);
    assert |left| <= |script| && left[0] == script[|script| - |left|];
    hide LeftOf;
    match at
    case 0 =>
    case 1 =>
    case 2 =>
    case 3 =>
    case 4 =>
    case 5 =>
    case 6 =>
    case _ =>
  }

  lemma KeptStep(c: Cluster, c': Cluster, at: nat, n: Node, left: seq<Command>)
    requires BringupCommandAt(at, n, left)
    requires Kept(c, at, n, left) && Grows(c, c') && Achieved(c', n, left[0])
    ensures Kept(c', at, n, left[1..])
  {
    KeptStays(c, c', at, n, left);
    hide Grows;
  }

  // One command of one script, on either node.
  lemma BringupStep(c: Cluster, c': Cluster, at: nat, n: Node, left: seq<Command>, status: nat)
    requires LeftOf(left, Script(Bringup, at, n)) && left != []
    requires Closed(c) && Established(c, at) && Executes(c, n, left[0], c', status)
    ensures Closed(c') && Established(c', at) && Grows(c, c')
            && LeftOf(if status == 2 then [] else left[1..], Script(Bringup, at, n))
    ensures status < 2 && Kept(c, at, n, left) ==> Kept(c', at, n, left[1..])
  {
    LeftOfRest(left, Script(Bringup, at, n));
    GatesSupport(c, at, n, |Script(Bringup, at, n)| - |left|);
    hide Executes, Closed, Kept, Achieved, Supported, LeftOf, Script;
    BringupCommand(c, n, left[0], c', status);
    EstablishedStays(c, c', at);
    if status < 2 && Kept(c, at, n, left) {
      BringupCommandIs(at, n, left);
      KeptStep(c, c', at, n, left);
    }
  }

  lemma ExecutedStatus(c: Cluster, n: Node, cmd: Command, c': Cluster, status: nat)
    requires Executes(c, n, cmd, c', status)
    ensures status <= 2
  {
  }

  lemma BringupNext(d: Driver, d': Driver)
    requires BringupInvariant(d) && Next(Bringup, d, d')
    ensures BringupInvariant(d')
  {
    hide Executes, Closed, Established, Kept, Grows, LeftOf, Script;
    if status: nat :| RunsFirst(d, d', status) {
      BringupStep(d.cluster, d'.cluster, d.at, N1, d.first, status);
      ExecutedStatus(d.cluster, N1, d.first[0], d'.cluster, status);
      if d'.worst < 2 {
        KeptStays(d.cluster, d'.cluster, d.at, N2, d.second);
      }
    } else if status: nat :| RunsSecond(d, d', status) {
      BringupStep(d.cluster, d'.cluster, d.at, N2, d.second, status);
      ExecutedStatus(d.cluster, N2, d.second[0], d'.cluster, status);
      if d'.worst < 2 {
        KeptStays(d.cluster, d'.cluster, d.at, N1, d.first);
      }
    } else {
      BringupAdvance(d, d');
    }
  }

  lemma LeftOfWhole(plan: Plan, at: nat)
    ensures LeftOf(Script(plan, at, N1), Script(plan, at, N1)) && LeftOf(Script(plan, at, N2), Script(plan, at, N2))
  {
    assert Script(plan, at, N1)[0..] == Script(plan, at, N1);
    assert Script(plan, at, N2)[0..] == Script(plan, at, N2);
  }

  // A gate that lets the driver on has seen the phase do its work.
  lemma GateEstablishes(c: Cluster, at: nat)
    requires at < 7 && Established(c, at)
    requires at < 5 ==> Kept(c, at, N1, []) && Kept(c, at, N2, [])
    ensures Established(c, at + 1)
    ensures Kept(c, at, N1, []) && Kept(c, at, N2, []) ==>
              Kept(c, at + 1, N1, Script(Bringup, at + 1, N1)) && Kept(c, at + 1, N2, Script(Bringup, at + 1, N2))
    ensures at >= 5 ==> at + 1 == 6 || at + 1 == 7
  {
  }

  lemma BringupAdvance(d: Driver, d': Driver)
    requires BringupInvariant(d) && Advances(Bringup, d, d')
    ensures BringupInvariant(d')
  {
    hide Closed, LeftOf, Kept, Established, Script;
    LeftOfWhole(Bringup, d.at + 1);
    if Gated(Bringup, d.at) && d.worst >= 2 {
    } else {
      GateEstablishes(d.cluster, d.at);
    }
  }

  lemma {:induction false} BringupHolds(b: seq<Driver>, i: nat)
    requires Run(Bringup, b) && Closed(b[0].cluster) && i < |b|
    ensures BringupInvariant(b[i])
  {
    if i == 0 {
      assert b[0] == Initial(Bringup, b[0].cluster);
    } else {
      BringupHolds(b, i - 1);
      assert Next(Bringup, b[i - 1], b[i - 1 + 1]);
      BringupNext(b[i - 1], b[i]);
    }
  }

  // From a dependency-closed cluster, every state of every bringup is dependency-closed, whatever
  // the interleaving and whichever commands fail; one that ends without red has everything up.
  lemma BringupKeepsClosed(b: seq<Driver>, i: nat)
    requires Run(Bringup, b) && Closed(b[0].cluster) && i < |b|
    ensures Closed(b[i].cluster)
    ensures Finished(Bringup, b[i]) && b[i].worst < 2 ==> AllUp(b[i].cluster)
  {
    BringupHolds(b, i);
  }

  lemma UpIsClosed(c: Cluster)
    requires AllUp(c)
    ensures Closed(c) && Established(c, 7)
    ensures forall n, cmd :: IsBringup(cmd) ==> Achieved(c, n, cmd)
  {
    forall s | s in c.servers
      ensures s in c.pools && Home(s) in c.modules && Home(s) in c.nids
    {
      EveryServer(s, c.pools);
      EveryNode(Home(s), c.modules);
      EveryNode(Home(s), c.nids);
    }
    forall n | n in c.clients
      ensures n in c.modules && n in c.nids
    {
      EveryNode(n, c.modules);
      EveryNode(n, c.nids);
    }
    forall n, cmd | IsBringup(cmd)
      ensures Achieved(c, n, cmd)
    {
      EveryNode(n, c.modules);
      EveryNode(n, c.nids);
      EveryNode(n, c.clients);
      if cmd.Mount? {
        EveryServer(cmd.server, c.servers);
      }
    }
  }

  lemma EveryServer(s: Server, servers: set<Server>)
    requires AllServers(servers)
    ensures s in servers
  {
    match s
    case MGS =>
    case MDT0 =>
    case OST0 =>
    case OST1 =>
  }

  lemma EveryNode(n: Node, nodes: set<Node>)
    requires BothNodes(nodes)
    ensures n in nodes
  {
    match n
    case N1 =>
    case N2 =>
  }

  lemma BringupChangesNothing(d: Driver, d': Driver)
    requires ScriptsFit(Bringup, d) && AllUp(d.cluster) && Next(Bringup, d, d')
    ensures d'.cluster == d.cluster
  {
    UpIsClosed(d.cluster);
    hide Executes, Closed, AllUp, Script;
    if status: nat :| RunsFirst(d, d', status) {
      LeftOfRest(d.first, Script(Bringup, d.at, N1));
      GatesSupport(d.cluster, d.at, N1, |Script(Bringup, d.at, N1)| - |d.first|);
      BringupCommand(d.cluster, N1, d.first[0], d'.cluster, status);
    } else if status: nat :| RunsSecond(d, d', status) {
      LeftOfRest(d.second, Script(Bringup, d.at, N2));
      GatesSupport(d.cluster, d.at, N2, |Script(Bringup, d.at, N2)| - |d.second|);
      BringupCommand(d.cluster, N2, d.second[0], d'.cluster, status);
    }
  }

  // A bringup of a cluster that is up changes nothing at any moment, whatever its probes answer.
  lemma {:induction false} BringupIsIdempotent(b: seq<Driver>, i: nat)
    requires Run(Bringup, b) && AllUp(b[0].cluster) && i < |b|
    ensures b[i].cluster == b[0].cluster
  {
    if i > 0 {
      BringupIsIdempotent(b, i - 1);
      UpIsClosed(b[0].cluster);
      BringupHolds(b, i - 1);
      assert Next(Bringup, b[i - 1], b[i - 1 + 1]);
      BringupChangesNothing(b[i - 1], b[i]);
    }
  }

  // ----- teardown -----

  // What teardown has taken down on a node while no unmount failed.
  predicate TakenDown(c: Cluster, at: nat, n: Node, left: seq<Command>) {
    match at
    case 0 => left == [] ==> n !in c.clients
    case 1 => n !in c.clients && (n == N2 && |left| <= 1 ==> OST1 !in c.servers)
    case 2 =>
      && n !in c.clients && OST1 !in c.servers
      && (n == N1 && |left| <= 3 ==> OST0 !in c.servers)
      && (n == N1 && |left| <= 2 ==> MDT0 !in c.servers)
      && (n == N1 && |left| <= 1 ==> MGS !in c.servers)
    case _ => n !in c.clients && OST0 !in c.servers && OST1 !in c.servers && MDT0 !in c.servers && MGS !in c.servers
  }

  predicate TeardownInvariant(d: Driver) {
    && ScriptsFit(Teardown, d)
    && (d.worst < 2 ==>
          Closed(d.cluster) && TakenDown(d.cluster, d.at, N1, d.first) && TakenDown(d.cluster, d.at, N2, d.second))
  }

  predicate Shrinks(c: Cluster, c': Cluster) {
    && c'.pools <= c.pools && c'.modules == c.modules && c'.nids == c.nids
    && c'.servers <= c.servers && c'.clients <= c.clients
  }

  // Nothing mounted depends on what the command takes down.
  predicate Unneeded(c: Cluster, cmd: Command) {
    match cmd
    case Unmount(s) =>
      && N1 !in c.clients && N2 !in c.clients
      && (s == MGS || s == MDT0 ==> OST0 !in c.servers && OST1 !in c.servers)
      && (s == MGS ==> MDT0 !in c.servers)
    case _ => cmd.UnmountClient? || cmd.ExportPools?
  }

  predicate Gone(c: Cluster, n: Node, cmd: Command) {
    match cmd
    case Unmount(s) => s !in c.servers
    case UnmountClient => n !in c.clients
    case _ => true
  }

  lemma TeardownCommand(c: Cluster, n: Node, cmd: Command, c': Cluster, status: nat)
    requires Closed(c) && Executes(c, n, cmd, c', status) && status < 2 && Unneeded(c, cmd)
    ensures Closed(c') && Shrinks(c, c') && Gone(c', n, cmd)
  {
    forall m | m in c'.clients
      ensures m in c.clients && AllServers(c'.servers)
    {
      assert m in c.clients;
      match m
      case N1 =>
      case N2 =>
    }
  }

  // The next command of a teardown script, by how much is left of the script.
  predicate TeardownNextIs(at: nat, n: Node, left: nat, cmd: Command) {
    match at
    case 0 => left == 1 && cmd == UnmountClient
    case 1 => n == N2 && left <= 2 && cmd == (if left == 2 then Unmount(OST1) else ExportPools)
    case 2 =>
      n == N1 && left <= 4 &&
      cmd == (if left == 4 then Unmount(OST0) else if left == 3 then Unmount(MDT0)
              else if left == 2 then Unmount(MGS) else ExportPools)
    case _ => false
  }

  predicate TeardownCommandAt(at: nat, n: Node, left: seq<Command>) {
    left != [] && TeardownNextIs(at, n, |left|, left[0])
  }

  lemma TeardownScript(at: nat, n: Node)
    ensures Script(Teardown, at, n) ==
            if at == 0 then [UnmountClient]
            else if at == 1 && n == N2 then [Unmount(OST1), ExportPools]
            else if at == 2 && n == N1 then [Unmount(OST0), Unmount(MDT0), Unmount(MGS), ExportPools]
            else []
  {
  }

  lemma TeardownScriptIs(at: nat, n: Node, k: nat)
    requires k < |Script(Teardown, at, n)|
    ensures TeardownNextIs(at, n, |Script(Teardown, at, n)| - k, Script(Teardown, at, n)[k])
  {
  }

  lemma TeardownCommandIs(at: nat, n: Node, left: seq<Command>)
    requires LeftOf(left, Script(Teardown, at, n)) && left != []
    ensures TeardownCommandAt(at, n, left)
  {
    hide Script, TeardownNextIs;
    var script := Script(Teardown, at, n);
    LeftOfRest(left, script);
    TeardownScriptIs(at, n, |script| - |left|);
  }

  lemma OrderSupports(c: Cluster, at: nat, n: Node, left: seq<Command>, m: Node, other: seq<Command>)
    requires TeardownCommandAt(at, n, left) && m != n
    requires TakenDown(c, at, n, left) && TakenDown(c, at, m, other)
    ensures Unneeded(c, left[0])
  {
  }

  lemma TakenDownNext(c': Cluster, at: nat, n: Node, left: seq<Command>)
    requires TeardownCommandAt(at, n, left)
    requires TakenDown(c', at, n, left) && Gone(c', n, left[0])
    ensures TakenDown(c', at, n, left[1..])
  {
  }

  lemma TeardownStep(c: Cluster, c': Cluster, at: nat, n: Node, left: seq<Command>, other: seq<Command>, status: nat)
    requires LeftOf(left, Script(Teardown, at, n)) && left != [] && status < 2
    requires Closed(c) && Executes(c, n, left[0], c', status)
    requires TakenDown(c, at, n, left) && TakenDown(c, at, if n == N1 then N2 else N1, other)
    ensures Closed(c') && Shrinks(c, c') && TakenDown(c', at, n, left[1..])
  {
    hide Closed, Executes, LeftOf, Script, TakenDown, Shrinks, Unneeded, Gone, TeardownCommandAt;
    TeardownCommandIs(at, n, left);
    OrderSupports(c, at, n, left, if n == N1 then N2 else N1, other);
    TeardownCommand(c, n, left[0], c', status);
    TakenDownStays(c, c', at, n, left);
    TakenDownNext(c', at, n, left);
  }

  lemma TakenDownStays(c: Cluster, c': Cluster, at: nat, n: Node, left: seq<Command>)
    requires TakenDown(c, at, n, left) && Shrinks(c, c')
    ensures TakenDown(c', at, n, left)
  {
  }

  lemma TeardownNext(d: Driver, d': Driver)
    requires TeardownInvariant(d) && Next(Teardown, d, d')
    ensures TeardownInvariant(d') && d'.worst >= d.worst
  {
    hide Executes, Closed, TakenDown, Shrinks, LeftOf, Script;
    if status: nat :| RunsFirst(d, d', status) {
      LeftOfRest(d.first, Script(Teardown, d.at, N1));
      ExecutedStatus(d.cluster, N1, d.first[0], d'.cluster, status);
      if d'.worst < 2 {
        TeardownStep(d.cluster, d'.cluster, d.at, N1, d.first, d.second, status);
        TakenDownStays(d.cluster, d'.cluster, d.at, N2, d.second);
      }
    } else if status: nat :| RunsSecond(d, d', status) {
      LeftOfRest(d.second, Script(Teardown, d.at, N2));
      ExecutedStatus(d.cluster, N2, d.second[0], d'.cluster, status);
      if d'.worst < 2 {
        TeardownStep(d.cluster, d'.cluster, d.at, N2, d.second, d.first, status);
        TakenDownStays(d.cluster, d'.cluster, d.at, N1, d.first);
      }
    } else {
      TeardownAdvance(d, d');
    }
  }

  lemma TakenDownAdvance(c: Cluster, at: nat)
    requires at < 3 && TakenDown(c, at, N1, []) && TakenDown(c, at, N2, [])
    ensures TakenDown(c, at + 1, N1, Script(Teardown, at + 1, N1))
            && TakenDown(c, at + 1, N2, Script(Teardown, at + 1, N2))
  {
  }

  lemma TeardownAdvance(d: Driver, d': Driver)
    requires TeardownInvariant(d) && Advances(Teardown, d, d')
    ensures TeardownInvariant(d') && d'.worst == d.worst
  {
    hide Closed, LeftOf, TakenDown, Script;
    LeftOfWhole(Teardown, d.at + 1);
    if d.worst < 2 {
      TakenDownAdvance(d.cluster, d.at);
    }
  }

  lemma {:induction false} TeardownHolds(b: seq<Driver>, i: nat)
    requires Run(Teardown, b) && Closed(b[0].cluster) && i < |b|
    ensures TeardownInvariant(b[i])
    ensures i > 0 ==> b[i - 1].worst <= b[i].worst
  {
    hide TeardownInvariant, Next, Closed;
    if i > 0 {
      TeardownHolds(b, i - 1);
      assert Next(Teardown, b[i - 1], b[i - 1 + 1]);
      TeardownNext(b[i - 1], b[i]);
    } else {
      TeardownStarts(b[0].cluster);
    }
  }

  lemma TeardownStarts(c: Cluster)
    requires Closed(c)
    ensures TeardownInvariant(Initial(Teardown, c))
  {
  }

  lemma {:induction false} WorstOnlyGrows(b: seq<Driver>, i: nat, j: nat)
    requires Run(Teardown, b) && Closed(b[0].cluster) && i <= j < |b|
    ensures b[i].worst <= b[j].worst
  {
    if i < j {
      WorstOnlyGrows(b, i, j - 1);
      TeardownHolds(b, j);
    }
  }

  // A teardown in which no unmount fails passes only through dependency-closed states, and ends
  // with nothing mounted.
  lemma TeardownKeepsClosed(b: seq<Driver>, i: nat)
    requires Run(Teardown, b) && Closed(b[0].cluster) && i < |b|
    requires b[|b| - 1].worst < 2
    ensures Closed(b[i].cluster)
    ensures Finished(Teardown, b[i]) ==> b[i].cluster.servers == {} && b[i].cluster.clients == {}
  {
    TeardownHolds(b, i);
    WorstOnlyGrows(b, i, |b| - 1);
    hide Run, Closed;
    if Finished(Teardown, b[i]) {
      NothingLeft(b[i].cluster, b[i].first, b[i].second);
    }
  }

  lemma NothingLeft(c: Cluster, first: seq<Command>, second: seq<Command>)
    requires TakenDown(c, 3, N1, first) && TakenDown(c, 3, N2, second)
    ensures c.servers == {} && c.clients == {}
  {
    forall s | s in c.servers
      ensures false
    {
      match s
      case MGS =>
      case MDT0 =>
      case OST0 =>
      case OST1 =>
    }
    forall n | n in c.clients
      ensures false
    {
      match n
      case N1 =>
      case N2 =>
    }
  }

  // Down and up again: the same servers and clients are mounted as before.
  lemma CycleRestoresMounts(down: seq<Driver>, up: seq<Driver>)
    requires Run(Teardown, down) && AllUp(down[0].cluster)
    requires Finished(Teardown, down[|down| - 1]) && down[|down| - 1].worst < 2
    requires Run(Bringup, up) && up[0].cluster == down[|down| - 1].cluster
    requires Finished(Bringup, up[|up| - 1]) && up[|up| - 1].worst < 2
    ensures forall i | 0 <= i < |down| :: Closed(down[i].cluster)
    ensures forall i | 0 <= i < |up| :: Closed(up[i].cluster)
    ensures up[0].cluster.servers == {} && up[0].cluster.clients == {}
    ensures up[|up| - 1].cluster.servers == down[0].cluster.servers
            && up[|up| - 1].cluster.clients == down[0].cluster.clients
  {
    UpIsClosed(down[0].cluster);
    forall i | 0 <= i < |down|
      ensures Closed(down[i].cluster)
    {
      TeardownKeepsClosed(down, i);
    }
    TeardownKeepsClosed(down, |down| - 1);
    forall i | 0 <= i < |up|
      ensures Closed(up[i].cluster)
    {
      BringupKeepsClosed(up, i);
    }
    BringupKeepsClosed(up, |up| - 1);
    UpIsAll(down[0].cluster, up[|up| - 1].cluster);
  }

  lemma UpIsAll(a: Cluster, b: Cluster)
    requires AllUp(a) && AllUp(b)
    ensures a.servers == b.servers && a.clients == b.clients
  {
    forall s
      ensures s in a.servers <==> s in b.servers
    {
      EveryServer(s, a.servers);
      EveryServer(s, b.servers);
    }
    forall n
      ensures n in a.clients <==> n in b.clients
    {
      EveryNode(n, a.clients);
      EveryNode(n, b.clients);
    }
  }
}
