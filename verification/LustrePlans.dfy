// Which commands a run executes on which node, and what the pings between the nodes are for.
module LustrePlans {
  import opened Lustre
  import opened LustreProofs
  import opened LustreLosses

  // The step from d to d' executed the command out of node n's script.
  predicate Executed(d: Driver, d': Driver, n: Node, cmd: Command, status: nat) {
    if n == N1 then RunsFirst(d, d', status) && d.first[0] == cmd
    else RunsSecond(d, d', status) && d.second[0] == cmd
  }

  predicate SameMounts(c: Cluster, c': Cluster) {
    c'.servers == c.servers && c'.clients == c.clients
  }

  // ----- nothing is mounted before both pings went through -----

  ghost predicate StepPings(d: Driver, d': Driver, from: Node) {
    exists n :: Executed(d, d', n, Ping(from), 0)
  }

  // Step i is a ping from the node that goes through.
  ghost predicate PingedAt(b: seq<Driver>, i: nat, from: Node) {
    i + 1 < |b| && StepPings(b[i], b[i + 1], from)
  }

  // In the first j steps N1 has reached N2.
  ghost predicate FirstPinged(b: seq<Driver>, j: nat) {
    exists i: nat | i < j :: PingedAt(b, i, N1)
  }

  // And after that N2 has reached N1.
  ghost predicate BothPinged(b: seq<Driver>, j: nat) {
    exists i: nat, k: nat | i < k < j :: PingedAt(b, i, N1) && PingedAt(b, k, N2)
  }

  // one, both: how many pings have gone through so far.
  predicate PingsGate(d: Driver, start: Cluster, one: bool, both: bool) {
    && ScriptsFit(Bringup, d)
    && (d.at <= 1 ==> SameMounts(start, d.cluster))
    && (d.at == 1 && d.worst < 2 ==> (|d.first| <= 1 ==> one) && (d.first == [] ==> both))
    && (d.at >= 2 ==> both)
  }

  lemma MountsNothing(c: Cluster, n: Node, cmd: Command, c': Cluster, status: nat)
    requires Executes(c, n, cmd, c', status)
    requires cmd.ImportPools? || cmd.LoadModules? || cmd.AddNid? || cmd.Ping?
    ensures SameMounts(c, c')
  {
  }

  lemma EarlyCommands(at: nat, n: Node, left: seq<Command>)
    requires LeftOf(left, Script(Bringup, at, n)) && left != [] && at <= 1
    ensures LeftOf(left[1..], Script(Bringup, at, n)) && LeftOf([], Script(Bringup, at, n))
    ensures at == 0 ==> left[0].ImportPools? || left[0].LoadModules? || left[0].AddNid?
    ensures at == 1 ==> n == N1 && |left| <= 2 && left[0] == Ping(if |left| == 2 then N1 else N2)
  {
    LeftOfRest(left, Script(Bringup, at, n));
  }

  lemma FirstMayPing(d: Driver, d': Driver, status: nat)
    requires RunsFirst(d, d', status)
    ensures d.first[0].Ping? ==> status == 2 || StepPings(d, d', d.first[0].from)
  {
    if d.first[0].Ping? && status != 2 {
      assert Executed(d, d', N1, Ping(d.first[0].from), 0);
    }
  }

  lemma FirstStillFits(plan: Plan, d: Driver, d': Driver, status: nat)
    requires ScriptsFit(plan, d) && RunsFirst(d, d', status)
    ensures ScriptsFit(plan, d') && d'.at == d.at && d'.worst >= d.worst && (status == 2 ==> d'.worst >= 2)
    ensures d'.first == if status == 2 then [] else d.first[1..]
  {
    LeftOfRest(d.first, Script(plan, d.at, N1));
    hide Executes, Script, LeftOf;
  }

  lemma FirstMountsNothing(d: Driver, d': Driver, status: nat)
    requires d.at <= 1 && ScriptsFit(Bringup, d) && RunsFirst(d, d', status)
    ensures SameMounts(d.cluster, d'.cluster)
    ensures d.at == 1 ==> |d.first| <= 2 && d.first[0] == Ping(if |d.first| == 2 then N1 else N2)
  {
    hide Executes, Script, LeftOf;
    EarlyCommands(d.at, N1, d.first);
    MountsNothing(d.cluster, N1, d.first[0], d'.cluster, status);
  }

  lemma PingsGateFirst(d: Driver, d': Driver, start: Cluster, one: bool, both: bool, status: nat)
    requires PingsGate(d, start, one, both) && RunsFirst(d, d', status)
    ensures PingsGate(d', start, one || StepPings(d, d', N1), both || (one && StepPings(d, d', N2)))
  {
    hide ScriptsFit, RunsFirst, StepPings, SameMounts;
    FirstMayPing(d, d', status);
    FirstStillFits(Bringup, d, d', status);
    if d.at <= 1 {
      FirstMountsNothing(d, d', status);
      SameMountsStill(start, d.cluster, d'.cluster);
    }
  }

  lemma SameMountsStill(start: Cluster, c: Cluster, c': Cluster)
    requires SameMounts(start, c) && SameMounts(c, c')
    ensures SameMounts(start, c')
  {
  }

  lemma PingsGateSecond(d: Driver, d': Driver, start: Cluster, one: bool, both: bool, status: nat)
    requires PingsGate(d, start, one, both) && RunsSecond(d, d', status)
    ensures PingsGate(d', start, one, both)
  {
    hide Executes, Script, LeftOf;
    LeftOfRest(d.second, Script(Bringup, d.at, N2));
    if d.at <= 1 {
      EarlyCommands(d.at, N2, d.second);
      MountsNothing(d.cluster, N2, d.second[0], d'.cluster, status);
    }
  }

  lemma PingsGateAdvance(d: Driver, d': Driver, start: Cluster, one: bool, both: bool)
    requires PingsGate(d, start, one, both) && Advances(Bringup, d, d')
    ensures PingsGate(d', start, one, both)
  {
    LeftOfWhole(Bringup, d.at + 1);
    hide LeftOf;
  }

  lemma PingsGateStep(d: Driver, d': Driver, start: Cluster, one: bool, both: bool)
    requires PingsGate(d, start, one, both) && Next(Bringup, d, d')
    ensures PingsGate(d', start, one || StepPings(d, d', N1), both || (one && StepPings(d, d', N2)))
  {
    hide RunsFirst, RunsSecond, Advances;
    if status: nat :| RunsFirst(d, d', status) {
      PingsGateFirst(d, d', start, one, both, status);
    } else if status: nat :| RunsSecond(d, d', status) {
      PingsGateSecond(d, d', start, one, both, status);
      hide ScriptsFit, SameMounts, StepPings;
    } else {
      PingsGateAdvance(d, d', start, one, both);
      hide ScriptsFit, SameMounts, StepPings;
    }
  }

  lemma {:induction false} PingsGateHolds(b: seq<Driver>, j: nat)
    requires Run(Bringup, b) && j < |b|
    ensures PingsGate(b[j], b[0].cluster, FirstPinged(b, j), BothPinged(b, j))
  {
    if j == 0 {
      LeftOfWhole(Bringup, 0);
    } else {
      PingsGateHolds(b, j - 1);
      var d, d' := b[j - 1], b[j - 1 + 1];
      assert Next(Bringup, d, d');
      hide Next, FirstPinged, BothPinged, ScriptsFit, SameMounts, StepPings;
      PingsGateStep(d, d', b[0].cluster, FirstPinged(b, j - 1), BothPinged(b, j - 1));
      PingsAddUp(b, j - 1);
    }
  }

  lemma PingsAddUp(b: seq<Driver>, j: nat)
    requires j + 1 < |b|
    ensures FirstPinged(b, j + 1) <==> FirstPinged(b, j) || StepPings(b[j], b[j + 1], N1)
    ensures FirstPinged(b, j) && StepPings(b[j], b[j + 1], N2) ==> BothPinged(b, j + 1)
    ensures BothPinged(b, j) ==> BothPinged(b, j + 1)
  {
    hide StepPings;
    assert StepPings(b[j], b[j + 1], N1) <==> PingedAt(b, j, N1);
    assert StepPings(b[j], b[j + 1], N2) <==> PingedAt(b, j, N2);
    hide PingedAt;
  }

  // Whenever something is mounted, or unmounted, that was not at the start of a bringup, each of the
  // nodes has reached the other before: two earlier steps were pings that went through, one from N1
  // and then one from N2.
  lemma MountsNeedPings(b: seq<Driver>, j: nat)
    requires Run(Bringup, b) && j < |b|
    requires b[j].cluster.servers != b[0].cluster.servers || b[j].cluster.clients != b[0].cluster.clients
    ensures exists i: nat, k: nat :: i < k < j && PingedAt(b, i, N1) && PingedAt(b, k, N2)
  {
    PingsGateHolds(b, j);
    hide PingedAt, ScriptsFit;
  }

  // ----- a ping that fails ends the bringup -----

  // The ping phase is over, and red.
  predicate PingedOut(d: Driver, start: Cluster) {
    d.at == 1 && d.worst >= 2 && d.first == [] && d.second == [] && SameMounts(start, d.cluster)
  }

  lemma PingedOutStays(d: Driver, d': Driver, start: Cluster)
    requires PingedOut(d, start) && Next(Bringup, d, d')
    ensures PingedOut(d', start)
  {
  }

  lemma RedPing(d: Driver, d': Driver, start: Cluster, n: Node, from: Node, one: bool, both: bool)
    requires PingsGate(d, start, one, both) && Executed(d, d', n, Ping(from), 2)
    ensures d.at == 1 && PingedOut(d', start)
  {
    var left := if n == N1 then d.first else d.second;
    PingsInOnePhase(d.at, n, left);
  }

  lemma PingsInOnePhase(at: nat, n: Node, left: seq<Command>)
    requires LeftOf(left, Script(Bringup, at, n)) && left != [] && left[0].Ping?
    ensures at == 1 && n == N1
  {
    LeftOfRest(left, Script(Bringup, at, n));
  }

  lemma {:induction false} PhasesGrow(b: seq<Driver>, i: nat, j: nat)
    requires Run(Bringup, b) && i <= j < |b|
    ensures b[i].at <= b[j].at
  {
    if i < j {
      PhasesGrow(b, i, j - 1);
      assert Next(Bringup, b[j - 1], b[j - 1 + 1]);
    }
  }

  lemma {:induction false} PingedOutFrom(b: seq<Driver>, i: nat, j: nat)
    requires Run(Bringup, b) && i <= j < |b| && PingedOut(b[i], b[0].cluster)
    ensures PingedOut(b[j], b[0].cluster)
  {
    hide PingedOut;
    if i < j {
      PingedOutFrom(b, i, j - 1);
      assert Next(Bringup, b[j - 1], b[j - 1 + 1]);
      PingedOutStays(b[j - 1], b[j], b[0].cluster);
    }
  }

  lemma RedPingAt(b: seq<Driver>, i: nat, n: Node, from: Node)
    requires Run(Bringup, b) && i + 1 < |b| && Executed(b[i], b[i + 1], n, Ping(from), 2)
    ensures b[i].at == 1 && PingedOut(b[i + 1], b[0].cluster)
  {
    PingsGateHolds(b, i);
    RedPing(b[i], b[i + 1], b[0].cluster, n, from, FirstPinged(b, i), BothPinged(b, i));
  }

  lemma EarlyMounts(b: seq<Driver>, j: nat)
    requires Run(Bringup, b) && j < |b| && b[j].at <= 1
    ensures SameMounts(b[0].cluster, b[j].cluster)
  {
    PingsGateHolds(b, j);
  }

  // In a bringup with a ping that fails, what is mounted is the same at every moment, before the ping
  // and after it, and the bringup never gets to its end.
  lemma RedPingStopsBringup(b: seq<Driver>, i: nat, n: Node, from: Node, j: nat)
    requires Run(Bringup, b) && i + 1 < |b| && Executed(b[i], b[i + 1], n, Ping(from), 2) && j < |b|
    ensures b[j].cluster.servers == b[0].cluster.servers && b[j].cluster.clients == b[0].cluster.clients
    ensures !Finished(Bringup, b[j])
  {
    hide Run, Executed;
    RedPingAt(b, i, n, from);
    if j <= i {
      PhasesGrow(b, j, i);
      EarlyMounts(b, j);
    } else {
      PingedOutFrom(b, i + 1, j);
    }
  }

  // ----- both occur -----

  // What a command of bringup does when it succeeds.
  function Effect(c: Cluster, n: Node, cmd: Command): Cluster {
    match cmd
    case ImportPools =>
      if HasPools(c, n) then c else c.(pools := c.pools + if n == N1 then {MGS, MDT0, OST0} else {OST1})
    case LoadModules => if n in c.modules then c else c.(modules := c.modules + {n})
    case AddNid => if n in c.nids then c else c.(nids := c.nids + {n})
    case Mount(s) => if s in c.servers then c else c.(servers := c.servers + {s})
    case MountClient => if n in c.clients then c else c.(clients := c.clients + {n})
    case _ => c
  }

  lemma EffectIsPossible(c: Cluster, n: Node, cmd: Command)
    requires IsBringup(cmd)
    ensures Executes(c, n, cmd, Effect(c, n, cmd), 0)
  {
  }

  function Effects(c: Cluster, n: Node, script: seq<Command>): Cluster
    decreases |script|
  {
    if script == [] then c else Effects(Effect(c, n, script[0]), n, script[1..])
  }

  lemma {:induction false} FirstSucceeds(c: Cluster, d: Driver)
    requires Reaches(c, d, {}) && !d.halted && forall k | 0 <= k < |d.first| :: IsBringup(d.first[k])
    ensures Reaches(c, d.(cluster := Effects(d.cluster, N1, d.first), first := []), {})
    decreases |d.first|
  {
    hide Reaches, Executes, Effect, IsBringup;
    if d.first != [] {
      EffectIsPossible(d.cluster, N1, d.first[0]);
      var d' := d.(cluster := Effect(d.cluster, N1, d.first[0]), first := d.first[1..]);
      assert RunsFirst(d, d', 0);
      ReachesNext(c, d, d', {});
      FirstSucceeds(c, d');
    }
  }

  lemma {:induction false} SecondSucceeds(c: Cluster, d: Driver)
    requires Reaches(c, d, {}) && !d.halted && forall k | 0 <= k < |d.second| :: IsBringup(d.second[k])
    ensures Reaches(c, d.(cluster := Effects(d.cluster, N2, d.second), second := []), {})
    decreases |d.second|
  {
    hide Reaches, Executes, Effect, IsBringup;
    if d.second != [] {
      EffectIsPossible(d.cluster, N2, d.second[0]);
      var d' := d.(cluster := Effect(d.cluster, N2, d.second[0]), second := d.second[1..]);
      assert RunsSecond(d, d', 0);
      ReachesNext(c, d, d', {});
      SecondSucceeds(c, d');
    }
  }

  lemma AllAreBringup(at: nat, n: Node)
    ensures forall k | 0 <= k < |Script(Bringup, at, n)| :: IsBringup(Script(Bringup, at, n)[k])
  {
  }

  lemma {:induction false} PhasesSucceed(c: Cluster, at: nat) returns (d: Driver)
    requires at <= 7
    ensures Reaches(c, d, {}) && d == Enter(Bringup, d, at) && d.worst == 0 && !d.halted
  {
    hide Reaches, Script;
    if at == 0 {
      AtStart(c, {});
      d := Arrived(c, 0);
    } else {
      d := PhasesSucceed(c, at - 1);
      AllAreBringup(at - 1, N1);
      AllAreBringup(at - 1, N2);
      FirstSucceeds(c, d);
      d := d.(cluster := Effects(d.cluster, N1, d.first), first := []);
      SecondSucceeds(c, d);
      d := d.(cluster := Effects(d.cluster, N2, d.second), second := []);
      var d' := Enter(Bringup, d, at);
      assert Advances(Bringup, d, d');
      ReachesNext(c, d, d', {});
      d := d';
    }
  }

  lemma WithoutLosses(b: seq<Driver>)
    requires LossyRun(b, {})
    ensures Run(Bringup, b)
  {
    forall i | 0 <= i < |b| - 1
      ensures Next(Bringup, b[i], b[i + 1])
    {
      assert NextOrLoss(b[i], b[i + 1], {});
    }
  }

  // From every dependency-closed cluster some bringup succeeds.
  lemma BringupCanSucceed(c: Cluster)
    requires Closed(c)
    ensures exists b: seq<Driver> ::
              && Run(Bringup, b) && b[0].cluster == c
              && Finished(Bringup, b[|b| - 1]) && b[|b| - 1].worst == 0 && AllUp(b[|b| - 1].cluster)
  {
    hide Script, Closed, AllUp;
    var d := PhasesSucceed(c, 7);
    var b: seq<Driver> :| LossyRun(b, {}) && b[0].cluster == c && b[|b| - 1] == d;
    WithoutLosses(b);
    BringupKeepsClosed(b, |b| - 1);
  }

  // And from every cluster some bringup has a ping that fails, from either node.
  lemma PingCanFail(c: Cluster, from: Node)
    ensures exists b: seq<Driver>, i ::
              && Run(Bringup, b) && b[0].cluster == c && 0 <= i < |b| - 1
              && Executed(b[i], b[i + 1], N1, Ping(from), 2)
  {
    hide Reaches;
    var d := PhasesSucceed(c, 1);
    assert d.first == [Ping(N1), Ping(N2)];
    if from == N2 {
      var passed := d.(first := [Ping(N2)]);
      assert RunsFirst(d, passed, 0);
      ReachesNext(c, d, passed, {});
      d := passed;
    }
    var red := d.(first := [], worst := 2);
    assert Executed(d, red, N1, Ping(from), 2);
    assert Next(Bringup, d, red);
    LastStep(c, d, red);
  }

  lemma LastStep(c: Cluster, d: Driver, d': Driver)
    requires Reaches(c, d, {}) && Next(Bringup, d, d')
    ensures exists b: seq<Driver>, i :: Run(Bringup, b) && b[0].cluster == c && 0 <= i < |b| - 1
                                        && b[i] == d && b[i + 1] == d'
  {
    hide Next;
    var b: seq<Driver> :| LossyRun(b, {}) && b[0].cluster == c && b[|b| - 1] == d;
    WithoutLosses(b);
    var longer := b + [d'];
    forall i | 0 <= i < |longer| - 1
      ensures Next(Bringup, longer[i], longer[i + 1])
    {
      if i < |b| - 1 {
        assert longer[i] == b[i] && longer[i + 1] == b[i + 1];
      }
    }
    assert Run(Bringup, longer) && longer[|b| - 1] == d && longer[|b| - 1 + 1] == d';
  }

  // ----- the plan of each node -----

  // The commands that the steps up to state k executed out of node n's scripts, in order.
  ghost function CommandsOf(b: seq<Driver>, n: Node, k: nat): seq<Command>
    requires k < |b|
  {
    if k == 0 then [] else CommandsOf(b, n, k - 1) + CommandOf(b[k - 1], b[k], n)
  }

  ghost function CommandOf(d: Driver, d': Driver, n: Node): seq<Command> {
    if n == N1 && d.first != [] && exists status: nat :: RunsFirst(d, d', status) then [d.first[0]]
    else if n == N2 && d.second != [] && exists status: nat :: RunsSecond(d, d', status) then [d.second[0]]
    else []
  }

  // What each node is to do, from the first phase to the last.
  function Planned(plan: Plan, n: Node): seq<Command> {
    match plan
    case Bringup =>
      if n == N1 then
        [ImportPools, LoadModules, AddNid, Ping(N1), Ping(N2), Mount(MGS), Mount(MDT0), Mount(OST0), CheckOsts,
         MountClient]
      else [ImportPools, LoadModules, AddNid, Mount(OST1), MountClient]
    case Teardown =>
      if n == N1 then [UnmountClient, Unmount(OST0), Unmount(MDT0), Unmount(MGS), ExportPools]
      else [UnmountClient, Unmount(OST1), ExportPools]
  }

  function Left(d: Driver, n: Node): seq<Command> {
    if n == N1 then d.first else d.second
  }

  // The scripts of all phases up to `at`.
  function Through(plan: Plan, at: nat, n: Node): seq<Command> {
    if at == 0 then Script(plan, 0, n) else Through(plan, at - 1, n) + Script(plan, at, n)
  }

  lemma {:induction false} ThroughGrows(plan: Plan, i: nat, j: nat, n: Node)
    requires i <= j
    ensures Through(plan, i, n) <= Through(plan, j, n)
  {
    if i < j {
      ThroughGrows(plan, i, j - 1, n);
    }
  }

  lemma {:induction false} PlanIsPlanned(plan: Plan, n: Node)
    ensures Through(plan, Phases(plan), n) == Planned(plan, n)
  {
    assert Through(plan, 1, n) == Through(plan, 0, n) + Script(plan, 1, n);
    assert Through(plan, 2, n) == Through(plan, 1, n) + Script(plan, 2, n);
    assert Through(plan, 3, n) == Through(plan, 2, n) + Script(plan, 3, n);
    if plan == Bringup {
      assert Through(plan, 4, n) == Through(plan, 3, n) + Script(plan, 4, n);
      assert Through(plan, 5, n) == Through(plan, 4, n) + Script(plan, 5, n);
      assert Through(plan, 6, n) == Through(plan, 5, n) + Script(plan, 6, n);
      assert Through(plan, 7, n) == Through(plan, 6, n) + Script(plan, 7, n);
    }
  }

  lemma FirstTakes(d: Driver, d': Driver, status: nat)
    requires RunsFirst(d, d', status) && d'.worst < 2
    ensures CommandOf(d, d', N1) == [d.first[0]] && d'.first == d.first[1..]
    ensures CommandOf(d, d', N2) == [] && d'.second == d.second && d'.at == d.at
  {
    ExecutedStatus(d.cluster, N1, d.first[0], d'.cluster, status);
    hide Executes;
    assert |d'.first| < |d.first|;
  }

  lemma SecondTakes(d: Driver, d': Driver, status: nat)
    requires RunsSecond(d, d', status) && d'.worst < 2
    ensures CommandOf(d, d', N2) == [d.second[0]] && d'.second == d.second[1..]
    ensures CommandOf(d, d', N1) == [] && d'.first == d.first && d'.at == d.at
  {
    ExecutedStatus(d.cluster, N2, d.second[0], d'.cluster, status);
    hide Executes;
    assert |d'.second| < |d.second|;
  }

  // A step takes the next command out of a script, or begins the next phase.
  lemma {:induction false} StepTakes(plan: Plan, d: Driver, d': Driver, n: Node)
    requires Next(plan, d, d') && d.at <= Phases(plan) && d'.worst < 2
    ensures d'.at <= Phases(plan)
    ensures if d'.at == d.at then Left(d, n) == CommandOf(d, d', n) + Left(d', n)
            else d'.at == d.at + 1 && Left(d, n) == [] && CommandOf(d, d', n) == []
                 && Left(d', n) == Script(plan, d'.at, n)
  {
    hide Executes, Script, CommandOf;
    if status: nat :| RunsFirst(d, d', status) {
      FirstTakes(d, d', status);
    } else if status: nat :| RunsSecond(d, d', status) {
      SecondTakes(d, d', status);
    } else {
      AdvanceTakes(plan, d, d', n);
    }
  }

  lemma AdvanceTakes(plan: Plan, d: Driver, d': Driver, n: Node)
    requires Advances(plan, d, d')
    ensures CommandOf(d, d', n) == []
  {
  }

  lemma {:induction false} OneCommandLess(plan: Plan, d: Driver, d': Driver, n: Node, done: seq<Command>)
    requires Next(plan, d, d') && d.at <= Phases(plan) && d'.worst < 2
    requires done + Left(d, n) == Through(plan, d.at, n)
    ensures d'.at <= Phases(plan)
    ensures done + CommandOf(d, d', n) + Left(d', n) == Through(plan, d'.at, n)
  {
    hide Next, Script, CommandOf, Left;
    StepTakes(plan, d, d', n);
    assert done + (CommandOf(d, d', n) + Left(d', n)) == done + CommandOf(d, d', n) + Left(d', n);
    if d'.at != d.at {
      assert done + Left(d, n) == done;
    }
  }

  lemma {:induction false} PlanSoFar(plan: Plan, b: seq<Driver>, n: Node, k: nat)
    requires Run(plan, b) && k < |b| && b[k].worst < 2
    ensures b[k].at <= Phases(plan)
    ensures CommandsOf(b, n, k) + Left(b[k], n) == Through(plan, b[k].at, n)
  {
    if k > 0 {
      var d, d' := b[k - 1], b[k - 1 + 1];
      assert Next(plan, d, d');
      hide Next, CommandOf;
      NoRedBefore(plan, d, d');
      PlanSoFar(plan, b, n, k - 1);
      OneCommandLess(plan, d, d', n, CommandsOf(b, n, k - 1));
    }
  }

  lemma NoRedBefore(plan: Plan, d: Driver, d': Driver)
    requires Next(plan, d, d') && d'.worst < 2
    ensures d.worst < 2
  {
  }

  // In every run, as long as nothing was red, each node has executed a first part of its plan, in order
  // and without gaps; at the end, all of it.
  lemma {:induction false} CommandsFollowThePlan(plan: Plan, b: seq<Driver>, n: Node, k: nat)
    requires Run(plan, b) && k < |b| && b[k].worst < 2
    ensures CommandsOf(b, n, k) <= Planned(plan, n)
    ensures Finished(plan, b[k]) ==> CommandsOf(b, n, k) == Planned(plan, n)
  {
    PlanSoFar(plan, b, n, k);
    ThroughGrows(plan, b[k].at, Phases(plan), n);
    PlanIsPlanned(plan, n);
    hide CommandsOf, Through, Planned;
    if Finished(plan, b[k]) {
      NothingLeft(plan, b, k);
    }
  }

  lemma {:induction false} NothingLeft(plan: Plan, b: seq<Driver>, k: nat)
    requires Run(plan, b) && k < |b| && Finished(plan, b[k])
    ensures b[k].first == [] && b[k].second == []
  {
    if k > 0 {
      assert Next(plan, b[k - 1], b[k - 1 + 1]);
      if Finished(plan, b[k - 1]) {
        NothingLeft(plan, b, k - 1);
      }
    }
  }
}
