// The driver's own loop: phase after phase, the two scripts of a phase side by side, their logs
// relayed when both are over.
module LustreDriver {
  import opened Arithmetic
  import opened Lustre
  import opened LustreProofs
  import opened LustrePlans
  import opened StatusLines

  // How the world answers: what the k-th command does, and which node gets to run it.
  type Outcomes = (Cluster, Node, Command, nat) -> (Cluster, nat)

  ghost predicate Possible(outcomes: Outcomes) {
    forall c, n, cmd, k: nat :: Executes(c, n, cmd, outcomes(c, n, cmd, k).0, outcomes(c, n, cmd, k).1)
  }

  // The status lines that a command prints: node, command, step, status.
  type Report = (Node, Command, nat, nat) -> seq<Emission>

  ghost predicate Honest(report: Report) {
    forall n, cmd, k: nat, status: nat | status <= 2 ::
      var es := report(n, cmd, k, status); WellBehaved(es) && Relay(0, EmitAll(es)) == status
  }

  lemma LinesSay(report: Report, n: Node, cmd: Command, k: nat, status: nat)
    requires Honest(report) && status <= 2
    ensures Relay(0, EmitAll(report(n, cmd, k, status))) == status
  {
  }

  // The driver's state after the next command of one node's script.
  function After(d: Driver, onFirst: bool, c: Cluster, status: nat): Driver
    requires if onFirst then d.first != [] else d.second != []
  {
    if onFirst then
      d.(cluster := c, first := if status == 2 then [] else d.first[1..], worst := Max(d.worst, status))
    else
      d.(cluster := c, second := if status == 2 then [] else d.second[1..], worst := Max(d.worst, status))
  }

  lemma AfterIsNext(plan: Plan, d: Driver, onFirst: bool, c: Cluster, status: nat)
    requires !d.halted && if onFirst then d.first != [] else d.second != []
    requires Executes(d.cluster, if onFirst then N1 else N2, if onFirst then d.first[0] else d.second[0], c, status)
    ensures Next(plan, d, After(d, onFirst, c, status)) && status <= 2
  {
    var d' := After(d, onFirst, c, status);
    assert if onFirst then RunsFirst(d, d', status) else RunsSecond(d, d', status);
    ExecutedStatus(d.cluster, if onFirst then N1 else N2, if onFirst then d.first[0] else d.second[0], c, status);
  }

  lemma {:induction false} RelayIsMax(worst: nat, lines: seq<string>)
    requires worst <= 2
    ensures Relay(worst, lines) == Max(worst, Relay(0, lines)) <= 2
  {
    if lines != [] {
      RelayIsMax(worst, lines[..|lines| - 1]);
      RelayIsMax(0, lines[..|lines| - 1]);
    }
  }

  lemma {:induction false} RelayOn(worst: nat, a: seq<string>, b: seq<string>)
    ensures Relay(worst, a + b) == Relay(Relay(worst, a), b)
  {
    if b == [] {
      assert a + b == a;
    } else {
      assert (a + b)[..|a + b| - 1] == a + b[..|b| - 1];
      RelayOn(worst, a, b[..|b| - 1]);
    }
  }

  // What relaying the two logs one after the other yields, when one of them has grown by the lines
  // of one more command.
  lemma {:induction false} LogsGrow(worst: nat, first: seq<string>, second: seq<string>, lines: seq<string>)
    requires worst <= 2
    ensures var all := Max(Relay(Relay(worst, first), second), Relay(0, lines));
            all == Relay(Relay(worst, first + lines), second) == Relay(Relay(worst, first), second + lines) <= 2
  {
    hide Relay;
    RelayOn(worst, first, lines);
    RelayIsMax(worst, first);
    var w := Relay(worst, first);
    RelayOn(w, second, lines);
    RelayIsMax(w, second);
    RelayIsMax(w, lines);
    RelayIsMax(Relay(w, second), lines);
    RelayIsMax(Relay(w, lines), second);
  }

  lemma {:induction false} PlanIsDone(plan: Plan, b: seq<Driver>, k: nat)
    requires Run(plan, b) && k < |b| && Finished(plan, b[k]) && b[k].worst < 2
    ensures forall n :: CommandsOf(b, n, k) == Planned(plan, n)
  {
    forall n
      ensures CommandsOf(b, n, k) == Planned(plan, n)
    {
      CommandsFollowThePlan(plan, b, n, k);
    }
  }

  // What every bringup that Perform can produce has kept.
  lemma {:induction false} BringupDone(b: seq<Driver>)
    requires Run(Bringup, b) && Closed(b[0].cluster)
    ensures var start, last := b[0].cluster, b[|b| - 1];
            && (forall i | 0 <= i < |b| :: Closed(b[i].cluster))
            && (AllUp(start) ==> last.cluster == start)
            && (last.cluster.servers != start.servers || last.cluster.clients != start.clients ==>
                  BothPinged(b, |b| - 1))
            && (Finished(Bringup, last) && last.worst < 2 ==>
                  && AllUp(last.cluster)
                  && forall n :: CommandsOf(b, n, |b| - 1) == Planned(Bringup, n))
  {
    hide Next, Closed, AllUp, Planned, CommandsOf, BothPinged;
    var last := b[|b| - 1];
    forall i | 0 <= i < |b|
      ensures Closed(b[i].cluster)
    {
      BringupKeepsClosed(b, i);
    }
    BringupKeepsClosed(b, |b| - 1);
    if AllUp(b[0].cluster) {
      BringupIsIdempotent(b, |b| - 1);
    }
    if last.cluster.servers != b[0].cluster.servers || last.cluster.clients != b[0].cluster.clients {
      MountsNeedPings(b, |b| - 1);
      TwoPings(b, |b| - 1);
    }
    if Finished(Bringup, last) && last.worst < 2 {
      PlanIsDone(Bringup, b, |b| - 1);
    }
  }

  lemma TwoPings(b: seq<Driver>, j: nat)
    requires exists i: nat, k: nat :: i < k < j && PingedAt(b, i, N1) && PingedAt(b, k, N2)
    ensures BothPinged(b, j)
  {
  }

  class ClusterDriver {
    var cluster: Cluster
    // The worst status relayed so far.
    var worst: nat
    // Every state passed through, one after each command and one after each phase.
    ghost var history: seq<Driver>

    constructor (cluster: Cluster)
      ensures this.cluster == cluster && worst == 0 && history == []
    {
      this.cluster := cluster;
      worst := 0;
      history := [];
    }

    ghost predicate Reached(plan: Plan, d: Driver)
      reads this
    {
      Run(plan, history) && history[|history| - 1] == d && d.cluster == cluster && d.worst == worst
    }

    lemma Extended(plan: Plan, d: Driver, d': Driver)
      requires Run(plan, history) && history[|history| - 1] == d && Next(plan, d, d')
      ensures Run(plan, history + [d'])
    {
      var b := history + [d'];
      forall i | 0 <= i < |b| - 1
        ensures Next(plan, b[i], b[i + 1])
      {
        if i < |history| - 1 {
          assert b[i] == history[i] && b[i + 1] == history[i + 1];
        }
      }
    }

    // bringup or teardown, to its end or to the gate that stops it.
    method Perform(plan: Plan, outcomes: Outcomes, report: Report, firstNodeNext: nat -> bool) returns (halted: bool)
      requires worst == 0 && history == [] && Possible(outcomes) && Honest(report)
      modifies this
      ensures Run(plan, history) && history[0].cluster == old(cluster)
      ensures var last := history[|history| - 1];
              && last.cluster == cluster && last.worst == worst && last.halted == halted
              && (halted ==> Gated(plan, last.at) && worst >= 2)
              && (!halted ==> Finished(plan, last))
    {
      ghost var start := cluster;
      history := [Initial(plan, cluster)];
      var at, step := 0, 0;
      while at < Phases(plan)
        invariant at <= Phases(plan)
        invariant Reached(plan, Driver(cluster, at, Script(plan, at, N1), Script(plan, at, N2), worst, false))
        invariant history[0].cluster == start && worst <= 2
      {
        step := RunScripts(plan, at, outcomes, report, firstNodeNext, step);
        ghost var over := Driver(cluster, at, [], [], worst, false);
        if Gated(plan, at) && worst >= 2 {
          assert Advances(plan, over, over.(halted := true));
          Extended(plan, over, over.(halted := true));
          history := history + [over.(halted := true)];
          return true;
        }
        assert Advances(plan, over, Enter(plan, over, at + 1));
        Extended(plan, over, Enter(plan, over, at + 1));
        history := history + [Enter(plan, over, at + 1)];
        at := at + 1;
      }
      halted := false;
    }

    // One command of one node's script.
    method RunCommand(plan: Plan, onFirst: bool, cmd: Command, outcomes: Outcomes, step: nat, ghost d: Driver)
      returns (status: nat)
      requires Possible(outcomes) && !d.halted && d.cluster == cluster
      requires Run(plan, history) && history[|history| - 1] == d
      requires if onFirst then d.first != [] && cmd == d.first[0] else d.second != [] && cmd == d.second[0]
      modifies this`cluster, this`history
      ensures status <= 2 && Run(plan, history) && history[0] == old(history)[0]
      ensures history[|history| - 1] == After(d, onFirst, cluster, status)
    {
      hide Executes, Next;
      var (after, result) := outcomes(cluster, if onFirst then N1 else N2, cmd, step);
      AfterIsNext(plan, d, onFirst, after, result);
      Extended(plan, d, After(d, onFirst, after, result));
      cluster, status := after, result;
      history := history + [After(d, onFirst, after, result)];
    }

    // Both scripts of one phase, in the order the world chooses, until both are over; then their
    // logs are relayed, N1's first.
    method RunScripts(plan: Plan, at: nat, outcomes: Outcomes, report: Report, firstNodeNext: nat -> bool, step: nat)
      returns (next: nat)
      requires Possible(outcomes) && Honest(report) && history != [] && worst <= 2
      requires Reached(plan, Driver(cluster, at, Script(plan, at, N1), Script(plan, at, N2), worst, false))
      modifies this
      ensures Reached(plan, Driver(cluster, at, [], [], worst, false)) && worst <= 2
      ensures history[0].cluster == old(history)[0].cluster
    {
      assert Relay(worst, []) == worst;
      hide Executes, Script, Relay, EmitAll, Honest, Next, Possible, Run;
      next := step;
      var first, second := Script(plan, at, N1), Script(plan, at, N2);
      var firstLog: seq<string>, secondLog: seq<string> := [], [];
      ghost var d := Driver(cluster, at, first, second, worst, false);
      while first != [] || second != []
        invariant history != [] && history[0] == old(history)[0] && worst == old(worst)
        invariant Run(plan, history) && history[|history| - 1] == d
        invariant d == Driver(cluster, at, first, second, d.worst, false)
        invariant d.worst == Relay(Relay(worst, firstLog), secondLog) <= 2
        decreases |first| + |second|
      {
        var onFirst := second == [] || (first != [] && firstNodeNext(next));
        var cmd := if onFirst then first[0] else second[0];
        var status := RunCommand(plan, onFirst, cmd, outcomes, next, d);
        LinesSay(report, if onFirst then N1 else N2, cmd, next, status);
        var lines := EmitAll(report(if onFirst then N1 else N2, cmd, next, status));
        LogsGrow(worst, firstLog, secondLog, lines);
        d := After(d, onFirst, cluster, status);
        next := next + 1;
        if onFirst {
          first, firstLog := if status == 2 then [] else first[1..], firstLog + lines;
        } else {
          second, secondLog := if status == 2 then [] else second[1..], secondLog + lines;
        }
      }
      worst := RelayLog(worst, firstLog);
      worst := RelayLog(worst, secondLog);
    }

    // bringup from a dependency-closed cluster: closed all the way, nothing mounted unless both pings
    // went through, and, when nothing was red, every command of the plan executed and everything up.
    method DoBringup(outcomes: Outcomes, report: Report, firstNodeNext: nat -> bool) returns (status: nat)
      requires worst == 0 && history == [] && Possible(outcomes) && Honest(report) && Closed(cluster)
      modifies this
      ensures forall i | 0 <= i < |history| :: Closed(history[i].cluster)
      ensures status == worst && (status < 2 ==> AllUp(cluster))
      ensures AllUp(old(cluster)) ==> cluster == old(cluster)
      ensures history != []
      ensures cluster.servers != old(cluster.servers) || cluster.clients != old(cluster.clients) ==>
                BothPinged(history, |history| - 1)
      ensures status < 2 ==> forall n :: CommandsOf(history, n, |history| - 1) == Planned(Bringup, n)
    {
      var halted := Perform(Bringup, outcomes, report, firstNodeNext);
      BringupDone(history);
      status := worst;
    }

    // teardown from a dependency-closed cluster: when nothing was red, closed all the way and
    // nothing mounted at the end.
    method DoTeardown(outcomes: Outcomes, report: Report, firstNodeNext: nat -> bool) returns (status: nat)
      requires worst == 0 && history == [] && Possible(outcomes) && Honest(report) && Closed(cluster)
      modifies this
      ensures status == worst
      ensures status < 2 ==> forall i | 0 <= i < |history| :: Closed(history[i].cluster)
      ensures status < 2 ==> cluster.servers == {} && cluster.clients == {}
      ensures history != []
      ensures status < 2 ==> forall n :: CommandsOf(history, n, |history| - 1) == Planned(Teardown, n)
    {
      var halted := Perform(Teardown, outcomes, report, firstNodeNext);
      if worst < 2 {
        forall i | 0 <= i < |history|
          ensures Closed(history[i].cluster)
        {
          TeardownKeepsClosed(history, i);
        }
        TeardownKeepsClosed(history, |history| - 1);
        PlanIsDone(Teardown, history, |history| - 1);
      }
      status := worst;
    }
  }
}
