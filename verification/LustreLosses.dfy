// Scripts whose status lines never reach the driver: which losses the gates of bringup survive.
module LustreLosses {
  import opened Lustre
  import opened LustreProofs

  // The scripts that may be lost, by phase and node.
  type Losses = set<(nat, Node)>

  // ssh to a node breaks before or during a command: the command may take effect, the rest of the
  // script does not run, and no status line says so.
  ghost predicate LosesFirst(d: Driver, d': Driver, lost: Losses) {
    && (d.at, N1) in lost && d.first != [] && !d.halted
    && (d'.cluster == d.cluster || exists status: nat :: Executes(d.cluster, N1, d.first[0], d'.cluster, status))
    && d' == d.(cluster := d'.cluster, first := [])
  }

  ghost predicate LosesSecond(d: Driver, d': Driver, lost: Losses) {
    && (d.at, N2) in lost && d.second != [] && !d.halted
    && (d'.cluster == d.cluster || exists status: nat :: Executes(d.cluster, N2, d.second[0], d'.cluster, status))
    && d' == d.(cluster := d'.cluster, second := [])
  }

  ghost predicate NextOrLoss(d: Driver, d': Driver, lost: Losses) {
    Next(Bringup, d, d') || LosesFirst(d, d', lost) || LosesSecond(d, d', lost)
  }

  // A bringup in which only the given scripts are ever lost.
  ghost predicate LossyRun(b: seq<Driver>, lost: Losses) {
    && b != [] && b[0] == Initial(Bringup, b[0].cluster)
    && forall i | 0 <= i < |b| - 1 :: NextOrLoss(b[i], b[i + 1], lost)
  }

  // The scripts that prepare a node or mount a server.
  predicate Matters(at: nat, n: Node) {
    at == 0 || at == 4 || (n == N1 && (at == 2 || at == 3))
  }

  // The scripts that matter must report; all others may be lost.
  predicate Harmless(lost: Losses) {
    forall script | script in lost :: !Matters(script.0, script.1)
  }

  ghost predicate StaysClosed(lost: Losses) {
    forall b: seq<Driver>, i | LossyRun(b, lost) && Closed(b[0].cluster) && 0 <= i < |b| :: Closed(b[i].cluster)
  }

  // ----- harmless losses -----

  // The invariant of bringup without what the last phase is for.
  predicate LossyInvariant(d: Driver) {
    && ScriptsFit(Bringup, d) && Closed(d.cluster) && Established(d.cluster, d.at)
    && (d.worst < 2 && d.at < 6 ==> Kept(d.cluster, d.at, N1, d.first) && Kept(d.cluster, d.at, N2, d.second))
  }

  // A script that may be lost establishes nothing that a gate relies on.
  lemma LossEstablishesNothing(lost: Losses, c: Cluster, at: nat, n: Node, script: seq<Command>)
    requires Harmless(lost) && (at, n) in lost && at < 6
    requires script != [] && LeftOf(script, Script(Bringup, at, n))
    ensures Kept(c, at, n, [])
  {
  }

  lemma LostStep(c: Cluster, c': Cluster, at: nat, n: Node, left: seq<Command>, other: seq<Command>, m: Node)
    requires LeftOf(left, Script(Bringup, at, n)) && left != [] && Closed(c) && Established(c, at)
    requires c' == c || exists status: nat :: Executes(c, n, left[0], c', status)
    ensures Closed(c') && Established(c', at) && LeftOf([], Script(Bringup, at, n))
    ensures Kept(c, at, m, other) ==> Kept(c', at, m, other)
  {
    hide Executes, Closed, Established, Kept, Script, LeftOf, Grows;
    LeftOfRest(left, Script(Bringup, at, n));
    if status: nat :| Executes(c, n, left[0], c', status) {
      BringupStep(c, c', at, n, left, status);
      if Kept(c, at, m, other) {
        KeptStays(c, c', at, m, other);
      }
    }
  }

  lemma LossyNext(d: Driver, d': Driver, lost: Losses)
    requires Harmless(lost) && LossyInvariant(d) && NextOrLoss(d, d', lost)
    ensures LossyInvariant(d')
  {
    hide Executes, Closed, Established, Kept, Grows, LeftOf, Script, Harmless;
    if status: nat :| RunsFirst(d, d', status) {
      BringupStep(d.cluster, d'.cluster, d.at, N1, d.first, status);
      ExecutedStatus(d.cluster, N1, d.first[0], d'.cluster, status);
      if d'.worst < 2 && d.at < 6 {
        KeptStays(d.cluster, d'.cluster, d.at, N2, d.second);
      }
    } else if status: nat :| RunsSecond(d, d', status) {
      BringupStep(d.cluster, d'.cluster, d.at, N2, d.second, status);
      ExecutedStatus(d.cluster, N2, d.second[0], d'.cluster, status);
      if d'.worst < 2 && d.at < 6 {
        KeptStays(d.cluster, d'.cluster, d.at, N1, d.first);
      }
    } else if LosesFirst(d, d', lost) {
      LostStep(d.cluster, d'.cluster, d.at, N1, d.first, d.second, N2);
      if d.at < 6 {
        LossEstablishesNothing(lost, d'.cluster, d.at, N1, d.first);
      }
    } else if LosesSecond(d, d', lost) {
      LostStep(d.cluster, d'.cluster, d.at, N2, d.second, d.first, N1);
      if d.at < 6 {
        LossEstablishesNothing(lost, d'.cluster, d.at, N2, d.second);
      }
    } else {
      LossyAdvance(d, d');
    }
  }

  lemma LossyAdvance(d: Driver, d': Driver)
    requires LossyInvariant(d) && Advances(Bringup, d, d')
    ensures LossyInvariant(d')
  {
    hide Closed, LeftOf, Kept, Established, Script;
    LeftOfWhole(Bringup, d.at + 1);
    if !(Gated(Bringup, d.at) && d.worst >= 2) {
      if d.at < 6 && d.worst < 2 {
        GateEstablishes(d.cluster, d.at);
      } else {
        LateAdvance(d.cluster, d.at);
      }
    }
  }

  lemma LateAdvance(c: Cluster, at: nat)
    requires 5 <= at < 7 && Established(c, at)
    ensures Established(c, at + 1)
  {
  }

  lemma {:induction false} LossyHolds(b: seq<Driver>, lost: Losses, i: nat)
    requires Harmless(lost) && LossyRun(b, lost) && Closed(b[0].cluster) && i < |b|
    ensures LossyInvariant(b[i])
  {
    hide LossyInvariant, NextOrLoss, Closed, Harmless;
    if i == 0 {
      LossyStarts(b[0].cluster);
    } else {
      LossyHolds(b, lost, i - 1);
      assert NextOrLoss(b[i - 1], b[i - 1 + 1], lost);
      LossyNext(b[i - 1], b[i], lost);
    }
  }

  lemma LossyStarts(c: Cluster)
    requires Closed(c)
    ensures LossyInvariant(Initial(Bringup, c))
  {
  }

  // ----- harmful losses -----

  const POOLS := {MGS, MDT0, OST0, OST1}

  const NODES := {N1, N2}

  ghost predicate Reaches(c: Cluster, d: Driver, lost: Losses) {
    exists b: seq<Driver> :: LossyRun(b, lost) && b[0].cluster == c && b[|b| - 1] == d
  }

  lemma ReachesNext(c: Cluster, d: Driver, d': Driver, lost: Losses)
    requires Reaches(c, d, lost) && NextOrLoss(d, d', lost)
    ensures Reaches(c, d', lost)
  {
    hide NextOrLoss;
    var b: seq<Driver> :| LossyRun(b, lost) && b[0].cluster == c && b[|b| - 1] == d;
    var longer := b + [d'];
    forall i | 0 <= i < |longer| - 1
      ensures NextOrLoss(longer[i], longer[i + 1], lost)
    {
      if i < |b| - 1 {
        assert longer[i] == b[i] && longer[i + 1] == b[i + 1];
      }
    }
    assert LossyRun(longer, lost);
  }

  // Nothing is left to do for the script, as its fast path finds.
  predicate NothingToDo(c: Cluster, n: Node, script: seq<Command>) {
    forall k | 0 <= k < |script| :: IsBringup(script[k]) && Achieved(c, n, script[k])
  }

  lemma FastPath(c: Cluster, n: Node, cmd: Command)
    requires IsBringup(cmd) && Achieved(c, n, cmd)
    ensures Executes(c, n, cmd, c, 0)
  {
  }

  // A script that finds nothing to do, or is lost, can be over with the cluster as it was.
  lemma {:induction false} FirstOver(c: Cluster, d: Driver, lost: Losses)
    requires Reaches(c, d, lost) && !d.halted
    requires (d.at, N1) in lost || NothingToDo(d.cluster, N1, d.first)
    ensures Reaches(c, d.(first := []), lost)
    decreases |d.first|
  {
    hide Reaches, Executes, Achieved, IsBringup;
    if d.first != [] {
      if (d.at, N1) in lost {
        assert LosesFirst(d, d.(first := []), lost);
        ReachesNext(c, d, d.(first := []), lost);
      } else {
        FastPath(d.cluster, N1, d.first[0]);
        var d' := d.(first := d.first[1..]);
        assert RunsFirst(d, d', 0);
        ReachesNext(c, d, d', lost);
        FirstOver(c, d', lost);
      }
    }
  }

  lemma {:induction false} SecondOver(c: Cluster, d: Driver, lost: Losses)
    requires Reaches(c, d, lost) && !d.halted
    requires (d.at, N2) in lost || NothingToDo(d.cluster, N2, d.second)
    ensures Reaches(c, d.(second := []), lost)
    decreases |d.second|
  {
    hide Reaches, Executes, Achieved, IsBringup;
    if d.second != [] {
      if (d.at, N2) in lost {
        assert LosesSecond(d, d.(second := []), lost);
        ReachesNext(c, d, d.(second := []), lost);
      } else {
        FastPath(d.cluster, N2, d.second[0]);
        var d' := d.(second := d.second[1..]);
        assert RunsSecond(d, d', 0);
        ReachesNext(c, d, d', lost);
        SecondOver(c, d', lost);
      }
    }
  }

  predicate Skips(c: Cluster, at: nat, lost: Losses) {
    && ((at, N1) in lost || NothingToDo(c, N1, Script(Bringup, at, N1)))
    && ((at, N2) in lost || NothingToDo(c, N2, Script(Bringup, at, N2)))
  }

  function Arrived(c: Cluster, at: nat): Driver {
    Enter(Bringup, Initial(Bringup, c), at)
  }

  // Phases that find nothing to do, or are lost, can be passed with the cluster as it was.
  lemma {:induction false} PhasesPass(c: Cluster, at: nat, lost: Losses)
    requires at <= 7 && forall p: nat | p < at :: Skips(c, p, lost)
    ensures Reaches(c, Arrived(c, at), lost)
  {
    hide NothingToDo, Reaches, Script;
    if at == 0 {
      AtStart(c, lost);
    } else {
      PhasesPass(c, at - 1, lost);
      assert Skips(c, at - 1, lost);
      var d := Arrived(c, at - 1);
      FirstOver(c, d, lost);
      SecondOver(c, d.(first := []), lost);
      var over := d.(first := [], second := []);
      assert Advances(Bringup, over, Arrived(c, at));
      ReachesNext(c, over, Arrived(c, at), lost);
    }
  }

  lemma AtStart(c: Cluster, lost: Losses)
    ensures Reaches(c, Arrived(c, 0), lost)
  {
    assert LossyRun([Initial(Bringup, c)], lost);
  }

  // What goes wrong then: the first command of phase `at` mounts something on what is not there.
  lemma MountBreaks(c: Cluster, at: nat, n: Node, c': Cluster, lost: Losses)
    requires at <= 7 && (forall p: nat | p < at :: Skips(c, p, lost)) && Closed(c) && !Closed(c')
    requires Script(Bringup, at, n) != [] && Executes(c, n, Script(Bringup, at, n)[0], c', 0)
    ensures !StaysClosed(lost)
  {
    hide Skips, Closed, Executes, Script;
    PhasesPass(c, at, lost);
    var d := Arrived(c, at);
    var d' := if n == N1 then d.(cluster := c', first := d.first[1..]) else d.(cluster := c', second := d.second[1..]);
    assert if n == N1 then RunsFirst(d, d', 0) else RunsSecond(d, d', 0);
    ReachesNext(c, d, d', lost);
    var b: seq<Driver> :| LossyRun(b, lost) && b[0].cluster == c && b[|b| - 1] == d';
    assert !Closed(b[|b| - 1].cluster);
  }

  // A cluster that is prepared but for some NIDs, with some servers mounted and no client.
  function Prepared(nids: set<Node>, servers: set<Server>): Cluster {
    Cluster(POOLS, NODES, nids, servers, {})
  }

  // After a loss: the start, and the mount that goes wrong.
  datatype Harm = Harm(start: Cluster, at: nat, n: Node, wrong: Cluster)

  function HarmOf(at: nat, n: Node): Harm
    requires Matters(at, n)
  {
    var mdtUp := {MGS, MDT0};
    if at == 0 && n == N1 then
      Harm(Prepared({N2}, {}), 2, N1, Prepared({N2}, {MGS}))
    else if at == 0 then
      Harm(Prepared({N1}, mdtUp + {OST0}), 4, N2, Prepared({N1}, mdtUp + {OST0, OST1}))
    else if at == 2 then
      Harm(Prepared(NODES, {}), 3, N1, Prepared(NODES, {MDT0}))
    else if at == 3 then
      Harm(Prepared(NODES, {MGS}), 4, N1, Prepared(NODES, {MGS, OST0}))
    else
      var up := mdtUp + {if n == N1 then OST1 else OST0};
      Harm(Prepared(NODES, up), 6, N1, Prepared(NODES, up).(clients := {N1}))
  }

  lemma HarmSkips(at: nat, n: Node, lost: Losses, p: nat)
    requires Matters(at, n) && (at, n) in lost && p < HarmOf(at, n).at
    ensures Skips(HarmOf(at, n).start, p, lost)
  {
  }

  lemma HarmBreaks(at: nat, n: Node)
    requires Matters(at, n)
    ensures var h := HarmOf(at, n);
            && h.at <= 7 && Closed(h.start) && !Closed(h.wrong)
            && Script(Bringup, h.at, h.n) != []
            && Executes(h.start, h.n, Script(Bringup, h.at, h.n)[0], h.wrong, 0)
  {
  }

  lemma LossBreaks(at: nat, n: Node, lost: Losses)
    requires Matters(at, n) && (at, n) in lost
    ensures !StaysClosed(lost)
  {
    hide Skips, Closed, Executes, Script, StaysClosed, HarmOf;
    var h := HarmOf(at, n);
    forall p: nat | p < h.at
      ensures Skips(h.start, p, lost)
    {
      HarmSkips(at, n, lost, p);
    }
    HarmBreaks(at, n);
    MountBreaks(h.start, h.at, h.n, h.wrong, lost);
  }

  // Every bringup from every dependency-closed cluster stays dependency-closed, whatever fails and
  // whichever of the given scripts are lost, exactly when none of them prepares a node or mounts a
  // server.
  lemma BringupSurvivesLossExactlyWhen(lost: Losses)
    ensures StaysClosed(lost) <==> Harmless(lost)
  {
    if Harmless(lost) {
      forall b: seq<Driver>, i | LossyRun(b, lost) && Closed(b[0].cluster) && 0 <= i < |b|
        ensures Closed(b[i].cluster)
      {
        LossyHolds(b, lost, i);
      }
    } else {
      var script :| script in lost && Matters(script.0, script.1);
      LossBreaks(script.0, script.1, lost);
    }
  }
}
