// The two-node Lustre cluster and its driver: phases of remote scripts that run in parallel, each
// command with an outcome the driver does not control, and gates on the worst status seen.
module Lustre {
  import opened Arithmetic

  datatype Node = N1 | N2

  datatype Server = MGS | MDT0 | OST0 | OST1

  function Home(s: Server): Node {
    if s == OST1 then N2 else N1
  }

  // Imported pools (one for each server), nodes with all four modules and with the o2ib NID,
  // mounted servers, nodes with the client mounted.
  datatype Cluster = Cluster(
    pools: set<Server>,
    modules: set<Node>,
    nids: set<Node>,
    servers: set<Server>,
    clients: set<Node>)

  predicate AllServers(s: set<Server>) {
    MGS in s && MDT0 in s && OST0 in s && OST1 in s
  }

  predicate BothNodes(s: set<Node>) {
    N1 in s && N2 in s
  }

  // Nothing is mounted on something that is not there.
  predicate Closed(c: Cluster) {
    && (forall s | s in c.servers :: s in c.pools && Home(s) in c.modules && Home(s) in c.nids)
    && (MDT0 in c.servers ==> MGS in c.servers)
    && (OST0 in c.servers || OST1 in c.servers ==> MDT0 in c.servers)
    && (forall n | n in c.clients :: n in c.modules && n in c.nids && AllServers(c.servers))
  }

  predicate AllUp(c: Cluster) {
    AllServers(c.pools) && BothNodes(c.modules) && BothNodes(c.nids) && AllServers(c.servers) && BothNodes(c.clients)
  }

  datatype Command =
    | ImportPools
    | LoadModules
    | AddNid
    | Ping(from: Node)
    | Mount(server: Server)
    | CheckOsts
    | MountClient
    | UnmountClient
    | Unmount(server: Server)
    | ExportPools

  predicate HasPools(c: Cluster, n: Node) {
    if n == N1 then MGS in c.pools && MDT0 in c.pools && OST0 in c.pools else OST1 in c.pools
  }

  // Statuses: 0 ok, 1 warn, 2 red. What one command on node n can do to the cluster.
  predicate Executes(c: Cluster, n: Node, cmd: Command, c': Cluster, status: nat) {
    match cmd
    case ImportPools =>
      if HasPools(c, n) then c' == c && status == 0
      else
        && c' == c.(pools := c'.pools)
        && c.pools <= c'.pools && (forall s | s in c'.pools :: s in c.pools || Home(s) == n)
        && (status == 2 || (status == 0 && HasPools(c', n)))
    case LoadModules =>
      if n in c.modules then c' == c && status == 0
      else (c' == c.(modules := c.modules + {n}) && (status == 0 || status == 2)) || (c' == c && status == 2)
    case AddNid =>
      if n in c.nids then c' == c && status <= 1
      else (c' == c.(nids := c.nids + {n}) && status <= 2) || (c' == c && status == 2)
    case Ping(_) => c' == c && (status == 0 || status == 2)
    case Mount(s) =>
      if s in c.servers then c' == c && status <= 1
      // a mount given up after the timeout may still complete
      else (c' == c.(servers := c.servers + {s}) && status <= 2) || (c' == c && status == 2)
    case CheckOsts => c' == c && status <= 1
    case MountClient =>
      if n in c.clients then c' == c && status == 0
      else (c' == c.(clients := c.clients + {n}) && (status == 0 || status == 2)) || (c' == c && status == 2)
    case UnmountClient =>
      if n in c.clients then (c' == c.(clients := c.clients - {n}) && status == 0) || (c' == c && status == 2)
      else c' == c && status == 0
    case Unmount(s) =>
      if s in c.servers then (c' == c.(servers := c.servers - {s}) && status == 0) || (c' == c && status == 2)
      else c' == c && status == 0
    case ExportPools =>
      // a pool in use stays imported
      && c' == c.(pools := c'.pools) && c'.pools <= c.pools
      && (forall s | s in c.pools && s !in c'.pools :: Home(s) == n && s !in c.servers)
      && (if exists s | s in c'.pools :: Home(s) == n then status == 1 else status == 0)
  }

  datatype Plan = Bringup | Teardown

  function Phases(plan: Plan): nat {
    if plan == Bringup then 7 else 3
  }

  // The script that phase `at` sends to a node; both nodes run theirs at the same time. The pings are
  // the driver's own, one behind the other; they stand in the first script.
  function Script(plan: Plan, at: nat, n: Node): seq<Command> {
    if plan == Bringup then
      match at
      case 0 => [ImportPools, LoadModules, AddNid]
      case 1 => if n == N1 then [Ping(N1), Ping(N2)] else []
      case 2 => if n == N1 then [Mount(MGS)] else []
      case 3 => if n == N1 then [Mount(MDT0)] else []
      case 4 => if n == N1 then [Mount(OST0)] else [Mount(OST1)]
      case 5 => if n == N1 then [CheckOsts] else []
      case 6 => [MountClient]
      case _ => []
    else
      match at
      case 0 => [UnmountClient]
      case 1 => if n == N1 then [] else [Unmount(OST1), ExportPools]
      case 2 => if n == N1 then [Unmount(OST0), Unmount(MDT0), Unmount(MGS), ExportPools] else []
      case _ => []
  }

  // Whether the driver halts after the phase when the worst status so far is red.
  predicate Gated(plan: Plan, at: nat) {
    plan == Bringup && at < 5
  }

  // at: the phase; first, second: what is left of its scripts on N1 and N2.
  datatype Driver = Driver(
    cluster: Cluster,
    at: nat,
    first: seq<Command>,
    second: seq<Command>,
    worst: nat,
    halted: bool)

  function Enter(plan: Plan, d: Driver, at: nat): Driver {
    d.(at := at, first := Script(plan, at, N1), second := Script(plan, at, N2))
  }

  function Initial(plan: Plan, c: Cluster): Driver {
    Enter(plan, Driver(c, 0, [], [], 0, false), 0)
  }

  // One command of one node's script; a red status ends the script.
  predicate RunsFirst(d: Driver, d': Driver, status: nat) {
    && d.first != [] && !d.halted && Executes(d.cluster, N1, d.first[0], d'.cluster, status)
    && d' == d.(cluster := d'.cluster, first := if status == 2 then [] else d.first[1..], worst := Max(d.worst, status))
  }

  predicate RunsSecond(d: Driver, d': Driver, status: nat) {
    && d.second != [] && !d.halted && Executes(d.cluster, N2, d.second[0], d'.cluster, status)
    && d' == d.(cluster := d'.cluster, second := if status == 2 then [] else d.second[1..],
                worst := Max(d.worst, status))
  }

  // Both scripts are over: halt at a gate, or go on.
  predicate Advances(plan: Plan, d: Driver, d': Driver) {
    && d.first == [] && d.second == [] && !d.halted && d.at < Phases(plan)
    && d' == if Gated(plan, d.at) && d.worst >= 2 then d.(halted := true) else Enter(plan, d, d.at + 1)
  }

  ghost predicate Next(plan: Plan, d: Driver, d': Driver) {
    || (exists status: nat :: RunsFirst(d, d', status))
    || (exists status: nat :: RunsSecond(d, d', status))
    || Advances(plan, d, d')
  }

  // Any interleaving of the parallel scripts, any outcome of each command.
  ghost predicate Run(plan: Plan, b: seq<Driver>) {
    b != [] && b[0] == Initial(plan, b[0].cluster) && forall i | 0 <= i < |b| - 1 :: Next(plan, b[i], b[i + 1])
  }

  predicate Finished(plan: Plan, d: Driver) {
    d.at == Phases(plan)
  }
}
