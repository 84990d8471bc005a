/** The machine the supervisor acts on: one IPv4 routing table keyed by masked prefix, the
    network links, and the wireguard-go processes, changed one command at a time.

    Whether a command that could succeed does succeed, and what it prints, is decided by
    a parameter, so every statement holds for every pattern of failures. */
module Kernel {
  import opened Options
  import Ipv4

  datatype Hop = Hop(via: Option<Ipv4.Addr>, dev: string)

  type Table = map<Ipv4.Prefix, Hop>

  // ------------------------------------------------------------- forwarding

  function LookupFrom(t: Table, a: Ipv4.Addr, n: nat): Option<Hop>
    requires n <= Ipv4.MAX_BITS
  {
    if Ipv4.Cover(a, n) in t then Some(t[Ipv4.Cover(a, n)])
    else if n == 0 then None
    else LookupFrom(t, a, n - 1)
  }

  function Lookup(t: Table, a: Ipv4.Addr): Option<Hop> {
    LookupFrom(t, a, Ipv4.MAX_BITS)
  }

  ghost predicate WellKeyed(t: Table) {
    forall p | p in t :: Ipv4.IsMasked(p)
  }

  // The most specific entry that holds the address (section 5.1 of RFC 4632).
  ghost predicate IsLongestMatch(t: Table, a: Ipv4.Addr, p: Ipv4.Prefix) {
    && p in t && Ipv4.IsMasked(p) && Ipv4.Holds(p, a)
    && forall q | q in t && Ipv4.IsMasked(q) && Ipv4.Holds(q, a) :: q.bits <= p.bits
  }

  lemma {:induction false} LookupFromMeaning(t: Table, a: Ipv4.Addr, n: nat)
    requires n <= Ipv4.MAX_BITS && WellKeyed(t)
    requires forall q | q in t && Ipv4.Holds(q, a) :: q.bits <= n
    ensures LookupFrom(t, a, n).Some? ==> exists p :: IsLongestMatch(t, a, p) && LookupFrom(t, a, n).value == t[p]
    ensures LookupFrom(t, a, n).None? ==> forall q | q in t :: !Ipv4.Holds(q, a)
  {
    var p := Ipv4.Cover(a, n);
    Ipv4.CoverMasked(a, n);
    if p in t {
      assert IsLongestMatch(t, a, p);
    } else {
      forall q | q in t && Ipv4.Holds(q, a)
        ensures q.bits < n
      {
        Ipv4.HoldsIsCover(q, a);
      }
      if n > 0 {
        LookupFromMeaning(t, a, n - 1);
      }
    }
  }

  // There is one longest match at most, and looking an address up finds its hop.
  lemma LookupIsLongestMatch(t: Table, a: Ipv4.Addr, hop: Hop)
    requires WellKeyed(t)
    ensures Lookup(t, a) == Some(hop) <==> exists p :: IsLongestMatch(t, a, p) && t[p] == hop
    ensures Lookup(t, a) == None <==> forall p | p in t :: !Ipv4.Holds(p, a)
  {
    LookupFromMeaning(t, a, Ipv4.MAX_BITS);
    if p :| IsLongestMatch(t, a, p) {
      forall q | IsLongestMatch(t, a, q)
        ensures q == p
      {
        Ipv4.HoldsIsCover(p, a);
        Ipv4.HoldsIsCover(q, a);
      }
    }
  }

  // A host route decides its address.
  lemma HostRouteWins(t: Table, a: Ipv4.Addr)
    requires Ipv4.Host(a) in t
    ensures Lookup(t, a) == Some(t[Ipv4.Host(a)])
  {
    assert Ipv4.Cover(a, Ipv4.MAX_BITS) == Ipv4.Host(a);
  }

  // ------------------------------------------------------------- commands

  datatype Command =
    | LinkShow(dev: string)
    | LinkAdd(dev: string)
    | LinkDelete(dev: string)
    | LinkUp(dev: string, mtu: int)
    | AddrReplace(dev: string, address: string)
    | SetConf(dev: string, config: string)
    | ShowDefault(dev: string)
    | RouteReplace(dest: string, via: string, dev: string)
    | Launch(dev: string)
    | WaitReady(dev: string)
    | Kill(pid: nat)
    | Other(what: string)

  datatype Reply = Reply(ok: bool, output: string)

  // What the outside decides about the n-th command: whether it works, what it prints,
  // which connected prefixes an address or a link coming up would bring, and whether a
  // launched process creates its link.
  datatype Fate = Fate(ok: bool, output: string, connected: set<Ipv4.Prefix>, appears: bool)

  type Fates = nat -> Fate

  datatype Step = Step(cmd: Command, ok: bool, after: Table)

  // live holds the launched processes that have not exited, and unkilled those no kill has
  // been attempted on; owner is the process whose death takes the tunnel link with it.
  datatype World = World(
    routes: Table,
    links: set<string>,
    live: set<nat>,
    unkilled: set<nat>,
    launched: nat,
    owner: map<string, nat>,
    log: seq<Step>)

  // kernelWireGuard: whether the kernel itself can make a WireGuard link.
  datatype Env = Env(v6: Ipv4.V6Syntax, kernelWireGuard: bool, fates: Fates)

  const DEFAULT_ROUTE := Ipv4.Prefix(0, 0)

  // What `ip route show default dev X` prints.
  function DefaultText(t: Table, dev: string, tail: string): string {
    if DEFAULT_ROUTE in t && t[DEFAULT_ROUTE].dev == dev then
      match t[DEFAULT_ROUTE].via
      case Some(gateway) => "default via " + Ipv4.PrintAddr(gateway) + " " + tail + "\n"
      case None => "default scope link\n"
    else ""
  }

  const MISSING := "Cannot find device\n"

  // The device the command is about is not there.
  predicate NoDevice(w: World, cmd: Command) {
    match cmd
    case LinkShow(dev) => dev !in w.links
    case LinkDelete(dev) => dev !in w.links
    case LinkUp(dev, _) => dev !in w.links
    case AddrReplace(dev, _) => dev !in w.links
    case SetConf(dev, _) => dev !in w.links
    case ShowDefault(dev) => dev !in w.links
    case RouteReplace(_, _, dev) => dev !in w.links
    case WaitReady(dev) => dev !in w.links
    case _ => false
  }

  // Whether a command can succeed in this state. A process that has exited cannot be killed.
  predicate Feasible(env: Env, w: World, cmd: Command) {
    && !NoDevice(w, cmd)
    && match cmd
       case LinkAdd(dev) => env.kernelWireGuard && dev !in w.links
       case Kill(pid) => pid in w.live
       case RouteReplace(dest, via, dev) =>
         && (via != "" ==> Ipv4.ParseQuad(via).Some?)
         && (match Ipv4.ParsePrefix(env.v6, dest)
             case Some(Net4(p)) => Ipv4.IsMasked(p)
             case Some(Net6) => true
             case None => false)
       case _ => true
  }

  function Without(t: Table, dev: string): Table {
    map p | p in t && t[p].dev != dev :: t[p]
  }

  function DropLink(w: World, dev: string): World {
    w.(links := w.links - {dev}, routes := Without(w.routes, dev), owner := w.owner - {dev})
  }

  // Connected routes appear only where there is no entry yet.
  function Connect(t: Table, prefixes: set<Ipv4.Prefix>, dev: string): Table {
    t + map p | p in prefixes && Ipv4.IsMasked(p) && p !in t :: Hop(None, dev)
  }

  // The process is gone, and its link and the routes through it with it.
  function Exited(w: World, pid: nat): World {
    var owned := set dev | dev in w.owner && w.owner[dev] == pid;
    w.(live := w.live - {pid},
       links := w.links - owned,
       routes := map p | p in w.routes && w.routes[p].dev !in owned :: w.routes[p],
       owner := w.owner - owned)
  }

  // The effect of a command that works.
  function Effect(env: Env, w: World, cmd: Command, fate: Fate): World {
    match cmd
    case LinkAdd(dev) => w.(links := w.links + {dev})
    case LinkDelete(dev) => DropLink(w, dev)
    case LinkUp(dev, _) => w.(routes := Connect(w.routes, fate.connected, dev))
    case AddrReplace(dev, _) => w.(routes := Connect(w.routes, fate.connected, dev))
    case RouteReplace(dest, via, dev) =>
      (match Ipv4.ParsePrefix(env.v6, dest)
       case Some(Net4(p)) => w.(routes := w.routes[p := Hop(Ipv4.ParseQuad(via), dev)])
       case _ => w)
    case Launch(dev) =>
      w.(live := w.live + {w.launched},
         unkilled := w.unkilled + {w.launched},
         launched := w.launched + 1,
         links := if fate.appears then w.links + {dev} else w.links,
         owner := if !fate.appears || dev in w.links then w.owner else w.owner[dev := w.launched])
    case Kill(pid) => Exited(w, pid)
    case _ => w
  }

  // A kill counts as attempted whether or not it works.
  function Attempt(w: World, cmd: Command): World {
    if cmd.Kill? then w.(unkilled := w.unkilled - {cmd.pid}) else w
  }

  datatype Outcome = Outcome(w: World, reply: Reply)

  function Exec(env: Env, w: World, cmd: Command): Outcome {
    var fate := env.fates(|w.log|);
    var ok := Feasible(env, w, cmd) && fate.ok;
    var w1 := Attempt(if ok then Effect(env, w, cmd, fate) else w, cmd);
    var output :=
      if NoDevice(w, cmd) then MISSING
      else if ok && cmd.ShowDefault? then DefaultText(w.routes, cmd.dev, fate.output)
      else fate.output;
    Outcome(w1.(log := w.log + [Step(cmd, ok, w1.routes)]), Reply(ok, output))
  }

  class Machine {
    var w: World
    const env: Env

    constructor (w0: World, env0: Env)
      ensures w == w0 && env == env0
    {
      w, env := w0, env0;
    }

    // CommandRunner.Run and the process calls.
    method Run(cmd: Command) returns (reply: Reply)
      modifies this
      ensures Outcome(w, reply) == Exec(env, old(w), cmd)
    {
      var outcome := Exec(env, w, cmd);
      w := outcome.w;
      reply := outcome.reply;
    }
  }

  // ------------------------------------------------------------- runs of commands

  function Replay(env: Env, w: World, cmds: seq<Command>): World
    decreases |cmds|
  {
    if cmds == [] then w else Replay(env, Exec(env, w, cmds[0]).w, cmds[1..])
  }

  lemma ReplayOne(env: Env, w: World, cmd: Command)
    ensures Replay(env, w, [cmd]) == Exec(env, w, cmd).w
  {
    assert [cmd][1..] == [];
  }

  lemma {:induction false} ReplayAppend(env: Env, w: World, a: seq<Command>, b: seq<Command>)
    ensures Replay(env, w, a + b) == Replay(env, Replay(env, w, a), b)
    decreases |a|
  {
    if a == [] {
      assert a + b == b;
    } else {
      assert (a + b)[1..] == a[1..] + b;
      ReplayAppend(env, Exec(env, w, a[0]).w, a[1..], b);
    }
  }

  lemma ExecLog(env: Env, w: World, cmd: Command)
    ensures var w1 := Exec(env, w, cmd).w;
            w1.log == w.log + [Step(cmd, Exec(env, w, cmd).reply.ok, w1.routes)]
  {
  }

  predicate Extends(log: seq<Step>, before: seq<Step>, cmds: seq<Command>) {
    && |log| == |before| + |cmds|
    && log[..|before|] == before
    && forall i | 0 <= i < |cmds| :: log[|before| + i].cmd == cmds[i]
  }

  lemma ExtendsCons(log: seq<Step>, before: seq<Step>, step: Step, cmds: seq<Command>)
    requires Extends(log, before + [step], cmds)
    ensures Extends(log, before, [step.cmd] + cmds) && log[|before|] == step
  {
    assert log[..|before|] == log[..|before| + 1][..|before|];
    assert log[|before|] == log[..|before| + 1][|before|];
    forall i | 0 <= i < |cmds| + 1
      ensures log[|before| + i].cmd == ([step.cmd] + cmds)[i]
    {
      if i > 0 {
        assert log[|before + [step]| + (i - 1)].cmd == cmds[i - 1];
      }
    }
  }

  // A run logs its commands, in order, after what was logged before.
  lemma {:induction false} ReplayLog(env: Env, w: World, cmds: seq<Command>)
    ensures Extends(Replay(env, w, cmds).log, w.log, cmds)
    decreases |cmds|, 1
  {
    if cmds != [] {
      ReplayFirst(env, w, cmds);
    } else {
      assert w.log[..|w.log|] == w.log;
    }
  }

  // The first step of a run, as the log of the whole run shows it.
  lemma ReplayFirst(env: Env, w: World, cmds: seq<Command>)
    requires cmds != []
    ensures var w1, w' := Exec(env, w, cmds[0]).w, Replay(env, w, cmds);
            && |w1.log| == |w.log| + 1
            && Extends(w'.log, w.log, cmds)
            && w'.log[|w.log|].after == w1.routes
            && w' == Replay(env, w1, cmds[1..])
    decreases |cmds|, 0
  {
    hide Exec, Extends;
    var w1 := Exec(env, w, cmds[0]).w;
    ExecLog(env, w, cmds[0]);
    ReplayLog(env, w1, cmds[1..]);
    assert cmds == [cmds[0]] + cmds[1..];
    ExtendsCons(Replay(env, w, cmds).log, w.log, w1.log[|w.log|], cmds[1..]);
    assert |Replay(env, w, cmds).log| > |w.log| by { ExtendsLength(Replay(env, w, cmds).log, w.log, cmds); }
  }

  lemma ExtendsLength(log: seq<Step>, before: seq<Step>, cmds: seq<Command>)
    requires Extends(log, before, cmds)
    ensures |log| == |before| + |cmds|
  {
  }

  // Every entry is masked and leaves through a link that exists.
  ghost predicate WellFormed(w: World) {
    && WellKeyed(w.routes)
    && (forall p | p in w.routes :: w.routes[p].dev in w.links)
  }

  lemma ExecKeepsWellFormed(env: Env, w: World, cmd: Command)
    requires WellFormed(w)
    ensures WellFormed(Exec(env, w, cmd).w)
  {
  }

  lemma {:induction false} ReplayKeepsWellFormed(env: Env, w: World, cmds: seq<Command>)
    requires WellFormed(w)
    ensures WellFormed(Replay(env, w, cmds))
    decreases |cmds|
  {
    if cmds != [] {
      ExecKeepsWellFormed(env, w, cmds[0]);
      ReplayKeepsWellFormed(env, Exec(env, w, cmds[0]).w, cmds[1..]);
    }
  }

  // ------------------------------------------------------------- keeping a pin

  // The address leaves through dev by its own host route.
  predicate Pinned(t: Table, a: Ipv4.Addr, dev: string) {
    Ipv4.Host(a) in t && t[Ipv4.Host(a)].dev == dev
  }

  // A command that cannot take the pin of an address away: it deletes no link but the
  // tunnel, and does not send that very /32 elsewhere.
  predicate SparesPin(v6: Ipv4.V6Syntax, cmd: Command, a: Ipv4.Addr, dev: string, tunnel: string) {
    match cmd
    case LinkDelete(d) => d == tunnel
    case RouteReplace(dest, _, d) => d == dev || Ipv4.ParsePrefix(v6, dest) != Some(Ipv4.Net4(Ipv4.Host(a)))
    case Launch(d) => d == tunnel
    case _ => true
  }

  // Only the tunnel is ever owned by a process.
  ghost predicate OwnsOnly(w: World, tunnel: string) {
    forall d | d in w.owner :: d == tunnel
  }

  lemma ExecKeepsPin(env: Env, w: World, cmd: Command, a: Ipv4.Addr, dev: string, tunnel: string)
    requires Pinned(w.routes, a, dev) && OwnsOnly(w, tunnel) && dev != tunnel
    requires SparesPin(env.v6, cmd, a, dev, tunnel)
    ensures Pinned(Exec(env, w, cmd).w.routes, a, dev) && OwnsOnly(Exec(env, w, cmd).w, tunnel)
  {
  }

  // Over a run of such commands the pin is there after each one.
  lemma {:induction false} ReplayKeepsPin(
      env: Env, w: World, cmds: seq<Command>, a: Ipv4.Addr, dev: string, tunnel: string)
    requires Pinned(w.routes, a, dev) && OwnsOnly(w, tunnel) && dev != tunnel
    requires forall i | 0 <= i < |cmds| :: SparesPin(env.v6, cmds[i], a, dev, tunnel)
    ensures var w' := Replay(env, w, cmds);
            && Pinned(w'.routes, a, dev) && OwnsOnly(w', tunnel)
            && |w'.log| == |w.log| + |cmds|
            && forall i | |w.log| <= i < |w'.log| :: Pinned(w'.log[i].after, a, dev)
    decreases |cmds|
  {
    hide Exec, SparesPin, Pinned, OwnsOnly;
    if cmds != [] {
      var w1 := Exec(env, w, cmds[0]).w;
      ExecKeepsPin(env, w, cmds[0], a, dev, tunnel);
      ReplayKeepsPin(env, w1, cmds[1..], a, dev, tunnel);
      ReplayFirst(env, w, cmds);
    }
  }

  // ------------------------------------------------------------- commands on the tunnel

  // Commands that change nothing but the tunnel and the routes through it.
  predicate OnTunnel(cmd: Command, tunnel: string) {
    match cmd
    case LinkAdd(d) => d == tunnel
    case LinkDelete(d) => d == tunnel
    case LinkUp(d, _) => d == tunnel
    case AddrReplace(d, _) => d == tunnel
    case Launch(d) => d == tunnel
    case RouteReplace(_, _, _) => false
    case _ => true
  }

  lemma ExecOnTunnel(env: Env, w: World, cmd: Command, tunnel: string)
    requires OnTunnel(cmd, tunnel) && OwnsOnly(w, tunnel)
    ensures Without(Exec(env, w, cmd).w.routes, tunnel) == Without(w.routes, tunnel)
    ensures OwnsOnly(Exec(env, w, cmd).w, tunnel)
    ensures Exec(env, w, cmd).w.links - {tunnel} == w.links - {tunnel}
  {
  }

  lemma {:induction false} ReplayOnTunnel(env: Env, w: World, cmds: seq<Command>, tunnel: string)
    requires OwnsOnly(w, tunnel)
    requires forall i | 0 <= i < |cmds| :: OnTunnel(cmds[i], tunnel)
    ensures Without(Replay(env, w, cmds).routes, tunnel) == Without(w.routes, tunnel)
    ensures OwnsOnly(Replay(env, w, cmds), tunnel)
    ensures Replay(env, w, cmds).links - {tunnel} == w.links - {tunnel}
    decreases |cmds|
  {
    if cmds != [] {
      ExecOnTunnel(env, w, cmds[0], tunnel);
      ReplayOnTunnel(env, Exec(env, w, cmds[0]).w, cmds[1..], tunnel);
    }
  }
}
