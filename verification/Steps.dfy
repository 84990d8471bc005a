/** The supervisor's actions one step at a time: one command, or one access to the manager's
    process field, per step, and the proof that carried out alone they do what their
    specifications say. */
module Steps {
  import opened Options
  import Ipv4
  import AppConfig
  import WgConfig
  import Routes
  import WgManager
  import opened Kernel
  import opened Orchestrator

  // What is left to do. A command is answered with its reply and, for a launch, the new
  // process; Get and Set access the manager's process field.
  datatype Prog =
    | Ret(response: Response)
    | Do(cmd: Command, next: (nat, Reply) -> Prog)
    | Get(found: Option<nat> -> Prog)
    | Set(process: Option<nat>, then_: Prog)

  function StepProg(env: Env, s: WgManager.State, p: Prog): (WgManager.State, Prog) {
    match p
    case Ret(_) => (s, p)
    case Do(cmd, next) =>
      var outcome := Exec(env, s.w, cmd);
      (s.(w := outcome.w), next(s.w.launched, outcome.reply))
    case Get(found) => (s, found(s.process))
    case Set(process, rest) => (s.(process := process), rest)
  }

  function Go(env: Env, s: WgManager.State, p: Prog, n: nat): (WgManager.State, Prog)
    decreases n
  {
    if n == 0 then (s, p)
    else
      var next := StepProg(env, s, p);
      Go(env, next.0, next.1, n - 1)
  }

  // Some number of steps leads from one to the other.
  ghost predicate Reaches(env: Env, s: WgManager.State, p: Prog, s': WgManager.State, p': Prog) {
    exists n: nat :: Go(env, s, p, n) == (s', p')
  }

  lemma {:induction false} GoAdd(env: Env, s: WgManager.State, p: Prog, a: nat, b: nat)
    ensures var mid := Go(env, s, p, a); Go(env, s, p, a + b) == Go(env, mid.0, mid.1, b)
    decreases a
  {
    hide StepProg;
    if a > 0 {
      var next := StepProg(env, s, p);
      GoAdd(env, next.0, next.1, a - 1, b);
    }
  }

  lemma Trans(env: Env, s: WgManager.State, p: Prog, s1: WgManager.State, p1: Prog, s2: WgManager.State, p2: Prog)
    requires Reaches(env, s, p, s1, p1) && Reaches(env, s1, p1, s2, p2)
    ensures Reaches(env, s, p, s2, p2)
  {
    hide Go;
    var a: nat :| Go(env, s, p, a) == (s1, p1);
    var b: nat :| Go(env, s1, p1, b) == (s2, p2);
    GoAdd(env, s, p, a, b);
    assert Go(env, s, p, a + b) == (s2, p2);
  }

  lemma Here(env: Env, s: WgManager.State, p: Prog)
    ensures Reaches(env, s, p, s, p)
  {
    assert Go(env, s, p, 0) == (s, p);
  }

  // A step, and then the rest.
  lemma StepThen(env: Env, s: WgManager.State, p: Prog, s2: WgManager.State, p2: Prog)
    requires var next := StepProg(env, s, p); Reaches(env, next.0, next.1, s2, p2)
    ensures Reaches(env, s, p, s2, p2)
  {
    hide StepProg;
    var next := StepProg(env, s, p);
    var n: nat :| Go(env, next.0, next.1, n) == (s2, p2);
    assert Go(env, s, p, n + 1) == (s2, p2);
  }

  // ------------------------------------------------------------- the tunnel

  type WgCont = WgManager.Result -> Prog

  function KillProg(k: WgCont): Prog {
    Get((process: Option<nat>) =>
      match process
      case None => k(WgManager.Ok)
      case Some(pid) => Do(Kill(pid), (_, reply: Reply) =>
          Set(None, k(if reply.ok then WgManager.Ok else WgManager.Failed))))
  }

  function WaitProg(setup: WgManager.Setup, k: WgCont): Prog {
    Do(WaitReady(setup.iface), (_, ready: Reply) =>
      if ready.ok then k(WgManager.Ok) else KillProg(_ => k(WgManager.Failed)))
  }

  function LaunchProg(setup: WgManager.Setup, k: WgCont): Prog {
    Do(Launch(setup.iface), (pid: nat, launch: Reply) =>
      if launch.ok then Set(Some(pid), WaitProg(setup, k)) else k(WgManager.Failed))
  }

  function HeldProg(setup: WgManager.Setup, k: WgCont): Prog {
    Get((process: Option<nat>) => if process.Some? then k(WgManager.Ok) else LaunchProg(setup, k))
  }

  function AddProg(setup: WgManager.Setup, k: WgCont): Prog {
    Do(LinkAdd(setup.iface), (_, add: Reply) => if add.ok then k(WgManager.Ok) else HeldProg(setup, k))
  }

  function EnsureProg(setup: WgManager.Setup, k: WgCont): Prog {
    Do(LinkShow(setup.iface), (_, show: Reply) => if show.ok then k(WgManager.Ok) else AddProg(setup, k))
  }

  function StepOrKillProg(cmd: Command, k: WgCont): Prog {
    Do(cmd, (_, reply: Reply) => if reply.ok then k(WgManager.Ok) else KillProg(_ => k(WgManager.Failed)))
  }

  function ConfigureProg(setup: WgManager.Setup, config: string, meta: WgConfig.ConfigMeta, k: WgCont): Prog {
    var up := LinkUp(setup.iface, WgManager.EffectiveMTU(setup, meta));
    StepOrKillProg(SetConf(setup.iface, WgConfig.Setconf(config)), (r1: WgManager.Result) =>
      if !r1.Ok? then k(r1)
      else if meta.interfaceAddress == "" then StepOrKillProg(up, k)
      else
        StepOrKillProg(AddrReplace(setup.iface, meta.interfaceAddress), (r2: WgManager.Result) =>
          if !r2.Ok? then k(r2) else StepOrKillProg(up, k)))
  }

  function StartProg(setup: WgManager.Setup, inputs: WgManager.StartInputs, k: WgCont): Prog {
    if inputs.config.None? then k(WgManager.Refused)
    else
      var v := WgConfig.Validate(inputs.lib, inputs.config.value);
      if v.error.Some? || !inputs.tempOk then k(WgManager.Refused)
      else
        EnsureProg(setup, (r: WgManager.Result) =>
          if !r.Ok? then k(r) else ConfigureProg(setup, inputs.config.value, v.meta, k))
  }

  function StopProg(setup: WgManager.Setup, k: WgCont): Prog {
    Do(LinkDelete(setup.iface), (_, deleted: Reply) =>
      KillProg((killed: WgManager.Result) =>
        k(if !killed.Ok? then WgManager.Failed
          else if !deleted.ok && !WgManager.IsMissingInterfaceOutput(deleted.output) then WgManager.Failed
          else WgManager.Ok)))
  }

  function RestartProg(setup: WgManager.Setup, inputs: WgManager.StartInputs, k: WgCont): Prog {
    StopProg(setup, (stopped: WgManager.Result) =>
      StartProg(setup, inputs, (started: WgManager.Result) => k(if !stopped.Ok? then stopped else started)))
  }

  lemma KillGoes(env: Env, s: WgManager.State, k: WgCont)
    ensures var r := WgManager.KillRun(env, s); Reaches(env, s, KillProg(k), r.s, k(r.result))
  {
    hide Exec;
    var r := WgManager.KillRun(env, s);
    var next := StepProg(env, s, KillProg(k));
    if s.process.Some? {
      var killed := Exec(env, s.w, Kill(s.process.value));
      var s1 := s.(w := killed.w);
      var p1 := Set(None, k(r.result));
      Here(env, r.s, k(r.result));
      StepThen(env, s1, p1, r.s, k(r.result));
      StepThen(env, next.0, next.1, r.s, k(r.result));
    } else {
      Here(env, r.s, k(r.result));
    }
    StepThen(env, s, KillProg(k), r.s, k(r.result));
  }

  // A command whose failure kills the process, whatever the answer to it is.
  lemma StepOrKillGoes(env: Env, s: WgManager.State, cmd: Command, k: WgCont)
    ensures var r := WgManager.StepOrKill(env, s, cmd); Reaches(env, s, StepOrKillProg(cmd, k), r.s, k(r.result))
  {
    hide Exec, WgManager.KillRun, Reaches, KillProg;
    var r := WgManager.StepOrKill(env, s, cmd);
    var step := Exec(env, s.w, cmd);
    var s1 := s.(w := step.w);
    if step.reply.ok {
      Here(env, s1, k(WgManager.Ok));
    } else {
      KillGoes(env, s1, _ => k(WgManager.Failed));
    }
    StepThen(env, s, StepOrKillProg(cmd, k), r.s, k(r.result));
  }

  lemma LaunchGoes(env: Env, setup: WgManager.Setup, w: World, k: WgCont)
    ensures var r := WgManager.LaunchRun(env, setup, w);
            Reaches(env, WgManager.State(w, None), LaunchProg(setup, k), r.s, k(r.result))
  {
    hide Exec, WgManager.KillRun, Reaches, KillProg;
    var r := WgManager.LaunchRun(env, setup, w);
    var s := WgManager.State(w, None);
    var launch := Exec(env, w, Launch(setup.iface));
    var s1 := WgManager.State(launch.w, None);
    if launch.reply.ok {
      var held := WgManager.State(launch.w, Some(w.launched));
      var ready := Exec(env, launch.w, WaitReady(setup.iface));
      var s2 := WgManager.State(ready.w, Some(w.launched));
      if ready.reply.ok {
        Here(env, s2, k(WgManager.Ok));
      } else {
        KillGoes(env, s2, _ => k(WgManager.Failed));
      }
      StepThen(env, held, WaitProg(setup, k), r.s, k(r.result));
      StepThen(env, s1, Set(Some(w.launched), WaitProg(setup, k)), r.s, k(r.result));
    } else {
      Here(env, s1, k(WgManager.Failed));
    }
    StepThen(env, s, LaunchProg(setup, k), r.s, k(r.result));
  }

  lemma EnsureGoes(env: Env, setup: WgManager.Setup, s: WgManager.State, k: WgCont)
    ensures var r := WgManager.EnsureRun(env, setup, s); Reaches(env, s, EnsureProg(setup, k), r.s, k(r.result))
  {
    hide Exec, WgManager.LaunchRun, Reaches, LaunchProg;
    var r := WgManager.EnsureRun(env, setup, s);
    var show := Exec(env, s.w, LinkShow(setup.iface));
    var s1 := s.(w := show.w);
    if show.reply.ok {
      Here(env, s1, k(WgManager.Ok));
    } else {
      var add := Exec(env, show.w, LinkAdd(setup.iface));
      var s2 := s.(w := add.w);
      if add.reply.ok {
        Here(env, s2, k(WgManager.Ok));
      } else {
        if s.process.Some? {
          Here(env, s2, k(WgManager.Ok));
        } else {
          LaunchGoes(env, setup, add.w, k);
        }
        StepThen(env, s2, HeldProg(setup, k), r.s, k(r.result));
      }
      StepThen(env, s1, AddProg(setup, k), r.s, k(r.result));
    }
    StepThen(env, s, EnsureProg(setup, k), r.s, k(r.result));
  }

  lemma ConfigureGoes(
      env: Env, setup: WgManager.Setup, s: WgManager.State, config: string, meta: WgConfig.ConfigMeta, k: WgCont)
    ensures var r := WgManager.ConfigureRun(env, setup, s, config, meta);
            Reaches(env, s, ConfigureProg(setup, config, meta, k), r.s, k(r.result))
  {
    hide Exec, WgManager.StepOrKill, Reaches, StepOrKillProg, WgConfig.Setconf, WgManager.EffectiveMTU;
    var r := WgManager.ConfigureRun(env, setup, s, config, meta);
    var c1, up := SetConf(setup.iface, WgConfig.Setconf(config)),
        LinkUp(setup.iface, WgManager.EffectiveMTU(setup, meta));
    var c2 := AddrReplace(setup.iface, meta.interfaceAddress);
    var k2: WgCont := (r2: WgManager.Result) => if !r2.Ok? then k(r2) else StepOrKillProg(up, k);
    var k1: WgCont := (r1: WgManager.Result) =>
      if !r1.Ok? then k(r1)
      else if meta.interfaceAddress == "" then StepOrKillProg(up, k)
      else StepOrKillProg(c2, k2);
    var r1 := WgManager.StepOrKill(env, s, c1);
    StepOrKillGoes(env, s, c1, k1);
    if !r1.result.Ok? {
      Here(env, r.s, k(r.result));
    } else if meta.interfaceAddress == "" {
      StepOrKillGoes(env, r1.s, up, k);
    } else {
      var r2 := WgManager.StepOrKill(env, r1.s, c2);
      StepOrKillGoes(env, r1.s, c2, k2);
      if r2.result.Ok? {
        StepOrKillGoes(env, r2.s, up, k);
      } else {
        Here(env, r.s, k(r.result));
      }
      Trans(env, r1.s, StepOrKillProg(c2, k2), r2.s, k2(r2.result), r.s, k(r.result));
    }
    Trans(env, s, StepOrKillProg(c1, k1), r1.s, k1(r1.result), r.s, k(r.result));
  }

  lemma StartGoes(env: Env, setup: WgManager.Setup, s: WgManager.State, inputs: WgManager.StartInputs, k: WgCont)
    ensures var r := WgManager.StartRun(env, setup, s, inputs);
            Reaches(env, s, StartProg(setup, inputs, k), r.s, k(r.result))
  {
    hide WgManager.EnsureRun, WgManager.ConfigureRun, Reaches, EnsureProg, ConfigureProg, WgConfig.Validate;
    var r := WgManager.StartRun(env, setup, s, inputs);
    if inputs.config.None? || WgConfig.Validate(inputs.lib, inputs.config.value).error.Some? || !inputs.tempOk {
      Here(env, s, k(WgManager.Refused));
    } else {
      var meta := WgConfig.Validate(inputs.lib, inputs.config.value).meta;
      var k1: WgCont := (e: WgManager.Result) =>
          if !e.Ok? then k(e) else ConfigureProg(setup, inputs.config.value, meta, k);
      var e := WgManager.EnsureRun(env, setup, s);
      EnsureGoes(env, setup, s, k1);
      if e.result.Ok? {
        ConfigureGoes(env, setup, e.s, inputs.config.value, meta, k);
      } else {
        Here(env, r.s, k(r.result));
      }
      Trans(env, s, EnsureProg(setup, k1), e.s, k1(e.result), r.s, k(r.result));
    }
  }

  lemma StopGoes(env: Env, setup: WgManager.Setup, s: WgManager.State, k: WgCont)
    ensures var r := WgManager.StopRun(env, setup, s); Reaches(env, s, StopProg(setup, k), r.s, k(r.result))
  {
    hide Exec, WgManager.KillRun, Reaches, KillProg, WgManager.IsMissingInterfaceOutput;
    var r := WgManager.StopRun(env, setup, s);
    var deleted := Exec(env, s.w, LinkDelete(setup.iface));
    var k1: WgCont := (killed: WgManager.Result) =>
      k(if !killed.Ok? then WgManager.Failed
        else if !deleted.reply.ok && !WgManager.IsMissingInterfaceOutput(deleted.reply.output) then WgManager.Failed
        else WgManager.Ok);
    KillGoes(env, s.(w := deleted.w), k1);
    StepThen(env, s, StopProg(setup, k), r.s, k(r.result));
  }

  lemma RestartGoes(env: Env, setup: WgManager.Setup, s: WgManager.State, inputs: WgManager.StartInputs, k: WgCont)
    ensures var r := WgManager.RestartRun(env, setup, s, inputs);
            Reaches(env, s, RestartProg(setup, inputs, k), r.s, k(r.result))
  {
    hide WgManager.StopRun, WgManager.StartRun, Reaches, StopProg, StartProg;
    var r := WgManager.RestartRun(env, setup, s, inputs);
    var stopped := WgManager.StopRun(env, setup, s);
    var k1: WgCont := (stop: WgManager.Result) =>
      StartProg(setup, inputs, (started: WgManager.Result) => k(if !stop.Ok? then stop else started));
    StopGoes(env, setup, s, k1);
    StartGoes(env, setup, stopped.s, inputs, (started: WgManager.Result) =>
        k(if !stopped.result.Ok? then stopped.result else started));
    Trans(env, s, StopProg(setup, k1), stopped.s, k1(stopped.result), r.s, k(r.result));
  }

  // ------------------------------------------------------------- routes

  type RouteCont = Option<Routes.ApplyError> -> Prog

  function ReplaceProg(cmd: Command, k: RouteCont): Prog {
    Do(cmd, (_, reply: Reply) => k(if reply.ok then None else Some(Routes.CommandFailed)))
  }

  function HostRouteProg(u: Routes.Underlay, a: Ipv4.Addr, k: RouteCont): Prog {
    var dest := Ipv4.PrintAddr(a) + "/32";
    if u.via != "" then ReplaceProg(RouteReplace(dest, u.via, u.iface), k)
    else
      Do(ShowDefault(u.iface), (_, shown: Reply) =>
        if !shown.ok then k(Some(Routes.CommandFailed))
        else ReplaceProg(RouteReplace(dest, Routes.GatewayWord(Routes.Fields(shown.output)), u.iface), k))
  }

  function EndpointsProg(u: Routes.Underlay, addrs: seq<Ipv4.Addr>, k: RouteCont): Prog
    decreases |addrs|
  {
    if addrs == [] then k(None)
    else
      HostRouteProg(u, addrs[0], (e: Option<Routes.ApplyError>) =>
          if e.Some? then k(e) else EndpointsProg(u, addrs[1..], k))
  }

  function ClientsProg(v6: Ipv4.V6Syntax, u: Routes.Underlay, routes: seq<string>, k: RouteCont): Prog
    decreases |routes|
  {
    if routes == [] then k(None)
    else
      match Routes.PinnedAddr(v6, routes[0])
      case None => k(Some(Routes.BadPinnedRoute(routes[0])))
      case Some(a) =>
        HostRouteProg(u, a, (e: Option<Routes.ApplyError>) =>
            if e.Some? then k(e) else ClientsProg(v6, u, routes[1..], k))
  }

  function AdvertiseProg(v6: Ipv4.V6Syntax, tunnel: string, routes: seq<string>, k: RouteCont): Prog
    decreases |routes|
  {
    if routes == [] then k(None)
    else
      match Ipv4.ParsePrefix(v6, routes[0])
      case None => k(Some(Routes.BadAdvertised(routes[0])))
      case Some(net) =>
        ReplaceProg(RouteReplace(Routes.Dest(routes[0], net), "", tunnel), (e: Option<Routes.ApplyError>) =>
          if e.Some? then k(e) else AdvertiseProg(v6, tunnel, routes[1..], k))
  }

  function PlanProg(v6: Ipv4.V6Syntax, plan: Routes.Plan, k: RouteCont): Prog {
    EndpointsProg(plan.u, plan.endpoints, (e1: Option<Routes.ApplyError>) =>
      if e1.Some? then k(e1)
      else
        ClientsProg(v6, plan.u, plan.clients, (e2: Option<Routes.ApplyError>) =>
          if e2.Some? then k(e2) else AdvertiseProg(v6, plan.tunnel, plan.advertised, k)))
  }

  function ApplyProg(env: Env, inputs: Routes.Inputs, k: RouteCont): Prog {
    match Routes.PlanFor(env, inputs)
    case Refused(e) => k(Some(e))
    case Ready(plan) => PlanProg(env.v6, plan, k)
  }

  function PinClientProg(v6: Ipv4.V6Syntax, app: Option<AppConfig.App>, clientIP: string, k: RouteCont): Prog {
    match Ipv4.ParseAddr(v6, clientIP)
    case Some(V4(a)) =>
      if app.None? then k(Some(Routes.NoAppConfig)) else HostRouteProg(Routes.UnderlayOf(app.value), a, k)
    case _ => k(Some(Routes.BadEndpoint))
  }

  lemma ReplaceGoes(env: Env, s: WgManager.State, cmd: Command, k: RouteCont)
    ensures var r := Routes.ReplaceRun(env, s.w, cmd); Reaches(env, s, ReplaceProg(cmd, k), s.(w := r.w), k(r.error))
  {
    hide Exec, Reaches;
    var r := Routes.ReplaceRun(env, s.w, cmd);
    Here(env, s.(w := r.w), k(r.error));
    StepThen(env, s, ReplaceProg(cmd, k), s.(w := r.w), k(r.error));
  }

  lemma HostRouteGoes(env: Env, s: WgManager.State, u: Routes.Underlay, a: Ipv4.Addr, k: RouteCont)
    ensures var r := Routes.HostRouteRun(env, s.w, u, a);
            Reaches(env, s, HostRouteProg(u, a, k), s.(w := r.w), k(r.error))
  {
    hide Exec, Reaches, Routes.ReplaceRun, ReplaceProg, Ipv4.PrintAddr, Routes.Fields, Routes.GatewayWord;
    var r := Routes.HostRouteRun(env, s.w, u, a);
    var dest := Ipv4.PrintAddr(a) + "/32";
    if u.via != "" {
      ReplaceGoes(env, s, RouteReplace(dest, u.via, u.iface), k);
    } else {
      var shown := Exec(env, s.w, ShowDefault(u.iface));
      var s1 := s.(w := shown.w);
      if shown.reply.ok {
        ReplaceGoes(env, s1, RouteReplace(dest, Routes.GatewayWord(Routes.Fields(shown.reply.output)), u.iface), k);
      } else {
        Here(env, s1, k(r.error));
      }
      StepThen(env, s, HostRouteProg(u, a, k), s.(w := r.w), k(r.error));
    }
  }

  lemma {:induction false} EndpointsGo(
      env: Env, s: WgManager.State, u: Routes.Underlay, addrs: seq<Ipv4.Addr>, k: RouteCont)
    ensures var r := Routes.EndpointsRun(env, s.w, u, addrs);
            Reaches(env, s, EndpointsProg(u, addrs, k), s.(w := r.w), k(r.error))
    decreases |addrs|
  {
    hide Reaches, Routes.HostRouteRun, HostRouteProg;
    var r := Routes.EndpointsRun(env, s.w, u, addrs);
    if addrs == [] {
      Here(env, s, k(None));
    } else {
      var k1: RouteCont := (e: Option<Routes.ApplyError>) => if e.Some? then k(e) else EndpointsProg(u, addrs[1..], k);
      var first := Routes.HostRouteRun(env, s.w, u, addrs[0]);
      var s1 := s.(w := first.w);
      HostRouteGoes(env, s, u, addrs[0], k1);
      if Routes.Succeeded(first) {
        EndpointsGo(env, s1, u, addrs[1..], k);
      } else {
        Here(env, s1, k(r.error));
      }
      Trans(env, s, HostRouteProg(u, addrs[0], k1), s1, k1(first.error), s.(w := r.w), k(r.error));
    }
  }

  lemma {:induction false} ClientsGo(
      env: Env, s: WgManager.State, u: Routes.Underlay, routes: seq<string>, k: RouteCont)
    ensures var r := Routes.ClientsRun(env, s.w, u, routes);
            Reaches(env, s, ClientsProg(env.v6, u, routes, k), s.(w := r.w), k(r.error))
    decreases |routes|
  {
    hide Reaches, Routes.HostRouteRun, HostRouteProg, Routes.PinnedAddr;
    var r := Routes.ClientsRun(env, s.w, u, routes);
    if routes == [] || Routes.PinnedAddr(env.v6, routes[0]).None? {
      Here(env, s, k(r.error));
    } else {
      var a := Routes.PinnedAddr(env.v6, routes[0]).value;
      var k1: RouteCont := (e: Option<Routes.ApplyError>) =>
          if e.Some? then k(e) else ClientsProg(env.v6, u, routes[1..], k);
      var first := Routes.HostRouteRun(env, s.w, u, a);
      var s1 := s.(w := first.w);
      HostRouteGoes(env, s, u, a, k1);
      if Routes.Succeeded(first) {
        ClientsGo(env, s1, u, routes[1..], k);
      } else {
        Here(env, s1, k(r.error));
      }
      Trans(env, s, HostRouteProg(u, a, k1), s1, k1(first.error), s.(w := r.w), k(r.error));
    }
  }

  lemma {:induction false} AdvertiseGoes(
      env: Env, s: WgManager.State, tunnel: string, routes: seq<string>, k: RouteCont)
    ensures var r := Routes.AdvertiseRun(env, s.w, tunnel, routes);
            Reaches(env, s, AdvertiseProg(env.v6, tunnel, routes, k), s.(w := r.w), k(r.error))
    decreases |routes|
  {
    hide Reaches, Routes.ReplaceRun, ReplaceProg, Ipv4.ParsePrefix, Routes.Dest;
    var r := Routes.AdvertiseRun(env, s.w, tunnel, routes);
    if routes == [] || Ipv4.ParsePrefix(env.v6, routes[0]).None? {
      Here(env, s, k(r.error));
    } else {
      var cmd := RouteReplace(Routes.Dest(routes[0], Ipv4.ParsePrefix(env.v6, routes[0]).value), "", tunnel);
      var k1: RouteCont := (e: Option<Routes.ApplyError>) =>
          if e.Some? then k(e) else AdvertiseProg(env.v6, tunnel, routes[1..], k);
      var first := Routes.ReplaceRun(env, s.w, cmd);
      var s1 := s.(w := first.w);
      ReplaceGoes(env, s, cmd, k1);
      if Routes.Succeeded(first) {
        AdvertiseGoes(env, s1, tunnel, routes[1..], k);
      } else {
        Here(env, s1, k(r.error));
      }
      Trans(env, s, ReplaceProg(cmd, k1), s1, k1(first.error), s.(w := r.w), k(r.error));
    }
  }

  lemma PlanGoes(env: Env, s: WgManager.State, plan: Routes.Plan, k: RouteCont)
    ensures var r := Routes.PlanRun(env, s.w, plan);
            Reaches(env, s, PlanProg(env.v6, plan, k), s.(w := r.w), k(r.error))
  {
    hide Reaches, Routes.EndpointsRun, Routes.ClientsRun, Routes.AdvertiseRun, EndpointsProg, ClientsProg;
    hide AdvertiseProg;
    var r := Routes.PlanRun(env, s.w, plan);
    var k2: RouteCont := (e2: Option<Routes.ApplyError>) =>
      if e2.Some? then k(e2) else AdvertiseProg(env.v6, plan.tunnel, plan.advertised, k);
    var k1: RouteCont := (e1: Option<Routes.ApplyError>) =>
      if e1.Some? then k(e1) else ClientsProg(env.v6, plan.u, plan.clients, k2);
    var r1 := Routes.EndpointsRun(env, s.w, plan.u, plan.endpoints);
    var s1 := s.(w := r1.w);
    EndpointsGo(env, s, plan.u, plan.endpoints, k1);
    if Routes.Succeeded(r1) {
      var r2 := Routes.ClientsRun(env, s1.w, plan.u, plan.clients);
      var s2 := s.(w := r2.w);
      ClientsGo(env, s1, plan.u, plan.clients, k2);
      if Routes.Succeeded(r2) {
        AdvertiseGoes(env, s2, plan.tunnel, plan.advertised, k);
      } else {
        Here(env, s2, k(r.error));
      }
      Trans(env, s1, ClientsProg(env.v6, plan.u, plan.clients, k2), s2, k2(r2.error), s.(w := r.w), k(r.error));
    } else {
      Here(env, s1, k(r.error));
    }
    Trans(env, s, EndpointsProg(plan.u, plan.endpoints, k1), s1, k1(r1.error), s.(w := r.w), k(r.error));
  }

  lemma ApplyGoes(env: Env, s: WgManager.State, inputs: Routes.Inputs, k: RouteCont)
    ensures var r := Routes.ApplyRun(env, s.w, inputs);
            Reaches(env, s, ApplyProg(env, inputs, k), s.(w := r.w), k(r.error))
  {
    hide Reaches, Routes.PlanFor, Routes.PlanRun, PlanProg;
    match Routes.PlanFor(env, inputs) {
      case Refused(e) => Here(env, s, k(Some(e)));
      case Ready(plan) => PlanGoes(env, s, plan, k);
    }
  }

  lemma PinClientGoes(env: Env, s: WgManager.State, app: Option<AppConfig.App>, clientIP: string, k: RouteCont)
    ensures var r := Routes.PinClientRun(env, s.w, app, clientIP);
            Reaches(env, s, PinClientProg(env.v6, app, clientIP, k), s.(w := r.w), k(r.error))
  {
    hide Reaches, Ipv4.ParseAddr, Routes.HostRouteRun, HostRouteProg, Routes.UnderlayOf;
    var r := Routes.PinClientRun(env, s.w, app, clientIP);
    var addr := Ipv4.ParseAddr(env.v6, clientIP);
    if addr.Some? && addr.value.V4? && app.Some? {
      HostRouteGoes(env, s, Routes.UnderlayOf(app.value), addr.value.addr, k);
    } else {
      Here(env, s, k(r.error));
    }
  }

  // ------------------------------------------------------------- BIRD and the dispatch

  type Cont = Response -> Prog

  function CommandProg(what: string, k: Cont): Prog {
    Do(Other(what), (_, reply: Reply) => k(Response(reply.ok, reply.output)))
  }

  function BirdPollProg(n: nat, k: Cont): Prog
    decreases n
  {
    if n == 0 then k(Response(false, ""))
    else
      CommandProg("birdc show status", (status: Response) =>
        if status.ok then k(status)
        else CommandProg("wait", (wait: Response) =>
            if wait.ok then BirdPollProg(n - 1, k) else k(Response(false, ""))))
  }

  function BirdStartProg(k: Cont): Prog {
    CommandProg("birdc show status", (status: Response) =>
      if status.ok then k(status)
      else CommandProg("bird", (launch: Response) => if launch.ok then BirdPollProg(BIRD_POLLS, k) else k(launch)))
  }

  const RETURN: Cont := (response: Response) => Ret(response)
  const RETURN_WG: WgCont := (result: WgManager.Result) => Ret(Response(result == WgManager.Ok, ""))
  const RETURN_ROUTES: RouteCont := (error: Option<Routes.ApplyError>) => Ret(Response(error.None?, ""))

  function DispatchProg(env: Env, site: Site, action: Action): Prog {
    match action
    case WgStatus => CommandProg("wg show", RETURN)
    case WgStart => StartProg(site.setup, site.start, RETURN_WG)
    case WgStop => StopProg(site.setup, RETURN_WG)
    case WgRestart => RestartProg(site.setup, site.start, RETURN_WG)
    case RoutesApply => ApplyProg(env, site.apply, RETURN_ROUTES)
    case PinClient(ip) => PinClientProg(env.v6, site.apply.app, ip, RETURN_ROUTES)
    case BirdStart => BirdStartProg(RETURN)
    case BirdStop => CommandProg("birdc down", RETURN)
    case BirdReload => CommandProg("birdc configure", RETURN)
  }

  lemma CommandGoes(env: Env, s: WgManager.State, what: string, k: Cont)
    ensures var r := CommandRun(env, s, what); Reaches(env, s, CommandProg(what, k), r.s, k(r.response))
  {
    hide Exec, Reaches;
    var r := CommandRun(env, s, what);
    Here(env, r.s, k(r.response));
    StepThen(env, s, CommandProg(what, k), r.s, k(r.response));
  }

  lemma {:induction false} BirdPollGoes(env: Env, s: WgManager.State, n: nat, k: Cont)
    ensures var r := BirdPollRun(env, s, n); Reaches(env, s, BirdPollProg(n, k), r.s, k(r.response))
    decreases n
  {
    hide Reaches, CommandRun, CommandProg;
    var r := BirdPollRun(env, s, n);
    if n == 0 {
      Here(env, s, k(r.response));
    } else {
      var k2: Cont := (wait: Response) => if wait.ok then BirdPollProg(n - 1, k) else k(Response(false, ""));
      var k1: Cont := (status: Response) => if status.ok then k(status) else CommandProg("wait", k2);
      var status := CommandRun(env, s, "birdc show status");
      CommandGoes(env, s, "birdc show status", k1);
      if status.response.ok {
        Here(env, r.s, k(r.response));
      } else {
        var wait := CommandRun(env, status.s, "wait");
        CommandGoes(env, status.s, "wait", k2);
        if wait.response.ok {
          BirdPollGoes(env, wait.s, n - 1, k);
        } else {
          Here(env, r.s, k(r.response));
        }
        Trans(env, status.s, CommandProg("wait", k2), wait.s, k2(wait.response), r.s, k(r.response));
      }
      Trans(env, s, CommandProg("birdc show status", k1), status.s, k1(status.response), r.s, k(r.response));
    }
  }

  lemma BirdStartGoes(env: Env, s: WgManager.State, k: Cont)
    ensures var r := BirdStartRun(env, s); Reaches(env, s, BirdStartProg(k), r.s, k(r.response))
  {
    hide Reaches, CommandRun, CommandProg, BirdPollRun, BirdPollProg;
    var r := BirdStartRun(env, s);
    var k2: Cont := (launch: Response) => if launch.ok then BirdPollProg(BIRD_POLLS, k) else k(launch);
    var k1: Cont := (status: Response) => if status.ok then k(status) else CommandProg("bird", k2);
    var status := CommandRun(env, s, "birdc show status");
    CommandGoes(env, s, "birdc show status", k1);
    if status.response.ok {
      Here(env, r.s, k(r.response));
    } else {
      var launch := CommandRun(env, status.s, "bird");
      CommandGoes(env, status.s, "bird", k2);
      if launch.response.ok {
        BirdPollGoes(env, launch.s, BIRD_POLLS, k);
      } else {
        Here(env, r.s, k(r.response));
      }
      Trans(env, status.s, CommandProg("bird", k2), launch.s, k2(launch.response), r.s, k(r.response));
    }
    Trans(env, s, CommandProg("birdc show status", k1), status.s, k1(status.response), r.s, k(r.response));
  }

  // Step by step, and nothing else going on, every action does what its specification says
  // and answers with its response.
  lemma DispatchGoes(env: Env, site: Site, s: WgManager.State, action: Action)
    ensures var r := DispatchRun(env, site, s, action);
            Reaches(env, s, DispatchProg(env, site, action), r.s, Ret(r.response))
  {
    hide Reaches, CommandRun, CommandProg, BirdStartRun, BirdStartProg, Routes.ApplyRun, ApplyProg, Routes.PinClientRun;
    hide PinClientProg;
    hide WgManager.StartRun, StartProg, WgManager.StopRun, StopProg, WgManager.RestartRun, RestartProg;
    match action {
      case WgStatus => CommandGoes(env, s, "wg show", RETURN);
      case WgStart => StartGoes(env, site.setup, s, site.start, RETURN_WG);
      case WgStop => StopGoes(env, site.setup, s, RETURN_WG);
      case WgRestart => RestartGoes(env, site.setup, s, site.start, RETURN_WG);
      case RoutesApply => ApplyGoes(env, s, site.apply, RETURN_ROUTES);
      case PinClient(ip) => PinClientGoes(env, s, site.apply.app, ip, RETURN_ROUTES);
      case BirdStart => BirdStartGoes(env, s, RETURN);
      case BirdStop => CommandGoes(env, s, "birdc down", RETURN);
      case BirdReload => CommandGoes(env, s, "birdc configure", RETURN);
    }
  }

  lemma {:induction false} RetStays(env: Env, s: WgManager.State, response: Response, n: nat)
    ensures Go(env, s, Ret(response), n) == (s, Ret(response))
  {
    if n > 0 {
      RetStays(env, s, response, n - 1);
    }
  }

  // However many steps it takes to the end, the end is that one.
  lemma EndIsUnique(env: Env, s: WgManager.State, p: Prog, s': WgManager.State, response: Response, n: nat)
    requires Reaches(env, s, p, s', Ret(response)) && Go(env, s, p, n).1.Ret?
    ensures Go(env, s, p, n) == (s', Ret(response))
  {
    hide Go;
    var m: nat :| Go(env, s, p, m) == (s', Ret(response));
    var end := Go(env, s, p, n);
    if n <= m {
      GoAdd(env, s, p, n, m - n);
      RetStays(env, end.0, end.1.response, m - n);
    } else {
      GoAdd(env, s, p, m, n - m);
      RetStays(env, s', response, n - m);
    }
  }
}
