/** What the supervisor achieves when no command is made to fail from outside: exactly when
    Apply and the Start plan succeed, and that Start and Stop then give the original
    forwarding back. */
module Completion {
  import opened Options
  import Ipv4
  import AppConfig
  import WgConfig
  import Routes
  import RouteLaws
  import WgManager
  import RoutingLaws
  import opened Kernel
  import opened Orchestrator

  // Every command that can succeed does, and a launched process makes its link.
  ghost predicate Works(env: Env) {
    forall n: nat :: env.fates(n).ok && env.fates(n).appears
  }

  lemma WorkingCommand(env: Env, w: World, cmd: Command)
    requires Works(env)
    ensures Exec(env, w, cmd).reply.ok <==> Feasible(env, w, cmd)
  {
    hide Feasible, Effect, Attempt, DefaultText;
  }

  lemma RouteKeepsLinks(env: Env, w: World, cmd: Command)
    requires cmd.RouteReplace? || cmd.ShowDefault?
    ensures Exec(env, w, cmd).w.links == w.links
  {
    hide Ipv4.ParsePrefix, Ipv4.ParseQuad, DefaultText;
  }

  // ------------------------------------------------------------- Apply

  // A host route can be set: the interface is there, and a configured gateway is an address.
  predicate CanPin(links: set<string>, u: Routes.Underlay) {
    u.iface in links && (u.via == "" || Ipv4.ParseQuad(u.via).Some?)
  }

  predicate CanAdvertise(v6: Ipv4.V6Syntax, route: string) {
    match Ipv4.ParsePrefix(v6, route)
    case Some(Net4(p)) => Ipv4.IsMasked(p)
    case Some(Net6) => true
    case None => false
  }

  predicate CanApply(v6: Ipv4.V6Syntax, links: set<string>, plan: Routes.Plan) {
    && ((plan.endpoints == [] && plan.clients == []) || CanPin(links, plan.u))
    && (forall i | 0 <= i < |plan.clients| :: Routes.PinnedAddr(v6, plan.clients[i]).Some?)
    && (plan.advertised == [] || plan.tunnel in links)
    && (forall i | 0 <= i < |plan.advertised| :: CanAdvertise(v6, plan.advertised[i]))
  }

  lemma HostRouteWorks(env: Env, w: World, u: Routes.Underlay, a: Ipv4.Addr)
    requires Works(env)
    ensures Routes.Succeeded(Routes.HostRouteRun(env, w, u, a)) <==> CanPin(w.links, u)
    ensures Routes.HostRouteRun(env, w, u, a).w.links == w.links
  {
    hide Exec, Works, Ipv4.ParsePrefix, Ipv4.ParseQuad, Routes.Fields, Routes.GatewayWord, DefaultText;
    hide AppConfig.HostRoute;
    RouteLaws.HostDest(env.v6, a);
    if u.via != "" {
      HostReplaceWorks(env, w, a, u.via, u.iface);
    } else {
      var shown := Exec(env, w, ShowDefault(u.iface));
      WorkingCommand(env, w, ShowDefault(u.iface));
      RouteKeepsLinks(env, w, ShowDefault(u.iface));
      if shown.reply.ok {
        var via := Routes.GatewayWord(Routes.Fields(shown.reply.output));
        HostReplaceWorks(env, shown.w, a, via, u.iface);
        ShownGateway(env, w, u.iface);
      }
    }
  }

  lemma HostReplaceWorks(env: Env, w: World, a: Ipv4.Addr, via: string, dev: string)
    requires Works(env)
    ensures var r := Routes.ReplaceRun(env, w, RouteReplace(AppConfig.HostRoute(a), via, dev));
            && (Routes.Succeeded(r) <==> dev in w.links && (via != "" ==> Ipv4.ParseQuad(via).Some?))
            && r.w.links == w.links
  {
    hide Exec, Works, Ipv4.ParsePrefix, Ipv4.ParseQuad, AppConfig.HostRoute;
    var cmd := RouteReplace(AppConfig.HostRoute(a), via, dev);
    RouteLaws.HostDest(env.v6, a);
    WorkingCommand(env, w, cmd);
    RouteKeepsLinks(env, w, cmd);
  }

  // What is read from the answer is no gateway, or a valid one.
  lemma ShownGateway(env: Env, w: World, dev: string)
    requires Exec(env, w, ShowDefault(dev)).reply.ok
    ensures var via := Routes.GatewayWord(Routes.Fields(Exec(env, w, ShowDefault(dev)).reply.output));
            via != "" ==> Ipv4.ParseQuad(via).Some?
  {
    hide Ipv4.ParseQuad, Routes.Fields, Routes.GatewayWord;
    var tail := env.fates(|w.log|).output;
    Routes.NoGatewayInScopeLink();
    if Routes.Gateway(w.routes, dev).Some? {
      Routes.DiscoveredGateway(w.routes, dev, tail);
    }
  }

  lemma {:induction false} EndpointsWork(env: Env, w: World, u: Routes.Underlay, addrs: seq<Ipv4.Addr>)
    requires Works(env)
    ensures Routes.Succeeded(Routes.EndpointsRun(env, w, u, addrs)) <==> addrs == [] || CanPin(w.links, u)
    ensures Routes.EndpointsRun(env, w, u, addrs).w.links == w.links
    decreases |addrs|
  {
    hide Works, Routes.HostRouteRun;
    if addrs != [] {
      HostRouteWorks(env, w, u, addrs[0]);
      EndpointsWork(env, Routes.HostRouteRun(env, w, u, addrs[0]).w, u, addrs[1..]);
    }
  }

  lemma {:induction false} ClientsWork(env: Env, w: World, u: Routes.Underlay, routes: seq<string>)
    requires Works(env)
    ensures Routes.Succeeded(Routes.ClientsRun(env, w, u, routes)) <==>
            && (routes == [] || CanPin(w.links, u))
            && (forall i | 0 <= i < |routes| :: Routes.PinnedAddr(env.v6, routes[i]).Some?)
    ensures Routes.ClientsRun(env, w, u, routes).w.links == w.links
    decreases |routes|
  {
    hide Works, Routes.HostRouteRun, Routes.PinnedAddr;
    if routes != [] && Routes.PinnedAddr(env.v6, routes[0]).Some? {
      var a := Routes.PinnedAddr(env.v6, routes[0]).value;
      HostRouteWorks(env, w, u, a);
      ClientsWork(env, Routes.HostRouteRun(env, w, u, a).w, u, routes[1..]);
      assert forall i | 1 <= i < |routes| :: routes[i] == routes[1..][i - 1];
    }
  }

  lemma {:induction false} AdvertiseWorks(env: Env, w: World, tunnel: string, routes: seq<string>)
    requires Works(env)
    ensures Routes.Succeeded(Routes.AdvertiseRun(env, w, tunnel, routes)) <==>
            && (routes == [] || tunnel in w.links)
            && (forall i | 0 <= i < |routes| :: CanAdvertise(env.v6, routes[i]))
    ensures Routes.AdvertiseRun(env, w, tunnel, routes).w.links == w.links
    decreases |routes|
  {
    hide Works, Exec, Ipv4.ParsePrefix, Ipv4.ParseQuad, Routes.Dest;
    if routes != [] && Ipv4.ParsePrefix(env.v6, routes[0]).Some? {
      var net := Ipv4.ParsePrefix(env.v6, routes[0]).value;
      var cmd := RouteReplace(Routes.Dest(routes[0], net), "", tunnel);
      RouteLaws.AdvertiseOne(env, w, routes[0], net, tunnel);
      WorkingCommand(env, w, cmd);
      RouteKeepsLinks(env, w, cmd);
      AdvertiseWorks(env, Exec(env, w, cmd).w, tunnel, routes[1..]);
      assert forall i | 1 <= i < |routes| :: routes[i] == routes[1..][i - 1];
    }
  }

  // When every command that can succeed does, Apply's plan succeeds exactly if the underlay
  // interface exists and its configured gateway, if any, is an address; every pinned route
  // is an IPv4 /32; the tunnel exists; and every advertised route is a prefix without host
  // bits.
  lemma PlanSucceedsExactly(env: Env, w: World, plan: Routes.Plan)
    requires Works(env)
    ensures Routes.Succeeded(Routes.PlanRun(env, w, plan)) <==> CanApply(env.v6, w.links, plan)
  {
    hide Works, Routes.EndpointsRun, Routes.ClientsRun, Routes.AdvertiseRun, Routes.PinnedAddr, CanAdvertise;
    var r1 := Routes.EndpointsRun(env, w, plan.u, plan.endpoints);
    var r2 := Routes.ClientsRun(env, r1.w, plan.u, plan.clients);
    EndpointsWork(env, w, plan.u, plan.endpoints);
    ClientsWork(env, r1.w, plan.u, plan.clients);
    AdvertiseWorks(env, r2.w, plan.tunnel, plan.advertised);
  }

  // A failing input for running Apply twice: no gateway is configured, the table has a
  // default route through the underlay, and the default route itself is advertised. Both
  // runs succeed, and the second takes the gateway out of the endpoint's host route.
  lemma ApplyTwiceDiffers(env: Env, w: World, iface: string, tunnel: string, gateway: Ipv4.Addr, a: Ipv4.Addr)
    requires Works(env) && iface in w.links && tunnel in w.links
    requires DEFAULT_ROUTE in w.routes && w.routes[DEFAULT_ROUTE] == Hop(Some(gateway), iface)
    ensures var plan := Routes.Plan(Routes.Underlay(iface, ""), [a], [], tunnel, [Ipv4.PrintPrefix(DEFAULT_ROUTE)]);
            var first := Routes.PlanRun(env, w, plan);
            var second := Routes.PlanRun(env, first.w, plan);
            && Routes.Succeeded(first) && Routes.Succeeded(second)
            && second.w.routes != first.w.routes
  {
    hide Works, Routes.PlanRun, Ipv4.ParsePrefix, Ipv4.PrintPrefix, Ipv4.Span;
    var route := Ipv4.PrintPrefix(DEFAULT_ROUTE);
    var plan := Routes.Plan(Routes.Underlay(iface, ""), [a], [], tunnel, [route]);
    var first := Routes.PlanRun(env, w, plan);
    Ipv4.PrefixReads(env.v6, DEFAULT_ROUTE);
    assert Ipv4.IsMasked(DEFAULT_ROUTE);
    assert CanAdvertise(env.v6, plan.advertised[0]);
    PlanSucceedsExactly(env, w, plan);
    PlanKeepsLinks(env, w, plan);
    PlanSucceedsExactly(env, first.w, plan);
    assert RouteLaws.AdvertisedKeys(env.v6, [route]) == [DEFAULT_ROUTE] by { assert [route][1..] == []; }
    assert RouteLaws.PinsOf(env.v6, plan) == [a];
    assert a in RouteLaws.PinsOf(env.v6, plan) && !RouteLaws.Advertised(env.v6, plan, a);
    RouteLaws.ApplyIdempotentExactly(env, w, plan);
  }

  lemma PlanKeepsLinks(env: Env, w: World, plan: Routes.Plan)
    requires Works(env)
    ensures Routes.PlanRun(env, w, plan).w.links == w.links
  {
    hide Works, Routes.EndpointsRun, Routes.ClientsRun, Routes.AdvertiseRun;
    var r1 := Routes.EndpointsRun(env, w, plan.u, plan.endpoints);
    var r2 := Routes.ClientsRun(env, r1.w, plan.u, plan.clients);
    EndpointsWork(env, w, plan.u, plan.endpoints);
    ClientsWork(env, r1.w, plan.u, plan.clients);
    AdvertiseWorks(env, r2.w, plan.tunnel, plan.advertised);
  }

  // ------------------------------------------------------------- Start and Stop of the tunnel

  predicate CanStart(inputs: WgManager.StartInputs) {
    && inputs.config.Some?
    && WgConfig.Validate(inputs.lib, inputs.config.value).error.None?
    && inputs.tempOk
  }

  // There is a way to the link: it exists, the kernel makes it, or a process is launched,
  // which happens only when none is held.
  predicate CanHaveLink(env: Env, setup: WgManager.Setup, s: WgManager.State) {
    setup.iface in s.w.links || env.kernelWireGuard || s.process.None?
  }

  // No process is held, or one that has not exited.
  predicate HandleLive(s: WgManager.State) {
    s.process.Some? ==> s.process.value in s.w.live
  }

  lemma LinkEffects(env: Env, w: World, cmd: Command)
    requires cmd.LinkShow? || cmd.LinkAdd? || cmd.SetConf? || cmd.AddrReplace? || cmd.LinkUp? || cmd.WaitReady?
    ensures Exec(env, w, cmd).w.live == w.live && Exec(env, w, cmd).w.owner == w.owner
    ensures Exec(env, w, cmd).w.launched == w.launched
    ensures Exec(env, w, cmd).w.links ==
            if cmd.LinkAdd? && Exec(env, w, cmd).reply.ok then w.links + {cmd.dev} else w.links
  {
    hide Ipv4.ParsePrefix, Ipv4.ParseQuad, Connect;
  }

  lemma LaunchWorks(env: Env, setup: WgManager.Setup, w: World)
    requires Works(env) && setup.iface !in w.links
    ensures var r := WgManager.LaunchRun(env, setup, w);
            && r.result == WgManager.Ok && r.s.process == Some(w.launched)
            && r.s.w.live == w.live + {w.launched} && r.s.w.links == w.links + {setup.iface}
            && r.s.w.owner == w.owner[setup.iface := w.launched]
  {
    hide Ipv4.ParsePrefix, Ipv4.ParseQuad, DefaultText;
    var launch := Exec(env, w, Launch(setup.iface));
    LinkEffects(env, launch.w, WaitReady(setup.iface));
  }

  lemma EnsureWorks(env: Env, setup: WgManager.Setup, s: WgManager.State)
    requires Works(env)
    ensures var r := WgManager.EnsureRun(env, setup, s);
            && r.result == WgManager.Ok
            && r.s.w.links == (if CanHaveLink(env, setup, s) then s.w.links + {setup.iface} else s.w.links)
            && (HandleLive(s) ==> HandleLive(r.s))
            && (setup.iface in s.w.links || env.kernelWireGuard || s.process.Some? ==>
                  r.s.process == s.process && r.s.w.launched == s.w.launched)
            && (setup.iface !in s.w.links && !env.kernelWireGuard && s.process.None? ==>
                  r.s.process == Some(s.w.launched) && r.s.w.owner == s.w.owner[setup.iface := s.w.launched])
  {
    hide Works, Exec, WgManager.LaunchRun;
    var show := Exec(env, s.w, LinkShow(setup.iface));
    var add := Exec(env, show.w, LinkAdd(setup.iface));
    WorkingCommand(env, s.w, LinkShow(setup.iface));
    WorkingCommand(env, show.w, LinkAdd(setup.iface));
    LinkEffects(env, s.w, LinkShow(setup.iface));
    LinkEffects(env, show.w, LinkAdd(setup.iface));
    if setup.iface !in add.w.links {
      LaunchWorks(env, setup, add.w);
    }
  }

  lemma StepWorks(env: Env, s: WgManager.State, cmd: Command)
    requires Works(env) && Feasible(env, s.w, cmd)
    requires cmd.SetConf? || cmd.AddrReplace? || cmd.LinkUp?
    ensures var r := WgManager.StepOrKill(env, s, cmd);
            && r.result == WgManager.Ok && r.s.process == s.process && r.s.w.links == s.w.links
            && r.s.w.live == s.w.live && r.s.w.owner == s.w.owner
  {
    hide Works, Exec, Feasible;
    WorkingCommand(env, s.w, cmd);
    LinkEffects(env, s.w, cmd);
  }

  lemma ConfigureWorks(env: Env, setup: WgManager.Setup, s: WgManager.State, config: string, meta: WgConfig.ConfigMeta)
    requires Works(env)
    ensures var r := WgManager.ConfigureRun(env, setup, s, config, meta);
            && (r.result == WgManager.Ok <==> setup.iface in s.w.links)
            && (r.result == WgManager.Ok ==>
                  && r.s.process == s.process && r.s.w.links == s.w.links
                  && r.s.w.live == s.w.live && r.s.w.owner == s.w.owner)
  {
    hide Works, Exec, WgManager.StepOrKill, WgConfig.Setconf, WgManager.EffectiveMTU;
    var c1 := SetConf(setup.iface, WgConfig.Setconf(config));
    if setup.iface in s.w.links {
      StepWorks(env, s, c1);
      var r1 := WgManager.StepOrKill(env, s, c1);
      var c2 := AddrReplace(setup.iface, meta.interfaceAddress);
      StepWorks(env, r1.s, c2);
      var r2 := if meta.interfaceAddress == "" then r1 else WgManager.StepOrKill(env, r1.s, c2);
      StepWorks(env, r2.s, LinkUp(setup.iface, WgManager.EffectiveMTU(setup, meta)));
    } else {
      StepFails(env, s, c1);
    }
  }

  lemma StepFails(env: Env, s: WgManager.State, cmd: Command)
    requires !Feasible(env, s.w, cmd)
    ensures WgManager.StepOrKill(env, s, cmd).result == WgManager.Failed
  {
    hide Feasible, Effect, Attempt, DefaultText, WgManager.KillRun;
  }

  // When every command that can succeed does, Start succeeds exactly if the configuration is
  // accepted and there is a way to the link. It launches only as the last resort.
  lemma StartSucceedsExactly(env: Env, setup: WgManager.Setup, s: WgManager.State, inputs: WgManager.StartInputs)
    requires Works(env)
    ensures var r := WgManager.StartRun(env, setup, s, inputs);
            && (r.result == WgManager.Ok <==> CanStart(inputs) && CanHaveLink(env, setup, s))
            && (r.result == WgManager.Ok ==>
                  && r.s.w.links == s.w.links + {setup.iface} && (HandleLive(s) ==> HandleLive(r.s))
                  && (setup.iface !in s.w.links && !env.kernelWireGuard ==>
                        r.s.process == Some(s.w.launched) && r.s.w.owner == s.w.owner[setup.iface := s.w.launched]))
  {
    hide Works, Exec, WgManager.EnsureRun, WgManager.ConfigureRun, WgConfig.Validate;
    if CanStart(inputs) {
      EnsureWorks(env, setup, s);
      ConfigureWorks(env, setup, WgManager.EnsureRun(env, setup, s).s, inputs.config.value,
                     WgConfig.Validate(inputs.lib, inputs.config.value).meta);
    }
  }

  // Stop succeeds exactly if no process is held or the held one is alive: a process that has
  // exited cannot be killed, and Stop reports that before anything else. Either way the
  // handle is gone afterwards. A missing link is no obstacle.
  lemma StopSucceedsExactly(env: Env, setup: WgManager.Setup, s: WgManager.State)
    requires Works(env)
    ensures var r := WgManager.StopRun(env, setup, s);
            && (r.result == WgManager.Ok <==> HandleLive(s))
            && r.s.process == None
            && (OwnsOnly(s.w, setup.iface) ==> r.s.w.links == s.w.links - {setup.iface})
  {
    hide Works, Exec, WgManager.IsMissingInterfaceOutput;
    var cmd := LinkDelete(setup.iface);
    var deleted := Exec(env, s.w, cmd);
    DeleteEffects(env, s.w, setup.iface);
    WgManager.MissingIsRecognised();
    WorkingCommand(env, s.w, cmd);
    if s.process.Some? {
      WorkingCommand(env, deleted.w, Kill(s.process.value));
      KillEffects(env, deleted.w, s.process.value, setup.iface);
    }
  }

  lemma DeleteEffects(env: Env, w: World, iface: string)
    ensures var deleted := Exec(env, w, LinkDelete(iface));
            && deleted.w.live == w.live
            && (deleted.reply.ok ==> deleted.w.links == w.links - {iface})
            && (!deleted.reply.ok ==> deleted.w.links == w.links)
            && (OwnsOnly(w, iface) ==> OwnsOnly(deleted.w, iface))
            && (iface !in w.links ==> deleted.reply.output == MISSING)
  {
    hide DefaultText;
  }

  lemma KillEffects(env: Env, w: World, pid: nat, iface: string)
    ensures var killed := Exec(env, w, Kill(pid));
            OwnsOnly(w, iface) && iface !in w.links ==> killed.w.links == w.links
  {
    hide DefaultText;
  }

  lemma RestartSucceedsExactly(env: Env, setup: WgManager.Setup, s: WgManager.State, inputs: WgManager.StartInputs)
    requires Works(env)
    ensures var r := WgManager.RestartRun(env, setup, s, inputs);
            && (r.result == WgManager.Ok <==> HandleLive(s) && CanStart(inputs))
            && (r.result == WgManager.Ok && OwnsOnly(s.w, setup.iface) ==> r.s.w.links == s.w.links + {setup.iface})
  {
    hide Works, WgManager.StopRun, WgManager.StartRun, CanStart;
    var stopped := WgManager.StopRun(env, setup, s);
    StopSucceedsExactly(env, setup, s);
    StartSucceedsExactly(env, setup, stopped.s, inputs);
  }

  // Start follows Stop in any case. So when no command is made to fail, a Restart leaves the
  // tunnel up exactly if the configuration is accepted, although it reports failure when the
  // process that was held had exited.
  lemma RestartLeavesUp(env: Env, setup: WgManager.Setup, s: WgManager.State, inputs: WgManager.StartInputs)
    requires Works(env) && OwnsOnly(s.w, setup.iface)
    ensures setup.iface in WgManager.RestartRun(env, setup, s, inputs).s.w.links <==> CanStart(inputs)
  {
    hide Works, WgManager.StopRun, WgManager.StartRun, CanStart;
    var stopped := WgManager.StopRun(env, setup, s);
    StopSucceedsExactly(env, setup, s);
    StartSucceedsExactly(env, setup, stopped.s, inputs);
    if !CanStart(inputs) {
      RefusedStart(env, setup, stopped.s, inputs);
    }
  }

  lemma RefusedStart(env: Env, setup: WgManager.Setup, s: WgManager.State, inputs: WgManager.StartInputs)
    requires !CanStart(inputs)
    ensures WgManager.StartRun(env, setup, s, inputs).s == s
  {
    hide WgManager.EnsureRun, WgManager.ConfigureRun, WgConfig.Validate;
  }

  // The failing input, from a manager that holds nothing and a kernel without WireGuard: the
  // process Start launched dies. Whatever is asked for next fails, and drops the handle.
  lemma StaleHandleReached(env: Env, setup: WgManager.Setup, s: WgManager.State, inputs: WgManager.StartInputs)
    requires Works(env) && !env.kernelWireGuard && CanStart(inputs)
    requires s.process == None && setup.iface !in s.w.links
    ensures var ops := [WgManager.DoStart(inputs), WgManager.ProcessDies(s.w.launched)];
            var stale := WgManager.OpsRun(env, setup, s, ops);
            && stale.process == Some(s.w.launched) && !HandleLive(stale) && setup.iface !in stale.w.links
            && WgManager.StopRun(env, setup, stale).result == WgManager.Failed
            && WgManager.RestartRun(env, setup, stale, inputs).result == WgManager.Failed
            && WgManager.StartRun(env, setup, stale, inputs).result == WgManager.Failed
  {
    hide Works, WgManager.StartRun, WgManager.StopRun, CanStart;
    var start, dies := WgManager.DoStart(inputs), WgManager.ProcessDies(s.w.launched);
    var started := WgManager.StartRun(env, setup, s, inputs).s;
    var stale := WgManager.OpRun(env, setup, started, dies).s;
    OpsInTurn(env, setup, s, start, dies);
    StartSucceedsExactly(env, setup, s, inputs);
    StopSucceedsExactly(env, setup, stale);
    RestartSucceedsExactly(env, setup, stale, inputs);
    StartSucceedsExactly(env, setup, stale, inputs);
    FailureKinds(env, setup, stale, inputs);
  }

  lemma OpsInTurn(env: Env, setup: WgManager.Setup, s: WgManager.State, first: WgManager.Op, second: WgManager.Op)
    ensures WgManager.OpsRun(env, setup, s, [first, second]) ==
            WgManager.OpRun(env, setup, WgManager.OpRun(env, setup, s, first).s, second).s
  {
    hide WgManager.OpRun;
    var s1 := WgManager.OpRun(env, setup, s, first).s;
    assert [first, second][1..] == [second] && [second][1..] == [];
    assert WgManager.OpsRun(env, setup, s1, [second]) == WgManager.OpRun(env, setup, s1, second).s;
  }

  lemma FailureKinds(env: Env, setup: WgManager.Setup, s: WgManager.State, inputs: WgManager.StartInputs)
    ensures WgManager.StopRun(env, setup, s).result != WgManager.Refused
    ensures CanStart(inputs) ==> WgManager.StartRun(env, setup, s, inputs).result != WgManager.Refused
    ensures CanStart(inputs) && WgManager.StopRun(env, setup, s).result != WgManager.Ok ==>
              WgManager.RestartRun(env, setup, s, inputs).result != WgManager.Refused
  {
    hide Exec, WgManager.EnsureRun, WgManager.KillRun, WgManager.StepOrKill, WgConfig.Validate, WgConfig.Setconf;
    hide WgManager.IsMissingInterfaceOutput;
    WgManager.EnsureNotRefused(env, setup, s);
    forall t: WgManager.State, cmd: Command
      ensures WgManager.StepOrKill(env, t, cmd).result != WgManager.Refused
    {
      WgManager.StepNotRefused(env, t, cmd);
    }
  }

  // ------------------------------------------------------------- the plans

  lemma CallWorks(env: Env, site: Site, s: WgManager.State, action: Action) returns (before: WgManager.State)
    requires Works(env)
    ensures RoutingLaws.SameNet(s.w, before.w) && before.process == s.process
    ensures var call, done := CallRun(env, site, s, action), DispatchRun(env, site, before, action);
            && (call.response.ok <==> done.response.ok)
            && RoutingLaws.SameNet(done.s.w, call.s.w) && call.s.process == done.s.process
  {
    hide Works, DispatchRun, Exec;
    before := CommandRun(env, s, "connect").s;
    var done := DispatchRun(env, site, before, action);
    WorkingCommand(env, s.w, Other("connect"));
    WorkingCommand(env, done.s.w, Other("reply"));
    RoutingLaws.QuietCommand(env, s, "connect");
    RoutingLaws.QuietCommand(env, done.s, "reply");
  }

  lemma OtherWorks(env: Env, s: WgManager.State, what: string)
    requires Works(env)
    ensures CommandRun(env, s, what).response.ok
  {
    hide Works, Exec;
    WorkingCommand(env, s.w, Other(what));
  }

  lemma BirdCallWorks(env: Env, site: Site, s: WgManager.State, action: Action)
    requires Works(env) && (action == BirdStart || action == BirdReload || action == BirdStop)
    ensures var call := CallRun(env, site, s, action);
            call.response.ok && RoutingLaws.SameNet(s.w, call.s.w) && call.s.process == s.process
  {
    hide Works, CallRun, CommandRun, BirdPollRun;
    var before := CallWorks(env, site, s, action);
    OtherWorks(env, before, "birdc show status");
    OtherWorks(env, before, "birdc configure");
    OtherWorks(env, before, "birdc down");
    RoutingLaws.QuietCommand(env, before, "birdc show status");
    RoutingLaws.QuietCommand(env, before, "birdc configure");
    RoutingLaws.QuietCommand(env, before, "birdc down");
  }

  // Whether Apply can do its part once the tunnel is up.
  predicate CanApplyUp(env: Env, site: Site, links: set<string>) {
    && Routes.PlanFor(env, site.apply).Ready?
    && CanApply(env.v6, links + {RoutingLaws.Tunnel(site)}, Routes.PlanFor(env, site.apply).plan)
  }

  lemma UpWorks(env: Env, site: Site, s: WgManager.State)
    requires Works(env)
    ensures var call := CallRun(env, site, s, WgStart);
            && (call.response.ok <==> CanStart(site.start) && CanHaveLink(env, site.setup, s))
            && (call.response.ok ==>
                  && call.s.w.links == s.w.links + {RoutingLaws.Tunnel(site)}
                  && (HandleLive(s) ==> HandleLive(call.s)))
  {
    hide Works, CallRun, WgManager.StartRun, CanStart;
    var before := CallWorks(env, site, s, WgStart);
    StartSucceedsExactly(env, site.setup, before, site.start);
  }

  lemma RestartWorks(env: Env, site: Site, s: WgManager.State)
    requires Works(env) && OwnsOnly(s.w, RoutingLaws.Tunnel(site))
    ensures var call := CallRun(env, site, s, WgRestart);
            && (call.response.ok <==> HandleLive(s) && CanStart(site.start))
            && (call.response.ok ==> call.s.w.links == s.w.links + {RoutingLaws.Tunnel(site)})
  {
    hide Works, CallRun, WgManager.RestartRun, CanStart;
    var before := CallWorks(env, site, s, WgRestart);
    RestartSucceedsExactly(env, site.setup, before, site.start);
  }

  lemma ApplyWorks(env: Env, site: Site, s: WgManager.State)
    requires Works(env)
    ensures var call := CallRun(env, site, s, RoutesApply);
            && (call.response.ok <==>
                  Routes.PlanFor(env, site.apply).Ready?
                      && CanApply(env.v6, s.w.links, Routes.PlanFor(env, site.apply).plan))
            && call.s.process == s.process && call.s.w.live == s.w.live
  {
    hide Works, CallRun, Routes.PlanFor, Routes.PlanRun, CanApply;
    var before := CallWorks(env, site, s, RoutesApply);
    if Routes.PlanFor(env, site.apply).Ready? {
      PlanSucceedsExactly(env, before.w, Routes.PlanFor(env, site.apply).plan);
      PlanKeepsLive(env, before.w, Routes.PlanFor(env, site.apply).plan);
    }
  }

  lemma PlanKeepsLive(env: Env, w: World, plan: Routes.Plan)
    ensures Routes.PlanRun(env, w, plan).w.live == w.live
  {
    hide Routes.PlanRun, RouteLaws.PinCommand, RouteLaws.AdvertiseCommand;
    var pinning, advertising := RouteLaws.Phases(env, w, plan);
    var cmds: seq<Command> := pinning + advertising;
    forall i | 0 <= i < |cmds|
      ensures cmds[i].ShowDefault? || cmds[i].RouteReplace?
    {
      RoutingLaws.ApplyCommandKinds(env, cmds[i], plan);
    }
    RouteCommandsKeepLive(env, w, cmds);
  }

  lemma {:induction false} RouteCommandsKeepLive(env: Env, w: World, cmds: seq<Command>)
    requires forall i | 0 <= i < |cmds| :: cmds[i].ShowDefault? || cmds[i].RouteReplace?
    ensures Replay(env, w, cmds).live == w.live
    decreases |cmds|
  {
    hide Ipv4.ParsePrefix, Ipv4.ParseQuad, DefaultText;
    if cmds != [] {
      RouteCommandsKeepLive(env, Exec(env, w, cmds[0]).w, cmds[1..]);
    }
  }

  // The plans end alike: routes, then BIRD.
  const TAIL := [RoutesApply, BirdStart, BirdReload]

  lemma TailWorks(env: Env, site: Site, s: WgManager.State)
    requires Works(env)
    ensures var run := PlanRun(env, site, s, TAIL);
            && (run.result.ok <==>
                  Routes.PlanFor(env, site.apply).Ready?
                      && CanApply(env.v6, s.w.links, Routes.PlanFor(env, site.apply).plan))
            && (run.result.ok ==> run.s.process == s.process && run.s.w.live == s.w.live)
  {
    hide Works, CallRun, CanApply, Routes.PlanFor;
    var c1 := CallRun(env, site, s, RoutesApply);
    var c2 := CallRun(env, site, c1.s, BirdStart);
    assert TAIL[1..] == [BirdStart, BirdReload] && TAIL[1..][1..] == [BirdReload] && TAIL[1..][1..][1..] == [];
    ApplyWorks(env, site, s);
    BirdCallWorks(env, site, c1.s, BirdStart);
    BirdCallWorks(env, site, c2.s, BirdReload);
  }

  lemma FirstThenRest(env: Env, site: Site, s: WgManager.State, action: Action, rest: seq<Action>)
    ensures var call, run := CallRun(env, site, s, action), PlanRun(env, site, s, [action] + rest);
            && (run.result.ok <==> call.response.ok && PlanRun(env, site, call.s, rest).result.ok)
            && (run.result.ok ==> run.s == PlanRun(env, site, call.s, rest).s)
  {
    hide CallRun;
    assert ([action] + rest)[1..] == rest;
  }

  // When every command that can succeed does, the Start plan succeeds exactly if the
  // configuration is accepted, there is a way to the link, and Apply can do its part.
  lemma StartPlanSucceedsExactly(env: Env, site: Site, s: WgManager.State)
    requires Works(env)
    ensures var run := PlanRun(env, site, s, START_PLAN);
            && (run.result.ok <==>
                  CanStart(site.start) && CanHaveLink(env, site.setup, s) && CanApplyUp(env, site, s.w.links))
            && (run.result.ok && HandleLive(s) ==> HandleLive(run.s))
  {
    hide Works, CallRun, PlanRun, CanStart, CanHaveLink, CanApply, Routes.PlanFor, RoutingLaws.Tunnel;
    assert START_PLAN == [WgStart] + TAIL;
    FirstThenRest(env, site, s, WgStart, TAIL);
    UpWorks(env, site, s);
    TailWorks(env, site, CallRun(env, site, s, WgStart).s);
  }

  // The plans that restart the tunnel need no other way to the link, but need the process
  // that is held, if any, to be alive.
  lemma RestartPlansSucceedExactly(env: Env, site: Site, s: WgManager.State)
    requires Works(env) && OwnsOnly(s.w, RoutingLaws.Tunnel(site))
    ensures var can := HandleLive(s) && CanStart(site.start) && CanApplyUp(env, site, s.w.links);
            && (PlanRun(env, site, s, REAPPLY_PLAN).result.ok <==> can)
            && (PlanRun(env, site, s, RESTART_PLAN).result.ok <==> can)
  {
    hide Works, CallRun, PlanRun, CanStart, CanApply, Routes.PlanFor, RoutingLaws.Tunnel;
    assert REAPPLY_PLAN == [WgRestart] + TAIL && RESTART_PLAN == [BirdStop] + REAPPLY_PLAN;
    RestartThenTail(env, site, s);
    FirstThenRest(env, site, s, BirdStop, REAPPLY_PLAN);
    BirdCallWorks(env, site, s, BirdStop);
    RestartThenTail(env, site, CallRun(env, site, s, BirdStop).s);
  }

  lemma RestartThenTail(env: Env, site: Site, s: WgManager.State)
    requires Works(env) && OwnsOnly(s.w, RoutingLaws.Tunnel(site))
    ensures PlanRun(env, site, s, [WgRestart] + TAIL).result.ok <==>
            HandleLive(s) && CanStart(site.start) && CanApplyUp(env, site, s.w.links)
  {
    hide Works, CallRun, PlanRun, CanStart, CanApply, Routes.PlanFor, RoutingLaws.Tunnel;
    FirstThenRest(env, site, s, WgRestart, TAIL);
    RestartWorks(env, site, s);
    TailWorks(env, site, CallRun(env, site, s, WgRestart).s);
  }

  // The Stop plan succeeds exactly if no process is held or the held one is alive.
  lemma StopPlanSucceedsExactly(env: Env, site: Site, s: WgManager.State)
    requires Works(env)
    ensures PlanRun(env, site, s, STOP_PLAN).result.ok <==> HandleLive(s)
  {
    hide Works, CallRun, WgManager.StopRun;
    var c1 := CallRun(env, site, s, BirdStop);
    assert STOP_PLAN[1..] == [WgStop] && STOP_PLAN[1..][1..] == [];
    BirdCallWorks(env, site, s, BirdStop);
    var before := CallWorks(env, site, c1.s, WgStop);
    StopSucceedsExactly(env, site.setup, before);
  }

  // Start, then Stop, from conditions that can be checked beforehand: both succeed, nothing is
  // sent into the tunnel afterwards, and exactly from a restorable table the routes apart
  // from the pins are back, and with them the lookup of every address that is not pinned.
  lemma StartThenStopRestores(env: Env, site: Site, s: WgManager.State, a: Ipv4.Addr)
    requires Works(env) && WgManager.Honest(env) && WellFormed(s.w) && OwnsOnly(s.w, RoutingLaws.Tunnel(site))
    requires HandleLive(s) && CanHaveLink(env, site.setup, s)
    requires CanStart(site.start) && CanApplyUp(env, site, s.w.links)
    ensures var plan, tunnel := Routes.PlanFor(env, site.apply).plan, RoutingLaws.Tunnel(site);
            var started := PlanRun(env, site, s, START_PLAN);
            var stopped := PlanRun(env, site, started.s, STOP_PLAN);
            && started.result.ok && stopped.result.ok
            && !RouteLaws.LeavesThrough(stopped.s.w.routes, a, tunnel)
            && (RoutingLaws.SameApart(stopped.s.w.routes, s.w.routes,
                 RouteLaws.Hosts(RouteLaws.PinsOf(env.v6, plan))) <==>
                  RoutingLaws.Restorable(env.v6, s.w.routes, plan, tunnel))
            && (RoutingLaws.Restorable(env.v6, s.w.routes, plan, tunnel) && a !in RouteLaws.PinsOf(env.v6, plan) ==>
                  Lookup(stopped.s.w.routes, a) == Lookup(s.w.routes, a))
  {
    hide Works, WgManager.Honest, WellFormed, OwnsOnly, PlanRun, CanStart, CanApply, HandleLive, CanHaveLink;
    hide Routes.PlanFor;
    hide RoutingLaws.AfterStop, RoutingLaws.Tunnel, RoutingLaws.Restorable, RoutingLaws.SameApart;
    hide RouteLaws.PinsOf, RouteLaws.Hosts, RouteLaws.AdvertisedKeys, Lookup;
    var plan, tunnel := Routes.PlanFor(env, site.apply).plan, RoutingLaws.Tunnel(site);
    StartPlanSucceedsExactly(env, site, s);
    StopPlanSucceedsExactly(env, site, PlanRun(env, site, s, START_PLAN).s);
    RoutingLaws.StartThenStop(env, site, s);
    RoutingLaws.RestoredExactly(env.v6, s.w.routes, plan, tunnel);
    RoutingLaws.ForwardingRestored(env.v6, s.w.routes, plan, tunnel, a);
  }
}
