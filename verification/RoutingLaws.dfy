/** What the plans of internal/orchestrator/routing.go do to forwarding: the dashboard
    client stays on the underlay throughout a routing action, and a start followed by a
    stop gives the original forwarding back. */
module RoutingLaws {
  import opened Options
  import Ipv4
  import AppConfig
  import Bird
  import Routes
  import RouteLaws
  import WgManager
  import opened Kernel
  import opened Orchestrator

  // ------------------------------------------------------------- commands of an action

  function Tunnel(site: Site): string {
    site.setup.iface
  }

  predicate RouteCommand(env: Env, cmd: Command, plan: Routes.Plan) {
    RouteLaws.PinCommand(env.v6, cmd, plan) || RouteLaws.AdvertiseCommand(env.v6, cmd, plan)
  }

  // What a routing plan may run: tunnel commands, and the commands of Apply's plan.
  predicate PlanCommand(env: Env, site: Site, cmd: Command) {
    || WgManager.OfTunnel(cmd, site.setup)
    || (Routes.PlanFor(env, site.apply).Ready? && RouteCommand(env, cmd, Routes.PlanFor(env, site.apply).plan))
  }

  lemma OneCommand(env: Env, site: Site, s: WgManager.State, what: string)
    ensures Replay(env, s.w, [Other(what)]) == CommandRun(env, s, what).s.w
    ensures WgManager.OfTunnel(Other(what), site.setup)
  {
    hide Exec, Replay;
    ReplayOne(env, s.w, Other(what));
  }

  lemma {:induction false} BirdPollCommands(
      env: Env, site: Site, s: WgManager.State, n: nat) returns (cmds: seq<Command>)
    ensures Replay(env, s.w, cmds) == BirdPollRun(env, s, n).s.w
    ensures forall i | 0 <= i < |cmds| :: WgManager.OfTunnel(cmds[i], site.setup)
    decreases n
  {
    hide CommandRun, WgManager.OfTunnel;
    cmds := [];
    if n > 0 {
      var status := CommandRun(env, s, "birdc show status");
      OneCommand(env, site, s, "birdc show status");
      cmds := [Other("birdc show status")];
      if !status.response.ok {
        var wait := CommandRun(env, status.s, "wait");
        OneCommand(env, site, status.s, "wait");
        ReplayAppend(env, s.w, cmds, [Other("wait")]);
        cmds := cmds + [Other("wait")];
        if wait.response.ok {
          var rest := BirdPollCommands(env, site, wait.s, n - 1);
          ReplayAppend(env, s.w, cmds, rest);
          cmds := cmds + rest;
        }
      }
    }
  }

  lemma BirdStartCommands(env: Env, site: Site, s: WgManager.State) returns (cmds: seq<Command>)
    ensures Replay(env, s.w, cmds) == BirdStartRun(env, s).s.w
    ensures forall i | 0 <= i < |cmds| :: WgManager.OfTunnel(cmds[i], site.setup)
  {
    hide CommandRun, BirdPollRun, WgManager.OfTunnel;
    var status := CommandRun(env, s, "birdc show status");
    OneCommand(env, site, s, "birdc show status");
    cmds := [Other("birdc show status")];
    if !status.response.ok {
      var launch := CommandRun(env, status.s, "bird");
      OneCommand(env, site, status.s, "bird");
      ReplayAppend(env, s.w, cmds, [Other("bird")]);
      cmds := cmds + [Other("bird")];
      if launch.response.ok {
        var rest := BirdPollCommands(env, site, launch.s, BIRD_POLLS);
        ReplayAppend(env, s.w, cmds, rest);
        cmds := cmds + rest;
      }
    }
  }

  lemma ApplyCommands(env: Env, site: Site, s: WgManager.State) returns (cmds: seq<Command>)
    ensures Replay(env, s.w, cmds) == Routes.ApplyRun(env, s.w, site.apply).w
    ensures forall i | 0 <= i < |cmds| :: PlanCommand(env, site, cmds[i])
  {
    hide Routes.PlanFor, Routes.PlanRun, RouteLaws.PinCommand, RouteLaws.AdvertiseCommand;
    cmds := [];
    if Routes.PlanFor(env, site.apply).Ready? {
      var pinning, advertising := RouteLaws.Phases(env, s.w, Routes.PlanFor(env, site.apply).plan);
      cmds := pinning + advertising;
    }
  }

  // Every action of a plan but pinning a client.
  lemma DispatchCommands(env: Env, site: Site, s: WgManager.State, action: Action) returns (cmds: seq<Command>)
    requires !action.PinClient?
    ensures Replay(env, s.w, cmds) == DispatchRun(env, site, s, action).s.w
    ensures forall i | 0 <= i < |cmds| :: PlanCommand(env, site, cmds[i])
  {
    hide CommandRun, BirdStartRun, Routes.ApplyRun, Routes.PlanFor, WgManager.StartRun, WgManager.StopRun,
      WgManager.RestartRun, WgManager.OfTunnel, RouteCommand;
    match action {
      case WgStatus =>
        OneCommand(env, site, s, "wg show");
        cmds := [Other("wg show")];
      case WgStart => cmds := WgManager.StartCommands(env, site.setup, s, site.start);
      case WgStop => cmds := WgManager.StopCommands(env, site.setup, s);
      case WgRestart => cmds := WgManager.RestartCommands(env, site.setup, s, site.start);
      case RoutesApply => cmds := ApplyCommands(env, site, s);
      case BirdStart => cmds := BirdStartCommands(env, site, s);
      case BirdStop =>
        OneCommand(env, site, s, "birdc down");
        cmds := [Other("birdc down")];
      case BirdReload =>
        OneCommand(env, site, s, "birdc configure");
        cmds := [Other("birdc configure")];
    }
  }

  lemma CallCommands(env: Env, site: Site, s: WgManager.State, action: Action) returns (cmds: seq<Command>)
    requires !action.PinClient?
    ensures Replay(env, s.w, cmds) == CallRun(env, site, s, action).s.w
    ensures forall i | 0 <= i < |cmds| :: PlanCommand(env, site, cmds[i])
  {
    hide CommandRun, DispatchRun, WgManager.OfTunnel, Routes.PlanFor, RouteCommand;
    var connect := CommandRun(env, s, "connect");
    OneCommand(env, site, s, "connect");
    cmds := [Other("connect")];
    if connect.response.ok {
      var done := DispatchRun(env, site, connect.s, action);
      var more := DispatchCommands(env, site, connect.s, action);
      ReplayAppend(env, s.w, cmds, more);
      OneCommand(env, site, done.s, "reply");
      ReplayAppend(env, s.w, cmds + more, [Other("reply")]);
      cmds := cmds + more + [Other("reply")];
    }
  }

  lemma {:induction false} PlanCommands(
      env: Env, site: Site, s: WgManager.State, actions: seq<Action>) returns (cmds: seq<Command>)
    requires forall i | 0 <= i < |actions| :: !actions[i].PinClient?
    ensures Replay(env, s.w, cmds) == PlanRun(env, site, s, actions).s.w
    ensures forall i | 0 <= i < |cmds| :: PlanCommand(env, site, cmds[i])
    decreases |actions|
  {
    hide CallRun, PlanCommand;
    cmds := [];
    if actions != [] {
      var call := CallRun(env, site, s, actions[0]);
      cmds := CallCommands(env, site, s, actions[0]);
      if call.response.ok {
        var rest := PlanCommands(env, site, call.s, actions[1..]);
        ReplayAppend(env, s.w, cmds, rest);
        cmds := cmds + rest;
      }
    }
  }

  lemma RequestCommands(env: Env, site: Site, s: WgManager.State, request: Request) returns (cmds: seq<Command>)
    ensures Replay(env, s.w, cmds) == RequestRun(env, site, s, request).s.w
    ensures forall i | 0 <= i < |cmds| :: PlanCommand(env, site, cmds[i])
  {
    hide CallRun, PlanRun, PlanCommand, WireGuardStatusUp;
    match request {
      case RequestStart => cmds := PlanCommands(env, site, s, START_PLAN);
      case RequestStop => cmds := PlanCommands(env, site, s, STOP_PLAN);
      case RequestRestart => cmds := PlanCommands(env, site, s, RESTART_PLAN);
      case RequestApply =>
        var status := CallRun(env, site, s, WgStatus);
        var up := status.response.ok && WireGuardStatusUp(status.response.output);
        var plan := if up then REAPPLY_PLAN else START_PLAN;
        cmds := CallCommands(env, site, s, WgStatus);
        var rest := PlanCommands(env, site, status.s, plan);
        ReplayAppend(env, s.w, cmds, rest);
        cmds := cmds + rest;
    }
  }

  // ------------------------------------------------------------- the dashboard client

  lemma PlanCommandSpares(env: Env, site: Site, cmd: Command, a: Ipv4.Addr)
    requires PlanCommand(env, site, cmd)
    requires Routes.PlanFor(env, site.apply).Ready? ==>
            !RouteLaws.Advertised(env.v6, Routes.PlanFor(env, site.apply).plan, a)
    ensures SparesPin(env.v6, cmd, a, Underlay(site), Tunnel(site))
  {
    hide Routes.PlanFor, Ipv4.ParsePrefix, RouteLaws.Advertised, Underlay;
    if Routes.PlanFor(env, site.apply).Ready? {
      PlanUnderlay(env, site);
    }
    if !WgManager.OfTunnel(cmd, site.setup)
        && !RouteLaws.PinCommand(env.v6, cmd, Routes.PlanFor(env, site.apply).plan) {
      RouteLaws.AdvertiseSparesPin(env, cmd, Routes.PlanFor(env, site.apply).plan, a);
    }
  }

  lemma PlanUnderlay(env: Env, site: Site)
    requires Routes.PlanFor(env, site.apply).Ready?
    ensures Routes.PlanFor(env, site.apply).plan.u.iface == Underlay(site)
  {
    hide Routes.EndpointAddrs, AppConfig.ManagedError, Bird.Generate, Routes.UnderlayOf;
  }

  // The interface host routes use under the stored configuration.
  function Underlay(site: Site): string {
    if site.apply.app.Some? then Routes.UnderlayOf(site.apply.app.value).iface else Routes.DEFAULT_ENDPOINT_INTERFACE
  }

  lemma PinClientPins(env: Env, site: Site, s: WgManager.State, clientIP: string)
    requires CallRun(env, site, s, PinClient(clientIP)).response.ok
    requires OwnsOnly(s.w, Tunnel(site))
    ensures Ipv4.ParseAddr(env.v6, clientIP).Some? && Ipv4.ParseAddr(env.v6, clientIP).value.V4?
    ensures var s1 := CallRun(env, site, s, PinClient(clientIP)).s;
            && Pinned(s1.w.routes, Ipv4.ParseAddr(env.v6, clientIP).value.addr, Underlay(site))
            && OwnsOnly(s1.w, Tunnel(site))
  {
    hide Ipv4.ParseAddr, Routes.UnderlayOf, Routes.HostRouteRun;
    var connect := CommandRun(env, s, "connect");
    var a := Ipv4.ParseAddr(env.v6, clientIP).value.addr;
    var u := Routes.UnderlayOf(site.apply.app.value);
    RouteLaws.HostRouteEffect(env, connect.s.w, u, a);
    HostRouteOwns(env, connect.s.w, u, a, Tunnel(site));
  }

  lemma HostRouteOwns(env: Env, w: World, u: Routes.Underlay, a: Ipv4.Addr, tunnel: string)
    requires OwnsOnly(w, tunnel)
    ensures OwnsOnly(Routes.HostRouteRun(env, w, u, a).w, tunnel)
  {
    hide Ipv4.ParsePrefix, Ipv4.ParseQuad, Routes.Fields, DefaultText;
  }

  // With client pinning on, once the pin has succeeded the dashboard client is kept out of
  // the tunnel after every single command of the routing action, whatever fails, exactly if
  // host routes do not go into the tunnel themselves; its own /32 must not be advertised. If
  // the pin fails, nothing else is run. (The pin of a client that has no IPv4 address fails:
  // PinClientPins.)
  lemma DashboardClientKept(env: Env, site: Site, s: WgManager.State, clientIP: string, a: Ipv4.Addr, request: Request)
    requires request != RequestStop && OwnsOnly(s.w, Tunnel(site))
    requires Ipv4.ParseAddr(env.v6, clientIP) == Some(Ipv4.V4(a))
    requires Routes.PlanFor(env, site.apply).Ready? ==>
            !RouteLaws.Advertised(env.v6, Routes.PlanFor(env, site.apply).plan, a)
    ensures var pin := CallRun(env, site, s, PinClient(clientIP));
            var end := RoutingActionRun(env, site, s, true, clientIP, request).s;
            if !pin.response.ok then end == pin.s
            else
              && RouteLaws.LeavesThrough(pin.s.w.routes, a, Underlay(site))
              && (Underlay(site) != Tunnel(site) ==>
                    forall i | |pin.s.w.log| <= i < |end.w.log| ::
                      RouteLaws.LeavesThrough(end.w.log[i].after, a, Underlay(site)))
  {
    hide CallRun, RequestRun, PlanCommand, Underlay, Tunnel, SparesPin, OwnsOnly, Ipv4.ParseAddr, Routes.PlanFor;
    var pin := CallRun(env, site, s, PinClient(clientIP));
    if pin.response.ok {
      PinClientPins(env, site, s, clientIP);
      HostRouteWins(pin.s.w.routes, a);
      if Underlay(site) != Tunnel(site) {
        ActionKeepsPin(env, site, pin.s, a, request);
      }
    }
  }

  lemma ActionKeepsPin(env: Env, site: Site, s: WgManager.State, a: Ipv4.Addr, request: Request)
    requires Pinned(s.w.routes, a, Underlay(site)) && OwnsOnly(s.w, Tunnel(site)) && Underlay(site) != Tunnel(site)
    requires Routes.PlanFor(env, site.apply).Ready? ==>
            !RouteLaws.Advertised(env.v6, Routes.PlanFor(env, site.apply).plan, a)
    ensures var end := RequestRun(env, site, s, request).s;
            forall i | |s.w.log| <= i < |end.w.log| :: RouteLaws.LeavesThrough(end.w.log[i].after, a, Underlay(site))
  {
    hide RequestRun, PlanCommand, Underlay, Tunnel, SparesPin, OwnsOnly, Routes.PlanFor;
    var cmds := RequestCommands(env, site, s, request);
    forall i | 0 <= i < |cmds|
      ensures SparesPin(env.v6, cmds[i], a, Underlay(site), Tunnel(site))
    {
      PlanCommandSpares(env, site, cmds[i], a);
    }
    ReplayKeepsPin(env, s.w, cmds, a, Underlay(site), Tunnel(site));
    var end := RequestRun(env, site, s, request).s;
    forall i | |s.w.log| <= i < |end.w.log|
      ensures RouteLaws.LeavesThrough(end.w.log[i].after, a, Underlay(site))
    {
      HostRouteWins(end.w.log[i].after, a);
    }
  }

  // ------------------------------------------------------------- start, then stop

  lemma QuietCommand(env: Env, s: WgManager.State, what: string)
    ensures SameNet(s.w, CommandRun(env, s, what).s.w)
    ensures CommandRun(env, s, what).s.process == s.process
  {
  }

  // Nothing but the log may differ.
  predicate SameNet(w: World, w': World) {
    && w'.routes == w.routes && w'.links == w.links && w'.owner == w.owner && w'.live == w.live
    && w'.unkilled == w.unkilled && w'.launched == w.launched
  }

  lemma {:induction false} BirdPollIsQuiet(env: Env, s: WgManager.State, n: nat)
    ensures SameNet(s.w, BirdPollRun(env, s, n).s.w) && BirdPollRun(env, s, n).s.process == s.process
    decreases n
  {
    hide CommandRun;
    if n > 0 {
      var status := CommandRun(env, s, "birdc show status");
      QuietCommand(env, s, "birdc show status");
      QuietCommand(env, status.s, "wait");
      BirdPollIsQuiet(env, CommandRun(env, status.s, "wait").s, n - 1);
    }
  }

  lemma BirdStartIsQuiet(env: Env, s: WgManager.State)
    ensures SameNet(s.w, BirdStartRun(env, s).s.w) && BirdStartRun(env, s).s.process == s.process
  {
    hide CommandRun, BirdPollRun;
    var status := CommandRun(env, s, "birdc show status");
    QuietCommand(env, s, "birdc show status");
    QuietCommand(env, status.s, "bird");
    BirdPollIsQuiet(env, CommandRun(env, status.s, "bird").s, BIRD_POLLS);
  }

  // A call that succeeds has run its action between two commands that change nothing.
  lemma CallThrough(env: Env, site: Site, s: WgManager.State, action: Action) returns (before: WgManager.State)
    requires CallRun(env, site, s, action).response.ok
    ensures SameNet(s.w, before.w)
    ensures DispatchRun(env, site, before, action).response.ok
    ensures SameNet(DispatchRun(env, site, before, action).s.w, CallRun(env, site, s, action).s.w)
  {
    hide CommandRun, DispatchRun;
    before := CommandRun(env, s, "connect").s;
    QuietCommand(env, s, "connect");
    QuietCommand(env, DispatchRun(env, site, before, action).s, "reply");
  }

  // What a successful Start plan and a successful Stop plan come to.
  lemma StartPlanEffect(env: Env, site: Site, s: WgManager.State) returns (up: Table)
    requires OwnsOnly(s.w, Tunnel(site)) && PlanRun(env, site, s, START_PLAN).result.ok
    ensures Routes.PlanFor(env, site.apply).Ready?
    ensures var w1 := PlanRun(env, site, s, START_PLAN).s.w;
            && OwnsOnly(w1, Tunnel(site))
            && Without(up, Tunnel(site)) == Without(s.w.routes, Tunnel(site))
            && w1.routes == RouteLaws.PlanTable(env.v6, up, Routes.PlanFor(env, site.apply).plan)
  {
    hide CallRun, DispatchRun, Without, Routes.PlanFor, RouteLaws.PlanTable;
    var c1 := CallRun(env, site, s, WgStart);
    var c2 := CallRun(env, site, c1.s, RoutesApply);
    var c3 := CallRun(env, site, c2.s, BirdStart);
    var c4 := CallRun(env, site, c3.s, BirdReload);
    assert START_PLAN[1..] == [RoutesApply, BirdStart, BirdReload];
    assert START_PLAN[1..][1..] == [BirdStart, BirdReload];
    assert START_PLAN[1..][1..][1..] == [BirdReload];
    assert START_PLAN[1..][1..][1..][1..] == [];
    UpStep(env, site, s);
    ApplyStep(env, site, c1.s);
    BirdSteps(env, site, c2.s, BirdStart);
    BirdSteps(env, site, c3.s, BirdReload);
    up := c1.s.w.routes;
  }

  lemma UpStep(env: Env, site: Site, s: WgManager.State)
    requires OwnsOnly(s.w, Tunnel(site)) && CallRun(env, site, s, WgStart).response.ok
    ensures Without(CallRun(env, site, s, WgStart).s.w.routes, Tunnel(site)) == Without(s.w.routes, Tunnel(site))
    ensures OwnsOnly(CallRun(env, site, s, WgStart).s.w, Tunnel(site))
  {
    hide CallRun, WgManager.StartRun, Without;
    var before := CallThrough(env, site, s, WgStart);
    var cmds := WgManager.StartCommands(env, site.setup, before, site.start);
    ReplayOnTunnel(env, before.w, cmds, Tunnel(site));
  }

  lemma ApplyStep(env: Env, site: Site, s: WgManager.State)
    requires OwnsOnly(s.w, Tunnel(site)) && CallRun(env, site, s, RoutesApply).response.ok
    ensures Routes.PlanFor(env, site.apply).Ready?
    ensures CallRun(env, site, s, RoutesApply).s.w.routes ==
            RouteLaws.PlanTable(env.v6, s.w.routes, Routes.PlanFor(env, site.apply).plan)
    ensures OwnsOnly(CallRun(env, site, s, RoutesApply).s.w, Tunnel(site))
  {
    hide CallRun, Routes.PlanFor, Routes.PlanRun, RouteLaws.PlanTable;
    var before := CallThrough(env, site, s, RoutesApply);
    var plan := Routes.PlanFor(env, site.apply).plan;
    RouteLaws.PlanEffect(env, before.w, plan);
    PlanOwns(env, before.w, plan);
  }

  lemma PlanOwns(env: Env, w: World, plan: Routes.Plan)
    ensures Routes.PlanRun(env, w, plan).w.owner == w.owner
  {
    hide Routes.PlanRun, RouteLaws.PinCommand, RouteLaws.AdvertiseCommand;
    var pinning, advertising := RouteLaws.Phases(env, w, plan);
    var cmds: seq<Command> := pinning + advertising;
    forall i | 0 <= i < |cmds|
      ensures cmds[i].ShowDefault? || cmds[i].RouteReplace?
    {
      ApplyCommandKinds(env, cmds[i], plan);
    }
    RouteCommandsOwn(env, w, cmds);
  }

  lemma ApplyCommandKinds(env: Env, cmd: Command, plan: Routes.Plan)
    requires RouteCommand(env, cmd, plan)
    ensures cmd.ShowDefault? || cmd.RouteReplace?
  {
  }

  lemma {:induction false} RouteCommandsOwn(env: Env, w: World, cmds: seq<Command>)
    requires forall i | 0 <= i < |cmds| :: cmds[i].ShowDefault? || cmds[i].RouteReplace?
    ensures Replay(env, w, cmds).owner == w.owner
    decreases |cmds|
  {
    hide Ipv4.ParsePrefix, Ipv4.ParseQuad, DefaultText;
    if cmds != [] {
      RouteCommandsOwn(env, Exec(env, w, cmds[0]).w, cmds[1..]);
    }
  }

  lemma BirdSteps(env: Env, site: Site, s: WgManager.State, action: Action)
    requires action == BirdStart || action == BirdReload || action == BirdStop
    requires CallRun(env, site, s, action).response.ok
    ensures SameNet(s.w, CallRun(env, site, s, action).s.w)
  {
    hide CallRun, BirdStartRun, CommandRun;
    var before := CallThrough(env, site, s, action);
    BirdStartIsQuiet(env, before);
    QuietCommand(env, before, "birdc configure");
    QuietCommand(env, before, "birdc down");
  }

  lemma StopPlanEffect(env: Env, site: Site, s: WgManager.State)
    requires WgManager.Honest(env) && WellFormed(s.w) && OwnsOnly(s.w, Tunnel(site))
    requires PlanRun(env, site, s, STOP_PLAN).result.ok
    ensures PlanRun(env, site, s, STOP_PLAN).s.w.routes == Without(s.w.routes, Tunnel(site))
    ensures Tunnel(site) !in PlanRun(env, site, s, STOP_PLAN).s.w.links
  {
    hide CallRun, DispatchRun, Without, WgManager.StopRun, WgManager.Honest, WgManager.OfTunnel;
    var c1 := CallRun(env, site, s, BirdStop);
    var c2 := CallRun(env, site, c1.s, WgStop);
    assert STOP_PLAN[1..] == [WgStop] && STOP_PLAN[1..][1..] == [];
    BirdSteps(env, site, s, BirdStop);
    DownStep(env, site, c1.s);
  }

  lemma DownStep(env: Env, site: Site, s: WgManager.State)
    requires WgManager.Honest(env) && WellFormed(s.w) && OwnsOnly(s.w, Tunnel(site))
    requires CallRun(env, site, s, WgStop).response.ok
    ensures CallRun(env, site, s, WgStop).s.w.routes == Without(s.w.routes, Tunnel(site))
    ensures Tunnel(site) !in CallRun(env, site, s, WgStop).s.w.links
  {
    hide CallRun, WgManager.StopRun, WgManager.Honest;
    var before := CallThrough(env, site, s, WgStop);
    var cmds := WgManager.StopCommands(env, site.setup, before);
    ReplayOnTunnel(env, before.w, cmds, Tunnel(site));
    ReplayKeepsWellFormed(env, before.w, cmds);
    WgManager.StopRemovesLink(env, site.setup, before);
    var end := WgManager.StopRun(env, site.setup, before).s.w;
    assert Without(end.routes, Tunnel(site)) == end.routes;
  }

  lemma PlanRunKeepsWellFormed(env: Env, site: Site, s: WgManager.State, actions: seq<Action>)
    requires WellFormed(s.w) && forall i | 0 <= i < |actions| :: !actions[i].PinClient?
    ensures WellFormed(PlanRun(env, site, s, actions).s.w)
  {
    hide PlanRun, WellFormed;
    var cmds := PlanCommands(env, site, s, actions);
    ReplayKeepsWellFormed(env, s.w, cmds);
  }

  // The keys set to a hop, and then everything through a device taken out again.
  function Lay(t: Table, keys: seq<Ipv4.Prefix>, hop: Hop, dev: string): Table {
    if hop.dev == dev then map p | p in t && p !in keys :: t[p] else RouteLaws.Overlay(t, keys, hop)
  }

  lemma WithoutOverlay(t: Table, keys: seq<Ipv4.Prefix>, hop: Hop, dev: string)
    ensures Without(RouteLaws.Overlay(t, keys, hop), dev) == Lay(Without(t, dev), keys, hop, dev)
  {
    RouteLaws.OverlayMeaning(t, keys, hop);
    RouteLaws.OverlayMeaning(Without(t, dev), keys, hop);
    hide RouteLaws.Overlay;
    var left, right := Without(RouteLaws.Overlay(t, keys, hop), dev), Lay(Without(t, dev), keys, hop, dev);
    forall p
      ensures p in left <==> p in right
      ensures p in left ==> left[p] == right[p]
    {
      assert p in Without(t, dev) <==> p in t && t[p].dev != dev;
    }
  }

  // The table once the tunnel is down again: what was there apart from the tunnel, with the
  // pins and then the advertised prefixes laid over it, except through the tunnel itself,
  // where they only take away what was there.
  function AfterStop(v6: Ipv4.V6Syntax, t: Table, plan: Routes.Plan, tunnel: string): Table {
    var pinned := Lay(Without(t, tunnel), RouteLaws.Hosts(RouteLaws.PinsOf(v6, plan)),
                      Hop(RouteLaws.PinVia(t, plan.u), plan.u.iface), tunnel);
    Lay(pinned, RouteLaws.AdvertisedKeys(v6, plan.advertised), Hop(None, plan.tunnel), tunnel)
  }

  lemma PlanTableDown(v6: Ipv4.V6Syntax, t: Table, up: Table, plan: Routes.Plan, tunnel: string)
    requires Without(up, tunnel) == Without(t, tunnel)
    ensures Without(RouteLaws.PlanTable(v6, up, plan), tunnel) == AfterStop(v6, t, plan, tunnel)
  {
    hide RouteLaws.Overlay, RouteLaws.Hosts, RouteLaws.PinsOf, RouteLaws.PinVia, RouteLaws.AdvertisedKeys, Without;
    var pins := RouteLaws.Hosts(RouteLaws.PinsOf(v6, plan));
    var hop := Hop(RouteLaws.PinVia(up, plan.u), plan.u.iface);
    if plan.u.iface != tunnel {
      SameGateway(t, up, plan.u, tunnel);
    }
    WithoutOverlay(up, pins, hop, tunnel);
    WithoutOverlay(RouteLaws.Overlay(up, pins, hop), RouteLaws.AdvertisedKeys(v6, plan.advertised),
        Hop(None, plan.tunnel), tunnel);
  }

  lemma SameGateway(t: Table, up: Table, u: Routes.Underlay, tunnel: string)
    requires Without(up, tunnel) == Without(t, tunnel) && u.iface != tunnel
    ensures RouteLaws.PinVia(up, u) == RouteLaws.PinVia(t, u)
  {
    hide Ipv4.ParseQuad;
    assert DEFAULT_ROUTE in Without(up, tunnel) <==> DEFAULT_ROUTE in Without(t, tunnel);
    assert DEFAULT_ROUTE in up && up[DEFAULT_ROUTE].dev == u.iface ==>
        Without(up, tunnel)[DEFAULT_ROUTE] == up[DEFAULT_ROUTE];
    assert DEFAULT_ROUTE in t && t[DEFAULT_ROUTE].dev == u.iface ==>
        Without(t, tunnel)[DEFAULT_ROUTE] == t[DEFAULT_ROUTE];
  }

  // The table after a successful start followed by a successful stop.
  lemma StartThenStop(env: Env, site: Site, s: WgManager.State)
    requires WgManager.Honest(env) && WellFormed(s.w) && OwnsOnly(s.w, Tunnel(site))
    requires PlanRun(env, site, s, START_PLAN).result.ok
    requires PlanRun(env, site, PlanRun(env, site, s, START_PLAN).s, STOP_PLAN).result.ok
    ensures Routes.PlanFor(env, site.apply).Ready?
    ensures PlanRun(env, site, PlanRun(env, site, s, START_PLAN).s, STOP_PLAN).s.w.routes ==
            AfterStop(env.v6, s.w.routes, Routes.PlanFor(env, site.apply).plan, Tunnel(site))
  {
    hide PlanRun, WellFormed, OwnsOnly, WgManager.Honest, Routes.PlanFor, AfterStop, RouteLaws.PlanTable, Without;
    var up := StartPlanEffect(env, site, s);
    var s1 := PlanRun(env, site, s, START_PLAN).s;
    NoPinActions();
    PlanRunKeepsWellFormed(env, site, s, START_PLAN);
    StopPlanEffect(env, site, s1);
    PlanTableDown(env.v6, s.w.routes, up, Routes.PlanFor(env, site.apply).plan, Tunnel(site));
  }

  lemma NoPinActions()
    ensures forall i | 0 <= i < |START_PLAN| :: !START_PLAN[i].PinClient?
  {
  }

  ghost predicate SameApart(t: Table, u: Table, pins: seq<Ipv4.Prefix>) {
    forall p | p !in pins :: (p in t <==> p in u) && (p in t ==> t[p] == u[p])
  }

  // Apart from the pins, the table holds no tunnel route, and holds an advertised prefix
  // exactly if that prefix goes to a device other than the tunnel, and then as Apply sets it.
  ghost predicate Restorable(v6: Ipv4.V6Syntax, t: Table, plan: Routes.Plan, tunnel: string) {
    var pins, keys := RouteLaws.Hosts(RouteLaws.PinsOf(v6, plan)), RouteLaws.AdvertisedKeys(v6, plan.advertised);
    && (forall p | p in t && p !in pins :: t[p].dev != tunnel)
    && (forall p | p in keys && p !in pins ::
          if plan.tunnel == tunnel then p !in t else p in t && t[p] == Hop(None, plan.tunnel))
  }

  lemma LayMeaning(t: Table, keys: seq<Ipv4.Prefix>, hop: Hop, dev: string)
    ensures forall p :: p in Lay(t, keys, hop, dev) <==> if p in keys then hop.dev != dev else p in t
    ensures forall p | p in Lay(t, keys, hop, dev) :: Lay(t, keys, hop, dev)[p] == if p in keys then hop else t[p]
  {
    RouteLaws.OverlayMeaning(t, keys, hop);
    hide RouteLaws.Overlay;
  }

  lemma AfterStopMeaning(v6: Ipv4.V6Syntax, t: Table, plan: Routes.Plan, tunnel: string, p: Ipv4.Prefix)
    ensures var pins, keys :=
            RouteLaws.Hosts(RouteLaws.PinsOf(v6, plan)), RouteLaws.AdvertisedKeys(v6, plan.advertised);
            var end := AfterStop(v6, t, plan, tunnel);
            && (p in end <==> if p in keys then plan.tunnel != tunnel
                              else if p in pins then plan.u.iface != tunnel
                              else p in t && t[p].dev != tunnel)
            && (p in end ==> end[p] == if p in keys then Hop(None, plan.tunnel)
                                       else if p in pins then Hop(RouteLaws.PinVia(t, plan.u), plan.u.iface)
                                       else t[p])
  {
    hide Lay, RouteLaws.Hosts, RouteLaws.PinsOf, RouteLaws.PinVia, RouteLaws.AdvertisedKeys;
    var pins, keys := RouteLaws.Hosts(RouteLaws.PinsOf(v6, plan)), RouteLaws.AdvertisedKeys(v6, plan.advertised);
    var hop := Hop(RouteLaws.PinVia(t, plan.u), plan.u.iface);
    LayMeaning(Without(t, tunnel), pins, hop, tunnel);
    LayMeaning(Lay(Without(t, tunnel), pins, hop, tunnel), keys, Hop(None, plan.tunnel), tunnel);
  }

  // Apart from the pins, a start and a stop restore exactly the restorable tables.
  lemma RestoredExactly(v6: Ipv4.V6Syntax, t: Table, plan: Routes.Plan, tunnel: string)
    ensures SameApart(AfterStop(v6, t, plan, tunnel), t, RouteLaws.Hosts(RouteLaws.PinsOf(v6, plan))) <==>
            Restorable(v6, t, plan, tunnel)
  {
    hide AfterStop, RouteLaws.Hosts, RouteLaws.PinsOf, RouteLaws.PinVia, RouteLaws.AdvertisedKeys;
    forall p
      ensures var pins, keys :=
              RouteLaws.Hosts(RouteLaws.PinsOf(v6, plan)), RouteLaws.AdvertisedKeys(v6, plan.advertised);
              var end := AfterStop(v6, t, plan, tunnel);
              && (p in end <==> if p in keys then plan.tunnel != tunnel
                                else if p in pins then plan.u.iface != tunnel
                                else p in t && t[p].dev != tunnel)
              && (p in end ==> end[p] == if p in keys then Hop(None, plan.tunnel)
                                         else if p in pins then Hop(RouteLaws.PinVia(t, plan.u), plan.u.iface)
                                         else t[p])
    {
      AfterStopMeaning(v6, t, plan, tunnel, p);
    }
  }

  // Nothing is sent into the tunnel any more, and from a restorable table every address that
  // is not pinned has its original lookup.
  lemma ForwardingRestored(v6: Ipv4.V6Syntax, t: Table, plan: Routes.Plan, tunnel: string, a: Ipv4.Addr)
    ensures !RouteLaws.LeavesThrough(AfterStop(v6, t, plan, tunnel), a, tunnel)
    ensures Restorable(v6, t, plan, tunnel) && a !in RouteLaws.PinsOf(v6, plan) ==>
              Lookup(AfterStop(v6, t, plan, tunnel), a) == Lookup(t, a)
  {
    hide AfterStop, Restorable, RouteLaws.Hosts, RouteLaws.PinsOf, RouteLaws.PinVia, RouteLaws.AdvertisedKeys;
    var end := AfterStop(v6, t, plan, tunnel);
    forall p | p in end
      ensures end[p].dev != tunnel
    {
      AfterStopMeaning(v6, t, plan, tunnel, p);
    }
    NoTunnelEntry(end, a, tunnel, Ipv4.MAX_BITS);
    RestoredExactly(v6, t, plan, tunnel);
    if Restorable(v6, t, plan, tunnel) && a !in RouteLaws.PinsOf(v6, plan) {
      AgreeOffHosts(end, t, RouteLaws.PinsOf(v6, plan), a, Ipv4.MAX_BITS);
    }
  }

  lemma {:induction false} NoTunnelEntry(t: Table, a: Ipv4.Addr, tunnel: string, n: nat)
    requires n <= Ipv4.MAX_BITS && forall p | p in t :: t[p].dev != tunnel
    ensures LookupFrom(t, a, n).Some? ==> LookupFrom(t, a, n).value.dev != tunnel
  {
    if Ipv4.Cover(a, n) !in t && n > 0 {
      NoTunnelEntry(t, a, tunnel, n - 1);
    }
  }

  // Tables that differ only in host routes of other addresses forward an address alike.
  lemma {:induction false} AgreeOffHosts(t: Table, u: Table, addrs: seq<Ipv4.Addr>, a: Ipv4.Addr, n: nat)
    requires n <= Ipv4.MAX_BITS && a !in addrs && SameApart(t, u, RouteLaws.Hosts(addrs))
    ensures LookupFrom(t, a, n) == LookupFrom(u, a, n)
  {
    CoverIsNoOtherHost(addrs, a, n);
    if Ipv4.Cover(a, n) !in t && n > 0 {
      AgreeOffHosts(t, u, addrs, a, n - 1);
    }
  }

  lemma CoverIsNoOtherHost(addrs: seq<Ipv4.Addr>, a: Ipv4.Addr, n: nat)
    requires n <= Ipv4.MAX_BITS && a !in addrs
    ensures Ipv4.Cover(a, n) !in RouteLaws.Hosts(addrs)
  {
    assert Ipv4.Span(32) == 1;
    var hosts := RouteLaws.Hosts(addrs);
    forall i | 0 <= i < |hosts|
      ensures hosts[i] != Ipv4.Cover(a, n)
    {
      assert addrs[i] in addrs;
    }
  }
}
