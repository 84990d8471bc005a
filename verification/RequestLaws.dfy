/** What the routing requests come to, told from what the n-th command answers: which actions
    they run, which commands those run, and when they succeed. */
module RequestLaws {
  import opened Options
  import opened Text
  import Ipv4
  import AppConfig
  import Routes
  import WgManager
  import RoutingLaws
  import Completion
  import ApplyLaws
  import opened Kernel
  import opened Orchestrator

  // ------------------------------------------------------------- one call

  // The state with one more command in the log, and nothing else changed.
  function Logged(s: WgManager.State, what: string, ok: bool): WgManager.State {
    s.(w := s.w.(log := s.w.log + [Step(Other(what), ok, s.w.routes)]))
  }

  lemma CommandExactly(env: Env, s: WgManager.State, what: string)
    ensures var fate := env.fates(|s.w.log|);
            CommandRun(env, s, what) == Run(Logged(s, what, fate.ok), Response(fate.ok, fate.output))
  {
  }

  // Without a connection nothing is run; with one the action is, and then its response is
  // what the caller gets, unless the reply is lost.
  lemma CallExactly(env: Env, site: Site, s: WgManager.State, action: Action)
    ensures var call := CallRun(env, site, s, action);
            if !env.fates(|s.w.log|).ok then call == Run(Logged(s, "connect", false), Response(false, ""))
            else
              var done := DispatchRun(env, site, Logged(s, "connect", true), action);
              var replied := env.fates(|done.s.w.log|).ok;
              call == Run(Logged(done.s, "reply", replied), if replied then done.response else Response(false, ""))
  {
    hide CommandRun, DispatchRun, Logged;
    CommandExactly(env, s, "connect");
    CommandExactly(env, DispatchRun(env, site, Logged(s, "connect", true), action).s, "reply");
  }

  // The command an action that is just one command runs.
  function Only(action: Action): Option<string> {
    match action
    case WgStatus => Some("wg show")
    case BirdStop => Some("birdc down")
    case BirdReload => Some("birdc configure")
    case _ => None
  }

  lemma OneCommandActions(env: Env, site: Site, s: WgManager.State, action: Action)
    requires Only(action).Some?
    ensures var fate := env.fates(|s.w.log|);
            DispatchRun(env, site, s, action) ==
            Run(Logged(s, Only(action).value, fate.ok), Response(fate.ok, fate.output))
  {
    hide CommandRun, Logged;
    CommandExactly(env, s, Only(action).value);
  }

  // ------------------------------------------------------------- starting BIRD

  // The i-th round of polling from log position m is the first to find BIRD ready, and no
  // wait before it was cut short.
  predicate ReadyAt(env: Env, m: nat, i: nat) {
    env.fates(m + 2 * i).ok && forall j | 0 <= j < i :: !env.fates(m + 2 * j).ok && env.fates(m + 2 * j + 1).ok
  }

  predicate GetsReady(env: Env, m: nat, rounds: nat) {
    exists i | 0 <= i < rounds :: ReadyAt(env, m, i)
  }

  lemma {:induction false} PollSucceedsExactly(env: Env, s: WgManager.State, n: nat)
    ensures BirdPollRun(env, s, n).response.ok <==> GetsReady(env, |s.w.log|, n)
    decreases n
  {
    hide CommandRun, ReadyAt;
    var m := |s.w.log|;
    if n > 0 {
      var status := CommandRun(env, s, "birdc show status");
      CommandExactly(env, s, "birdc show status");
      if status.response.ok {
        assert ReadyAt(env, m, 0) by { FirstRound(env, m); }
      } else {
        var wait := CommandRun(env, status.s, "wait");
        CommandExactly(env, status.s, "wait");
        if wait.response.ok {
          PollSucceedsExactly(env, wait.s, n - 1);
          NextRound(env, m, n);
        } else {
          CutShort(env, m, n);
        }
      }
    }
  }

  lemma FirstRound(env: Env, m: nat)
    requires env.fates(m).ok
    ensures ReadyAt(env, m, 0)
  {
  }

  lemma CutShort(env: Env, m: nat, n: nat)
    requires !env.fates(m).ok && !env.fates(m + 1).ok
    ensures !GetsReady(env, m, n)
  {
    if i :| 0 <= i < n && ReadyAt(env, m, i) {
      assert m + 2 * 0 == m && m + 2 * 0 + 1 == m + 1;
    }
  }

  lemma NextRound(env: Env, m: nat, n: nat)
    requires n > 0 && !env.fates(m).ok && env.fates(m + 1).ok
    ensures GetsReady(env, m, n) <==> GetsReady(env, m + 2, n - 1)
  {
    var next := m + 2;
    if i :| 0 <= i < n && ReadyAt(env, m, i) {
      assert i > 0 by { assert m + 2 * 0 == m; }
      forall j | 0 <= j < i - 1
        ensures !env.fates(m + 2 + 2 * j).ok && env.fates(m + 2 + 2 * j + 1).ok
      {
        assert m + 2 + 2 * j == m + 2 * (j + 1);
      }
      assert m + 2 + 2 * (i - 1) == m + 2 * i;
      assert ReadyAt(env, next, i - 1);
    }
    if i :| 0 <= i < n - 1 && ReadyAt(env, next, i) {
      forall j | 0 <= j < i + 1
        ensures !env.fates(m + 2 * j).ok && env.fates(m + 2 * j + 1).ok
      {
        assert j > 0 ==> m + 2 * j == m + 2 + 2 * (j - 1);
      }
      assert m + 2 * (i + 1) == m + 2 + 2 * i;
      assert ReadyAt(env, m, i + 1);
    }
  }

  // Starting BIRD succeeds exactly if it is running, or can be launched and is found ready
  // within 20 rounds. It is launched exactly if it is not found running.
  lemma BirdStartSucceedsExactly(env: Env, s: WgManager.State)
    ensures var m, run := |s.w.log|, BirdStartRun(env, s);
            && (run.response.ok <==>
                  || env.fates(m).ok
                  || (env.fates(m + 1).ok && GetsReady(env, m + 2, 20)))
            && |run.s.w.log| > m && run.s.w.log[m].cmd == Other("birdc show status")
            && (if env.fates(m).ok then run.s == Logged(s, "birdc show status", true)
                else |run.s.w.log| > m + 1 && run.s.w.log[m + 1].cmd == Other("bird"))
  {
    hide CommandRun, BirdPollRun, GetsReady;
    var status := CommandRun(env, s, "birdc show status");
    CommandExactly(env, s, "birdc show status");
    if !status.response.ok {
      var launch := CommandRun(env, status.s, "bird");
      CommandExactly(env, status.s, "bird");
      if launch.response.ok {
        PollSucceedsExactly(env, launch.s, BIRD_POLLS);
        PollAppends(env, launch.s, BIRD_POLLS);
      }
    }
  }

  lemma {:induction false} PollAppends(env: Env, s: WgManager.State, n: nat)
    ensures s.w.log <= BirdPollRun(env, s, n).s.w.log
    decreases n
  {
    hide CommandRun;
    if n > 0 {
      var status := CommandRun(env, s, "birdc show status");
      CommandExactly(env, s, "birdc show status");
      if !status.response.ok {
        var wait := CommandRun(env, status.s, "wait");
        CommandExactly(env, status.s, "wait");
        if wait.response.ok {
          PollAppends(env, wait.s, n - 1);
        }
      }
    }
  }

  // ------------------------------------------------------------- which actions

  // The tunnel's status was asked for, answered, and names an interface.
  predicate FoundUp(env: Env, s: WgManager.State) {
    var m := |s.w.log|;
    && env.fates(m).ok && env.fates(m + 1).ok && env.fates(m + 2).ok
    && Contains(env.fates(m + 1).output, "interface:")
  }

  function Expected(env: Env, s: WgManager.State, request: Request): seq<Action> {
    match request
    case RequestStart => [WgStart, RoutesApply, BirdStart, BirdReload]
    case RequestStop => [BirdStop, WgStop]
    case RequestRestart => [BirdStop, WgRestart, RoutesApply, BirdStart, BirdReload]
    case RequestApply => [if FoundUp(env, s) then WgRestart else WgStart, RoutesApply, BirdStart, BirdReload]
  }

  lemma StatusCall(env: Env, site: Site, s: WgManager.State)
    ensures var status := CallRun(env, site, s, WgStatus);
            && (status.response.ok && WireGuardStatusUp(status.response.output) <==> FoundUp(env, s))
            && RoutingLaws.SameNet(s.w, status.s.w) && status.s.process == s.process
  {
    hide CallRun, DispatchRun, Contains;
    CallExactly(env, site, s, WgStatus);
    OneCommandActions(env, site, Logged(s, "connect", true), WgStatus);
  }

  // Which actions a request runs, in which order; Apply restarts a tunnel that it finds up and
  // starts one otherwise. With the dashboard client to be pinned that comes first, except for
  // a stop, and if it fails nothing else is run.
  lemma RoutingActionSteps(
      env: Env, site: Site, s: WgManager.State, pinEnabled: bool, clientIP: string, request: Request)
    ensures var run := RoutingActionRun(env, site, s, pinEnabled, clientIP, request);
            var pin := CallRun(env, site, s, PinClient(clientIP));
            if !pinEnabled || request == RequestStop then Reports(run.result, Expected(env, s, request))
            else if pin.response.ok then Reports(run.result, Expected(env, pin.s, request))
            else run == PlanOutcome(pin.s, Result(false, [PlanStep(PinClient(clientIP), false)]))
  {
    hide CallRun, PlanRun, FoundUp, Reports;
    RequestSteps(env, site, s, request);
    RequestSteps(env, site, CallRun(env, site, s, PinClient(clientIP)).s, request);
  }

  lemma RequestSteps(env: Env, site: Site, s: WgManager.State, request: Request)
    ensures Reports(RequestRun(env, site, s, request).result, Expected(env, s, request))
  {
    hide CallRun, PlanRun, FoundUp, Reports, WireGuardStatusUp;
    StatusCall(env, site, s);
    var from := if request == RequestApply then CallRun(env, site, s, WgStatus).s else s;
    PlanReports(env, site, from, Expected(env, s, request));
  }

  // ------------------------------------------------------------- when a request succeeds

  // Every file is accepted, and with the tunnel up every route can be set.
  ghost predicate ApplyCan(env: Env, site: Site, links: set<string>) {
    && ApplyLaws.FilesAccepted(env, site.apply)
    && ApplyLaws.RoutesCanBeSet(env.v6, links + {site.setup.iface}, site.apply.app.value)
  }

  lemma ApplyCanIs(env: Env, site: Site, links: set<string>)
    ensures Completion.CanApplyUp(env, site, links) <==> ApplyCan(env, site, links)
  {
    hide ApplyLaws.FilesAccepted, ApplyLaws.RoutesCanBeSet, Completion.CanApply, Routes.PlanFor, TrimSpace;
    hide AppConfig.Managed;
    ApplyLaws.ReadyExactly(env, site.apply);
    if Routes.PlanFor(env, site.apply).Ready? {
      ApplyLaws.PlanIs(env, site.apply);
      ApplyLaws.FilesGenerate(env, site.apply);
      ApplyLaws.CanApplyIs(env.v6, site.apply.cwd, links + {site.setup.iface}, site.apply.app.value,
                           Routes.PlanFor(env, site.apply).plan);
    }
  }

  // The client has an IPv4 address, and its host route can be set.
  ghost predicate CanPinClient(env: Env, site: Site, links: set<string>, clientIP: string) {
    && (exists a :: Ipv4.ParseAddr(env.v6, clientIP) == Some(Ipv4.V4(a)))
    && site.apply.app.Some?
    && var app := site.apply.app.value;
       var via := TrimSpace(app.wireGuard.endpointRouteVia);
       ApplyLaws.OutOf(app) in links && (via != "" ==> exists gateway :: via == Ipv4.PrintAddr(gateway))
  }

  lemma RouteCommandKeeps(env: Env, w: World, cmd: Command)
    requires cmd.RouteReplace? || cmd.ShowDefault?
    ensures var w' := Exec(env, w, cmd).w; w'.links == w.links && w'.live == w.live && w'.owner == w.owner
  {
    hide Ipv4.ParsePrefix, Ipv4.ParseQuad, DefaultText;
  }

  lemma HostRouteKeeps(env: Env, w: World, u: Routes.Underlay, a: Ipv4.Addr)
    ensures var w' := Routes.HostRouteRun(env, w, u, a).w;
            w'.links == w.links && w'.live == w.live && w'.owner == w.owner
  {
    hide Exec, Routes.Fields, Routes.GatewayWord, Ipv4.PrintAddr;
    forall w0: World, cmd: Command | cmd.RouteReplace? || cmd.ShowDefault?
      ensures var w' := Exec(env, w0, cmd).w; w'.links == w0.links && w'.live == w0.live && w'.owner == w0.owner
    {
      RouteCommandKeeps(env, w0, cmd);
    }
  }

  lemma PinWorks(env: Env, site: Site, s: WgManager.State, clientIP: string)
    requires Completion.Works(env)
    ensures var call := CallRun(env, site, s, PinClient(clientIP));
            && (call.response.ok <==> CanPinClient(env, site, s.w.links, clientIP))
            && call.s.w.links == s.w.links && call.s.w.live == s.w.live && call.s.w.owner == s.w.owner
            && call.s.process == s.process
  {
    hide Completion.Works, CallRun, Routes.HostRouteRun, Ipv4.ParseAddr, TrimSpace, Ipv4.ParseQuad;
    var before := Completion.CallWorks(env, site, s, PinClient(clientIP));
    var addr := Ipv4.ParseAddr(env.v6, clientIP);
    if addr.Some? && addr.value.V4? && site.apply.app.Some? {
      var u := Routes.UnderlayOf(site.apply.app.value);
      assert addr == Some(Ipv4.V4(addr.value.addr));
      Completion.HostRouteWorks(env, before.w, u, addr.value.addr);
      HostRouteKeeps(env, before.w, u, addr.value.addr);
      ApplyLaws.ViaIsAddress(u.via);
    }
  }

  ghost predicate CanRequest(env: Env, site: Site, s: WgManager.State, request: Request) {
    var start := Completion.CanStart(site.start) && ApplyCan(env, site, s.w.links);
    match request
    case RequestStop => Completion.HandleLive(s)
    case RequestStart => start && Completion.CanHaveLink(env, site.setup, s)
    case RequestRestart => start && Completion.HandleLive(s)
    case RequestApply =>
      start && if FoundUp(env, s) then Completion.HandleLive(s) else Completion.CanHaveLink(env, site.setup, s)
  }

  lemma RequestSucceedsExactly(env: Env, site: Site, s: WgManager.State, request: Request)
    requires Completion.Works(env) && OwnsOnly(s.w, site.setup.iface)
    ensures RequestRun(env, site, s, request).result.ok <==> CanRequest(env, site, s, request)
  {
    hide Completion.Works, PlanRun, CallRun, ApplyCan, Completion.CanStart, FoundUp, Completion.CanApplyUp;
    hide WireGuardStatusUp;
    var from := if request == RequestApply then CallRun(env, site, s, WgStatus).s else s;
    StatusCall(env, site, s);
    ApplyCanIs(env, site, s.w.links);
    Completion.StartPlanSucceedsExactly(env, site, from);
    Completion.RestartPlansSucceedExactly(env, site, from);
    Completion.StopPlanSucceedsExactly(env, site, from);
  }

  // The whole of a dashboard action, when no command is made to fail: it succeeds exactly if
  // the client can be pinned, where it has to be, and the request can be carried out.
  lemma RoutingActionSucceedsExactly(
      env: Env, site: Site, s: WgManager.State, pinEnabled: bool, clientIP: string, request: Request)
    requires Completion.Works(env) && OwnsOnly(s.w, site.setup.iface)
    ensures var pinned := pinEnabled && request != RequestStop;
            var from := if pinned then CallRun(env, site, s, PinClient(clientIP)).s else s;
            RoutingActionRun(env, site, s, pinEnabled, clientIP, request).result.ok <==>
              (pinned ==> CanPinClient(env, site, s.w.links, clientIP)) && CanRequest(env, site, from, request)
  {
    hide Completion.Works, CallRun, RequestRun, CanPinClient, CanRequest;
    PinWorks(env, site, s, clientIP);
    var pinned := pinEnabled && request != RequestStop;
    RequestSucceedsExactly(env, site, if pinned then CallRun(env, site, s, PinClient(clientIP)).s else s, request);
  }
}
