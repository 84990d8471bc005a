/** internal/orchestrator/routing.go and internal/server/api_routing.go: plans of supervisor
    actions, run until one fails, with the dashboard client pinned first. */
module Orchestrator {
  import opened Options
  import opened Text
  import Routes
  import WgManager
  import opened Kernel

  datatype Action =
    | WgStatus
    | WgStart
    | WgStop
    | WgRestart
    | RoutesApply
    | PinClient(clientIP: string)
    | BirdStart
    | BirdStop
    | BirdReload

  // The configuration files as the supervisor finds them.
  datatype Site = Site(setup: WgManager.Setup, start: WgManager.StartInputs, apply: Routes.Inputs)

  // ------------------------------------------------------------- one action

  datatype Response = Response(ok: bool, output: string)

  datatype Run = Run(s: WgManager.State, response: Response)

  function CommandRun(env: Env, s: WgManager.State, what: string): Run {
    var outcome := Exec(env, s.w, Other(what));
    Run(s.(w := outcome.w), Response(outcome.reply.ok, outcome.reply.output))
  }

  const BIRD_POLLS: nat := 20

  // Polling for readiness until a status succeeds, the waits are used up, or the context
  // ends during one.
  function BirdPollRun(env: Env, s: WgManager.State, n: nat): Run
    decreases n
  {
    if n == 0 then Run(s, Response(false, ""))
    else
      var status := CommandRun(env, s, "birdc show status");
      if status.response.ok then status
      else
        var wait := CommandRun(env, status.s, "wait");
        if wait.response.ok then BirdPollRun(env, wait.s, n - 1) else Run(wait.s, Response(false, ""))
  }

  function BirdStartRun(env: Env, s: WgManager.State): Run {
    var status := CommandRun(env, s, "birdc show status");
    if status.response.ok then status
    else
      var launch := CommandRun(env, status.s, "bird");
      if launch.response.ok then BirdPollRun(env, launch.s, BIRD_POLLS) else launch
  }

  function OfWg(r: WgManager.Run): Run {
    Run(r.s, Response(r.result == WgManager.Ok, ""))
  }

  function OfRoutes(s: WgManager.State, r: Routes.Run): Run {
    Run(s.(w := r.w), Response(Routes.Succeeded(r), ""))
  }

  function DispatchRun(env: Env, site: Site, s: WgManager.State, action: Action): Run {
    match action
    case WgStatus => CommandRun(env, s, "wg show")
    case WgStart => OfWg(WgManager.StartRun(env, site.setup, s, site.start))
    case WgStop => OfWg(WgManager.StopRun(env, site.setup, s))
    case WgRestart => OfWg(WgManager.RestartRun(env, site.setup, s, site.start))
    case RoutesApply => OfRoutes(s, Routes.ApplyRun(env, s.w, site.apply))
    case PinClient(ip) => OfRoutes(s, Routes.PinClientRun(env, s.w, site.apply.app, ip))
    case BirdStart => BirdStartRun(env, s)
    case BirdStop => CommandRun(env, s, "birdc down")
    case BirdReload => CommandRun(env, s, "birdc configure")
  }

  // A call over the supervisor socket: the connection may fail before the action runs, and
  // the reply may be lost after it has.
  function CallRun(env: Env, site: Site, s: WgManager.State, action: Action): Run {
    var connect := CommandRun(env, s, "connect");
    if !connect.response.ok then Run(connect.s, Response(false, ""))
    else
      var done := DispatchRun(env, site, connect.s, action);
      var reply := CommandRun(env, done.s, "reply");
      Run(reply.s, if reply.response.ok then done.response else Response(false, ""))
  }

  // ------------------------------------------------------------- plans

  datatype PlanStep = PlanStep(action: Action, ok: bool)

  datatype Result = Result(ok: bool, steps: seq<PlanStep>)

  datatype PlanOutcome = PlanOutcome(s: WgManager.State, result: Result)

  function PlanRun(env: Env, site: Site, s: WgManager.State, actions: seq<Action>): PlanOutcome
    decreases |actions|
  {
    if actions == [] then PlanOutcome(s, Result(true, []))
    else
      var call := CallRun(env, site, s, actions[0]);
      var step := PlanStep(actions[0], call.response.ok);
      if !step.ok then PlanOutcome(call.s, Result(false, [step]))
      else
        var rest := PlanRun(env, site, call.s, actions[1..]);
        PlanOutcome(rest.s, Result(rest.result.ok, [step] + rest.result.steps))
  }

  const START_PLAN := [WgStart, RoutesApply, BirdStart, BirdReload]
  const STOP_PLAN := [BirdStop, WgStop]
  const RESTART_PLAN := [BirdStop, WgRestart, RoutesApply, BirdStart, BirdReload]
  const REAPPLY_PLAN := [WgRestart, RoutesApply, BirdStart, BirdReload]

  predicate WireGuardStatusUp(output: string) {
    Contains(output, "interface:")
  }

  function RoutingApplyRun(env: Env, site: Site, s: WgManager.State): PlanOutcome {
    var status := CallRun(env, site, s, WgStatus);
    if status.response.ok && WireGuardStatusUp(status.response.output) then PlanRun(env, site, status.s, REAPPLY_PLAN)
    else PlanRun(env, site, status.s, START_PLAN)
  }

  datatype Request = RequestApply | RequestStart | RequestStop | RequestRestart

  function RequestRun(env: Env, site: Site, s: WgManager.State, request: Request): PlanOutcome {
    match request
    case RequestApply => RoutingApplyRun(env, site, s)
    case RequestStart => PlanRun(env, site, s, START_PLAN)
    case RequestStop => PlanRun(env, site, s, STOP_PLAN)
    case RequestRestart => PlanRun(env, site, s, RESTART_PLAN)
  }

  // routingAction: with client pinning enabled, everything but a stop pins the dashboard
  // client first and does nothing more if that fails.
  function RoutingActionRun(
      env: Env, site: Site, s: WgManager.State, pinEnabled: bool, clientIP: string, request: Request): PlanOutcome {
    if !pinEnabled || request == RequestStop then RequestRun(env, site, s, request)
    else
      var pin := CallRun(env, site, s, PinClient(clientIP));
      if !pin.response.ok then PlanOutcome(pin.s, Result(false, [PlanStep(PinClient(clientIP), false)]))
      else RequestRun(env, site, pin.s, request)
  }

  // ------------------------------------------------------------- the code

  // The supervisor's managers behind its socket.
  class Supervisor {
    const machine: Machine
    const site: Site
    const wg: WgManager.WGProcessManager
    const routes: Routes.RouteApplyManager

    constructor (m: Machine, site0: Site)
      ensures machine == m && site == site0 && Valid() && fresh(wg) && fresh(routes)
      ensures wg.process == None
    {
      machine, site := m, site0;
      wg := new WgManager.WGProcessManager(m, site0.setup);
      routes := new Routes.RouteApplyManager(m);
    }

    predicate Valid() {
      wg.machine == machine && wg.setup == site.setup && routes.machine == machine
    }

    function State(): WgManager.State
      reads wg, machine
    {
      WgManager.State(machine.w, wg.process)
    }

    method RunCommand(what: string) returns (response: Response)
      requires Valid()
      modifies machine
      ensures Run(State(), response) == CommandRun(machine.env, old(State()), what)
    {
      var reply := machine.Run(Other(what));
      response := Response(reply.ok, reply.output);
    }

    method StartBird() returns (response: Response)
      requires Valid()
      modifies machine
      ensures Run(State(), response) == BirdStartRun(machine.env, old(State()))
    {
      hide CommandRun;
      response := RunCommand("birdc show status");
      if response.ok {
        return;
      }
      response := RunCommand("bird");
      if !response.ok {
        return;
      }
      ghost var polling := BirdPollRun(machine.env, State(), BIRD_POLLS);
      for i := 0 to BIRD_POLLS
        invariant BirdPollRun(machine.env, State(), BIRD_POLLS - i) == polling
        invariant wg.process == old(wg.process)
      {
        response := RunCommand("birdc show status");
        if response.ok {
          return;
        }
        var wait := RunCommand("wait");
        if !wait.ok {
          return Response(false, "");
        }
      }
      response := Response(false, "");
    }

    method Dispatch(action: Action) returns (response: Response)
      requires Valid()
      modifies machine, wg
      ensures Run(State(), response) == DispatchRun(machine.env, site, old(State()), action)
    {
      hide Exec, WgManager.StartRun, WgManager.StopRun, WgManager.RestartRun, Routes.ApplyRun, Routes.PinClientRun;
      hide BirdStartRun;
      match action {
        case WgStatus => response := RunCommand("wg show");
        case WgStart =>
          var r := wg.Start(site.start);
          response := Response(r == WgManager.Ok, "");
        case WgStop =>
          var r := wg.Stop();
          response := Response(r == WgManager.Ok, "");
        case WgRestart =>
          var r := wg.Restart(site.start);
          response := Response(r == WgManager.Ok, "");
        case RoutesApply =>
          var e := routes.Apply(site.apply);
          response := Response(e.None?, "");
        case PinClient(ip) =>
          var e := routes.PinClient(site.apply.app, ip);
          response := Response(e.None?, "");
        case BirdStart => response := StartBird();
        case BirdStop => response := RunCommand("birdc down");
        case BirdReload => response := RunCommand("birdc configure");
      }
    }

    method Call(action: Action) returns (response: Response)
      requires Valid()
      modifies machine, wg
      ensures Run(State(), response) == CallRun(machine.env, site, old(State()), action)
    {
      hide DispatchRun, CommandRun;
      var connect := RunCommand("connect");
      if !connect.ok {
        return Response(false, "");
      }
      var done := Dispatch(action);
      var reply := RunCommand("reply");
      response := if reply.ok then done else Response(false, "");
    }

    // Routing.run
    method RunPlan(actions: seq<Action>) returns (result: Result)
      requires Valid()
      modifies machine, wg
      ensures PlanOutcome(State(), result) == PlanRun(machine.env, site, old(State()), actions)
    {
      hide CallRun;
      var steps: seq<PlanStep> := [];
      ghost var all := PlanRun(machine.env, site, State(), actions);
      for i := 0 to |actions|
        invariant var rest := PlanRun(machine.env, site, State(), actions[i..]);
                  all == PlanOutcome(rest.s, Result(rest.result.ok, steps + rest.result.steps))
      {
        assert actions[i..][1..] == actions[i + 1..];
        var response := Call(actions[i]);
        var step := PlanStep(actions[i], response.ok);
        ghost var rest := PlanRun(machine.env, site, State(), actions[i + 1..]).result.steps;
        assert steps + ([step] + rest) == (steps + [step]) + rest;
        steps := steps + [step];
        if !step.ok {
          return Result(false, steps);
        }
      }
      assert actions[|actions|..] == [] && steps + [] == steps;
      result := Result(true, steps);
    }

    method RunRequest(request: Request) returns (result: Result)
      requires Valid()
      modifies machine, wg
      ensures PlanOutcome(State(), result) == RequestRun(machine.env, site, old(State()), request)
    {
      hide CallRun, PlanRun;
      match request {
        case RequestApply =>
          var status := Call(WgStatus);
          if status.ok && WireGuardStatusUp(status.output) {
            result := RunPlan(REAPPLY_PLAN);
          } else {
            result := RunPlan(START_PLAN);
          }
        case RequestStart => result := RunPlan(START_PLAN);
        case RequestStop => result := RunPlan(STOP_PLAN);
        case RequestRestart => result := RunPlan(RESTART_PLAN);
      }
    }

    method RoutingAction(pinEnabled: bool, clientIP: string, request: Request) returns (result: Result)
      requires Valid()
      modifies machine, wg
      ensures PlanOutcome(State(), result) ==
              RoutingActionRun(machine.env, site, old(State()), pinEnabled, clientIP, request)
    {
      hide CallRun, RequestRun;
      if pinEnabled && request != RequestStop {
        var pin := Call(PinClient(clientIP));
        if !pin.ok {
          return Result(false, [PlanStep(PinClient(clientIP), false)]);
        }
      }
      result := RunRequest(request);
    }
  }

  // ------------------------------------------------------------- what a plan reports

  // A result lists the actions in order up to the first that failed, and is OK exactly when
  // none did and all are there.
  predicate Reports(r: Result, actions: seq<Action>) {
    && |r.steps| <= |actions|
    && (forall i | 0 <= i < |r.steps| :: r.steps[i].action == actions[i])
    && (forall i | 0 <= i < |r.steps| - 1 :: r.steps[i].ok)
    && (r.ok <==> |r.steps| == |actions| && forall i | 0 <= i < |r.steps| :: r.steps[i].ok)
    && (!r.ok ==> r.steps != [] && !r.steps[|r.steps| - 1].ok)
  }

  lemma {:induction false} PlanReports(env: Env, site: Site, s: WgManager.State, actions: seq<Action>)
    ensures Reports(PlanRun(env, site, s, actions).result, actions)
    decreases |actions|
  {
    hide CallRun;
    if actions != [] {
      var call := CallRun(env, site, s, actions[0]);
      if call.response.ok {
        PlanReports(env, site, call.s, actions[1..]);
        var rest := PlanRun(env, site, call.s, actions[1..]).result;
        var r := PlanRun(env, site, s, actions).result;
        assert r.steps[1..] == rest.steps;
        assert forall i | 1 <= i < |r.steps| :: r.steps[i] == rest.steps[i - 1];
      }
    }
  }
}
