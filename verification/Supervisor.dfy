/** internal/supervisor/server.go: connection handlers that run concurrently and share one
    action lock around the dispatch of a request.

    A dispatch is any number of atomic steps on the shared managers; the scheduler may run
    the handlers' moves in any order. */
module Supervisor {
  import opened Options
  import Ipv4
  import WgManager
  import Orchestrator
  import Steps
  import Kernel
  import Routes
  import RouteLaws
  import RoutingLaws

  // How a request of type Q is carried out: a frame F of work left, stepped on the managers
  // M until it is done.
  datatype Dispatcher<!M, !F, !Q> = Dispatcher(begin: Q -> F, step: (M, F) -> (M, F), done: F -> bool)

  // What arrives on a connection.
  datatype Incoming<Q> = Unauthorized | Malformed | Wellformed(request: Q)

  datatype Handler<F, Q> =
    | Accepted(incoming: Incoming<Q>)
    | Waiting(request: Q)
    | Holding(request: Q, frame: F)
    | Closed

  // A dispatch that has run to its end, and in how many steps.
  datatype Served<Q> = Served(request: Q, steps: nat)

  // The server's state; `served` and `steps` record the order in which the lock was held.
  datatype System<M, F, Q> = System(
    managers: M,
    lock: Option<nat>,
    handlers: seq<Handler<F, Q>>,
    served: seq<Served<Q>>,
    steps: nat)

  datatype Event<Q> = Accept(incoming: Incoming<Q>) | Move(handler: nat)

  // One move of one handler. Waiting for a lock that is held changes nothing.
  function Step<M, F, Q>(d: Dispatcher<M, F, Q>, s: System<M, F, Q>, e: Event<Q>): System<M, F, Q> {
    match e
    case Accept(incoming) => s.(handlers := s.handlers + [Accepted(incoming)])
    case Move(i) =>
      if i >= |s.handlers| then s
      else
        match s.handlers[i]
        case Closed => s
        case Accepted(incoming) =>
          var next := if incoming.Wellformed? then Waiting(incoming.request) else Closed;
          s.(handlers := s.handlers[i := next])
        case Waiting(q) =>
          if s.lock.Some? then s
          else s.(lock := Some(i), handlers := s.handlers[i := Holding(q, d.begin(q))], steps := 0)
        case Holding(q, f) =>
          if d.done(f) then
            s.(lock := None, handlers := s.handlers[i := Closed], served := s.served + [Served(q, s.steps)])
          else
            var next := d.step(s.managers, f);
            s.(managers := next.0, handlers := s.handlers[i := Holding(q, next.1)], steps := s.steps + 1)
  }

  function Run<M, F, Q>(d: Dispatcher<M, F, Q>, s: System<M, F, Q>, events: seq<Event<Q>>): System<M, F, Q>
    decreases |events|
  {
    if events == [] then s else Run(d, Step(d, s, events[0]), events[1..])
  }

  function Start<M, F, Q>(managers: M): System<M, F, Q> {
    System(managers, None, [], [], 0)
  }

  // ------------------------------------------------------------- one dispatch at a time

  // n steps of a single dispatch, nothing else running.
  function Alone<M, F, Q>(d: Dispatcher<M, F, Q>, m: M, f: F, n: nat): (M, F) {
    if n == 0 then (m, f)
    else
      var before := Alone(d, m, f, n - 1);
      d.step(before.0, before.1)
  }

  // The requests carried out one after the other, each from beginning to end.
  function Serial<M, F, Q>(d: Dispatcher<M, F, Q>, m: M, served: seq<Served<Q>>): M
    decreases |served|
  {
    if served == [] then m
    else
      var last := served[|served| - 1];
      Alone(d, Serial(d, m, served[..|served| - 1]), d.begin(last.request), last.steps).0
  }

  // Every dispatch in the record did run to its end.
  predicate Complete<M, F, Q>(d: Dispatcher<M, F, Q>, m: M, served: seq<Served<Q>>)
    decreases |served|
  {
    served == [] ||
    var init, last := served[..|served| - 1], served[|served| - 1];
    Complete(d, m, init) && d.done(Alone(d, Serial(d, m, init), d.begin(last.request), last.steps).1)
  }

  // Only the holder of the lock is in a dispatch, and the managers are as if the requests
  // before it had been carried out one at a time and it were running alone.
  ghost predicate Serialized<M, F, Q>(d: Dispatcher<M, F, Q>, m: M, s: System<M, F, Q>) {
    && Complete(d, m, s.served)
    && (forall i | 0 <= i < |s.handlers| && s.handlers[i].Holding? :: s.lock == Some(i))
    && match s.lock
       case None => s.managers == Serial(d, m, s.served)
       case Some(i) =>
         && i < |s.handlers| && s.handlers[i].Holding?
         && (s.managers, s.handlers[i].frame) ==
            Alone(d, Serial(d, m, s.served), d.begin(s.handlers[i].request), s.steps)
  }

  // A handler whose move leaves the lock and the managers alone.
  lemma QuietMove<M, F, Q>(d: Dispatcher<M, F, Q>, m: M, s: System<M, F, Q>, s': System<M, F, Q>)
    requires Serialized(d, m, s) && s' == s.(handlers := s'.handlers) && |s'.handlers| >= |s.handlers|
    requires forall k | 0 <= k < |s'.handlers| ::
               (s'.handlers[k].Holding? || (k < |s.handlers| && s.handlers[k].Holding?)) ==>
                 k < |s.handlers| && s'.handlers[k] == s.handlers[k]
    ensures Serialized(d, m, s')
  {
    hide Alone, Serial, Complete;
  }

  lemma TakesLock<M, F, Q>(d: Dispatcher<M, F, Q>, m: M, s: System<M, F, Q>, i: nat)
    requires Serialized(d, m, s) && i < |s.handlers| && s.handlers[i].Waiting?
    ensures Serialized(d, m, Step(d, s, Move(i)))
  {
    hide Serial, Complete;
  }

  lemma CarriesOn<M, F, Q>(d: Dispatcher<M, F, Q>, m: M, s: System<M, F, Q>, i: nat)
    requires Serialized(d, m, s) && i < |s.handlers| && s.handlers[i].Holding? && !d.done(s.handlers[i].frame)
    ensures Serialized(d, m, Step(d, s, Move(i)))
  {
    hide Serial, Complete;
    var h := s.handlers[i];
    AloneStep(d, Serial(d, m, s.served), d.begin(h.request), s.steps);
    hide Alone;
    assert s.lock == Some(i);
    assert d.step(s.managers, h.frame) == Alone(d, Serial(d, m, s.served), d.begin(h.request), s.steps + 1);
  }

  lemma AloneStep<M, F, Q>(d: Dispatcher<M, F, Q>, m: M, f: F, n: nat)
    ensures Alone(d, m, f, n + 1) == d.step(Alone(d, m, f, n).0, Alone(d, m, f, n).1)
  {
  }

  lemma ServedSnoc<M, F, Q>(d: Dispatcher<M, F, Q>, m: M, served: seq<Served<Q>>, last: Served<Q>)
    ensures Serial(d, m, served + [last]) == Alone(d, Serial(d, m, served), d.begin(last.request), last.steps).0
    ensures Complete(d, m, served + [last]) <==>
            Complete(d, m, served) && d.done(Alone(d, Serial(d, m, served), d.begin(last.request), last.steps).1)
  {
    hide Alone;
    assert (served + [last])[..|served|] == served;
  }

  lemma Finishes<M, F, Q>(d: Dispatcher<M, F, Q>, m: M, s: System<M, F, Q>, i: nat)
    requires Serialized(d, m, s) && i < |s.handlers| && s.handlers[i].Holding? && d.done(s.handlers[i].frame)
    ensures Serialized(d, m, Step(d, s, Move(i)))
  {
    hide Alone, Serial, Complete;
    ServedSnoc(d, m, s.served, Served(s.handlers[i].request, s.steps));
  }

  lemma StepKeepsSerialized<M, F, Q>(d: Dispatcher<M, F, Q>, m: M, s: System<M, F, Q>, e: Event<Q>)
    requires Serialized(d, m, s)
    ensures Serialized(d, m, Step(d, s, e))
  {
    hide Alone, Serial, Complete, Serialized;
    if e.Accept? {
      QuietMove(d, m, s, Step(d, s, e));
    } else if e.handler < |s.handlers| {
      var h := s.handlers[e.handler];
      match h {
        case Closed =>
        case Accepted(_) => QuietMove(d, m, s, Step(d, s, e));
        case Waiting(_) => TakesLock(d, m, s, e.handler);
        case Holding(_, frame) =>
          if d.done(frame) {
            Finishes(d, m, s, e.handler);
          } else {
            CarriesOn(d, m, s, e.handler);
          }
      }
    }
  }

  // Whatever the interleaving of the handlers, their effect on the managers is that of
  // dispatching the requests one at a time in lock order.
  lemma {:induction false} HandlersSerialize<M, F, Q>(
      d: Dispatcher<M, F, Q>, m: M, s: System<M, F, Q>, events: seq<Event<Q>>)
    requires Serialized(d, m, s)
    ensures Serialized(d, m, Run(d, s, events))
    decreases |events|
  {
    hide Serialized, Step;
    if events != [] {
      StepKeepsSerialized(d, m, s, events[0]);
      HandlersSerialize(d, m, Step(d, s, events[0]), events[1..]);
    }
  }

  // The lock never blocks everybody: while a connection is open, some handler can move.
  lemma SomebodyCanMove<M, F, Q>(d: Dispatcher<M, F, Q>, m: M, s: System<M, F, Q>, i: nat)
    requires Serialized(d, m, s) && i < |s.handlers| && !s.handlers[i].Closed?
    ensures exists k: nat :: k < |s.handlers| && CanMove(s, k)
  {
    if s.lock.Some? {
      assert CanMove(s, s.lock.value);
    } else {
      assert CanMove(s, i);
    }
  }

  predicate CanMove<M, F, Q>(s: System<M, F, Q>, k: nat)
    requires k < |s.handlers|
  {
    s.handlers[k].Accepted? || s.handlers[k].Holding? || (s.handlers[k].Waiting? && s.lock.None?)
  }

  // ------------------------------------------------------------- the supervisor's actions

  // The actions one command, or one access to the tunnel manager's process field, at a time.
  // Nothing but the action lock keeps the steps of two actions apart.
  function Actions(
      env: Kernel.Env, site: Orchestrator.Site): Dispatcher<WgManager.State, Steps.Prog, Orchestrator.Action> {
    Dispatcher(
      (action: Orchestrator.Action) => Steps.DispatchProg(env, site, action),
      (s: WgManager.State, p: Steps.Prog) => Steps.StepProg(env, s, p),
      (p: Steps.Prog) => p.Ret?)
  }

  function DispatchAll(env: Kernel.Env, site: Orchestrator.Site, s: WgManager.State,
      served: seq<Served<Orchestrator.Action>>): WgManager.State
    decreases |served|
  {
    if served == [] then s
    else Orchestrator.DispatchRun(env, site, DispatchAll(env, site, s, served[..|served| - 1]),
        served[|served| - 1].request).s
  }

  lemma {:induction false} AloneIsGo(
      env: Kernel.Env, site: Orchestrator.Site, s: WgManager.State, p: Steps.Prog, n: nat)
    ensures Alone(Actions(env, site), s, p, n) == Steps.Go(env, s, p, n)
  {
    hide Steps.StepProg, Steps.DispatchProg;
    if n > 0 {
      AloneIsGo(env, site, s, p, n - 1);
      Steps.GoAdd(env, s, p, n - 1, 1);
      OneGo(env, Steps.Go(env, s, p, n - 1).0, Steps.Go(env, s, p, n - 1).1);
    }
  }

  lemma OneGo(env: Kernel.Env, s: WgManager.State, p: Steps.Prog)
    ensures Steps.Go(env, s, p, 1) == Steps.StepProg(env, s, p)
  {
    hide Steps.StepProg;
    var next := Steps.StepProg(env, s, p);
    assert Steps.Go(env, next.0, next.1, 0) == next;
  }

  // A dispatch that has run to its end undisturbed has done what the action is specified to
  // do, and has its response.
  lemma AloneIsDispatch(
      env: Kernel.Env, site: Orchestrator.Site, s: WgManager.State, action: Orchestrator.Action, n: nat)
    requires Alone(Actions(env, site), s, Steps.DispatchProg(env, site, action), n).1.Ret?
    ensures var r := Orchestrator.DispatchRun(env, site, s, action);
            Alone(Actions(env, site), s, Steps.DispatchProg(env, site, action), n) == (r.s, Steps.Ret(r.response))
  {
    hide Orchestrator.DispatchRun, Steps.DispatchProg, Steps.Reaches, Steps.Go, Alone, Actions;
    var r := Orchestrator.DispatchRun(env, site, s, action);
    AloneIsGo(env, site, s, Steps.DispatchProg(env, site, action), n);
    Steps.DispatchGoes(env, site, s, action);
    Steps.EndIsUnique(env, s, Steps.DispatchProg(env, site, action), r.s, r.response, n);
  }

  lemma {:induction false} SerialIsDispatchAll(
      env: Kernel.Env, site: Orchestrator.Site, s: WgManager.State, served: seq<Served<Orchestrator.Action>>)
    requires Complete(Actions(env, site), s, served)
    ensures Serial(Actions(env, site), s, served) == DispatchAll(env, site, s, served)
    decreases |served|
  {
    hide Orchestrator.DispatchRun, Steps.DispatchProg, Steps.StepProg, Alone;
    if served != [] {
      var init, last := served[..|served| - 1], served[|served| - 1];
      SerialIsDispatchAll(env, site, s, init);
      AloneIsDispatch(env, site, Serial(Actions(env, site), s, init), last.request, last.steps);
    }
  }

  // Every run of the server, seen whenever no request is in progress: although the handlers
  // may be interrupted after every single command, the managers, the kernel and the log of
  // commands are exactly those of dispatching the served actions one at a time in lock order.
  lemma ServerRunsActionsInLockOrder(
      env: Kernel.Env, site: Orchestrator.Site, s: WgManager.State, events: seq<Event<Orchestrator.Action>>)
    requires Run(Actions(env, site), Start(s), events).lock.None?
    ensures var end := Run(Actions(env, site), Start(s), events);
            end.managers == DispatchAll(env, site, s, end.served)
  {
    hide Run, Step, Orchestrator.DispatchRun, Actions;
    var d := Actions(env, site);
    StartSerialized(d, s);
    HandlersSerialize(d, s, Start(s), events);
    SerialIsDispatchAll(env, site, s, Run(d, Start(s), events).served);
  }

  lemma StartSerialized<M, F, Q>(d: Dispatcher<M, F, Q>, m: M)
    ensures Serialized(d, m, Start(m))
  {
  }

  lemma {:induction false} CompletePrefix<M, F, Q>(d: Dispatcher<M, F, Q>, m: M, served: seq<Served<Q>>, n: nat)
    requires Complete(d, m, served) && n <= |served|
    ensures Complete(d, m, served[..n])
    decreases |served|
  {
    hide Alone, Serial;
    if n == |served| {
      assert served[..n] == served;
    } else {
      assert served[..|served| - 1][..n] == served[..n];
      CompletePrefix(d, m, served[..|served| - 1], n);
    }
  }

  // And every request served has been answered as if it had been dispatched in its turn.
  lemma ServerAnswersInLockOrder(
      env: Kernel.Env, site: Orchestrator.Site, s: WgManager.State, events: seq<Event<Orchestrator.Action>>, n: nat)
    requires n < |Run(Actions(env, site), Start(s), events).served|
    ensures var d, served := Actions(env, site), Run(Actions(env, site), Start(s), events).served;
            Alone(d, Serial(d, s, served[..n]), d.begin(served[n].request), served[n].steps).1 ==
            Steps.Ret(Orchestrator.DispatchRun(env, site, DispatchAll(env, site, s, served[..n]),
                served[n].request).response)
  {
    hide Run, Step, Orchestrator.DispatchRun, Alone, Serial, Steps.DispatchProg, Steps.StepProg;
    var d := Actions(env, site);
    StartSerialized(d, s);
    HandlersSerialize(d, s, Start(s), events);
    var served := Run(d, Start(s), events).served;
    CompletePrefix(d, s, served, n + 1);
    assert served[..n + 1] == served[..n] + [served[n]];
    ServedSnoc(d, s, served[..n], served[n]);
    SerialIsDispatchAll(env, site, s, served[..n]);
    AloneIsDispatch(env, site, Serial(d, s, served[..n]), served[n].request, served[n].steps);
  }

  // ------------------------------------------------------------- the process handle, again

  lemma {:induction false} ReplayKeepsProcesses(env: Kernel.Env, w: Kernel.World, cmds: seq<Kernel.Command>)
    requires forall i | 0 <= i < |cmds| :: !WgManager.IsProcessCommand(cmds[i])
    ensures Kernel.Replay(env, w, cmds).unkilled == w.unkilled && Kernel.Replay(env, w, cmds).launched == w.launched
    decreases |cmds|
  {
    hide Kernel.Exec;
    if cmds != [] {
      WgManager.OtherCommandsKeepProcesses(env, w, cmds[0]);
      ReplayKeepsProcesses(env, Kernel.Exec(env, w, cmds[0]).w, cmds[1..]);
    }
  }

  lemma ApplyKeepsProcesses(env: Kernel.Env, w: Kernel.World, inputs: Routes.Inputs)
    ensures Routes.ApplyRun(env, w, inputs).w.unkilled == w.unkilled
    ensures Routes.ApplyRun(env, w, inputs).w.launched == w.launched
  {
    hide Routes.PlanFor, Routes.PlanRun;
    if Routes.PlanFor(env, inputs).Ready? {
      var plan := Routes.PlanFor(env, inputs).plan;
      var pinning, advertising := RouteLaws.Phases(env, w, plan);
      ReplayKeepsProcesses(env, w, pinning + advertising);
    }
  }

  lemma PinKeepsProcesses(env: Kernel.Env, w: Kernel.World, u: Routes.Underlay, a: Ipv4.Addr)
    ensures Routes.HostRouteRun(env, w, u, a).w.unkilled == w.unkilled
    ensures Routes.HostRouteRun(env, w, u, a).w.launched == w.launched
  {
    var plan := Routes.Plan(u, [a], [], "", []);
    assert a in RouteLaws.PinsOf(env.v6, plan);
    var cmds := RouteLaws.HostRouteCommands(env, w, plan, a);
    ReplayKeepsProcesses(env, w, cmds);
  }

  lemma DispatchKeepsHandle(env: Kernel.Env, site: Orchestrator.Site, s: WgManager.State, action: Orchestrator.Action)
    requires WgManager.HandleExact(s)
    ensures WgManager.HandleExact(Orchestrator.DispatchRun(env, site, s, action).s)
  {
    hide WgManager.StartRun, WgManager.StopRun, WgManager.RestartRun, Routes.ApplyRun, Routes.HostRouteRun,
      Orchestrator.BirdStartRun, Orchestrator.CommandRun, Ipv4.ParseAddr;
    match action {
      case WgStart => WgManager.OpHandle(env, site.setup, s, WgManager.DoStart(site.start));
      case WgStop => WgManager.OpHandle(env, site.setup, s, WgManager.DoStop);
      case WgRestart => WgManager.OpHandle(env, site.setup, s, WgManager.DoRestart(site.start));
      case RoutesApply => ApplyKeepsProcesses(env, s.w, site.apply);
      case PinClient(ip) =>
        if Ipv4.ParseAddr(env.v6, ip).Some? && Ipv4.ParseAddr(env.v6, ip).value.V4? && site.apply.app.Some? {
          PinKeepsProcesses(env, s.w, Routes.UnderlayOf(site.apply.app.value), Ipv4.ParseAddr(env.v6, ip).value.addr);
        }
      case BirdStart => RoutingLaws.BirdStartIsQuiet(env, s);
      case WgStatus => RoutingLaws.QuietCommand(env, s, "wg show");
      case BirdStop => RoutingLaws.QuietCommand(env, s, "birdc down");
      case BirdReload => RoutingLaws.QuietCommand(env, s, "birdc configure");
    }
  }

  lemma {:induction false} DispatchAllKeepsHandle(
      env: Kernel.Env, site: Orchestrator.Site, s: WgManager.State, served: seq<Served<Orchestrator.Action>>)
    requires WgManager.HandleExact(s)
    ensures WgManager.HandleExact(DispatchAll(env, site, s, served))
    decreases |served|
  {
    hide Orchestrator.DispatchRun, WgManager.HandleExact;
    if served != [] {
      DispatchAllKeepsHandle(env, site, s, served[..|served| - 1]);
      DispatchKeepsHandle(env, site, DispatchAll(env, site, s, served[..|served| - 1]), served[|served| - 1].request);
    }
  }

  // Over every run of the server and every pattern of failures, the manager holds exactly
  // the one launched process, if any, that no kill has been attempted on.
  lemma ServerKeepsHandle(
      env: Kernel.Env, site: Orchestrator.Site, s: WgManager.State, events: seq<Event<Orchestrator.Action>>)
    requires WgManager.HandleExact(s) && Run(Actions(env, site), Start(s), events).lock.None?
    ensures WgManager.HandleExact(Run(Actions(env, site), Start(s), events).managers)
  {
    hide Run, WgManager.HandleExact, DispatchAll, Actions;
    ServerRunsActionsInLockOrder(env, site, s, events);
    DispatchAllKeepsHandle(env, site, s, Run(Actions(env, site), Start(s), events).served);
  }
}
