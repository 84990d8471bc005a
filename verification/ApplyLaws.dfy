/** What one run of Apply does, told from the files it reads: app.yaml and wg0.conf. */
module ApplyLaws {
  import opened Options
  import opened Text
  import Ipv4
  import AppConfig
  import Bird
  import WgConfig
  import WgMeta
  import Endpoints
  import Completion
  import opened Kernel
  import opened Routes
  import opened RouteLaws

  // ------------------------------------------------------------- what the files ask for

  // The interface host routes go through, and the tunnel.
  function OutOf(app: AppConfig.App): string {
    if app.wireGuard.endpointRouteInterface == "" then "eth0" else app.wireGuard.endpointRouteInterface
  }

  function Into(app: AppConfig.App): string {
    if app.bird.iface == "" then "wg0" else app.bird.iface
  }

  // The gateway of the host routes: the configured one, or the default route's.
  function GatewayFor(app: AppConfig.App, t: Table): Option<Ipv4.Addr> {
    var via := TrimSpace(app.wireGuard.endpointRouteVia);
    if via != "" then Ipv4.ParseQuad(via) else Gateway(t, OutOf(app))
  }

  function LastEndpoint(text: string): string {
    WgMeta.LastValue(WgConfig.Events(text), "peer.endpoint", "")
  }

  predicate IsClient(v6: Ipv4.V6Syntax, app: AppConfig.App, a: Ipv4.Addr) {
    exists i | 0 <= i < |app.runtime.pinnedClientRoutes| ::
      AppConfig.RouteAddr(v6, app.runtime.pinnedClientRoutes[i]) == Some(a)
  }

  // An address of the last peer's endpoint, or of a pinned client route.
  predicate IsPin(env: Env, inputs: Inputs, a: Ipv4.Addr)
    requires inputs.app.Some? && inputs.wgText.Some?
  {
    StandsFor(env, inputs, LastEndpoint(inputs.wgText.value), a) || IsClient(env.v6, inputs.app.value, a)
  }

  predicate Advertises(v6: Ipv4.V6Syntax, app: AppConfig.App, p: Ipv4.Prefix) {
    exists route | route in app.bird.advertisedRoutes :: Ipv4.ParsePrefix(v6, route) == Some(Ipv4.Net4(p))
  }

  // ------------------------------------------------------------- the plan is the files'

  lemma PlanIs(env: Env, inputs: Inputs)
    requires PlanFor(env, inputs).Ready?
    ensures inputs.app.Some? && inputs.wgText.Some?
    ensures var app, plan := inputs.app.value, PlanFor(env, inputs).plan;
            && plan.u == Underlay(OutOf(app), TrimSpace(app.wireGuard.endpointRouteVia))
            && plan.clients == app.runtime.pinnedClientRoutes
            && plan.tunnel == Into(app) && plan.advertised == app.bird.advertisedRoutes
            && AppConfig.Managed(env.v6, inputs.cwd, app)
  {
    hide AppConfig.ManagedError, Bird.Generate, WgConfig.Validate, EndpointAddrs, TrimSpace;
  }

  lemma {:induction false} PinnableClients(env: Env, w: World, u: Underlay, routes: seq<string>)
    requires Succeeded(ClientsRun(env, w, u, routes))
    ensures forall i | 0 <= i < |routes| :: PinnedAddr(env.v6, routes[i]).Some?
    decreases |routes|
  {
    hide PinnedAddr, HostRouteRun;
    if routes != [] {
      PinnableClients(env, HostRouteRun(env, w, u, PinnedAddr(env.v6, routes[0]).value).w, u, routes[1..]);
      assert forall i | 1 <= i < |routes| :: routes[i] == routes[1..][i - 1];
    }
  }

  lemma {:induction false} ClientAddrsAre(v6: Ipv4.V6Syntax, routes: seq<string>, a: Ipv4.Addr)
    ensures a in ClientAddrs(v6, routes) <==> exists i | 0 <= i < |routes| :: PinnedAddr(v6, routes[i]) == Some(a)
  {
    hide PinnedAddr;
    if routes != [] {
      ClientAddrsAre(v6, routes[1..], a);
      assert forall i | 1 <= i < |routes| :: routes[i] == routes[1..][i - 1];
    }
  }

  // The pins of a plan whose pinning loops have come to their end are exactly the addresses
  // the files name.
  lemma PinsAre(env: Env, w: World, inputs: Inputs, a: Ipv4.Addr)
    requires PlanFor(env, inputs).Ready?
    requires Succeeded(ClientsRun(env, w, PlanFor(env, inputs).plan.u, PlanFor(env, inputs).plan.clients))
    ensures inputs.app.Some? && inputs.wgText.Some?
    ensures a in PinsOf(env.v6, PlanFor(env, inputs).plan) <==> IsPin(env, inputs, a)
    ensures forall i | 0 <= i < |inputs.app.value.runtime.pinnedClientRoutes| ::
              AppConfig.RouteAddr(env.v6, inputs.app.value.runtime.pinnedClientRoutes[i]).Some?
  {
    hide PlanFor, EndpointAddrs, StandsFor, PinnedAddr, AppConfig.RouteAddr, AppConfig.Managed, ClientsRun;
    hide WgConfig.Events, WgMeta.LastValue, ClientAddrs, AppConfig.ManagedError;
    PlanIs(env, inputs);
    var app, plan := inputs.app.value, PlanFor(env, inputs).plan;
    var endpoint := LastEndpoint(inputs.wgText.value);
    Endpoints.PinnedEndpoints(env, inputs);
    EndpointAddrsMeaning(env, inputs, endpoint);
    ManagedClients(env.v6, inputs.cwd, app);
    PinnableClients(env, w, plan.u, plan.clients);
    forall i | 0 <= i < |plan.clients|
      ensures PinnedAddr(env.v6, plan.clients[i]) == AppConfig.RouteAddr(env.v6, plan.clients[i])
    {
      AcceptedRouteParsesExactly(env.v6, plan.clients[i]);
    }
    ClientAddrsAre(env.v6, plan.clients, a);
  }

  lemma ManagedClients(v6: Ipv4.V6Syntax, cwd: string, app: AppConfig.App)
    requires AppConfig.Managed(v6, cwd, app)
    ensures forall i | 0 <= i < |app.runtime.pinnedClientRoutes| ::
              AppConfig.RouteAddr(v6, app.runtime.pinnedClientRoutes[i]).Some?
  {
    hide AppConfig.Managed, AppConfig.RouteAddr;
    AppConfig.ManagedMeaning(v6, cwd, app);
  }

  // ------------------------------------------------------------- the table after a run

  // One entry of the table: an advertised prefix goes into the tunnel; the /32 of a pin that
  // is not itself advertised goes out through one gateway; everything else is as it was.
  predicate IsEntry(env: Env, inputs: Inputs, t: Table, end: Table, p: Ipv4.Prefix)
    requires inputs.app.Some? && inputs.wgText.Some?
  {
    var app := inputs.app.value;
    if Advertises(env.v6, app, p) then p in end && end[p] == Hop(None, Into(app))
    else if p.bits == 32 && IsPin(env, inputs, p.addr) then
      p in end && end[p] == Hop(GatewayFor(app, t), OutOf(app))
    else if p in t then p in end && end[p] == t[p]
    else p !in end
  }

  // The whole table a successful run leaves, from the files and the table before.
  lemma TableExactly(env: Env, w: World, inputs: Inputs, p: Ipv4.Prefix)
    requires Succeeded(ApplyRun(env, w, inputs))
    ensures inputs.app.Some? && inputs.wgText.Some?
    ensures IsEntry(env, inputs, w.routes, ApplyRun(env, w, inputs).w.routes, p)
  {
    hide PlanFor, EndpointsRun, ClientsRun, AdvertiseRun, PinsOf, AdvertisedKeys, Overlay, IsPin, TrimSpace;
    var plan := PlanFor(env, inputs).plan;
    PlanIs(env, inputs);
    PlanEffect(env, w, plan);
    PinsAre(env, EndpointsRun(env, w, plan.u, plan.endpoints).w, inputs, p.addr);
    var pins, hop := Hosts(PinsOf(env.v6, plan)), Hop(PinVia(w.routes, plan.u), plan.u.iface);
    OverlayMeaning(w.routes, pins, hop);
    OverlayMeaning(Overlay(w.routes, pins, hop), AdvertisedKeys(env.v6, plan.advertised), Hop(None, plan.tunnel));
    HostsHas(PinsOf(env.v6, plan), p.addr);
    AdvertisedKeysHas(env.v6, plan.advertised, p);
    if p in pins {
      var i :| 0 <= i < |pins| && pins[i] == p;
      assert p == Ipv4.Host(p.addr);
    }
  }

  // Every pinned client route denotes an address, and so does the endpoint; each such address
  // leaves through the configured interface exactly if its /32 is not advertised or that
  // interface is the tunnel, and it enters the tunnel exactly otherwise or in that last case.
  lemma PinsKeptExactly(env: Env, w: World, inputs: Inputs, a: Ipv4.Addr)
    requires Succeeded(ApplyRun(env, w, inputs))
    ensures inputs.app.Some? && inputs.wgText.Some?
    ensures forall i | 0 <= i < |inputs.app.value.runtime.pinnedClientRoutes| ::
              AppConfig.RouteAddr(env.v6, inputs.app.value.runtime.pinnedClientRoutes[i]).Some?
    ensures exists e :: StandsFor(env, inputs, LastEndpoint(inputs.wgText.value), e)
    ensures var app, end := inputs.app.value, ApplyRun(env, w, inputs).w.routes;
            var advertised := Advertises(env.v6, app, Ipv4.Prefix(a, 32));
            IsPin(env, inputs, a) ==>
              && (LeavesThrough(end, a, OutOf(app)) <==> !advertised || OutOf(app) == Into(app))
              && (LeavesThrough(end, a, Into(app)) <==> advertised || OutOf(app) == Into(app))
  {
    hide PlanFor, EndpointsRun, ClientsRun, AdvertiseRun, IsPin, Advertises, StandsFor, TrimSpace, Lookup;
    hide WgConfig.Events, WgMeta.LastValue, EndpointAddrs, AppConfig.RouteAddr;
    var plan := PlanFor(env, inputs).plan;
    PlanIs(env, inputs);
    PinsAre(env, EndpointsRun(env, w, plan.u, plan.endpoints).w, inputs, a);
    Endpoints.PinnedEndpoints(env, inputs);
    EndpointAddrsMeaning(env, inputs, LastEndpoint(inputs.wgText.value));
    TableExactly(env, w, inputs, Ipv4.Prefix(a, 32));
    if IsPin(env, inputs, a) {
      assert Ipv4.Host(a) == Ipv4.Prefix(a, 32);
      HostRouteWins(ApplyRun(env, w, inputs).w.routes, a);
    }
  }

  // ------------------------------------------------------------- at every step of a run

  lemma PinsAreNamed(env: Env, inputs: Inputs, a: Ipv4.Addr)
    requires PlanFor(env, inputs).Ready? && a in PinsOf(env.v6, PlanFor(env, inputs).plan)
    ensures inputs.app.Some? && inputs.wgText.Some? && IsPin(env, inputs, a)
  {
    hide PlanFor, EndpointAddrs, StandsFor, PinnedAddr, AppConfig.RouteAddr, AppConfig.Managed;
    hide WgConfig.Events, WgMeta.LastValue, ClientAddrs, AppConfig.ManagedError;
    PlanIs(env, inputs);
    var app, plan := inputs.app.value, PlanFor(env, inputs).plan;
    Endpoints.PinnedEndpoints(env, inputs);
    EndpointAddrsMeaning(env, inputs, LastEndpoint(inputs.wgText.value));
    ManagedClients(env.v6, inputs.cwd, app);
    ClientAddrsAre(env.v6, plan.clients, a);
    if a in ClientAddrs(env.v6, plan.clients) {
      var i :| 0 <= i < |plan.clients| && PinnedAddr(env.v6, plan.clients[i]) == Some(a);
      AcceptedRouteParsesExactly(env.v6, plan.clients[i]);
    }
  }

  // A route into the tunnel that is no pin.
  ghost predicate IsAdvertising(env: Env, inputs: Inputs, cmd: Command)
    requires inputs.app.Some? && inputs.wgText.Some?
  {
    var app := inputs.app.value;
    && cmd.RouteReplace? && cmd.dev == Into(app)
    && (OutOf(app) == Into(app) ==> forall b | IsPin(env, inputs, b) :: cmd.dest != AppConfig.HostRoute(b))
  }

  lemma PinningIsNotAdvertising(env: Env, inputs: Inputs, cmd: Command)
    requires PlanFor(env, inputs).Ready? && PinCommand(env.v6, cmd, PlanFor(env, inputs).plan)
    ensures inputs.app.Some? && inputs.wgText.Some? && !IsAdvertising(env, inputs, cmd)
  {
    hide PlanFor, PinsOf, IsPin, AppConfig.HostRoute, TrimSpace, AppConfig.Managed;
    PlanIs(env, inputs);
    var plan := PlanFor(env, inputs).plan;
    if cmd.RouteReplace? {
      var b :| b in PinsOf(env.v6, plan) && cmd.dest == AppConfig.HostRoute(b);
      PinsAreNamed(env, inputs, b);
    }
  }

  // Nothing is advertised before the pinning loops are over.
  lemma AdvertisingIsLate(env: Env, w: World, inputs: Inputs, j: nat)
    requires PlanFor(env, inputs).Ready? && inputs.app.Some? && inputs.wgText.Some?
    requires |w.log| <= j < |ApplyRun(env, w, inputs).w.log|
    requires IsAdvertising(env, inputs, ApplyRun(env, w, inputs).w.log[j].cmd)
    ensures j >= PinnedFrom(env, w, PlanFor(env, inputs).plan)
  {
    hide PlanFor, PlanRun, PinCommand, AdvertiseCommand, PinnedFrom, IsAdvertising, PinsOf;
    var plan := PlanFor(env, inputs).plan;
    var pinning, advertising := Phases(env, w, plan);
    ReplayLog(env, w, pinning);
    ReplayLog(env, w, pinning + advertising);
    if j < |w.log| + |pinning| {
      assert PlanRun(env, w, plan).w.log[|w.log| + (j - |w.log|)].cmd == (pinning + advertising)[j - |w.log|];
      PinningIsNotAdvertising(env, inputs, pinning[j - |w.log|]);
    }
  }

  lemma PinnedFirst(env: Env, w: World, plan: Plan)
    requires |PlanRun(env, w, plan).w.log| > PinnedFrom(env, w, plan)
    ensures Succeeded(EndpointsRun(env, w, plan.u, plan.endpoints))
    ensures Succeeded(ClientsRun(env, EndpointsRun(env, w, plan.u, plan.endpoints).w, plan.u, plan.clients))
  {
    hide EndpointsRun, ClientsRun, AdvertiseRun;
  }

  // Whether the run succeeds or stops at a failed command: at every table from the first
  // advertised prefix on, an address of the endpoint or of a pinned client route whose /32 is
  // not advertised leaves through the configured interface, and so enters the tunnel exactly
  // if that interface is the tunnel.
  lemma PinsKeptThroughout(env: Env, w: World, inputs: Inputs, j: nat, i: nat, a: Ipv4.Addr)
    requires inputs.app.Some? && inputs.wgText.Some? && |w.log| <= j <= i < |ApplyRun(env, w, inputs).w.log|
    requires IsAdvertising(env, inputs, ApplyRun(env, w, inputs).w.log[j].cmd)
    requires IsPin(env, inputs, a) && !Advertises(env.v6, inputs.app.value, Ipv4.Prefix(a, 32))
    ensures var app, after := inputs.app.value, ApplyRun(env, w, inputs).w.log[i].after;
            && LeavesThrough(after, a, OutOf(app))
            && (LeavesThrough(after, a, Into(app)) <==> OutOf(app) == Into(app))
  {
    hide PlanFor, PlanRun, PinnedFrom, IsPin, IsAdvertising, PinsOf, AdvertisedKeys, LeavesThrough, TrimSpace;
    hide AppConfig.Managed, EndpointsRun, ClientsRun, AdvertiseCommand;
    if PlanFor(env, inputs).Ready? {
      var plan := PlanFor(env, inputs).plan;
      PlanIs(env, inputs);
      AdvertisingIsLate(env, w, inputs, j);
      PinnedFirst(env, w, plan);
      PinsAre(env, EndpointsRun(env, w, plan.u, plan.endpoints).w, inputs, a);
      AdvertisedKeysHas(env.v6, plan.advertised, Ipv4.Host(a));
      NoTunnelLoop(env, w, plan, i, a);
    }
  }

  // ------------------------------------------------------------- when a run succeeds

  // What Apply asks of the files before it runs anything.
  ghost predicate FilesAccepted(env: Env, inputs: Inputs) {
    && inputs.app.Some? && inputs.wgText.Some?
    && AppConfig.Managed(env.v6, inputs.cwd, inputs.app.value)
    && Bird.Generate(env.v6, inputs.app.value.bird).Ok?
    && WgConfig.Validate(inputs.lib, inputs.wgText.value).error.None?
    && exists a :: StandsFor(env, inputs, LastEndpoint(inputs.wgText.value), a)
  }

  lemma ReadyExactly(env: Env, inputs: Inputs)
    ensures PlanFor(env, inputs).Ready? <==> FilesAccepted(env, inputs)
    ensures PlanFor(env, inputs).Ready? ==> PlanFor(env, inputs).plan.endpoints != []
  {
    hide AppConfig.ManagedError, Bird.Generate, EndpointAddrs, StandsFor, TrimSpace, WgConfig.FirstError;
    hide WgConfig.Meta, WgConfig.Events, WgMeta.LastValue, WgMeta.LastMeta;
    if inputs.wgText.Some? {
      var text := inputs.wgText.value;
      WgMeta.LastSettingWins(text);
      Endpoints.LastEndpoint(WgConfig.Events(text));
      EndpointAddrsMeaning(env, inputs, LastEndpoint(text));
      AddrsThenSome(env, inputs, LastEndpoint(text));
    }
  }

  lemma AddrsThenSome(env: Env, inputs: Inputs, endpoint: string)
    ensures EndpointAddrs(env, inputs, endpoint).Addrs? ==> EndpointAddrs(env, inputs, endpoint).addrs != []
  {
    hide Ipv4.ParseAddr, DistinctV4;
  }

  // The routes can be set: both interfaces are there, a configured gateway is an address, no
  // pinned route has white space around it or lacks its length, and no advertised route has
  // host bits.
  ghost predicate RoutesCanBeSet(v6: Ipv4.V6Syntax, links: set<string>, app: AppConfig.App) {
    var via := TrimSpace(app.wireGuard.endpointRouteVia);
    && OutOf(app) in links && Into(app) in links
    && (via != "" ==> exists gateway :: via == Ipv4.PrintAddr(gateway))
    && (forall i | 0 <= i < |app.runtime.pinnedClientRoutes| ::
          var route := app.runtime.pinnedClientRoutes[i]; TrimSpace(route) == route && '/' in route)
    && (forall p | Advertises(v6, app, p) :: Ipv4.IsMasked(p))
  }

  lemma ViaIsAddress(via: string)
    ensures Ipv4.ParseQuad(via).Some? <==> exists gateway :: via == Ipv4.PrintAddr(gateway)
  {
    hide Ipv4.ParseQuad, Ipv4.PrintAddr;
    if Ipv4.ParseQuad(via).Some? {
      Ipv4.QuadPrints(via);
    }
    if gateway :| via == Ipv4.PrintAddr(gateway) {
      Ipv4.QuadReads(gateway);
    }
  }

  lemma ClientsCanBePinned(v6: Ipv4.V6Syntax, cwd: string, app: AppConfig.App)
    requires AppConfig.Managed(v6, cwd, app)
    ensures (forall i | 0 <= i < |app.runtime.pinnedClientRoutes| ::
               PinnedAddr(v6, app.runtime.pinnedClientRoutes[i]).Some?) <==>
            (forall i | 0 <= i < |app.runtime.pinnedClientRoutes| ::
               var route := app.runtime.pinnedClientRoutes[i]; TrimSpace(route) == route && '/' in route)
  {
    hide AppConfig.Managed, PinnedAddr, AppConfig.RouteAddr, TrimSpace;
    ManagedClients(v6, cwd, app);
    forall i | 0 <= i < |app.runtime.pinnedClientRoutes|
      ensures var route := app.runtime.pinnedClientRoutes[i];
              PinnedAddr(v6, route).Some? <==> TrimSpace(route) == route && '/' in route
    {
      AcceptedRouteParsesExactly(v6, app.runtime.pinnedClientRoutes[i]);
    }
  }

  lemma RoutesCanBeAdvertised(v6: Ipv4.V6Syntax, app: AppConfig.App)
    requires Bird.Generate(v6, app.bird).Ok?
    ensures app.bird.advertisedRoutes != []
    ensures (forall i | 0 <= i < |app.bird.advertisedRoutes| ::
               Completion.CanAdvertise(v6, app.bird.advertisedRoutes[i])) <==>
            (forall p | Advertises(v6, app, p) :: Ipv4.IsMasked(p))
  {
    hide Bird.Generate, Ipv4.ParsePrefix, Ipv4.IsMasked, Ipv4.ParseAddr, Bird.ValidInterfaceName;
    Bird.GenerateAccepts(v6, app.bird);
    var routes := app.bird.advertisedRoutes;
    if forall p | Advertises(v6, app, p) :: Ipv4.IsMasked(p) {
      forall i | 0 <= i < |routes|
        ensures Completion.CanAdvertise(v6, routes[i])
      {
        assert routes[i] in routes;
        var net := Ipv4.ParsePrefix(v6, routes[i]).value;
        assert net.Net4? ==> Advertises(v6, app, net.prefix);
      }
    }
  }

  // When no command is made to fail, Apply succeeds exactly if the files are accepted and the
  // routes can be set. If the files are not accepted it runs no command at all, whatever
  // would fail.
  lemma ApplySucceedsExactly(env: Env, w: World, inputs: Inputs)
    ensures Completion.Works(env) ==>
              (Succeeded(ApplyRun(env, w, inputs)) <==>
               FilesAccepted(env, inputs) && RoutesCanBeSet(env.v6, w.links, inputs.app.value))
    ensures !FilesAccepted(env, inputs) ==>
              !Succeeded(ApplyRun(env, w, inputs)) && ApplyRun(env, w, inputs).w == w
  {
    hide PlanFor, PlanRun, Completion.Works, FilesAccepted, TrimSpace, AppConfig.Managed, Completion.CanAdvertise;
    ReadyExactly(env, inputs);
    if PlanFor(env, inputs).Ready? && Completion.Works(env) {
      var plan := PlanFor(env, inputs).plan;
      PlanIs(env, inputs);
      FilesGenerate(env, inputs);
      Completion.PlanSucceedsExactly(env, w, plan);
      CanApplyIs(env.v6, inputs.cwd, w.links, inputs.app.value, plan);
    }
  }

  lemma FilesGenerate(env: Env, inputs: Inputs)
    requires FilesAccepted(env, inputs)
    ensures inputs.app.Some? && Bird.Generate(env.v6, inputs.app.value.bird).Ok?
  {
    hide Bird.Generate, AppConfig.Managed, WgConfig.Validate;
  }

  lemma CanApplyIs(v6: Ipv4.V6Syntax, cwd: string, links: set<string>, app: AppConfig.App, plan: Plan)
    requires plan.u == Underlay(OutOf(app), TrimSpace(app.wireGuard.endpointRouteVia)) && plan.endpoints != []
    requires plan.clients == app.runtime.pinnedClientRoutes
    requires plan.tunnel == Into(app) && plan.advertised == app.bird.advertisedRoutes
    requires AppConfig.Managed(v6, cwd, app) && Bird.Generate(v6, app.bird).Ok?
    ensures Completion.CanApply(v6, links, plan) <==> RoutesCanBeSet(v6, links, app)
  {
    hide TrimSpace, AppConfig.Managed, Completion.CanAdvertise, Bird.Generate, Advertises, PinnedAddr, Ipv4.ParseQuad;
    ViaIsAddress(plan.u.via);
    ClientsCanBePinned(v6, cwd, app);
    RoutesCanBeAdvertised(v6, app);
  }

  // ------------------------------------------------------------- which error

  lemma {:induction false} EndpointsError(env: Env, w: World, u: Underlay, addrs: seq<Ipv4.Addr>)
    ensures var r := EndpointsRun(env, w, u, addrs); r.error == None || LastFailed(r)
    decreases |addrs|
  {
    hide HostRouteRun, LastFailed;
    if addrs != [] {
      HostRouteError(env, w, u, addrs[0]);
      EndpointsError(env, HostRouteRun(env, w, u, addrs[0]).w, u, addrs[1..]);
    }
  }

  // It stopped at a command that failed.
  predicate LastFailed(r: Run) {
    r.error == Some(CommandFailed) && r.w.log != [] && !r.w.log[|r.w.log| - 1].ok
  }

  lemma ReplaceError(env: Env, w: World, cmd: Command)
    ensures var r := ReplaceRun(env, w, cmd); r.error == None || LastFailed(r)
  {
    hide Exec;
    ExecLog(env, w, cmd);
  }

  lemma HostRouteError(env: Env, w: World, u: Underlay, a: Ipv4.Addr)
    ensures var r := HostRouteRun(env, w, u, a); r.error == None || LastFailed(r)
  {
    hide Exec, ReplaceRun, Fields, GatewayWord, Ipv4.PrintAddr;
    ExecLog(env, w, ShowDefault(u.iface));
    forall w0, cmd
      ensures var r := ReplaceRun(env, w0, cmd); r.error == None || LastFailed(r)
    {
      ReplaceError(env, w0, cmd);
    }
  }

  predicate Unpinnable(v6: Ipv4.V6Syntax, routes: seq<string>, error: Option<ApplyError>) {
    && error.Some? && error.value.BadPinnedRoute?
    && error.value.route in routes && PinnedAddr(v6, error.value.route).None?
  }

  lemma {:induction false} ClientsError(env: Env, w: World, u: Underlay, routes: seq<string>)
    ensures var r := ClientsRun(env, w, u, routes);
            r.error == None || LastFailed(r) || Unpinnable(env.v6, routes, r.error)
    decreases |routes|
  {
    hide HostRouteRun, LastFailed, PinnedAddr;
    if routes != [] && PinnedAddr(env.v6, routes[0]).Some? {
      var r := HostRouteRun(env, w, u, PinnedAddr(env.v6, routes[0]).value);
      HostRouteError(env, w, u, PinnedAddr(env.v6, routes[0]).value);
      ClientsError(env, r.w, u, routes[1..]);
    }
  }

  lemma {:induction false} AdvertiseError(env: Env, w: World, tunnel: string, routes: seq<string>)
    requires forall i | 0 <= i < |routes| :: Ipv4.ParsePrefix(env.v6, routes[i]).Some?
    ensures var r := AdvertiseRun(env, w, tunnel, routes); r.error == None || LastFailed(r)
    decreases |routes|
  {
    hide ReplaceRun, LastFailed, Ipv4.ParsePrefix, Dest;
    if routes != [] {
      var cmd := RouteReplace(Dest(routes[0], Ipv4.ParsePrefix(env.v6, routes[0]).value), "", tunnel);
      ReplaceError(env, w, cmd);
      forall i | 0 <= i < |routes| - 1
        ensures Ipv4.ParsePrefix(env.v6, routes[1..][i]).Some?
      {
        assert routes[1..][i] == routes[i + 1];
      }
      AdvertiseError(env, ReplaceRun(env, w, cmd).w, tunnel, routes[1..]);
    }
  }

  // What each error means: the first check, in this order, that the files do not pass; or a
  // pinned route that cannot be read as it stands; or a command that failed. No advertised
  // route is ever found unreadable, since the BIRD check has read them all.
  ghost predicate ErrorMeans(env: Env, inputs: Inputs, r: Run) {
    var app, text := inputs.app, inputs.wgText;
    var managed := app.Some? && AppConfig.Managed(env.v6, inputs.cwd, app.value);
    var generated := managed && Bird.Generate(env.v6, app.value.bird).Ok?;
    var accepted := generated && text.Some? && WgConfig.Validate(inputs.lib, text.value).error.None?;
    match r.error
    case None => accepted
    case Some(NoAppConfig) => app.None?
    case Some(NotManaged) => app.Some? && !managed
    case Some(BadBird(e)) => managed && Bird.Generate(env.v6, app.value.bird) == Bird.Err(e)
    case Some(NoWgConfig) => generated && text.None?
    case Some(BadWgConfig(e)) =>
      generated && text.Some? && WgConfig.Validate(inputs.lib, text.value).error == Some(e)
    case Some(BadEndpoint) => accepted && forall a :: !StandsFor(env, inputs, LastEndpoint(text.value), a)
    case Some(BadPinnedRoute(route)) =>
      accepted && route in app.value.runtime.pinnedClientRoutes && !(TrimSpace(route) == route && '/' in route)
    case Some(BadAdvertised(_)) => false
    case Some(CommandFailed) => accepted && LastFailed(r)
  }

  lemma ApplyErrorMeans(env: Env, w: World, inputs: Inputs)
    ensures ErrorMeans(env, inputs, ApplyRun(env, w, inputs))
  {
    hide PlanFor, PlanRun, AppConfig.Managed, Bird.Generate, WgConfig.Validate, EndpointAddrs, StandsFor;
    hide WgConfig.Events, WgMeta.LastValue, TrimSpace, PinnedAddr, AppConfig.RouteAddr;
    RefusalMeans(env, w, inputs);
    if PlanFor(env, inputs).Ready? {
      var plan := PlanFor(env, inputs).plan;
      PlanIs(env, inputs);
      RunErrorMeans(env, w, inputs, plan);
      ManagedClients(env.v6, inputs.cwd, inputs.app.value);
      var error := PlanRun(env, w, plan).error;
      if Unpinnable(env.v6, plan.clients, error) {
        AcceptedRouteParsesExactly(env.v6, error.value.route);
      }
    }
  }

  lemma RefusalMeans(env: Env, w: World, inputs: Inputs)
    ensures PlanFor(env, inputs).Refused? ==>
              !PlanFor(env, inputs).error.CommandFailed?
              && ErrorMeans(env, inputs, Run(w, Some(PlanFor(env, inputs).error)))
    ensures PlanFor(env, inputs).Ready? ==>
              inputs.app.Some? && Bird.Generate(env.v6, inputs.app.value.bird).Ok? && inputs.wgText.Some?
              && WgConfig.Validate(inputs.lib, inputs.wgText.value).error.None?
  {
    hide AppConfig.ManagedError, Bird.Generate, EndpointAddrs, WgConfig.FirstError, WgConfig.Meta, LastFailed;
    hide WgConfig.Events, WgMeta.LastValue, TrimSpace, PinnedAddr, WgMeta.LastMeta, StandsFor;
    if inputs.wgText.Some? {
      EndpointAddrsMeaning(env, inputs, LastEndpoint(inputs.wgText.value));
      WgMeta.LastSettingWins(inputs.wgText.value);
      Endpoints.LastEndpoint(WgConfig.Events(inputs.wgText.value));
    }
  }

  lemma RunErrorMeans(env: Env, w: World, inputs: Inputs, plan: Plan)
    requires inputs.app.Some? && Bird.Generate(env.v6, inputs.app.value.bird).Ok?
    requires plan.clients == inputs.app.value.runtime.pinnedClientRoutes
    requires plan.advertised == inputs.app.value.bird.advertisedRoutes
    ensures var r := PlanRun(env, w, plan);
            r.error == None || LastFailed(r) || Unpinnable(env.v6, plan.clients, r.error)
  {
    hide EndpointsRun, ClientsRun, AdvertiseRun, Bird.Generate, LastFailed, Unpinnable, Ipv4.ParsePrefix;
    hide Ipv4.ParseAddr, Bird.IsName;
    Bird.GenerateAccepts(env.v6, inputs.app.value.bird);
    var r1 := EndpointsRun(env, w, plan.u, plan.endpoints);
    var r2 := ClientsRun(env, r1.w, plan.u, plan.clients);
    EndpointsError(env, w, plan.u, plan.endpoints);
    ClientsError(env, r1.w, plan.u, plan.clients);
    AdvertiseError(env, r2.w, plan.tunnel, plan.advertised);
  }

  // ------------------------------------------------------------- the commands

  // The text of a gateway, empty if there is none.
  function GatewayText(gateway: Option<Ipv4.Addr>): string {
    if gateway.Some? then Ipv4.PrintAddr(gateway.value) else ""
  }

  // A host route is one command if a gateway is configured. Otherwise the default route is
  // asked for first, and its gateway, if it has one, is used.
  lemma HostRouteCommandsExactly(env: Env, w: World, u: Underlay, a: Ipv4.Addr)
    ensures var log, n := HostRouteRun(env, w, u, a).w.log, |w.log|;
            var dest := Ipv4.PrintAddr(a) + "/32";
            && w.log <= log
            && (u.via != "" ==> |log| == n + 1 && log[n].cmd == RouteReplace(dest, u.via, u.iface))
            && (u.via == "" ==>
                  && |log| >= n + 1 && log[n].cmd == ShowDefault(u.iface)
                  && |log| == (if log[n].ok then n + 2 else n + 1)
                  && (log[n].ok ==>
                        log[n + 1].cmd == RouteReplace(dest, GatewayText(Gateway(w.routes, u.iface)), u.iface)))
  {
    hide Exec, Fields, GatewayWord, Ipv4.PrintAddr, Gateway;
    if u.via != "" {
      ExecLog(env, w, RouteReplace(Ipv4.PrintAddr(a) + "/32", u.via, u.iface));
    } else {
      var show := ShowDefault(u.iface);
      var shown := Exec(env, w, show);
      var via := GatewayWord(Fields(shown.reply.output));
      ExecLog(env, w, show);
      ExecLog(env, shown.w, RouteReplace(Ipv4.PrintAddr(a) + "/32", via, u.iface));
      if shown.reply.ok {
        ShownText(env, w, u.iface);
      }
    }
  }

  lemma ShownText(env: Env, w: World, dev: string)
    requires Exec(env, w, ShowDefault(dev)).reply.ok
    ensures GatewayWord(Fields(Exec(env, w, ShowDefault(dev)).reply.output)) == GatewayText(Gateway(w.routes, dev))
  {
    hide Fields, GatewayWord, Ipv4.PrintAddr;
    GatewayOfShown(w.routes, dev, env.fates(|w.log|).output);
  }

  lemma GatewayOfShown(t: Table, dev: string, tail: string)
    ensures GatewayWord(Fields(DefaultText(t, dev, tail))) == GatewayText(Gateway(t, dev))
  {
    hide Fields, GatewayWord, Ipv4.PrintAddr;
    NoGatewayInScopeLink();
    if Gateway(t, dev).Some? {
      GatewayOfDefault(Gateway(t, dev).value, tail);
    }
  }


  // The command that sends an advertised route into the tunnel, IPv6 or not.
  predicate SendsInto(env: Env, step: Step, route: string, tunnel: string) {
    && step.ok && step.cmd.RouteReplace? && step.cmd.via == "" && step.cmd.dev == tunnel
    && Ipv4.ParsePrefix(env.v6, step.cmd.dest).Some?
    && Ipv4.ParsePrefix(env.v6, step.cmd.dest) == Ipv4.ParsePrefix(env.v6, route)
  }

  lemma {:induction false} AdvertiseLogs(env: Env, w: World, tunnel: string, routes: seq<string>)
    requires Succeeded(AdvertiseRun(env, w, tunnel, routes))
    ensures var log := AdvertiseRun(env, w, tunnel, routes).w.log;
            && |log| == |w.log| + |routes| && w.log <= log
            && forall i | 0 <= i < |routes| :: SendsInto(env, log[|w.log| + i], routes[i], tunnel)
    decreases |routes|
  {
    hide Exec, Ipv4.ParsePrefix, Dest, SendsInto;
    if routes != [] {
      var net := Ipv4.ParsePrefix(env.v6, routes[0]).value;
      var cmd := RouteReplace(Dest(routes[0], net), "", tunnel);
      AdvertiseOne(env, w, routes[0], net, tunnel);
      ExecLog(env, w, cmd);
      var w1 := Exec(env, w, cmd).w;
      AdvertiseLogs(env, w1, tunnel, routes[1..]);
      var log := AdvertiseRun(env, w, tunnel, routes).w.log;
      assert log[|w.log|] == w1.log[|w.log|];
      SentInto(env, log[|w.log|], routes[0], net, tunnel);
      forall i | 1 <= i < |routes|
        ensures SendsInto(env, log[|w.log| + i], routes[i], tunnel)
      {
        assert routes[1..][i - 1] == routes[i] && |w1.log| + (i - 1) == |w.log| + i;
      }
    }
  }

  lemma SentInto(env: Env, step: Step, route: string, net: Ipv4.Net, tunnel: string)
    requires Ipv4.ParsePrefix(env.v6, route) == Some(net)
    requires step.ok && step.cmd == RouteReplace(Dest(route, net), "", tunnel)
    requires Ipv4.ParsePrefix(env.v6, Dest(route, net)) == Some(net)
    ensures SendsInto(env, step, route, tunnel)
  {
    hide Ipv4.ParsePrefix, Dest;
  }

  // A run that succeeds ends with one command for each advertised route, in order, each of
  // which worked.
  lemma AdvertisedLast(env: Env, w: World, inputs: Inputs)
    requires Succeeded(ApplyRun(env, w, inputs))
    ensures inputs.app.Some?
    ensures var app, log := inputs.app.value, ApplyRun(env, w, inputs).w.log;
            var n := |log| - |app.bird.advertisedRoutes|;
            && n >= |w.log|
            && forall i | 0 <= i < |app.bird.advertisedRoutes| ::
                 SendsInto(env, log[n + i], app.bird.advertisedRoutes[i], Into(app))
  {
    hide PlanFor, EndpointsRun, ClientsRun, AdvertiseRun, SendsInto, AppConfig.Managed, TrimSpace;
    PlanIs(env, inputs);
    var plan := PlanFor(env, inputs).plan;
    var pinned := ClientsRun(env, EndpointsRun(env, w, plan.u, plan.endpoints).w, plan.u, plan.clients);
    AdvertiseLogs(env, pinned.w, plan.tunnel, plan.advertised);
    PinningAppends(env, w, plan);
  }

  lemma PinningAppends(env: Env, w: World, plan: Plan)
    ensures |ClientsRun(env, EndpointsRun(env, w, plan.u, plan.endpoints).w, plan.u, plan.clients).w.log| >= |w.log|
  {
    hide EndpointsRun, ClientsRun, PinCommand, ClientAddrs;
    var r1 := EndpointsRun(env, w, plan.u, plan.endpoints);
    var cmds := EndpointsCommands(env, w, plan, plan.endpoints);
    var more := ClientsCommands(env, r1.w, plan, plan.clients);
    ReplayLog(env, w, cmds);
    ReplayLog(env, r1.w, more);
  }
}
