/** internal/supervisor/routes.go: pinning the tunnel endpoint and the pinned clients to the
    underlay, then sending the advertised prefixes into the tunnel. */
module Routes {
  import opened Options
  import opened Text
  import Ipv4
  import Bird
  import AppConfig
  import WgConfig
  import opened Kernel

  const DEFAULT_ENDPOINT_INTERFACE := "eth0"

  // ------------------------------------------------------------- the discovered gateway

  // The length of the first word.
  function WordLength(s: string): (n: nat)
    ensures n <= |s|
    ensures s != "" && !IsSpace(s[0]) ==> n > 0
    ensures forall i | 0 <= i < n :: !IsSpace(s[i])
    ensures n < |s| ==> IsSpace(s[n])
  {
    if s == "" || IsSpace(s[0]) then 0 else 1 + WordLength(s[1..])
  }

  // strings.Fields
  function Fields(s: string): seq<string>
    decreases |s|
  {
    TrimLeftSplits(s);
    var t := TrimLeft(s);
    if t == "" then [] else [t[..WordLength(t)]] + Fields(t[WordLength(t)..])
  }

  // The word after the first "via" that has one.
  function GatewayWord(fields: seq<string>): string {
    if |fields| < 2 then ""
    else if fields[0] == "via" then fields[1]
    else GatewayWord(fields[1..])
  }

  method DefaultRouteGateway(output: string) returns (via: string)
    ensures via == GatewayWord(Fields(output))
  {
    var fields := Fields(output);
    for i := 0 to |fields|
      invariant GatewayWord(fields[i..]) == GatewayWord(fields)
    {
      assert fields[i..][1..] == fields[i + 1..];
      if fields[i] == "via" && i + 1 < |fields| {
        return fields[i + 1];
      }
    }
    return "";
  }

  predicate IsWord(s: string) {
    s != "" && forall i | 0 <= i < |s| :: !IsSpace(s[i])
  }

  lemma {:induction false} WordLengthOf(word: string, rest: string)
    requires forall i | 0 <= i < |word| :: !IsSpace(word[i])
    requires rest == "" || IsSpace(rest[0])
    ensures WordLength(word + rest) == |word|
  {
    if word == "" {
      assert word + rest == rest;
    } else {
      assert (word + rest)[1..] == word[1..] + rest;
      WordLengthOf(word[1..], rest);
    }
  }

  lemma FieldsCons(word: string, rest: string)
    requires IsWord(word) && (rest == "" || IsSpace(rest[0]))
    ensures Fields(word + rest) == [word] + Fields(rest)
  {
    WordLengthOf(word, rest);
    assert (word + rest)[0] == word[0];
    assert TrimLeft(word + rest) == word + rest;
    assert (word + rest)[..|word|] == word && (word + rest)[|word|..] == rest;
  }

  lemma FieldsSkip(space: string, s: string)
    requires AllSpace(space)
    ensures Fields(space + s) == Fields(s)
  {
    TrimLeftFramed(space, s);
  }

  // What the kernel prints for a default route is read back as its gateway.
  lemma GatewayOfDefault(gateway: Ipv4.Addr, tail: string)
    ensures GatewayWord(Fields("default via " + Ipv4.PrintAddr(gateway) + " " + tail + "\n")) == Ipv4.PrintAddr(gateway)
  {
    AddrIsWord(gateway);
    ThreeWords("default", "via", Ipv4.PrintAddr(gateway), " " + tail + "\n");
    DefaultVia(Ipv4.PrintAddr(gateway), tail);
    SecondIsVia("default", Ipv4.PrintAddr(gateway), Fields(" " + tail + "\n"));
  }

  lemma AddrIsWord(a: Ipv4.Addr)
    ensures IsWord(Ipv4.PrintAddr(a))
  {
    hide Ipv4.PrintAddr;
    var g := Ipv4.PrintAddr(a);
    Ipv4.PrintedAddr(Ipv4.V6Syntax(_ => false, _ => false), a);
    forall i | 0 <= i < |g|
      ensures !IsSpace(g[i])
    {
      assert Ipv4.QuadChar(g[i]);
    }
  }

  lemma DefaultVia(g: string, tail: string)
    ensures "default via " + g + " " + tail + "\n" == "default" + (" " + ("via" + (" " + (g + (" " + tail + "\n")))))
  {
    assert "default via " == "default" + (" " + ("via" + " "));
  }

  lemma SecondIsVia(first: string, gateway: string, rest: seq<string>)
    requires first != "via"
    ensures GatewayWord([first, "via", gateway] + rest) == gateway
  {
    var fields := [first, "via", gateway] + rest;
    assert fields[1..] == ["via", gateway] + rest;
  }

  lemma ThreeWords(a: string, b: string, c: string, rest: string)
    requires IsWord(a) && IsWord(b) && IsWord(c) && (rest == "" || IsSpace(rest[0]))
    ensures Fields(a + (" " + (b + (" " + (c + rest))))) == [a, b, c] + Fields(rest)
  {
    hide Fields;
    FieldsCons(a, " " + (b + (" " + (c + rest))));
    FieldsSkip(" ", b + (" " + (c + rest)));
    FieldsCons(b, " " + (c + rest));
    FieldsSkip(" ", c + rest);
    FieldsCons(c, rest);
  }

  lemma NoFields()
    ensures Fields("") == [] && Fields("\n") == []
  {
    FieldsSkip("\n", "");
    assert "\n" + "" == "\n";
  }

  lemma ScopeLink()
    ensures "default scope link\n" == "default" + (" " + ("scope" + (" " + ("link" + "\n"))))
  {
  }

  lemma NoGatewayInScopeLink()
    ensures GatewayWord(Fields("default scope link\n")) == "" && GatewayWord(Fields("")) == ""
  {
    hide Fields;
    ThreeWords("default", "scope", "link", "\n");
    ScopeLink();
    NoFields();
    NoViaWord(["default", "scope", "link"]);
  }

  lemma {:induction false} NoViaWord(fields: seq<string>)
    requires "via" !in fields
    ensures GatewayWord(fields) == ""
  {
    if |fields| >= 2 {
      NoViaWord(fields[1..]);
    }
  }

  // The gateway of the default route through a device, if there is one.
  function Gateway(t: Table, dev: string): Option<Ipv4.Addr> {
    if DEFAULT_ROUTE in t && t[DEFAULT_ROUTE].dev == dev then t[DEFAULT_ROUTE].via else None
  }

  lemma DiscoveredGateway(t: Table, dev: string, tail: string)
    ensures Ipv4.ParseQuad(GatewayWord(Fields(DefaultText(t, dev, tail)))) == Gateway(t, dev)
  {
    NoGatewayInScopeLink();
    assert Ipv4.ParseQuad("").None?;
    if Gateway(t, dev).Some? {
      GatewayOfDefault(Gateway(t, dev).value, tail);
      Ipv4.QuadReads(Gateway(t, dev).value);
    }
  }

  // ------------------------------------------------------------- endpoint addresses

  // An address as the resolver hands it over, IPv4-mapped IPv6 already unwrapped.
  datatype Resolved = NoAddress | Address(ip: Ipv4.IP)

  datatype ApplyError =
    | NoAppConfig
    | NotManaged
    | BadBird(bird: Bird.Error)
    | NoWgConfig
    | BadWgConfig(wg: WgConfig.ConfigError)
    | BadEndpoint
    | BadPinnedRoute(route: string)
    | BadAdvertised(route: string)
    | CommandFailed

  datatype Addrs = Addrs(addrs: seq<Ipv4.Addr>) | NoAddrs

  // The IPv4 addresses among the answers, each once, in order.
  function DistinctV4(answers: seq<Resolved>): seq<Ipv4.Addr> {
    if answers == [] then []
    else
      var done, last := DistinctV4(answers[..|answers| - 1]), answers[|answers| - 1];
      if last.Address? && last.ip.V4? && last.ip.addr !in done then done + [last.ip.addr] else done
  }

  datatype Inputs = Inputs(
    cwd: string,
    app: Option<AppConfig.App>,
    wgText: Option<string>,
    lib: WgConfig.Lib,
    resolve: string -> Option<seq<Resolved>>)

  function EndpointAddrs(env: Env, inputs: Inputs, endpoint: string): Addrs {
    match inputs.lib.hostPort(endpoint)
    case None => NoAddrs
    case Some(hp) =>
      match Ipv4.ParseAddr(env.v6, hp.host)
      case Some(V4(a)) => Addrs([a])
      case Some(V6) => NoAddrs
      case None =>
        match inputs.resolve(hp.host)
        case None => NoAddrs
        case Some(answers) => if DistinctV4(answers) == [] then NoAddrs else Addrs(DistinctV4(answers))
  }

  method ResolveEndpoint(env: Env, inputs: Inputs, endpoint: string) returns (r: Addrs)
    ensures r == EndpointAddrs(env, inputs, endpoint)
  {
    var hp := inputs.lib.hostPort(endpoint);
    if hp.None? {
      return NoAddrs;
    }
    var addr := Ipv4.ParseAddr(env.v6, hp.value.host);
    if addr.Some? {
      if !addr.value.V4? {
        return NoAddrs;
      }
      return Addrs([addr.value.addr]);
    }
    var answers := inputs.resolve(hp.value.host);
    if answers.None? {
      return NoAddrs;
    }
    var addrs := answers.value;
    var resolved: seq<Ipv4.Addr> := [];
    var seen: set<Ipv4.Addr> := {};
    for i := 0 to |addrs|
      invariant resolved == DistinctV4(addrs[..i])
      invariant seen == set a | a in resolved
    {
      assert addrs[..i + 1][..i] == addrs[..i];
      if addrs[i].NoAddress? || !addrs[i].ip.V4? {
        continue;
      }
      var candidate := addrs[i].ip.addr;
      if candidate in seen {
        continue;
      }
      seen := seen + {candidate};
      resolved := resolved + [candidate];
    }
    assert addrs[..|addrs|] == addrs;
    if |resolved| == 0 {
      return NoAddrs;
    }
    return Addrs(resolved);
  }

  predicate NoRepeats(addrs: seq<Ipv4.Addr>) {
    forall i, j | 0 <= i < j < |addrs| :: addrs[i] != addrs[j]
  }

  // Exactly the IPv4 answers, without repetition.
  lemma {:induction false} DistinctV4Meaning(answers: seq<Resolved>)
    ensures forall a :: a in DistinctV4(answers) <==> Address(Ipv4.V4(a)) in answers
    ensures NoRepeats(DistinctV4(answers))
  {
    if answers != [] {
      var done, last := DistinctV4(answers[..|answers| - 1]), answers[|answers| - 1];
      DistinctV4Meaning(answers[..|answers| - 1]);
      assert answers == answers[..|answers| - 1] + [last];
      var d := DistinctV4(answers);
      forall i, j | 0 <= i < j < |d|
        ensures d[i] != d[j]
      {
        assert d[i] == done[i] && done[i] in done;
        if j < |done| {
          assert d[j] == done[j] && done[i] != done[j];
        } else {
          assert d[j] == last.ip.addr && last.ip.addr !in done;
        }
      }
    }
  }

  // The endpoint's host is this address, or is no address at all and resolves to it.
  predicate StandsFor(env: Env, inputs: Inputs, endpoint: string, a: Ipv4.Addr) {
    && inputs.lib.hostPort(endpoint).Some?
    && var host := inputs.lib.hostPort(endpoint).value.host;
       || Ipv4.ParseAddr(env.v6, host) == Some(Ipv4.V4(a))
       || (&& Ipv4.ParseAddr(env.v6, host).None? && inputs.resolve(host).Some?
           && Address(Ipv4.V4(a)) in inputs.resolve(host).value)
  }

  // An endpoint can be pinned exactly if it stands for some IPv4 address, and then its
  // addresses are all it stands for, each once.
  lemma EndpointAddrsMeaning(env: Env, inputs: Inputs, endpoint: string)
    ensures EndpointAddrs(env, inputs, endpoint).Addrs? <==> exists a :: StandsFor(env, inputs, endpoint, a)
    ensures EndpointAddrs(env, inputs, endpoint).Addrs? ==>
              var addrs := EndpointAddrs(env, inputs, endpoint).addrs;
              NoRepeats(addrs) && forall a :: a in addrs <==> StandsFor(env, inputs, endpoint, a)
  {
    hide Ipv4.ParseAddr, DistinctV4;
    var hp := inputs.lib.hostPort(endpoint);
    if hp.Some? && Ipv4.ParseAddr(env.v6, hp.value.host).None? && inputs.resolve(hp.value.host).Some? {
      var addrs := DistinctV4(inputs.resolve(hp.value.host).value);
      DistinctV4Meaning(inputs.resolve(hp.value.host).value);
      assert addrs != [] ==> addrs[0] in addrs && StandsFor(env, inputs, endpoint, addrs[0]);
    } else if EndpointAddrs(env, inputs, endpoint).Addrs? {
      assert StandsFor(env, inputs, endpoint, EndpointAddrs(env, inputs, endpoint).addrs[0]);
    }
  }

  // ------------------------------------------------------------- specification of a run

  datatype Run = Run(w: World, error: Option<ApplyError>)

  function Done(w: World): Run {
    Run(w, None)
  }

  function Failed(w: World, e: ApplyError): Run {
    Run(w, Some(e))
  }

  predicate Succeeded(r: Run) {
    r.error.None?
  }

  // Where host routes go: the interface and the configured gateway text.
  datatype Underlay = Underlay(iface: string, via: string)

  function UnderlayOf(cfg: AppConfig.App): Underlay {
    Underlay(if cfg.wireGuard.endpointRouteInterface == "" then DEFAULT_ENDPOINT_INTERFACE
             else cfg.wireGuard.endpointRouteInterface,
             TrimSpace(cfg.wireGuard.endpointRouteVia))
  }

  function ReplaceRun(env: Env, w: World, cmd: Command): Run {
    var outcome := Exec(env, w, cmd);
    if outcome.reply.ok then Done(outcome.w) else Failed(outcome.w, CommandFailed)
  }

  function HostRouteRun(env: Env, w: World, u: Underlay, a: Ipv4.Addr): Run {
    var dest := Ipv4.PrintAddr(a) + "/32";
    if u.via != "" then ReplaceRun(env, w, RouteReplace(dest, u.via, u.iface))
    else
      var shown := Exec(env, w, ShowDefault(u.iface));
      if !shown.reply.ok then Failed(shown.w, CommandFailed)
      else ReplaceRun(env, shown.w, RouteReplace(dest, GatewayWord(Fields(shown.reply.output)), u.iface))
  }

  function EndpointsRun(env: Env, w: World, u: Underlay, addrs: seq<Ipv4.Addr>): Run
    decreases |addrs|
  {
    if addrs == [] then Done(w)
    else
      var r := HostRouteRun(env, w, u, addrs[0]);
      if Succeeded(r) then EndpointsRun(env, r.w, u, addrs[1..]) else r
  }

  // The address of a pinned route, if it is an IPv4 /32.
  function PinnedAddr(v6: Ipv4.V6Syntax, route: string): Option<Ipv4.Addr> {
    match Ipv4.ParsePrefix(v6, route)
    case Some(Net4(p)) => if p.bits == 32 then Some(p.addr) else None
    case _ => None
  }

  function ClientsRun(env: Env, w: World, u: Underlay, routes: seq<string>): Run
    decreases |routes|
  {
    if routes == [] then Done(w)
    else
      match PinnedAddr(env.v6, routes[0])
      case None => Failed(w, BadPinnedRoute(routes[0]))
      case Some(a) =>
        var r := HostRouteRun(env, w, u, a);
        if Succeeded(r) then ClientsRun(env, r.w, u, routes[1..]) else r
  }

  // The destination argument for an advertised route. An IPv6 prefix is passed on as text.
  function Dest(route: string, net: Ipv4.Net): string {
    match net
    case Net4(p) => Ipv4.PrintPrefix(p)
    case Net6 => route
  }

  function AdvertiseRun(env: Env, w: World, tunnel: string, routes: seq<string>): Run
    decreases |routes|
  {
    if routes == [] then Done(w)
    else
      match Ipv4.ParsePrefix(env.v6, routes[0])
      case None => Failed(w, BadAdvertised(routes[0]))
      case Some(net) =>
        var r := ReplaceRun(env, w, RouteReplace(Dest(routes[0], net), "", tunnel));
        if Succeeded(r) then AdvertiseRun(env, r.w, tunnel, routes[1..]) else r
  }

  datatype Plan = Plan(u: Underlay, endpoints: seq<Ipv4.Addr>, clients: seq<string>, tunnel: string,
      advertised: seq<string>)

  function PlanRun(env: Env, w: World, plan: Plan): Run {
    var r1 := EndpointsRun(env, w, plan.u, plan.endpoints);
    if !Succeeded(r1) then r1
    else
      var r2 := ClientsRun(env, r1.w, plan.u, plan.clients);
      if !Succeeded(r2) then r2
      else AdvertiseRun(env, r2.w, plan.tunnel, plan.advertised)
  }

  datatype Planned = Refused(error: ApplyError) | Ready(plan: Plan)

  // The checks Apply makes before it runs any command.
  function PlanFor(env: Env, inputs: Inputs): Planned {
    if inputs.app.None? then Refused(NoAppConfig)
    else
      var cfg := inputs.app.value;
      if AppConfig.ManagedError(env.v6, inputs.cwd, cfg).Some? then Refused(NotManaged)
      else if Bird.Generate(env.v6, cfg.bird).Err? then Refused(BadBird(Bird.Generate(env.v6, cfg.bird).error))
      else if inputs.wgText.None? then Refused(NoWgConfig)
      else
        var v := WgConfig.Validate(inputs.lib, inputs.wgText.value);
        if v.error.Some? then Refused(BadWgConfig(v.error.value))
        else
          match EndpointAddrs(env, inputs, v.meta.endpoint)
          case NoAddrs => Refused(BadEndpoint)
          case Addrs(endpoints) =>
            Ready(Plan(UnderlayOf(cfg), endpoints, cfg.runtime.pinnedClientRoutes,
                       cfg.bird.WithDefaults().iface, cfg.bird.advertisedRoutes))
  }

  function ApplyRun(env: Env, w: World, inputs: Inputs): Run {
    match PlanFor(env, inputs)
    case Refused(e) => Failed(w, e)
    case Ready(plan) => PlanRun(env, w, plan)
  }

  function PinClientRun(env: Env, w: World, app: Option<AppConfig.App>, clientIP: string): Run {
    match Ipv4.ParseAddr(env.v6, clientIP)
    case Some(V4(a)) =>
      if app.None? then Failed(w, NoAppConfig) else HostRouteRun(env, w, UnderlayOf(app.value), a)
    case _ => Failed(w, BadEndpoint)
  }

  // ------------------------------------------------------------- the manager

  class RouteApplyManager {
    const machine: Machine

    constructor (m: Machine)
      ensures machine == m
    {
      machine := m;
    }

    method RunStep(cmd: Command) returns (error: Option<ApplyError>)
      modifies machine
      ensures Run(machine.w, error) == ReplaceRun(machine.env, old(machine.w), cmd)
    {
      var reply := machine.Run(cmd);
      error := if reply.ok then None else Some(CommandFailed);
    }

    method ApplyHostRoute(cfg: AppConfig.App, addr: Ipv4.Addr) returns (error: Option<ApplyError>)
      modifies machine
      ensures Run(machine.w, error) == HostRouteRun(machine.env, old(machine.w), UnderlayOf(cfg), addr)
    {
      var iface := cfg.wireGuard.endpointRouteInterface;
      if iface == "" {
        iface := DEFAULT_ENDPOINT_INTERFACE;
      }
      var route := Ipv4.PrintAddr(addr) + "/32";
      var via := TrimSpace(cfg.wireGuard.endpointRouteVia);
      if via == "" {
        var shown := machine.Run(ShowDefault(iface));
        if !shown.ok {
          return Some(CommandFailed);
        }
        via := DefaultRouteGateway(shown.output);
      }
      error := RunStep(RouteReplace(route, via, iface));
    }

    method Apply(inputs: Inputs) returns (error: Option<ApplyError>)
      modifies machine
      ensures Run(machine.w, error) == ApplyRun(machine.env, old(machine.w), inputs)
    {
      var env := machine.env;
      if inputs.app.None? {
        return Some(NoAppConfig);
      }
      var cfg := inputs.app.value;
      if AppConfig.ManagedError(env.v6, inputs.cwd, cfg).Some? {
        return Some(NotManaged);
      }
      var generated := Bird.Generate(env.v6, cfg.bird);
      if generated.Err? {
        return Some(BadBird(generated.error));
      }
      if inputs.wgText.None? {
        return Some(NoWgConfig);
      }
      var meta, invalid := WgConfig.ValidateConfig(inputs.lib, inputs.wgText.value);
      if invalid.Some? {
        return Some(BadWgConfig(invalid.value));
      }
      var resolved := ResolveEndpoint(env, inputs, meta.endpoint);
      if resolved.NoAddrs? {
        return Some(BadEndpoint);
      }
      ghost var plan := PlanFor(env, inputs).plan;
      error := ApplyPlan(cfg, resolved.addrs, plan);
    }

    // The three loops of Apply.
    method ApplyPlan(
        cfg: AppConfig.App, endpointIPs: seq<Ipv4.Addr>, ghost plan: Plan) returns (error: Option<ApplyError>)
      requires plan == Plan(UnderlayOf(cfg), endpointIPs, cfg.runtime.pinnedClientRoutes,
                            cfg.bird.WithDefaults().iface, cfg.bird.advertisedRoutes)
      modifies machine
      ensures Run(machine.w, error) == PlanRun(machine.env, old(machine.w), plan)
    {
      var env := machine.env;
      for i := 0 to |endpointIPs|
        invariant EndpointsRun(env, machine.w, plan.u, endpointIPs[i..]) ==
                EndpointsRun(env, old(machine.w), plan.u, endpointIPs)
      {
        assert endpointIPs[i..][1..] == endpointIPs[i + 1..];
        error := ApplyHostRoute(cfg, endpointIPs[i]);
        if error.Some? {
          return;
        }
      }
      assert endpointIPs[|endpointIPs|..] == [];
      ghost var w1 := machine.w;
      var clients := cfg.runtime.pinnedClientRoutes;
      for i := 0 to |clients|
        invariant ClientsRun(env, machine.w, plan.u, clients[i..]) == ClientsRun(env, w1, plan.u, clients)
      {
        assert clients[i..][1..] == clients[i + 1..];
        var prefix := Ipv4.ParsePrefix(env.v6, clients[i]);
        if prefix.None? {
          return Some(BadPinnedRoute(clients[i]));
        }
        if !prefix.value.Net4? || prefix.value.prefix.bits != 32 {
          return Some(BadPinnedRoute(clients[i]));
        }
        error := ApplyHostRoute(cfg, prefix.value.prefix.addr);
        if error.Some? {
          return;
        }
      }
      assert clients[|clients|..] == [];
      ghost var w2 := machine.w;
      var routes := cfg.bird.advertisedRoutes;
      for i := 0 to |routes|
        invariant AdvertiseRun(env, machine.w, plan.tunnel, routes[i..]) == AdvertiseRun(env, w2, plan.tunnel, routes)
      {
        assert routes[i..][1..] == routes[i + 1..];
        var prefix := Ipv4.ParsePrefix(env.v6, routes[i]);
        if prefix.None? {
          return Some(BadAdvertised(routes[i]));
        }
        error := RunStep(RouteReplace(Dest(routes[i], prefix.value), "", cfg.bird.WithDefaults().iface));
        if error.Some? {
          return;
        }
      }
      assert routes[|routes|..] == [];
      error := None;
    }

    method PinClient(app: Option<AppConfig.App>, clientIP: string) returns (error: Option<ApplyError>)
      modifies machine
      ensures Run(machine.w, error) == PinClientRun(machine.env, old(machine.w), app, clientIP)
    {
      var addr := Ipv4.ParseAddr(machine.env.v6, clientIP);
      if addr.None? || !addr.value.V4? {
        return Some(BadEndpoint);
      }
      if app.None? {
        return Some(NoAppConfig);
      }
      error := ApplyHostRoute(app.value, addr.value.addr);
    }
  }
}
