/** internal/config/config.go: normalising pinned client routes, and the checks made on the
    application configuration before anything uses it. */
module AppConfig {
  import opened Options
  import opened Text
  import Decimal
  import Ipv4
  import Bird
  import Paths

  datatype Runtime = Runtime(autoStart: bool, pinDashboardClientRoute: bool, pinnedClientRoutes: seq<string>)

  datatype WireGuard = WireGuard(iface: string, mtu: int, endpointRouteInterface: string, endpointRouteVia: string)

  datatype App = App(
    listenAddr: string,
    configDir: string,
    birdConfigPath: string,
    runtime: Runtime,
    wireGuard: WireGuard,
    bird: Bird.Config)

  datatype RouteError = EmptyRoute | NotIPv4(route: string) | InvalidRoute(route: string) | NotHostRoute(route: string)

  datatype Result<T> = Ok(value: T) | Err(error: RouteError)

  // ------------------------------------------------------------- pinned client routes

  function NormalizeRoute(v6: Ipv4.V6Syntax, text: string): Result<string> {
    var route := TrimSpace(text);
    if route == "" then Err(EmptyRoute)
    else
      match Ipv4.ParseAddr(v6, route)
      case Some(V4(a)) => Ok(Ipv4.PrintAddr(a) + "/32")
      case Some(V6) => Err(NotIPv4(route))
      case None =>
        match Ipv4.ParsePrefix(v6, route)
        case None => Err(InvalidRoute(route))
        case Some(Net6) => Err(NotIPv4(route))
        case Some(Net4(p)) =>
          if p.bits != 32 then Err(NotHostRoute(route)) else Ok(Ipv4.PrintPrefix(Ipv4.Masked(p)))
  }

  type Normalizer = string -> Result<string>

  function RouteNormalizer(v6: Ipv4.V6Syntax): Normalizer {
    (text: string) => NormalizeRoute(v6, text)
  }

  // All routes normalised, or the first error.
  function Each(f: Normalizer, routes: seq<string>): Result<seq<string>> {
    if routes == [] then Ok([])
    else
      match Each(f, routes[..|routes| - 1])
      case Err(e) => Err(e)
      case Ok(done) =>
        match f(routes[|routes| - 1])
        case Err(e) => Err(e)
        case Ok(route) => Ok(done + [route])
  }

  // First occurrences, in order.
  function Distinct(routes: seq<string>): seq<string> {
    if routes == [] then []
    else
      var done, route := Distinct(routes[..|routes| - 1]), routes[|routes| - 1];
      if route in done then done else done + [route]
  }

  function DistinctEach(f: Normalizer, routes: seq<string>): Result<seq<string>> {
    match Each(f, routes)
    case Err(e) => Err(e)
    case Ok(each) => Ok(Distinct(each))
  }

  function Normalized(v6: Ipv4.V6Syntax, routes: seq<string>): Result<seq<string>> {
    DistinctEach(RouteNormalizer(v6), routes)
  }

  method NormalizePinnedClientRoutes(v6: Ipv4.V6Syntax, routes: seq<string>) returns (r: Result<seq<string>>)
    ensures r == Normalized(v6, routes)
  {
    var f := RouteNormalizer(v6);
    var normalized: seq<string> := [];
    var seen: set<string> := {};
    for i := 0 to |routes|
      invariant Each(f, routes[..i]).Ok? && normalized == Distinct(Each(f, routes[..i]).value)
      invariant seen == set x | x in normalized
    {
      assert routes[..i + 1][..i] == routes[..i];
      var prefix := f(routes[i]);
      if prefix.Err? {
        EachStops(f, routes, i + 1);
        return Err(prefix.error);
      }
      ghost var each := Each(f, routes[..i]).value;
      assert (each + [prefix.value])[..|each|] == each;
      if prefix.value in seen {
        continue;
      }
      seen := seen + {prefix.value};
      normalized := normalized + [prefix.value];
    }
    assert routes[..|routes|] == routes;
    r := Ok(normalized);
  }

  lemma {:induction false} EachStops(f: Normalizer, routes: seq<string>, n: nat)
    requires n <= |routes| && Each(f, routes[..n]).Err?
    ensures Each(f, routes) == Each(f, routes[..n])
    decreases |routes|
  {
    if n == |routes| {
      assert routes[..n] == routes;
    } else {
      assert routes[..|routes| - 1][..n] == routes[..n];
      EachStops(f, routes[..|routes| - 1], n);
    }
  }

  lemma {:induction false} EachMeaning(f: Normalizer, routes: seq<string>)
    ensures Each(f, routes).Ok? <==> forall i | 0 <= i < |routes| :: f(routes[i]).Ok?
    ensures Each(f, routes).Ok? ==>
              var each := Each(f, routes).value;
              |each| == |routes| && forall i | 0 <= i < |routes| :: f(routes[i]) == Ok(each[i])
  {
    if routes != [] {
      var init := routes[..|routes| - 1];
      EachMeaning(f, init);
      assert forall i | 0 <= i < |init| :: init[i] == routes[i];
    }
  }

  // A normal route is the /32 of an address, and normalising it changes nothing.
  lemma NormalRoute(v6: Ipv4.V6Syntax, a: Ipv4.Addr)
    ensures NormalizeRoute(v6, Ipv4.PrintPrefix(Ipv4.Host(a))) == Ok(Ipv4.PrintPrefix(Ipv4.Host(a)))
    ensures Ipv4.PrintPrefix(Ipv4.Host(a)) == Ipv4.PrintAddr(a) + "/32"
  {
    hide Ipv4.ParseAddr, Ipv4.ParsePrefix, Ipv4.PrintAddr;
    var p := Ipv4.Host(a);
    var s := Ipv4.PrintPrefix(p);
    assert Decimal.Itoa(32) == "32" by { assert Decimal.Itoa(3) == "3"; }
    Ipv4.PrefixReads(v6, p);
    Ipv4.PrefixIsNoAddr(v6, p);
    Ipv4.PrintedAddr(v6, a);
    assert Ipv4.QuadChar(s[0]) && s[|s| - 1] == '2';
    TrimOfTrimmed(s);
    assert Ipv4.Masked(p) == p;
  }

  // What the text of a pinned route denotes: an IPv4 address, alone or as a /32.
  function RouteAddr(v6: Ipv4.V6Syntax, text: string): Option<Ipv4.Addr> {
    match Ipv4.ParseAddr(v6, TrimSpace(text))
    case Some(V4(a)) => Some(a)
    case Some(V6) => None
    case None =>
      match Ipv4.ParsePrefix(v6, TrimSpace(text))
      case Some(Net4(p)) => if p.bits == 32 then Some(p.addr) else None
      case _ => None
  }

  // A route is accepted exactly when it denotes an address, and then becomes its /32.
  lemma NormalizeRouteMeaning(v6: Ipv4.V6Syntax, text: string)
    ensures NormalizeRoute(v6, text).Ok? <==> RouteAddr(v6, text).Some?
    ensures RouteAddr(v6, text).Some? ==>
              NormalizeRoute(v6, text) == Ok(Ipv4.PrintPrefix(Ipv4.Host(RouteAddr(v6, text).value)))
  {
    assert Ipv4.Span(32) == 1;
    if RouteAddr(v6, text).Some? {
      NormalRoute(v6, RouteAddr(v6, text).value);
    }
    assert Ipv4.ParseAddr(v6, "").None? && Ipv4.ParsePrefix(v6, "").None?;
  }

  // The index at which a route first occurs, or the length.
  function FirstIndex(routes: seq<string>, route: string): (i: nat)
    ensures i <= |routes|
    ensures i < |routes| ==> routes[i] == route
    ensures route !in routes[..i]
  {
    if routes == [] || routes[0] == route then 0
    else
      var i := FirstIndex(routes[1..], route);
      assert routes[..i + 1] == [routes[0]] + routes[1..][..i];
      i + 1
  }

  lemma {:induction false} FirstIndexSnoc(routes: seq<string>, last: string, route: string)
    ensures route in routes ==> FirstIndex(routes + [last], route) == FirstIndex(routes, route) < |routes|
    ensures route !in routes && route == last ==> FirstIndex(routes + [last], route) == |routes|
  {
    if routes != [] && routes[0] != route {
      assert (routes + [last])[1..] == routes[1..] + [last];
      FirstIndexSnoc(routes[1..], last, route);
    }
  }

  predicate InFirstOrder(some: seq<string>, routes: seq<string>) {
    forall i, j | 0 <= i < j < |some| :: FirstIndex(routes, some[i]) < FirstIndex(routes, some[j])
  }

  // The same routes, each once, in the order they first occur.
  lemma {:induction false} DistinctMeaning(routes: seq<string>)
    ensures forall r :: r in Distinct(routes) <==> r in routes
    ensures InFirstOrder(Distinct(routes), routes)
  {
    if routes != [] {
      var init, last := routes[..|routes| - 1], routes[|routes| - 1];
      assert routes == init + [last];
      DistinctMeaning(init);
      DistinctOrder(Distinct(init), Distinct(routes), init, last);
    }
  }

  lemma DistinctOrder(d': seq<string>, d: seq<string>, init: seq<string>, last: string)
    requires InFirstOrder(d', init) && forall r :: r in d' <==> r in init
    requires d == if last in d' then d' else d' + [last]
    ensures InFirstOrder(d, init + [last])
  {
    forall i, j | 0 <= i < j < |d|
      ensures FirstIndex(init + [last], d[i]) < FirstIndex(init + [last], d[j])
    {
      FirstIndexSnoc(init, last, d[i]);
      FirstIndexSnoc(init, last, d[j]);
      assert d[i] == d'[i] && d[i] in d';
      if j < |d'| {
        assert d[j] == d'[j] && d[j] in d';
      }
    }
  }

  lemma {:induction false} DistinctOfDistinct(routes: seq<string>)
    requires forall i, j | 0 <= i < j < |routes| :: routes[i] != routes[j]
    ensures Distinct(routes) == routes
  {
    if routes != [] {
      var init := routes[..|routes| - 1];
      forall i, j | 0 <= i < j < |init|
        ensures init[i] != init[j]
      {
        assert routes[i] == init[i] && routes[j] == init[j];
      }
      DistinctOfDistinct(init);
      assert routes == init + [routes[|routes| - 1]];
    }
  }

  // The result has the normal form of every route once, in first-occurrence order.
  lemma DistinctEachMeaning(f: Normalizer, routes: seq<string>)
    requires DistinctEach(f, routes).Ok?
    ensures var out := DistinctEach(f, routes).value;
            && (forall i | 0 <= i < |routes| :: f(routes[i]).Ok? && f(routes[i]).value in out)
            && (forall r | r in out :: exists i | 0 <= i < |routes| :: f(routes[i]) == Ok(r))
            && InFirstOrder(out, Each(f, routes).value)
  {
    var each := Each(f, routes).value;
    EachMeaning(f, routes);
    DistinctMeaning(each);
    forall i | 0 <= i < |routes|
      ensures f(routes[i]).Ok? && f(routes[i]).value in Distinct(each)
    {
      assert each[i] in each;
    }
  }

  lemma DistinctEachIdempotent(f: Normalizer, routes: seq<string>)
    requires DistinctEach(f, routes).Ok?
    requires forall r | r in DistinctEach(f, routes).value :: f(r) == Ok(r)
    ensures DistinctEach(f, DistinctEach(f, routes).value) == DistinctEach(f, routes)
  {
    var out := DistinctEach(f, routes).value;
    DistinctEachMeaning(f, routes);
    EachMeaning(f, out);
    assert Each(f, out).value == out;
    DistinctOfDistinct(out);
  }

  // The text of the pinned route of an address.
  function HostRoute(a: Ipv4.Addr): string {
    Ipv4.PrintPrefix(Ipv4.Host(a))
  }

  lemma AcceptedRoute(v6: Ipv4.V6Syntax, text: string)
    requires NormalizeRoute(v6, text).Ok?
    ensures RouteAddr(v6, text).Some? && NormalizeRoute(v6, text) == Ok(HostRoute(RouteAddr(v6, text).value))
    ensures NormalizeRoute(v6, HostRoute(RouteAddr(v6, text).value)) == NormalizeRoute(v6, text)
    ensures Ipv4.ParsePrefix(v6, HostRoute(RouteAddr(v6, text).value)) ==
            Some(Ipv4.Net4(Ipv4.Host(RouteAddr(v6, text).value)))
  {
    NormalizeRouteMeaning(v6, text);
    NormalRoute(v6, RouteAddr(v6, text).value);
    Ipv4.PrefixReads(v6, Ipv4.Host(RouteAddr(v6, text).value));
  }

  // A list is normalised exactly if each of its routes denotes an address.
  lemma NormalizedExactly(v6: Ipv4.V6Syntax, routes: seq<string>)
    ensures Normalized(v6, routes).Ok? <==> forall i | 0 <= i < |routes| :: RouteAddr(v6, routes[i]).Some?
  {
    hide NormalizeRoute, RouteAddr;
    var f := RouteNormalizer(v6);
    EachMeaning(f, routes);
    forall i | 0 <= i < |routes|
      ensures f(routes[i]).Ok? <==> RouteAddr(v6, routes[i]).Some?
    {
      NormalizeRouteMeaning(v6, routes[i]);
    }
  }

  // Every route's address is there, and every entry is some route's address in a form that
  // parses back as its /32.
  lemma NormalizedAddresses(v6: Ipv4.V6Syntax, routes: seq<string>)
    requires Normalized(v6, routes).Ok?
    ensures forall i | 0 <= i < |routes| ::
              RouteAddr(v6, routes[i]).Some?
              && HostRoute(RouteAddr(v6, routes[i]).value) in Normalized(v6, routes).value
    ensures forall r | r in Normalized(v6, routes).value ::
              exists i :: 0 <= i < |routes| && IsNormalOf(v6, r, routes[i])
  {
    hide NormalizeRoute, RouteAddr, HostRoute, Ipv4.ParsePrefix, Ipv4.Host, DistinctEach, IsNormalOf;
    var f := RouteNormalizer(v6);
    var out := Normalized(v6, routes).value;
    DistinctEachMeaning(f, routes);
    forall i | 0 <= i < |routes|
      ensures RouteAddr(v6, routes[i]).Some? && HostRoute(RouteAddr(v6, routes[i]).value) in out
    {
      assert f(routes[i]) == NormalizeRoute(v6, routes[i]);
      AcceptedRoute(v6, routes[i]);
    }
    forall r | r in out
      ensures exists i :: 0 <= i < |routes| && IsNormalOf(v6, r, routes[i])
    {
      var i :| 0 <= i < |routes| && f(routes[i]) == Ok(r);
      NormalOfAccepted(v6, r, routes[i]);
    }
  }

  predicate IsNormalOf(v6: Ipv4.V6Syntax, r: string, text: string) {
    && RouteAddr(v6, text).Some?
    && r == HostRoute(RouteAddr(v6, text).value)
    && Ipv4.ParsePrefix(v6, r) == Some(Ipv4.Net4(Ipv4.Host(RouteAddr(v6, text).value)))
  }

  lemma NormalOfAccepted(v6: Ipv4.V6Syntax, r: string, text: string)
    requires NormalizeRoute(v6, text) == Ok(r)
    ensures IsNormalOf(v6, r, text)
  {
    hide NormalizeRoute, RouteAddr, HostRoute, Ipv4.ParsePrefix;
    AcceptedRoute(v6, text);
  }

  // The routes denote the same addresses before and after, each kept once, in a form that
  // Apply parses back as a /32.
  lemma NormalizedMeaning(v6: Ipv4.V6Syntax, routes: seq<string>)
    requires Normalized(v6, routes).Ok?
    ensures var out := Normalized(v6, routes).value;
            && (forall i | 0 <= i < |routes| ::
                  RouteAddr(v6, routes[i]).Some? && HostRoute(RouteAddr(v6, routes[i]).value) in out)
            && (forall r | r in out :: exists i :: 0 <= i < |routes| && IsNormalOf(v6, r, routes[i]))
            && (forall i, j | 0 <= i < j < |out| :: out[i] != out[j])
            && InFirstOrder(out, Each(RouteNormalizer(v6), routes).value)
  {
    hide Normalized, RouteAddr, HostRoute, IsNormalOf, Each, InFirstOrder;
    NormalizedAddresses(v6, routes);
    NormalizedInOrder(v6, routes);
  }

  lemma NormalizedInOrder(v6: Ipv4.V6Syntax, routes: seq<string>)
    requires Normalized(v6, routes).Ok?
    ensures Each(RouteNormalizer(v6), routes).Ok?
    ensures InFirstOrder(Normalized(v6, routes).value, Each(RouteNormalizer(v6), routes).value)
    ensures var out := Normalized(v6, routes).value; forall i, j | 0 <= i < j < |out| :: out[i] != out[j]
  {
    hide Each, InFirstOrder, Distinct, RouteNormalizer;
    var f := RouteNormalizer(v6);
    DistinctEachMeaning(f, routes);
    OrderedAreDistinct(Normalized(v6, routes).value, Each(f, routes).value);
  }

  lemma OrderedAreDistinct(some: seq<string>, routes: seq<string>)
    requires InFirstOrder(some, routes)
    ensures forall i, j | 0 <= i < j < |some| :: some[i] != some[j]
  {
    hide FirstIndex;
    forall i, j | 0 <= i < j < |some|
      ensures some[i] != some[j]
    {
      assert FirstIndex(routes, some[i]) < FirstIndex(routes, some[j]);
    }
  }

  lemma NormalizedIdempotent(v6: Ipv4.V6Syntax, routes: seq<string>)
    requires Normalized(v6, routes).Ok?
    ensures Normalized(v6, Normalized(v6, routes).value) == Normalized(v6, routes)
  {
    var f := RouteNormalizer(v6);
    DistinctEachMeaning(f, routes);
    forall r | r in Normalized(v6, routes).value
      ensures f(r) == Ok(r)
    {
      var i :| 0 <= i < |routes| && f(routes[i]) == Ok(r);
      AcceptedRoute(v6, routes[i]);
    }
    DistinctEachIdempotent(f, routes);
  }

  // ------------------------------------------------------------- managed configuration

  datatype ConfigError =
    | NoConfigDir
    | RelativeConfigDir
    | PathOutside(what: string)
    | BadInterface(what: string)
    | BadMTU
    | BadPinnedRoute(error: RouteError)

  function RuntimeError(v6: Ipv4.V6Syntax, routes: seq<string>): Option<ConfigError> {
    if routes == [] then None
    else
      match NormalizeRoute(v6, routes[0])
      case Err(e) => Some(BadPinnedRoute(e))
      case Ok(_) => RuntimeError(v6, routes[1..])
  }

  // The first check that fails, if any.
  function ManagedError(v6: Ipv4.V6Syntax, cwd: string, cfg: App): Option<ConfigError> {
    if cfg.configDir == "" then Some(NoConfigDir)
    else if !Paths.IsAbs(cfg.configDir) then Some(RelativeConfigDir)
    else if !Paths.Inside(cwd, cfg.configDir, AppConfigPath(cfg)) then Some(PathOutside("app config path"))
    else if !Paths.Inside(cwd, cfg.configDir, WgConfigPath(cfg)) then Some(PathOutside("wireguard config path"))
    else if !Paths.Inside(cwd, cfg.configDir, cfg.birdConfigPath) then Some(PathOutside("BIRD config path"))
    else if !Bird.ValidInterfaceName(cfg.wireGuard.iface) then Some(BadInterface("wireguard"))
    else if !Bird.ValidInterfaceName(cfg.wireGuard.endpointRouteInterface) then Some(BadInterface("endpoint route"))
    else if cfg.wireGuard.mtu < 576 || cfg.wireGuard.mtu > 9000 then Some(BadMTU)
    else if RuntimeError(v6, cfg.runtime.pinnedClientRoutes).Some? then RuntimeError(v6, cfg.runtime.pinnedClientRoutes)
    else if !Bird.ValidInterfaceName(cfg.bird.WithDefaults().iface) then Some(BadInterface("BIRD"))
    else None
  }

  function AppConfigPath(cfg: App): string {
    Paths.JoinPath(cfg.configDir, "app.yaml")
  }

  function WgConfigPath(cfg: App): string {
    Paths.JoinPath(Paths.JoinPath(cfg.configDir, "wireguard"), "wg0.conf")
  }

  predicate Managed(v6: Ipv4.V6Syntax, cwd: string, cfg: App) {
    ManagedError(v6, cwd, cfg).None?
  }

  // The checks on the program's own two files can never fail: for any absolute state
  // directory both paths are inside it.
  lemma OwnPathsAreInside(cwd: string, cfg: App)
    requires Paths.IsAbs(cfg.configDir)
    ensures Paths.Inside(cwd, cfg.configDir, AppConfigPath(cfg))
    ensures Paths.Inside(cwd, cfg.configDir, WgConfigPath(cfg))
  {
    hide Paths.Elements, Paths.Inside;
    Paths.JoinedIsInside(cwd, cfg.configDir, "app.yaml");
    Paths.JoinedIsInside(cwd, cfg.configDir, "wireguard");
    var dir := Paths.JoinPath(cfg.configDir, "wireguard");
    assert Paths.IsAbs(dir);
    Paths.JoinedIsInside(cwd, dir, "wg0.conf");
    Paths.InsideIsProperPrefix(cwd, cfg.configDir, WgConfigPath(cfg));
  }

  lemma {:induction false} RuntimeErrorMeaning(v6: Ipv4.V6Syntax, routes: seq<string>)
    ensures RuntimeError(v6, routes).None? <==> forall i | 0 <= i < |routes| :: RouteAddr(v6, routes[i]).Some?
  {
    hide NormalizeRoute, RouteAddr;
    if routes != [] {
      NormalizeRouteMeaning(v6, routes[0]);
      RuntimeErrorMeaning(v6, routes[1..]);
      assert forall i | 1 <= i < |routes| :: routes[i] == routes[1..][i - 1];
    }
  }

  // What an accepted configuration amounts to.
  lemma ManagedMeaning(v6: Ipv4.V6Syntax, cwd: string, cfg: App)
    ensures Managed(v6, cwd, cfg) <==>
            && Paths.IsAbs(cfg.configDir)
            && Paths.Elements(cwd, cfg.configDir) < Paths.Elements(cwd, cfg.birdConfigPath)
            && Bird.IsName(cfg.wireGuard.iface) && Bird.IsName(cfg.wireGuard.endpointRouteInterface)
            && 576 <= cfg.wireGuard.mtu <= 9000
            && (forall i | 0 <= i < |cfg.runtime.pinnedClientRoutes| ::
                 RouteAddr(v6, cfg.runtime.pinnedClientRoutes[i]).Some?)
            && Bird.IsName(if cfg.bird.iface == "" then "wg0" else cfg.bird.iface)
  {
    hide Bird.IsName, Bird.ValidInterfaceName;
    Bird.NameExactly(cfg.wireGuard.iface);
    Bird.NameExactly(cfg.wireGuard.endpointRouteInterface);
    Bird.NameExactly(cfg.bird.WithDefaults().iface);
    if Paths.IsAbs(cfg.configDir) {
      OwnPathsAreInside(cwd, cfg);
    }
    Paths.InsideIsProperPrefix(cwd, cfg.configDir, cfg.birdConfigPath);
    RuntimeErrorMeaning(v6, cfg.runtime.pinnedClientRoutes);
  }

  // A BIRD file that is named by climbing out of the state directory is refused.
  lemma ClimbingPathRefused(v6: Ipv4.V6Syntax, cwd: string, cfg: App, name: string)
    requires Paths.CleanName(name) && Paths.Elements(cwd, cfg.configDir) != []
    ensures !Managed(v6, cwd, cfg.(birdConfigPath := cfg.configDir + "/../" + name))
  {
    hide Managed, Paths.Elements, Paths.Inside;
    if Paths.IsAbs(cfg.configDir) {
      Paths.ClimbIsOutside(cwd, cfg.configDir, name);
    }
    PathRefused(v6, cwd, cfg.(birdConfigPath := cfg.configDir + "/../" + name));
  }

  lemma PathRefused(v6: Ipv4.V6Syntax, cwd: string, cfg: App)
    requires !Paths.IsAbs(cfg.configDir) || !Paths.Inside(cwd, cfg.configDir, cfg.birdConfigPath)
    ensures !Managed(v6, cwd, cfg)
  {
    hide Paths.Inside, Bird.ValidInterfaceName, RuntimeError;
  }

  // Nothing keeps the interface for host routes apart from the tunnel: an accepted
  // configuration stays accepted when they are made the same.
  lemma UnderlayMayBeTunnel(v6: Ipv4.V6Syntax, cwd: string, cfg: App)
    requires Managed(v6, cwd, cfg)
    ensures Managed(v6, cwd, cfg.(wireGuard := cfg.wireGuard.(endpointRouteInterface := cfg.bird.WithDefaults().iface)))
  {
    hide Managed, Bird.IsName, RouteAddr;
    ManagedMeaning(v6, cwd, cfg);
    ManagedMeaning(v6, cwd, cfg.(wireGuard := cfg.wireGuard.(endpointRouteInterface := cfg.bird.WithDefaults().iface)));
  }
}
