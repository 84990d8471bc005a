/** What Apply does to the routing table: which commands it runs, what every intermediate
    table forwards, and what the table is at the end. */
module RouteLaws {
  import opened Options
  import opened Text
  import Decimal
  import Ipv4
  import AppConfig
  import opened Kernel
  import opened Routes

  // ------------------------------------------------------------- tables

  function Overlay(t: Table, keys: seq<Ipv4.Prefix>, hop: Hop): Table
    decreases |keys|
  {
    if keys == [] then t else Overlay(t[keys[0] := hop], keys[1..], hop)
  }

  lemma {:induction false} OverlayMeaning(t: Table, keys: seq<Ipv4.Prefix>, hop: Hop)
    ensures Overlay(t, keys, hop).Keys == t.Keys + set k | k in keys
    ensures forall p | p in Overlay(t, keys, hop) :: Overlay(t, keys, hop)[p] == if p in keys then hop else t[p]
    decreases |keys|
  {
    if keys != [] {
      OverlayMeaning(t[keys[0] := hop], keys[1..], hop);
    }
  }

  lemma {:induction false} OverlayAppend(t: Table, a: seq<Ipv4.Prefix>, b: seq<Ipv4.Prefix>, hop: Hop)
    ensures Overlay(Overlay(t, a, hop), b, hop) == Overlay(t, a + b, hop)
    decreases |a|
  {
    if a == [] {
      assert a + b == b;
    } else {
      assert (a + b)[1..] == a[1..] + b;
      OverlayAppend(t[a[0] := hop], a[1..], b, hop);
    }
  }

  function Hosts(addrs: seq<Ipv4.Addr>): (r: seq<Ipv4.Prefix>)
    ensures |r| == |addrs| && forall i | 0 <= i < |addrs| :: r[i] == Ipv4.Host(addrs[i])
  {
    if addrs == [] then [] else [Ipv4.Host(addrs[0])] + Hosts(addrs[1..])
  }

  lemma HostsHas(addrs: seq<Ipv4.Addr>, a: Ipv4.Addr)
    ensures Ipv4.Host(a) in Hosts(addrs) <==> a in addrs
  {
    if a in addrs {
      var i :| 0 <= i < |addrs| && addrs[i] == a;
      assert Hosts(addrs)[i] == Ipv4.Host(a);
    }
  }

  // The addresses of the pinned client routes that have one.
  function ClientAddrs(v6: Ipv4.V6Syntax, routes: seq<string>): seq<Ipv4.Addr> {
    if routes == [] then []
    else
      (match PinnedAddr(v6, routes[0])
       case Some(a) => [a]
       case None => [])
      + ClientAddrs(v6, routes[1..])
  }

  // The IPv4 prefixes among the advertised routes.
  function AdvertisedKeys(v6: Ipv4.V6Syntax, routes: seq<string>): seq<Ipv4.Prefix> {
    if routes == [] then []
    else
      (match Ipv4.ParsePrefix(v6, routes[0])
       case Some(Net4(p)) => [p]
       case _ => [])
      + AdvertisedKeys(v6, routes[1..])
  }

  function PinsOf(v6: Ipv4.V6Syntax, plan: Plan): seq<Ipv4.Addr> {
    plan.endpoints + ClientAddrs(v6, plan.clients)
  }

  // The gateway a host route gets: the configured one, or the discovered one.
  function PinVia(t: Table, u: Underlay): Option<Ipv4.Addr> {
    if u.via != "" then Ipv4.ParseQuad(u.via) else Gateway(t, u.iface)
  }

  // ------------------------------------------------------------- one host route

  lemma HostDest(v6: Ipv4.V6Syntax, a: Ipv4.Addr)
    ensures Ipv4.PrintAddr(a) + "/32" == AppConfig.HostRoute(a)
    ensures Ipv4.ParsePrefix(v6, AppConfig.HostRoute(a)) == Some(Ipv4.Net4(Ipv4.Host(a)))
    ensures Ipv4.IsMasked(Ipv4.Host(a))
  {
    AppConfig.NormalRoute(v6, a);
    Ipv4.PrefixReads(v6, Ipv4.Host(a));
    assert Ipv4.Span(32) == 1;
  }

  lemma ReplaceHost(env: Env, w: World, a: Ipv4.Addr, via: string, dev: string)
    ensures var r := ReplaceRun(env, w, RouteReplace(AppConfig.HostRoute(a), via, dev));
            r.w.routes == if Succeeded(r) then w.routes[Ipv4.Host(a) := Hop(Ipv4.ParseQuad(via), dev)] else w.routes
  {
    hide Ipv4.ParsePrefix, Ipv4.ParseQuad, AppConfig.HostRoute, DefaultText;
    HostDest(env.v6, a);
  }

  lemma HostRouteEffect(env: Env, w: World, u: Underlay, a: Ipv4.Addr)
    ensures var r := HostRouteRun(env, w, u, a);
            r.w.routes == if Succeeded(r) then w.routes[Ipv4.Host(a) := Hop(PinVia(w.routes, u), u.iface)] else w.routes
  {
    hide Ipv4.ParsePrefix, Ipv4.ParseQuad, Fields, DefaultText;
    HostDest(env.v6, a);
    if u.via != "" {
      ReplaceHost(env, w, a, u.via, u.iface);
    } else {
      var shown := Exec(env, w, ShowDefault(u.iface));
      DiscoveredGateway(w.routes, u.iface, env.fates(|w.log|).output);
      ReplaceHost(env, shown.w, a, GatewayWord(Fields(shown.reply.output)), u.iface);
    }
  }

  // A host route never changes the default route, so every pin of a run finds the same
  // gateway.
  lemma PinKeepsGateway(t: Table, a: Ipv4.Addr, hop: Hop, u: Underlay)
    ensures PinVia(t[Ipv4.Host(a) := hop], u) == PinVia(t, u)
  {
  }

  lemma {:induction false} EndpointsEffect(env: Env, w: World, u: Underlay, addrs: seq<Ipv4.Addr>)
    requires Succeeded(EndpointsRun(env, w, u, addrs))
    ensures EndpointsRun(env, w, u, addrs).w.routes ==
            Overlay(w.routes, Hosts(addrs), Hop(PinVia(w.routes, u), u.iface))
    ensures PinVia(EndpointsRun(env, w, u, addrs).w.routes, u) == PinVia(w.routes, u)
    decreases |addrs|
  {
    if addrs != [] {
      var r := HostRouteRun(env, w, u, addrs[0]);
      HostRouteEffect(env, w, u, addrs[0]);
      PinKeepsGateway(w.routes, addrs[0], Hop(PinVia(w.routes, u), u.iface), u);
      EndpointsEffect(env, r.w, u, addrs[1..]);
      assert Hosts(addrs)[1..] == Hosts(addrs[1..]);
    }
  }

  lemma {:induction false} ClientsAreEndpoints(env: Env, w: World, u: Underlay, routes: seq<string>)
    requires Succeeded(ClientsRun(env, w, u, routes))
    ensures ClientsRun(env, w, u, routes) == EndpointsRun(env, w, u, ClientAddrs(env.v6, routes))
    decreases |routes|
  {
    if routes != [] {
      var a := PinnedAddr(env.v6, routes[0]).value;
      assert ClientAddrs(env.v6, routes)[1..] == ClientAddrs(env.v6, routes[1..]);
      ClientsAreEndpoints(env, HostRouteRun(env, w, u, a).w, u, routes[1..]);
    }
  }

  lemma AdvertiseOne(env: Env, w: World, route: string, net: Ipv4.Net, tunnel: string)
    requires Ipv4.ParsePrefix(env.v6, route) == Some(net)
    ensures Ipv4.ParsePrefix(env.v6, Dest(route, net)) == Some(net)
    ensures var r := ReplaceRun(env, w, RouteReplace(Dest(route, net), "", tunnel));
            && (Succeeded(r) && net.Net4? ==> Ipv4.IsMasked(net.prefix))
            && r.w.routes == if Succeeded(r) && net.Net4? then w.routes[net.prefix := Hop(None, tunnel)] else w.routes
  {
    EmptyVia();
    hide Ipv4.ParsePrefix, Ipv4.ParseQuad, Ipv4.PrintPrefix;
    if net.Net4? {
      Ipv4.PrefixReads(env.v6, net.prefix);
    }
  }

  lemma EmptyVia()
    ensures Ipv4.ParseQuad("").None?
  {
  }

  lemma {:induction false} AdvertiseEffect(env: Env, w: World, tunnel: string, routes: seq<string>)
    requires Succeeded(AdvertiseRun(env, w, tunnel, routes))
    ensures AdvertiseRun(env, w, tunnel, routes).w.routes ==
            Overlay(w.routes, AdvertisedKeys(env.v6, routes), Hop(None, tunnel))
    decreases |routes|
  {
    if routes != [] {
      var net := Ipv4.ParsePrefix(env.v6, routes[0]).value;
      AdvertiseOne(env, w, routes[0], net, tunnel);
      AdvertiseEffect(env, ReplaceRun(env, w, RouteReplace(Dest(routes[0], net), "", tunnel)).w, tunnel, routes[1..]);
      var keys := AdvertisedKeys(env.v6, routes);
      if net.Net4? {
        assert keys == [net.prefix] + AdvertisedKeys(env.v6, routes[1..]);
      } else {
        assert keys == AdvertisedKeys(env.v6, routes[1..]);
      }
    }
  }

  function PlanTable(v6: Ipv4.V6Syntax, t: Table, plan: Plan): Table {
    Overlay(Overlay(t, Hosts(PinsOf(v6, plan)), Hop(PinVia(t, plan.u), plan.u.iface)),
            AdvertisedKeys(v6, plan.advertised), Hop(None, plan.tunnel))
  }

  lemma HostsAppend(a: seq<Ipv4.Addr>, b: seq<Ipv4.Addr>)
    ensures Hosts(a + b) == Hosts(a) + Hosts(b)
  {
    hide Ipv4.Host;
    assert forall i | 0 <= i < |a + b| :: Hosts(a + b)[i] == Ipv4.Host((a + b)[i]);
  }

  // The two pinning loops set every pin through one and the same gateway.
  lemma PinsEffect(env: Env, w: World, plan: Plan)
    requires Succeeded(EndpointsRun(env, w, plan.u, plan.endpoints))
    requires Succeeded(ClientsRun(env, EndpointsRun(env, w, plan.u, plan.endpoints).w, plan.u, plan.clients))
    ensures ClientsRun(env, EndpointsRun(env, w, plan.u, plan.endpoints).w, plan.u, plan.clients).w.routes ==
            Overlay(w.routes, Hosts(PinsOf(env.v6, plan)), Hop(PinVia(w.routes, plan.u), plan.u.iface))
  {
    hide EndpointsRun, ClientsRun, PinVia, Overlay, ClientAddrs, Hosts;
    var r1 := EndpointsRun(env, w, plan.u, plan.endpoints);
    var clients := ClientAddrs(env.v6, plan.clients);
    EndpointsEffect(env, w, plan.u, plan.endpoints);
    ClientsAreEndpoints(env, r1.w, plan.u, plan.clients);
    EndpointsEffect(env, r1.w, plan.u, clients);
    OverlayAppend(w.routes, Hosts(plan.endpoints), Hosts(clients), Hop(PinVia(w.routes, plan.u), plan.u.iface));
    HostsAppend(plan.endpoints, clients);
  }

  // The table after a successful run: every endpoint and client pinned to the underlay
  // through one gateway, then every advertised prefix sent into the tunnel.
  lemma PlanEffect(env: Env, w: World, plan: Plan)
    requires Succeeded(PlanRun(env, w, plan))
    ensures PlanRun(env, w, plan).w.routes == PlanTable(env.v6, w.routes, plan)
  {
    hide EndpointsRun, ClientsRun, AdvertiseRun, PinVia, Overlay, AdvertisedKeys, PinsOf, Hosts;
    var r1 := EndpointsRun(env, w, plan.u, plan.endpoints);
    var r2 := ClientsRun(env, r1.w, plan.u, plan.clients);
    PinsEffect(env, w, plan);
    AdvertiseEffect(env, r2.w, plan.tunnel, plan.advertised);
  }

  // ------------------------------------------------------------- after a successful run

  predicate Advertised(v6: Ipv4.V6Syntax, plan: Plan, a: Ipv4.Addr) {
    Ipv4.Host(a) in AdvertisedKeys(v6, plan.advertised)
  }

  predicate LeavesThrough(t: Table, a: Ipv4.Addr, dev: string) {
    Lookup(t, a).Some? && Lookup(t, a).value.dev == dev
  }

  // An endpoint or pinned client is kept out of the tunnel exactly when host routes do not
  // themselves go into it and its own /32 is not advertised. The configuration checks ask
  // for neither.
  lemma PinHoldsExactly(env: Env, w: World, plan: Plan, a: Ipv4.Addr)
    requires Succeeded(PlanRun(env, w, plan)) && a in PinsOf(env.v6, plan)
    ensures var end := PlanRun(env, w, plan).w.routes;
            && (LeavesThrough(end, a, plan.tunnel) <==> plan.u.iface == plan.tunnel || Advertised(env.v6, plan, a))
            && (!Advertised(env.v6, plan, a) ==> LeavesThrough(end, a, plan.u.iface))
  {
    PlanEffect(env, w, plan);
    var pins := Hosts(PinsOf(env.v6, plan));
    var hop := Hop(PinVia(w.routes, plan.u), plan.u.iface);
    HostsHas(PinsOf(env.v6, plan), a);
    OverlayMeaning(w.routes, pins, hop);
    OverlayMeaning(Overlay(w.routes, pins, hop), AdvertisedKeys(env.v6, plan.advertised), Hop(None, plan.tunnel));
    HostRouteWins(PlanRun(env, w, plan).w.routes, a);
  }

  // The prefixes that lead into the tunnel after a run: the advertised ones, the pins if
  // host routes go there, and those that led there before and are not pinned.
  predicate LeadsIn(v6: Ipv4.V6Syntax, t: Table, plan: Plan, k: Ipv4.Prefix) {
    || k in AdvertisedKeys(v6, plan.advertised)
    || (k in Hosts(PinsOf(v6, plan)) && plan.u.iface == plan.tunnel)
    || (k in t && t[k].dev == plan.tunnel && k !in Hosts(PinsOf(v6, plan)))
  }

  predicate Outranked(v6: Ipv4.V6Syntax, t: Table, plan: Plan, a: Ipv4.Addr, k: Ipv4.Prefix, q: Ipv4.Prefix) {
    (q in t || q in Hosts(PinsOf(v6, plan))) && Ipv4.IsMasked(q) && Ipv4.Holds(q, a) && q.bits > k.bits
  }

  // The prefix sends the address into the tunnel.
  ghost predicate Enters(v6: Ipv4.V6Syntax, t: Table, plan: Plan, a: Ipv4.Addr, k: Ipv4.Prefix) {
    && LeadsIn(v6, t, plan, k) && Ipv4.IsMasked(k) && Ipv4.Holds(k, a)
    && forall q :: !Outranked(v6, t, plan, a, k, q)
  }

  // After a successful run an address is sent into the tunnel exactly when a prefix that
  // leads there holds it and no pin or route from before that holds it is more specific.
  lemma TunnelledExactly(env: Env, w: World, plan: Plan, a: Ipv4.Addr)
    requires Succeeded(PlanRun(env, w, plan)) && WellFormed(w)
    ensures LeavesThrough(PlanRun(env, w, plan).w.routes, a, plan.tunnel) <==>
            exists k :: Enters(env.v6, w.routes, plan, a, k)
  {
    hide PlanRun, Lookup, Enters, WellFormed, PinsOf, PinVia, Overlay, AdvertisedKeys;
    PlanEffect(env, w, plan);
    PlanKeepsWellFormed(env, w, plan);
    var end := PlanTable(env.v6, w.routes, plan);
    assert WellKeyed(end) by { KeyedWhenFormed(PlanRun(env, w, plan).w); }
    PlanTableMeaning(env.v6, w.routes, plan);
    if LeavesThrough(end, a, plan.tunnel) {
      LookupIsLongestMatch(end, a, Lookup(end, a).value);
      var p :| IsLongestMatch(end, a, p) && end[p] == Lookup(end, a).value;
      LongestEnters(env.v6, w.routes, plan, a, p);
    }
    if k :| Enters(env.v6, w.routes, plan, a, k) {
      EnteringIsTaken(env.v6, w.routes, plan, a, k);
    }
  }

  lemma KeyedWhenFormed(w: World)
    requires WellFormed(w)
    ensures WellKeyed(w.routes)
  {
  }

  lemma PlanTableMeaning(v6: Ipv4.V6Syntax, t: Table, plan: Plan)
    ensures var end, keys := PlanTable(v6, t, plan), AdvertisedKeys(v6, plan.advertised);
            && (forall p :: p in end <==> p in t || p in Hosts(PinsOf(v6, plan)) || p in keys)
            && (forall p | p in end :: end[p].dev == plan.tunnel <==> LeadsIn(v6, t, plan, p))
  {
    hide Overlay, AdvertisedKeys, PinsOf, PinVia;
    var pins, hop := Hosts(PinsOf(v6, plan)), Hop(PinVia(t, plan.u), plan.u.iface);
    OverlayMeaning(t, pins, hop);
    OverlayMeaning(Overlay(t, pins, hop), AdvertisedKeys(v6, plan.advertised), Hop(None, plan.tunnel));
  }

  lemma LongestEnters(v6: Ipv4.V6Syntax, t: Table, plan: Plan, a: Ipv4.Addr, p: Ipv4.Prefix)
    requires IsLongestMatch(PlanTable(v6, t, plan), a, p) && PlanTable(v6, t, plan)[p].dev == plan.tunnel
    ensures Enters(v6, t, plan, a, p)
  {
    hide PlanTable, AdvertisedKeys, PinsOf, Hosts, Ipv4.Holds, Ipv4.IsMasked;
    PlanTableMeaning(v6, t, plan);
  }

  lemma EnteringIsTaken(v6: Ipv4.V6Syntax, t: Table, plan: Plan, a: Ipv4.Addr, k: Ipv4.Prefix)
    requires WellKeyed(PlanTable(v6, t, plan)) && Enters(v6, t, plan, a, k)
    ensures LeavesThrough(PlanTable(v6, t, plan), a, plan.tunnel)
  {
    hide PlanTable, AdvertisedKeys, PinsOf, Hosts, Ipv4.Holds, Ipv4.IsMasked, Lookup;
    var end := PlanTable(v6, t, plan);
    PlanTableMeaning(v6, t, plan);
    assert k in end;
    LookupIsLongestMatch(end, a, Hop(None, ""));
    LookupIsLongestMatch(end, a, Lookup(end, a).value);
    var p :| IsLongestMatch(end, a, p) && end[p] == Lookup(end, a).value;
    if p !in AdvertisedKeys(v6, plan.advertised) {
      assert !Outranked(v6, t, plan, a, k, p);
      assert p.bits == k.bits;
      Ipv4.HoldsIsCover(k, a);
      Ipv4.HoldsIsCover(p, a);
    }
  }

  // Running Apply again changes nothing, except in one case: no gateway is configured, the
  // default route itself is advertised, and the first run found a gateway that the second
  // one then no longer finds.
  lemma ApplyIdempotentExactly(env: Env, w: World, plan: Plan)
    requires var r := PlanRun(env, w, plan); Succeeded(r) && Succeeded(PlanRun(env, r.w, plan))
    ensures var r := PlanRun(env, w, plan);
            PlanRun(env, r.w, plan).w.routes == r.w.routes <==>
            || plan.u.via != ""
            || DEFAULT_ROUTE !in AdvertisedKeys(env.v6, plan.advertised)
            || Gateway(w.routes, plan.u.iface).None?
            || (forall a | a in PinsOf(env.v6, plan) :: Advertised(env.v6, plan, a))
  {
    var r := PlanRun(env, w, plan);
    PlanEffect(env, w, plan);
    PlanEffect(env, r.w, plan);
    var pins, keys := PinsOf(env.v6, plan), AdvertisedKeys(env.v6, plan.advertised);
    var h1, h2 := Hop(PinVia(w.routes, plan.u), plan.u.iface), Hop(PinVia(r.w.routes, plan.u), plan.u.iface);
    var into := Hop(None, plan.tunnel);
    SecondGateway(env, w, plan);
    OverlayTwice(w.routes, Hosts(pins), h1, h2, keys, into);
    forall a | a in pins
      ensures Ipv4.Host(a) in Hosts(pins)
    {
      HostsHas(pins, a);
    }
    if forall a | a in pins :: Advertised(env.v6, plan, a) {
      forall i | 0 <= i < |Hosts(pins)|
        ensures Hosts(pins)[i] in keys
      {
        assert Advertised(env.v6, plan, pins[i]);
      }
    }
  }

  lemma SecondGateway(env: Env, w: World, plan: Plan)
    requires Succeeded(PlanRun(env, w, plan))
    ensures PinVia(PlanRun(env, w, plan).w.routes, plan.u) ==
            if plan.u.via == "" && DEFAULT_ROUTE in AdvertisedKeys(env.v6, plan.advertised) then None
            else PinVia(w.routes, plan.u)
  {
    PlanEffect(env, w, plan);
    var pins := Hosts(PinsOf(env.v6, plan));
    var hop := Hop(PinVia(w.routes, plan.u), plan.u.iface);
    OverlayMeaning(w.routes, pins, hop);
    OverlayMeaning(Overlay(w.routes, pins, hop), AdvertisedKeys(env.v6, plan.advertised), Hop(None, plan.tunnel));
    assert DEFAULT_ROUTE !in pins;
  }

  // Nothing has been changed on the way from one to the other, at any step.
  predicate Quiet(w: World, w': World) {
    && |w.log| <= |w'.log| && w'.log[..|w.log|] == w.log && w'.routes == w.routes
    && forall i | |w.log| <= i < |w'.log| :: w'.log[i].after == w.routes
  }

  lemma QuietTrans(w: World, w1: World, w2: World)
    requires Quiet(w, w1) && Quiet(w1, w2)
    ensures Quiet(w, w2)
  {
    assert w2.log[..|w.log|] == w2.log[..|w1.log|][..|w.log|];
    forall i | |w.log| <= i < |w2.log|
      ensures w2.log[i].after == w.routes
    {
      if i < |w1.log| {
        assert w2.log[i] == w2.log[..|w1.log|][i];
      }
    }
  }

  lemma ExecQuiet(env: Env, w: World, cmd: Command)
    requires Exec(env, w, cmd).w.routes == w.routes
    ensures Quiet(w, Exec(env, w, cmd).w)
  {
    hide Feasible, Effect, Attempt, DefaultText, NoDevice;
    ExecLog(env, w, cmd);
  }

  predicate HasRoute(t: Table, p: Ipv4.Prefix, hop: Hop) {
    p in t && t[p] == hop
  }

  lemma HostRouteQuiet(env: Env, w: World, u: Underlay, a: Ipv4.Addr)
    requires HasRoute(w.routes, Ipv4.Host(a), Hop(PinVia(w.routes, u), u.iface))
    ensures Quiet(w, HostRouteRun(env, w, u, a).w)
  {
    hide Exec, PinVia, Fields, GatewayWord, Ipv4.PrintAddr;
    HostRouteEffect(env, w, u, a);
    var same := w.routes[Ipv4.Host(a) := Hop(PinVia(w.routes, u), u.iface)];
    assert same == w.routes;
    var dest := Ipv4.PrintAddr(a) + "/32";
    if u.via != "" {
      ExecQuiet(env, w, RouteReplace(dest, u.via, u.iface));
    } else {
      var shown := Exec(env, w, ShowDefault(u.iface));
      ShowQuiet(env, w, u.iface);
      ExecQuiet(env, w, ShowDefault(u.iface));
      if shown.reply.ok {
        var replace := RouteReplace(dest, GatewayWord(Fields(shown.reply.output)), u.iface);
        ExecQuiet(env, shown.w, replace);
        QuietTrans(w, shown.w, Exec(env, shown.w, replace).w);
      }
    }
  }

  lemma ShowQuiet(env: Env, w: World, dev: string)
    ensures Exec(env, w, ShowDefault(dev)).w.routes == w.routes
  {
    hide DefaultText;
  }

  lemma {:induction false} EndpointsQuiet(env: Env, w: World, u: Underlay, addrs: seq<Ipv4.Addr>)
    requires forall a | a in addrs :: HasRoute(w.routes, Ipv4.Host(a), Hop(PinVia(w.routes, u), u.iface))
    ensures Quiet(w, EndpointsRun(env, w, u, addrs).w)
    decreases |addrs|
  {
    hide Quiet, HostRouteRun, HasRoute, PinVia;
    if addrs == [] {
      NothingQuiet(w);
    } else {
      var r := HostRouteRun(env, w, u, addrs[0]);
      HostRouteQuiet(env, w, u, addrs[0]);
      SameRoutes(w, r.w);
      if Succeeded(r) {
        EndpointsQuiet(env, r.w, u, addrs[1..]);
        QuietTrans(w, r.w, EndpointsRun(env, r.w, u, addrs[1..]).w);
      }
    }
  }

  lemma NothingQuiet(w: World)
    ensures Quiet(w, w)
  {
    assert w.log[..|w.log|] == w.log;
  }

  lemma SameRoutes(w: World, w': World)
    requires Quiet(w, w')
    ensures w'.routes == w.routes
  {
  }

  lemma {:induction false} ClientsQuiet(env: Env, w: World, u: Underlay, routes: seq<string>)
    requires forall a | a in ClientAddrs(env.v6, routes) ::
            HasRoute(w.routes, Ipv4.Host(a), Hop(PinVia(w.routes, u), u.iface))
    ensures Quiet(w, ClientsRun(env, w, u, routes).w)
    decreases |routes|
  {
    hide Quiet, HostRouteRun, HasRoute, PinVia, PinnedAddr;
    if routes == [] || PinnedAddr(env.v6, routes[0]).None? {
      NothingQuiet(w);
    } else {
      var a := PinnedAddr(env.v6, routes[0]).value;
      var r := HostRouteRun(env, w, u, a);
      assert ClientAddrs(env.v6, routes) == [a] + ClientAddrs(env.v6, routes[1..]);
      assert a in ClientAddrs(env.v6, routes);
      HostRouteQuiet(env, w, u, a);
      SameRoutes(w, r.w);
      if Succeeded(r) {
        ClientsQuiet(env, r.w, u, routes[1..]);
        QuietTrans(w, r.w, ClientsRun(env, r.w, u, routes[1..]).w);
      }
    }
  }

  lemma AdvertiseOneQuiet(env: Env, w: World, route: string, net: Ipv4.Net, tunnel: string)
    requires Ipv4.ParsePrefix(env.v6, route) == Some(net)
    requires net.Net4? ==> HasRoute(w.routes, net.prefix, Hop(None, tunnel))
    ensures Quiet(w, ReplaceRun(env, w, RouteReplace(Dest(route, net), "", tunnel)).w)
  {
    hide Exec, Ipv4.ParsePrefix, Dest;
    AdvertiseOne(env, w, route, net, tunnel);
    if net.Net4? {
      assert w.routes[net.prefix := Hop(None, tunnel)] == w.routes;
    }
    ExecQuiet(env, w, RouteReplace(Dest(route, net), "", tunnel));
  }

  lemma {:induction false} AdvertiseQuiet(env: Env, w: World, tunnel: string, routes: seq<string>)
    requires forall p | p in AdvertisedKeys(env.v6, routes) :: HasRoute(w.routes, p, Hop(None, tunnel))
    ensures Quiet(w, AdvertiseRun(env, w, tunnel, routes).w)
    decreases |routes|
  {
    hide Quiet, ReplaceRun, HasRoute, Ipv4.ParsePrefix, Dest;
    if routes == [] || Ipv4.ParsePrefix(env.v6, routes[0]).None? {
      NothingQuiet(w);
    } else {
      var net := Ipv4.ParsePrefix(env.v6, routes[0]).value;
      var r := ReplaceRun(env, w, RouteReplace(Dest(routes[0], net), "", tunnel));
      if net.Net4? {
        assert AdvertisedKeys(env.v6, routes) == [net.prefix] + AdvertisedKeys(env.v6, routes[1..]);
        assert net.prefix in AdvertisedKeys(env.v6, routes);
      } else {
        assert AdvertisedKeys(env.v6, routes) == AdvertisedKeys(env.v6, routes[1..]);
      }
      AdvertiseOneQuiet(env, w, routes[0], net, tunnel);
      SameRoutes(w, r.w);
      if Succeeded(r) {
        AdvertiseQuiet(env, r.w, tunnel, routes[1..]);
        QuietTrans(w, r.w, AdvertiseRun(env, r.w, tunnel, routes[1..]).w);
      }
    }
  }

  // The first run's table, as the second finds it.
  predicate InPlace(v6: Ipv4.V6Syntax, t: Table, plan: Plan) {
    && (forall a | a in PinsOf(v6, plan) :: HasRoute(t, Ipv4.Host(a), Hop(PinVia(t, plan.u), plan.u.iface)))
    && (forall p | p in AdvertisedKeys(v6, plan.advertised) :: HasRoute(t, p, Hop(None, plan.tunnel)))
  }

  lemma RunInPlaceIsQuiet(env: Env, w: World, plan: Plan)
    requires InPlace(env.v6, w.routes, plan)
    ensures Quiet(w, PlanRun(env, w, plan).w)
  {
    hide Quiet, HasRoute, PinVia, ClientAddrs, AdvertisedKeys, EndpointsRun, ClientsRun, AdvertiseRun;
    var r1 := EndpointsRun(env, w, plan.u, plan.endpoints);
    EndpointsQuiet(env, w, plan.u, plan.endpoints);
    SameRoutes(w, r1.w);
    if Succeeded(r1) {
      var r2 := ClientsRun(env, r1.w, plan.u, plan.clients);
      ClientsQuiet(env, r1.w, plan.u, plan.clients);
      SameRoutes(r1.w, r2.w);
      QuietTrans(w, r1.w, r2.w);
      if Succeeded(r2) {
        AdvertiseQuiet(env, r2.w, plan.tunnel, plan.advertised);
        QuietTrans(w, r2.w, AdvertiseRun(env, r2.w, plan.tunnel, plan.advertised).w);
      }
    }
  }

  // A second run, also one that stops at a failed command, changes nothing at any step if
  // the same gateway is found again and no pin is advertised.
  lemma SecondRunQuiet(env: Env, w: World, plan: Plan)
    requires Succeeded(PlanRun(env, w, plan))
    requires plan.u.via != "" || DEFAULT_ROUTE !in AdvertisedKeys(env.v6, plan.advertised)
             || Gateway(w.routes, plan.u.iface).None?
    requires forall a | a in PinsOf(env.v6, plan) :: !Advertised(env.v6, plan, a)
    ensures var first := PlanRun(env, w, plan); Quiet(first.w, PlanRun(env, first.w, plan).w)
  {
    hide PlanRun, Quiet, AdvertisedKeys, PinsOf;
    var t := PlanRun(env, w, plan).w.routes;
    var pins, hop := Hosts(PinsOf(env.v6, plan)), Hop(PinVia(w.routes, plan.u), plan.u.iface);
    PlanEffect(env, w, plan);
    SecondGateway(env, w, plan);
    assert PinVia(t, plan.u) == PinVia(w.routes, plan.u);
    hide PinVia;
    OverlayMeaning(w.routes, pins, hop);
    OverlayMeaning(Overlay(w.routes, pins, hop), AdvertisedKeys(env.v6, plan.advertised), Hop(None, plan.tunnel));
    hide Overlay;
    forall a | a in PinsOf(env.v6, plan)
      ensures HasRoute(t, Ipv4.Host(a), hop)
    {
      HostsHas(PinsOf(env.v6, plan), a);
      assert !Advertised(env.v6, plan, a);
    }
    RunInPlaceIsQuiet(env, PlanRun(env, w, plan).w, plan);
  }

  // An advertised route with host bits set passes the checks of the BIRD configuration, and
  // then no run of Apply ever succeeds: the kernel refuses the prefix.
  lemma HostBitsRefused(env: Env, w: World, plan: Plan, p: Ipv4.Prefix)
    requires p.bits <= Ipv4.MAX_BITS && !Ipv4.IsMasked(p) && Ipv4.PrintPrefix(p) in plan.advertised
    ensures Ipv4.ParsePrefix(env.v6, Ipv4.PrintPrefix(p)) == Some(Ipv4.Net4(p))
    ensures !Succeeded(PlanRun(env, w, plan))
  {
    hide PlanRun, Ipv4.ParsePrefix, Ipv4.PrintPrefix, Ipv4.IsMasked;
    Ipv4.PrefixReads(env.v6, p);
    if Succeeded(PlanRun(env, w, plan)) {
      AdvertisedWereMasked(env, w, plan, Ipv4.PrintPrefix(p));
    }
  }

  lemma AdvertisedWereMasked(env: Env, w: World, plan: Plan, route: string)
    requires Succeeded(PlanRun(env, w, plan)) && route in plan.advertised
    ensures match Ipv4.ParsePrefix(env.v6, route)
            case Some(Net4(p)) => Ipv4.IsMasked(p)
            case _ => true
  {
    hide EndpointsRun, ClientsRun, AdvertiseRun, Ipv4.ParsePrefix, Ipv4.IsMasked;
    var r1 := EndpointsRun(env, w, plan.u, plan.endpoints);
    var r2 := ClientsRun(env, r1.w, plan.u, plan.clients);
    AllMasked(env, r2.w, plan.tunnel, plan.advertised, route);
  }

  lemma {:induction false} AllMasked(env: Env, w: World, tunnel: string, routes: seq<string>, route: string)
    requires Succeeded(AdvertiseRun(env, w, tunnel, routes)) && route in routes
    ensures match Ipv4.ParsePrefix(env.v6, route)
            case Some(Net4(p)) => Ipv4.IsMasked(p)
            case _ => true
    decreases |routes|
  {
    hide ReplaceRun, Ipv4.ParsePrefix, Ipv4.IsMasked, Dest;
    var net := Ipv4.ParsePrefix(env.v6, routes[0]).value;
    var r := ReplaceRun(env, w, RouteReplace(Dest(routes[0], net), "", tunnel));
    AdvertiseOne(env, w, routes[0], net, tunnel);
    if route != routes[0] {
      assert route in routes[1..];
      AllMasked(env, r.w, tunnel, routes[1..], route);
    }
  }

  lemma OverlayTwice(t: Table, pins: seq<Ipv4.Prefix>, h1: Hop, h2: Hop, keys: seq<Ipv4.Prefix>, into: Hop)
    ensures var first := Overlay(Overlay(t, pins, h1), keys, into);
            Overlay(Overlay(first, pins, h2), keys, into) == first <==> h1 == h2 || forall p | p in pins :: p in keys
  {
    var first := Overlay(Overlay(t, pins, h1), keys, into);
    var second := Overlay(Overlay(first, pins, h2), keys, into);
    OverlayMeaning(t, pins, h1);
    OverlayMeaning(Overlay(t, pins, h1), keys, into);
    OverlayMeaning(first, pins, h2);
    OverlayMeaning(Overlay(first, pins, h2), keys, into);
    if p :| p in pins && p !in keys {
      assert first[p] == h1 && second[p] == h2;
    }
    assert second.Keys == first.Keys;
  }

  // ------------------------------------------------------------- at every step of a run

  // The commands of the two pinning loops.
  predicate PinCommand(v6: Ipv4.V6Syntax, cmd: Command, plan: Plan) {
    match cmd
    case ShowDefault(_) => true
    case RouteReplace(dest, _, dev) =>
      dev == plan.u.iface && exists a | a in PinsOf(v6, plan) :: dest == AppConfig.HostRoute(a)
    case _ => false
  }

  // The commands of the advertising loop.
  predicate AdvertiseCommand(v6: Ipv4.V6Syntax, cmd: Command, plan: Plan) {
    match cmd
    case RouteReplace(dest, via, dev) =>
      && via == "" && dev == plan.tunnel
      && exists route | route in plan.advertised ::
           Ipv4.ParsePrefix(v6, route).Some? && dest == Dest(route, Ipv4.ParsePrefix(v6, route).value)
    case _ => false
  }

  // Replacing the host route of a pin is a command of the pinning loops.
  lemma PinReplaceIsOne(v6: Ipv4.V6Syntax, plan: Plan, a: Ipv4.Addr, via: string)
    requires a in PinsOf(v6, plan)
    ensures PinCommand(v6, RouteReplace(AppConfig.HostRoute(a), via, plan.u.iface), plan)
  {
    hide PinsOf, AppConfig.HostRoute;
  }

  lemma HostRouteRunIs(env: Env, w: World, u: Underlay, a: Ipv4.Addr)
    ensures var shown := Exec(env, w, ShowDefault(u.iface));
            HostRouteRun(env, w, u, a).w ==
            if u.via != "" then Exec(env, w, RouteReplace(AppConfig.HostRoute(a), u.via, u.iface)).w
            else if !shown.reply.ok then shown.w
            else Exec(env, shown.w,
                RouteReplace(AppConfig.HostRoute(a), GatewayWord(Fields(shown.reply.output)), u.iface)).w
  {
    hide Exec, Fields, GatewayWord, AppConfig.HostRoute, Ipv4.PrintAddr;
    HostDest(env.v6, a);
  }

  lemma HostRouteCommands(env: Env, w: World, plan: Plan, a: Ipv4.Addr) returns (cmds: seq<Command>)
    requires a in PinsOf(env.v6, plan)
    ensures Replay(env, w, cmds) == HostRouteRun(env, w, plan.u, a).w
    ensures forall i | 0 <= i < |cmds| :: PinCommand(env.v6, cmds[i], plan)
  {
    hide Exec, Fields, GatewayWord, PinsOf, AppConfig.HostRoute, Replay, HostRouteRun;
    var show := ShowDefault(plan.u.iface);
    var shown := Exec(env, w, show);
    var via := if plan.u.via != "" then plan.u.via else GatewayWord(Fields(shown.reply.output));
    var replace := RouteReplace(AppConfig.HostRoute(a), via, plan.u.iface);
    HostRouteRunIs(env, w, plan.u, a);
    PinReplaceIsOne(env.v6, plan, a, via);
    assert PinCommand(env.v6, show, plan);
    hide PinCommand;
    if plan.u.via != "" {
      ReplayOne(env, w, replace);
      cmds := [replace];
    } else {
      ReplayOne(env, w, show);
      cmds := [show];
      if shown.reply.ok {
        ReplayOne(env, shown.w, replace);
        ReplayAppend(env, w, [show], [replace]);
        cmds := [show] + [replace];
      }
    }
  }

  lemma {:induction false} EndpointsCommands(
      env: Env, w: World, plan: Plan, addrs: seq<Ipv4.Addr>) returns (cmds: seq<Command>)
    requires forall a | a in addrs :: a in PinsOf(env.v6, plan)
    ensures Replay(env, w, cmds) == EndpointsRun(env, w, plan.u, addrs).w
    ensures forall i | 0 <= i < |cmds| :: PinCommand(env.v6, cmds[i], plan)
    decreases |addrs|
  {
    cmds := [];
    if addrs != [] {
      var r := HostRouteRun(env, w, plan.u, addrs[0]);
      cmds := HostRouteCommands(env, w, plan, addrs[0]);
      if Succeeded(r) {
        var rest := EndpointsCommands(env, r.w, plan, addrs[1..]);
        ReplayAppend(env, w, cmds, rest);
        cmds := cmds + rest;
      }
    }
  }

  lemma {:induction false} ClientsCommands(
      env: Env, w: World, plan: Plan, routes: seq<string>) returns (cmds: seq<Command>)
    requires forall a | a in ClientAddrs(env.v6, routes) :: a in PinsOf(env.v6, plan)
    ensures Replay(env, w, cmds) == ClientsRun(env, w, plan.u, routes).w
    ensures forall i | 0 <= i < |cmds| :: PinCommand(env.v6, cmds[i], plan)
    decreases |routes|
  {
    cmds := [];
    if routes != [] && PinnedAddr(env.v6, routes[0]).Some? {
      var a := PinnedAddr(env.v6, routes[0]).value;
      assert ClientAddrs(env.v6, routes) == [a] + ClientAddrs(env.v6, routes[1..]);
      assert a in ClientAddrs(env.v6, routes);
      var r := HostRouteRun(env, w, plan.u, a);
      cmds := HostRouteCommands(env, w, plan, a);
      if Succeeded(r) {
        var rest := ClientsCommands(env, r.w, plan, routes[1..]);
        ReplayAppend(env, w, cmds, rest);
        cmds := cmds + rest;
      }
    }
  }

  lemma {:induction false} AdvertiseCommands(
      env: Env, w: World, plan: Plan, routes: seq<string>) returns (cmds: seq<Command>)
    requires forall route | route in routes :: route in plan.advertised
    ensures Replay(env, w, cmds) == AdvertiseRun(env, w, plan.tunnel, routes).w
    ensures forall i | 0 <= i < |cmds| :: AdvertiseCommand(env.v6, cmds[i], plan)
    decreases |routes|
  {
    cmds := [];
    if routes != [] && Ipv4.ParsePrefix(env.v6, routes[0]).Some? {
      var cmd := RouteReplace(Dest(routes[0], Ipv4.ParsePrefix(env.v6, routes[0]).value), "", plan.tunnel);
      var r := ReplaceRun(env, w, cmd);
      assert AdvertiseCommand(env.v6, cmd, plan) by { assert routes[0] in plan.advertised; }
      cmds := [cmd];
      hide Exec, Ipv4.ParsePrefix, Dest, AdvertiseCommand;
      ReplayOne(env, w, cmd);
      if Succeeded(r) {
        var rest := AdvertiseCommands(env, r.w, plan, routes[1..]);
        ReplayAppend(env, w, cmds, rest);
        cmds := cmds + rest;
      }
    }
  }

  // How many commands a run has logged when its pinning loops are over.
  function PinnedFrom(env: Env, w: World, plan: Plan): nat {
    var r1 := EndpointsRun(env, w, plan.u, plan.endpoints);
    |(if Succeeded(r1) then ClientsRun(env, r1.w, plan.u, plan.clients) else r1).w.log|
  }

  // A run is a pinning phase and then an advertising phase, and the second does not begin
  // before every pin is in place.
  lemma Phases(env: Env, w: World, plan: Plan) returns (pinning: seq<Command>, advertising: seq<Command>)
    ensures Replay(env, w, pinning + advertising) == PlanRun(env, w, plan).w
    ensures forall i | 0 <= i < |pinning| :: PinCommand(env.v6, pinning[i], plan)
    ensures forall i | 0 <= i < |advertising| :: AdvertiseCommand(env.v6, advertising[i], plan)
    ensures |Replay(env, w, pinning).log| == PinnedFrom(env, w, plan)
    ensures advertising != [] ==>
              forall a | a in PinsOf(env.v6, plan) :: Pinned(Replay(env, w, pinning).routes, a, plan.u.iface)
  {
    var r1 := EndpointsRun(env, w, plan.u, plan.endpoints);
    pinning := EndpointsCommands(env, w, plan, plan.endpoints);
    advertising := [];
    if Succeeded(r1) {
      var r2 := ClientsRun(env, r1.w, plan.u, plan.clients);
      var more := ClientsCommands(env, r1.w, plan, plan.clients);
      ReplayAppend(env, w, pinning, more);
      pinning := pinning + more;
      if Succeeded(r2) {
        advertising := AdvertiseCommands(env, r2.w, plan, plan.advertised);
        PinsInPlace(env, w, plan);
        ReplayAppend(env, w, pinning, advertising);
      }
    }
    assert pinning + [] == pinning;
  }

  lemma PlanKeepsWellFormed(env: Env, w: World, plan: Plan)
    requires WellFormed(w)
    ensures WellFormed(PlanRun(env, w, plan).w)
  {
    hide WellFormed, PlanRun;
    var pinning, advertising := Phases(env, w, plan);
    ReplayKeepsWellFormed(env, w, pinning + advertising);
  }

  lemma PinsInPlace(env: Env, w: World, plan: Plan)
    requires Succeeded(EndpointsRun(env, w, plan.u, plan.endpoints))
    requires Succeeded(ClientsRun(env, EndpointsRun(env, w, plan.u, plan.endpoints).w, plan.u, plan.clients))
    ensures var t := ClientsRun(env, EndpointsRun(env, w, plan.u, plan.endpoints).w, plan.u, plan.clients).w.routes;
            forall a | a in PinsOf(env.v6, plan) :: Pinned(t, a, plan.u.iface)
  {
    hide EndpointsRun, ClientsRun, Overlay, PinVia, PinsOf;
    PinsEffect(env, w, plan);
    OverlayMeaning(w.routes, Hosts(PinsOf(env.v6, plan)), Hop(PinVia(w.routes, plan.u), plan.u.iface));
    forall a | a in PinsOf(env.v6, plan)
      ensures Ipv4.Host(a) in Hosts(PinsOf(env.v6, plan))
    {
      HostsHas(PinsOf(env.v6, plan), a);
    }
  }

  lemma {:induction false} AdvertisedKeysHas(v6: Ipv4.V6Syntax, routes: seq<string>, p: Ipv4.Prefix)
    ensures p in AdvertisedKeys(v6, routes) <==>
            exists route | route in routes :: Ipv4.ParsePrefix(v6, route) == Some(Ipv4.Net4(p))
  {
    if routes != [] {
      AdvertisedKeysHas(v6, routes[1..], p);
      if Ipv4.ParsePrefix(v6, routes[0]) == Some(Ipv4.Net4(p)) {
        assert routes[0] in routes;
      }
      forall route | route in routes[1..]
        ensures route in routes
      {
      }
    }
  }

  // Sending an advertised prefix into the tunnel spares a pin whose /32 is not advertised.
  lemma AdvertiseSparesPin(env: Env, cmd: Command, plan: Plan, a: Ipv4.Addr)
    requires AdvertiseCommand(env.v6, cmd, plan) && !Advertised(env.v6, plan, a)
    ensures cmd.RouteReplace?
    ensures Ipv4.ParsePrefix(env.v6, cmd.dest) != Some(Ipv4.Net4(Ipv4.Host(a)))
    ensures cmd.dest != AppConfig.HostRoute(a)
  {
    hide Ipv4.ParsePrefix, Ipv4.PrintPrefix, AppConfig.HostRoute, AdvertisedKeys;
    var route :| route in plan.advertised && Ipv4.ParsePrefix(env.v6, route).Some?
                 && cmd.dest == Dest(route, Ipv4.ParsePrefix(env.v6, route).value);
    var net := Ipv4.ParsePrefix(env.v6, route).value;
    if net.Net4? {
      Ipv4.PrefixReads(env.v6, net.prefix);
    }
    AdvertisedKeysHas(env.v6, plan.advertised, Ipv4.Host(a));
    HostDest(env.v6, a);
  }

  // A route replaced elsewhere leaves a pin alone.
  lemma ReplaceKeepsPin(env: Env, w: World, cmd: Command, a: Ipv4.Addr, dev: string)
    requires cmd.RouteReplace? && Ipv4.ParsePrefix(env.v6, cmd.dest) != Some(Ipv4.Net4(Ipv4.Host(a)))
    requires Pinned(w.routes, a, dev)
    ensures Pinned(Exec(env, w, cmd).w.routes, a, dev)
  {
    hide Ipv4.ParsePrefix, Ipv4.ParseQuad;
  }

  lemma {:induction false} AdvertisingKeepsPin(env: Env, w: World, cmds: seq<Command>, plan: Plan, a: Ipv4.Addr)
    requires Pinned(w.routes, a, plan.u.iface) && !Advertised(env.v6, plan, a)
    requires forall i | 0 <= i < |cmds| :: AdvertiseCommand(env.v6, cmds[i], plan)
    ensures var w' := Replay(env, w, cmds);
            && |w'.log| == |w.log| + |cmds|
            && forall i | |w.log| <= i < |w'.log| :: Pinned(w'.log[i].after, a, plan.u.iface)
    decreases |cmds|
  {
    hide Ipv4.ParsePrefix, Advertised, AdvertiseCommand, Exec, Pinned, AppConfig.HostRoute, Ipv4.Host;
    if cmds != [] {
      AdvertiseSparesPin(env, cmds[0], plan, a);
      ReplaceKeepsPin(env, w, cmds[0], a, plan.u.iface);
      AdvertisingKeepsPin(env, Exec(env, w, cmds[0]).w, cmds[1..], plan, a);
      ReplayFirst(env, w, cmds);
    }
  }

  // No tunnel loop, with its exact condition. Take any table in the course of a run of Apply,
  // whether the run succeeds or stops at a failed command: from the first advertised prefix
  // on, an endpoint or pinned client whose /32 is not advertised is kept out of the tunnel
  // exactly if host routes do not go into the tunnel themselves.
  lemma NoTunnelLoop(env: Env, w: World, plan: Plan, i: nat, a: Ipv4.Addr)
    requires PinnedFrom(env, w, plan) <= i < |PlanRun(env, w, plan).w.log|
    requires a in PinsOf(env.v6, plan) && !Advertised(env.v6, plan, a)
    ensures var step := PlanRun(env, w, plan).w.log[i];
            && AdvertiseCommand(env.v6, step.cmd, plan)
            && LeavesThrough(step.after, a, plan.u.iface)
            && (LeavesThrough(step.after, a, plan.tunnel) <==> plan.u.iface == plan.tunnel)
  {
    hide Exec, Pinned, AdvertiseCommand, PinCommand, Advertised, PinsOf, EndpointsRun, ClientsRun, AdvertiseRun;
    var pinning, advertising := Phases(env, w, plan);
    var mid, log := Replay(env, w, pinning), PlanRun(env, w, plan).w.log;
    ReplayAppend(env, w, pinning, advertising);
    ReplayLog(env, mid, advertising);
    assert log[|mid.log| + (i - |mid.log|)].cmd == advertising[i - |mid.log|];
    assert advertising != [];
    assert Pinned(mid.routes, a, plan.u.iface);
    AdvertisingKeepsPin(env, mid, advertising, plan, a);
    assert Pinned(log[i].after, a, plan.u.iface);
    PinnedLeaves(log[i].after, a, plan.u.iface);
  }

  lemma PinnedLeaves(t: Table, a: Ipv4.Addr, dev: string)
    requires Pinned(t, a, dev)
    ensures forall d :: LeavesThrough(t, a, d) <==> d == dev
  {
    HostRouteWins(t, a);
  }

  // ------------------------------------------------------------- two readings of a pinned route

  // The configuration check accepts a pinned route that Apply then refuses when the route
  // has no length or has white space around it, and only then.
  lemma AcceptedRouteParsesExactly(v6: Ipv4.V6Syntax, text: string)
    requires AppConfig.RouteAddr(v6, text).Some?
    ensures PinnedAddr(v6, text).Some? <==> TrimSpace(text) == text && '/' in text
    ensures PinnedAddr(v6, text).Some? ==> PinnedAddr(v6, text) == AppConfig.RouteAddr(v6, text)
  {
    hide Ipv4.ParseAddr;
    if PinnedAddr(v6, text).Some? {
      PrefixTextTrimmed(v6, text);
      TrimOfTrimmed(text);
    }
    if Ipv4.ParseAddr(v6, TrimSpace(text)).Some? && Ipv4.ParseAddr(v6, TrimSpace(text)).value.V4? {
      Ipv4.ParsedAddr(v6, TrimSpace(text));
      NoSlash(v6, Ipv4.ParseAddr(v6, TrimSpace(text)).value.addr);
    }
  }

  lemma NoSlash(v6: Ipv4.V6Syntax, a: Ipv4.Addr)
    ensures '/' !in Ipv4.PrintAddr(a)
  {
    hide Ipv4.PrintAddr;
    Ipv4.PrintedAddr(v6, a);
    forall i | 0 <= i < |Ipv4.PrintAddr(a)|
      ensures Ipv4.PrintAddr(a)[i] != '/'
    {
      assert Ipv4.QuadChar(Ipv4.PrintAddr(a)[i]);
    }
  }

  lemma PrefixTextTrimmed(v6: Ipv4.V6Syntax, text: string)
    requires PinnedAddr(v6, text).Some?
    ensures Trimmed(text) && '/' in text
  {
    hide Ipv4.ParseAddr, Ipv4.PrintAddr;
    var i := Ipv4.LastSlash(text);
    var host, bits := text[..i], text[i + 1..];
    Ipv4.ParsedAddr(v6, host);
    Ipv4.PrintedAddr(v6, Ipv4.ParseAddr(v6, host).value.addr);
    assert Ipv4.QuadChar(host[0]) && text[0] == host[0];
    assert bits != "" && text[|text| - 1] == bits[|bits| - 1];
    assert Decimal.IsDigit(bits[|bits| - 1]);
  }

  // For instance a bare address.
  lemma BareAddressIsRefused(v6: Ipv4.V6Syntax, a: Ipv4.Addr)
    ensures AppConfig.RouteAddr(v6, Ipv4.PrintAddr(a)) == Some(a)
    ensures PinnedAddr(v6, Ipv4.PrintAddr(a)).None?
  {
    hide Ipv4.PrintAddr, Ipv4.ParseAddr;
    Ipv4.PrintedAddr(v6, a);
    var s := Ipv4.PrintAddr(a);
    assert Ipv4.QuadChar(s[0]) && Ipv4.QuadChar(s[|s| - 1]);
    TrimOfTrimmed(s);
    NoSlash(v6, a);
    AcceptedRouteParsesExactly(v6, s);
  }
}
