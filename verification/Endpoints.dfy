/** Which peers of an accepted WireGuard configuration are kept reachable: the supervisor
    reads one endpoint off it (internal/supervisor/routes.go), while the kernel is given
    every peer (internal/supervisor/wg.go). */
module Endpoints {
  import opened Options
  import opened Text
  import Decimal
  import Ipv4
  import Paths
  import AppConfig
  import Bird
  import WgConfig
  import WgMeta
  import WgPeers
  import Completion
  import opened Kernel
  import opened Routes
  import opened RouteLaws

  predicate IsEndpoint(e: WgConfig.Event) {
    e.Setting? && WgConfig.Slot(e.section, e.key) == "peer.endpoint"
  }

  // The addresses pinned for the tunnel are those of the last endpoint setting.
  lemma PinnedEndpoints(env: Env, inputs: Inputs)
    requires PlanFor(env, inputs).Ready?
    ensures inputs.wgText.Some?
    ensures EndpointAddrs(env, inputs, WgMeta.LastValue(WgConfig.Events(inputs.wgText.value), "peer.endpoint", "")) ==
            Addrs(PlanFor(env, inputs).plan.endpoints)
  {
    hide EndpointAddrs, AppConfig.ManagedError, Bird.Generate, WgConfig.Events, WgConfig.FirstError, WgMeta.LastValue;
    hide WgConfig.Meta;
    WgMeta.LastSettingWins(inputs.wgText.value);
    hide WgMeta.LastMeta;
    ReadyAddresses(env, inputs);
    LastEndpoint(WgConfig.Events(inputs.wgText.value));
  }

  lemma ReadyAddresses(env: Env, inputs: Inputs)
    requires PlanFor(env, inputs).Ready?
    ensures inputs.wgText.Some?
    ensures EndpointAddrs(env, inputs, WgConfig.Meta(inputs.wgText.value).endpoint) ==
            Addrs(PlanFor(env, inputs).plan.endpoints)
  {
    hide EndpointAddrs, AppConfig.ManagedError, Bird.Generate, WgConfig.FirstError, WgConfig.Meta;
  }

  lemma LastEndpoint(events: seq<WgConfig.Event>)
    ensures WgMeta.LastMeta(events).endpoint == WgMeta.LastValue(events, "peer.endpoint", "")
  {
    hide WgMeta.LastValue;
  }

  // Of every endpoint setting of the text and every address it stands for: if the address is
  // pinned, which it is if the setting is the last one, it is kept out of the tunnel exactly
  // as PinHoldsExactly says; otherwise it is sent wherever the routes send it, which is into
  // the tunnel exactly if the most specific of them leads there.
  lemma EndpointsKeptExactly(env: Env, w: World, inputs: Inputs, e: WgConfig.Event, a: Ipv4.Addr)
    requires Succeeded(ApplyRun(env, w, inputs)) && WellFormed(w) && inputs.wgText.Some?
    requires e in WgConfig.Events(inputs.wgText.value) && IsEndpoint(e)
    requires EndpointAddrs(env, inputs, e.value).Addrs? && a in EndpointAddrs(env, inputs, e.value).addrs
    ensures PlanFor(env, inputs).Ready?
    ensures var plan, end := PlanFor(env, inputs).plan, ApplyRun(env, w, inputs).w.routes;
            && (a in PinsOf(env.v6, plan) ==>
                  (LeavesThrough(end, a, plan.tunnel) <==> plan.u.iface == plan.tunnel || Advertised(env.v6, plan, a)))
            && (a !in PinsOf(env.v6, plan) ==>
                  (LeavesThrough(end, a, plan.tunnel) <==> exists k :: Enters(env.v6, w.routes, plan, a, k)))
            && (e.value == WgMeta.LastValue(WgConfig.Events(inputs.wgText.value), "peer.endpoint", "") ==>
                  a in PinsOf(env.v6, plan))
  {
    hide PlanFor, PlanRun, EndpointAddrs, LeavesThrough, Advertised, Enters, WellFormed, WgConfig.Events;
    hide WgMeta.LastValue;
    PinnedEndpoints(env, inputs);
    var plan := PlanFor(env, inputs).plan;
    TunnelledExactly(env, w, plan, a);
    if a in PinsOf(env.v6, plan) {
      PinHoldsExactly(env, w, plan, a);
    }
  }

  // The kernel is given every peer.
  lemma PeerReachesKernel(private: string, peers: seq<WgPeers.Peer>, i: nat)
    requires WgPeers.OneLine(private) && WgPeers.PlainPeers(peers) && i < |peers|
    ensures WgConfig.Setting("peer", "endpoint", peers[i].endpoint, i + 1) in
            WgConfig.Events(WgConfig.Setconf(WgPeers.ConfigText("=", private, peers)))
  {
    hide WgPeers.OneLine, WgPeers.PlainPeers, WgPeers.ConfigText, WgConfig.Events, WgConfig.Setconf;
    hide WgMeta.WithoutMetadata, WgPeers.ConfigEvents;
    var text := WgPeers.ConfigText("=", private, peers);
    WgPeers.ConfigScans("=", private, peers, WgConfig.REDACT);
    WgMeta.SetconfIsProjection(text);
    WgPeers.EndpointSetting(private, peers, i);
    WgMeta.KeptSetting(WgConfig.Events(text), WgConfig.Setting("peer", "endpoint", peers[i].endpoint, i + 1));
  }

  // With several peers the kernel is given every one of them, but only the last one's endpoint
  // is pinned; an earlier one's address, if it is not pinned for another reason and an
  // advertised prefix is the most specific route that holds it, is sent into the tunnel it is
  // to carry.
  lemma EarlierPeerLoops(env: Env, w: World, inputs: Inputs, private: string, peers: seq<WgPeers.Peer>, i: nat,
      a: Ipv4.Addr, k: Ipv4.Prefix)
    requires WgPeers.OneLine(private) && WgPeers.PlainPeers(peers) && i < |peers| - 1
    requires inputs.wgText == Some(WgPeers.ConfigText("=", private, peers))
    requires Succeeded(ApplyRun(env, w, inputs)) && WellFormed(w) && PlanFor(env, inputs).Ready?
    requires EndpointAddrs(env, inputs, peers[i].endpoint).Addrs?
            && a in EndpointAddrs(env, inputs, peers[i].endpoint).addrs
    requires a !in PinsOf(env.v6, PlanFor(env, inputs).plan)
            && Enters(env.v6, w.routes, PlanFor(env, inputs).plan, a, k)
    ensures var plan, end := PlanFor(env, inputs).plan, ApplyRun(env, w, inputs).w.routes;
            && Addrs(plan.endpoints) == EndpointAddrs(env, inputs, peers[|peers| - 1].endpoint)
            && WgConfig.Setting("peer", "endpoint", peers[i].endpoint, i + 1) in
               WgConfig.Events(WgConfig.Setconf(inputs.wgText.value))
            && LeavesThrough(end, a, plan.tunnel)
  {
    hide PlanFor, PlanRun, EndpointAddrs, LeavesThrough, Enters, WellFormed, PinsOf, WgPeers.OneLine;
    hide WgPeers.PlainPeers;
    hide WgPeers.ConfigText, WgConfig.Events, WgConfig.Setconf, WgMeta.LastValue, WgPeers.ConfigEvents;
    PinnedEndpoints(env, inputs);
    WgPeers.ConfigScans("=", private, peers, WgConfig.REDACT);
    WgPeers.LastEndpointOf(private, peers);
    PeerReachesKernel(private, peers, i);
    TunnelledExactly(env, w, PlanFor(env, inputs).plan, a);
  }

  // ------------------------------------------------------------- such an input

  // 43 letters and the padding: 32 bytes.
  const KEY: string := "AAAAAAAAAAAAAAAAAAAAAAAAAAAAAAAAAAAAAAAAAAA="

  const PORT: string := "51820"

  // An endpoint given by its address.
  function EndpointText(a: Ipv4.Addr): string {
    Ipv4.PrintAddr(a) + (":" + PORT)
  }

  // net.SplitHostPort splits it there.
  predicate SplitsEndpoint(lib: WgConfig.Lib, a: Ipv4.Addr) {
    lib.hostPort(EndpointText(a)) == Some(WgConfig.HostPort(Ipv4.PrintAddr(a), PORT))
  }

  const LOW := Ipv4.Prefix(0, 1)
  const HIGH := Ipv4.Prefix(0x8000_0000, 1)

  const STATE_DIR := "/app-state"

  // The two halves of the address space advertised, the tunnel wg0, the underlay eth0.
  function HalvesApp(bgpPeer: Ipv4.Addr): AppConfig.App {
    AppConfig.App(
      ":8080", STATE_DIR, Paths.JoinPath(Paths.JoinPath(STATE_DIR, "bird"), "bird.conf"),
      AppConfig.Runtime(true, false, []), AppConfig.WireGuard("wg0", 1320, "eth0", ""),
      Bird.Config("", 64512, 64513, Ipv4.PrintAddr(bgpPeer), "wg0", [Ipv4.PrintPrefix(LOW), Ipv4.PrintPrefix(HIGH)]))
  }

  function TwoPeers(a: Ipv4.Addr, b: Ipv4.Addr): seq<WgPeers.Peer> {
    [WgPeers.Peer(KEY, EndpointText(a)), WgPeers.Peer(KEY, EndpointText(b))]
  }

  // The working directory, net.SplitHostPort and the resolver are those of other.
  function TwoPeerInputs(other: Inputs, a: Ipv4.Addr, b: Ipv4.Addr, bgpPeer: Ipv4.Addr): Inputs {
    other.(app := Some(HalvesApp(bgpPeer)), wgText := Some(WgPeers.ConfigText("=", KEY, TwoPeers(a, b))))
  }

  function TwoPeerPlan(b: Ipv4.Addr): Plan {
    Plan(Underlay("eth0", ""), [b], [], "wg0", [Ipv4.PrintPrefix(LOW), Ipv4.PrintPrefix(HIGH)])
  }

  lemma {:induction false} NoBreaksToSkip(s: string)
    requires '\r' !in s && '\n' !in s
    ensures WgConfig.WithoutBreaks(s) == s
  {
    if s != "" {
      NoBreaksToSkip(s[1..]);
    }
  }

  lemma PaddedIsValid(s: string)
    requires |s| == 44 && s[43] == '=' && forall i | 0 <= i < 43 :: s[i] == 'A'
    ensures WgConfig.ValidKey(s) && WgPeers.OneLine(s)
  {
    hide WgConfig.WithoutBreaks;
    NoBreaksToSkip(s);
  }

  lemma KeyIsValid()
    ensures WgConfig.ValidKey(KEY) && WgPeers.OneLine(KEY)
  {
    hide WgConfig.ValidKey, WgPeers.OneLine;
    PaddedIsValid(KEY);
  }

  lemma OctetIsShort(n: nat)
    requires n <= 255
    ensures |Decimal.Itoa(n)| <= 256
  {
    Decimal.ItoaIsShort(n);
  }

  lemma AddrIsShort(a: Ipv4.Addr)
    ensures |Ipv4.PrintAddr(a)| <= 2000
  {
    hide Decimal.Itoa, Ipv4.Octet;
    OctetIsShort(Ipv4.Octet(a, 0));
    OctetIsShort(Ipv4.Octet(a, 1));
    OctetIsShort(Ipv4.Octet(a, 2));
    OctetIsShort(Ipv4.Octet(a, 3));
    var w, x, y, z := Decimal.Itoa(Ipv4.Octet(a, 0)), Decimal.Itoa(Ipv4.Octet(a, 1)), Decimal.Itoa(Ipv4.Octet(a, 2)),
        Decimal.Itoa(Ipv4.Octet(a, 3));
    JoinFirst(w, [x] + ([y] + [z]), '.');
    JoinFirst(x, [y] + [z], '.');
    JoinFirst(y, [z], '.');
    JoinOne(z, '.');
    assert [w, x, y, z] == [w] + ([x] + ([y] + [z]));
  }

  lemma PortIsValid()
    ensures WgConfig.ValidPort(PORT) && |PORT| <= 51821 && Decimal.Canonical(PORT)
  {
    hide Decimal.Atoi, Decimal.Value;
    assert Decimal.Itoa(51) == "51";
    assert Decimal.Itoa(518) == "518";
    assert Decimal.Itoa(5182) == "5182";
    assert Decimal.Itoa(51820) == PORT;
    Decimal.AtoiReads(51820);
    Decimal.ItoaReads(51820);
  }

  lemma EndpointIsPlain(v6: Ipv4.V6Syntax, a: Ipv4.Addr)
    ensures WgPeers.OneLine(EndpointText(a)) && EndpointText(a) != ""
  {
    hide Ipv4.PrintAddr, Decimal.Itoa;
    var host := Ipv4.PrintAddr(a);
    Ipv4.PrintedAddr(v6, a);
    AddrIsShort(a);
    PortIsValid();
    assert Ipv4.QuadChar(host[0]);
    assert Decimal.IsDigit(PORT[|PORT| - 1]);
    forall i | 0 <= i < |EndpointText(a)|
      ensures EndpointText(a)[i] != '\n'
    {
      if i < |host| {
        assert Ipv4.QuadChar(host[i]);
      } else if i > |host| {
        assert EndpointText(a)[i] == PORT[i - |host| - 1] && Decimal.IsDigit(PORT[i - |host| - 1]);
      }
    }
  }

  lemma EndpointIsValid(v6: Ipv4.V6Syntax, lib: WgConfig.Lib, a: Ipv4.Addr)
    requires SplitsEndpoint(lib, a)
    ensures WgConfig.ValidEndpoint(lib, EndpointText(a))
  {
    hide Ipv4.PrintAddr, Decimal.Itoa, EndpointText, WgConfig.ValidPort;
    var host := Ipv4.PrintAddr(a);
    Ipv4.PrintedAddr(v6, a);
    PortIsValid();
    forall i | 0 <= i < |host|
      ensures host[i] !in " \t\r\n"
    {
      assert Ipv4.QuadChar(host[i]);
    }
  }

  lemma AppIsManaged(v6: Ipv4.V6Syntax, cwd: string, bgpPeer: Ipv4.Addr)
    ensures AppConfig.ManagedError(v6, cwd, HalvesApp(bgpPeer)).None?
  {
    hide Paths.Elements, Ipv4.PrintAddr, Ipv4.PrintPrefix, AppConfig.ManagedError;
    var cfg := HalvesApp(bgpPeer);
    var bird := Paths.JoinPath(STATE_DIR, "bird");
    Paths.JoinedIsInside(cwd, STATE_DIR, "bird");
    assert bird[0] == '/';
    Paths.JoinedIsInside(cwd, bird, "bird.conf");
    AppConfig.ManagedMeaning(v6, cwd, cfg);
  }

  lemma AppGenerates(v6: Ipv4.V6Syntax, bgpPeer: Ipv4.Addr)
    ensures Bird.Generate(v6, HalvesApp(bgpPeer).bird).Ok?
  {
    hide Bird.Generate, Ipv4.PrintAddr, Ipv4.PrintPrefix, Ipv4.ParseAddr, Ipv4.ParsePrefix;
    Ipv4.PrintedAddr(v6, bgpPeer);
    Ipv4.PrefixReads(v6, LOW);
    Ipv4.PrefixReads(v6, HIGH);
    Bird.GenerateAccepts(v6, HalvesApp(bgpPeer).bird);
  }

  lemma TwoPeersAccepted(v6: Ipv4.V6Syntax, lib: WgConfig.Lib, a: Ipv4.Addr, b: Ipv4.Addr)
    requires SplitsEndpoint(lib, a) && SplitsEndpoint(lib, b)
    ensures WgPeers.OneLine(KEY) && WgPeers.PlainPeers(TwoPeers(a, b))
    ensures WgConfig.Validate(lib, WgPeers.ConfigText("=", KEY, TwoPeers(a, b))).error.None?
    ensures WgConfig.Meta(WgPeers.ConfigText("=", KEY, TwoPeers(a, b))).endpoint == EndpointText(b)
  {
    hide WgPeers.OneLine, WgConfig.ValidKey, WgConfig.ValidEndpoint, EndpointText, SplitsEndpoint;
    hide WgPeers.ConfigText, WgConfig.Validate, WgConfig.Meta;
    KeyIsValid();
    EndpointIsPlain(v6, a);
    EndpointIsPlain(v6, b);
    EndpointIsValid(v6, lib, a);
    EndpointIsValid(v6, lib, b);
    WgPeers.PeersAccepted(lib, "=", KEY, TwoPeers(a, b));
  }

  lemma LiteralEndpoint(env: Env, inputs: Inputs, a: Ipv4.Addr)
    requires SplitsEndpoint(inputs.lib, a)
    ensures EndpointAddrs(env, inputs, EndpointText(a)) == Addrs([a])
  {
    hide EndpointText, Ipv4.PrintAddr, Ipv4.ParseAddr;
    Ipv4.PrintedAddr(env.v6, a);
  }

  lemma TwoPeersPlanned(env: Env, other: Inputs, a: Ipv4.Addr, b: Ipv4.Addr, bgpPeer: Ipv4.Addr)
    requires SplitsEndpoint(other.lib, a) && SplitsEndpoint(other.lib, b)
    ensures PlanFor(env, TwoPeerInputs(other, a, b, bgpPeer)) == Ready(TwoPeerPlan(b))
  {
    hide AppConfig.ManagedError, Bird.Generate, WgConfig.FirstError, WgConfig.Meta, EndpointAddrs, EndpointText;
    hide SplitsEndpoint;
    hide WgPeers.ConfigText, Ipv4.PrintPrefix, Ipv4.PrintAddr, WgConfig.Events;
    AppIsManaged(env.v6, other.cwd, bgpPeer);
    AppGenerates(env.v6, bgpPeer);
    TwoPeersAccepted(env.v6, other.lib, a, b);
    LiteralEndpoint(env, TwoPeerInputs(other, a, b, bgpPeer), b);
    TrimOfTrimmed("");
  }

  lemma HalfSpan()
    ensures Ipv4.Span(1) == 0x8000_0000
    ensures Ipv4.IsMasked(LOW) && Ipv4.IsMasked(HIGH)
  {
    assert Ipv4.Pow2(8) == 0x100;
    assert Ipv4.Pow2(16) == 0x1_0000;
    assert Ipv4.Pow2(24) == 0x100_0000;
    assert Ipv4.Pow2(31) == 0x8000_0000;
  }

  // Every address is in one of the halves.
  lemma InAHalf(a: Ipv4.Addr)
    ensures Ipv4.Cover(a, 1) == LOW || Ipv4.Cover(a, 1) == HIGH
  {
    HalfSpan();
  }

  lemma HalvesAdvertised(v6: Ipv4.V6Syntax, b: Ipv4.Addr)
    ensures AdvertisedKeys(v6, TwoPeerPlan(b).advertised) == [LOW, HIGH]
    ensures forall i | 0 <= i < 2 :: Completion.CanAdvertise(v6, TwoPeerPlan(b).advertised[i])
    ensures PinsOf(v6, TwoPeerPlan(b)) == [b]
  {
    hide Ipv4.PrintPrefix, Ipv4.ParsePrefix, Ipv4.Span;
    Ipv4.PrefixReads(v6, LOW);
    Ipv4.PrefixReads(v6, HIGH);
    HalfSpan();
    var low, high := Ipv4.PrintPrefix(LOW), Ipv4.PrintPrefix(HIGH);
    assert [low, high][1..] == [high] && [high][1..] == [];
    assert AdvertisedKeys(v6, [high]) == [HIGH];
  }

  lemma HalfEnters(v6: Ipv4.V6Syntax, t: Table, a: Ipv4.Addr, b: Ipv4.Addr)
    requires a != b && forall q | q in t && Ipv4.IsMasked(q) && Ipv4.Holds(q, a) :: q.bits <= 1
    ensures Enters(v6, t, TwoPeerPlan(b), a, Ipv4.Cover(a, 1))
  {
    hide AdvertisedKeys, PinsOf;
    HalvesAdvertised(v6, b);
    InAHalf(a);
    Ipv4.CoverMasked(a, 1);
    assert Ipv4.Span(32) == 1;
    hide Ipv4.Span, Ipv4.Cover;
    forall q
      ensures !Outranked(v6, t, TwoPeerPlan(b), a, Ipv4.Cover(a, 1), q)
    {
      if q in Hosts([b]) {
        assert q == Ipv4.Host(b);
      }
    }
  }

  // A configuration, a machine and a table on which it happens, with nothing left open but
  // the addresses: two peers named by different addresses, the two halves of the address
  // space advertised, and no earlier route to the first peer more specific than those. Apply
  // succeeds, the second peer is kept on the underlay, and the first is sent into the tunnel.
  lemma EarlierPeerReached(env: Env, w: World, other: Inputs, a: Ipv4.Addr, b: Ipv4.Addr, bgpPeer: Ipv4.Addr)
    requires Completion.Works(env) && WellFormed(w) && "eth0" in w.links && "wg0" in w.links
    requires SplitsEndpoint(other.lib, a) && SplitsEndpoint(other.lib, b) && a != b
    requires forall q | q in w.routes && Ipv4.IsMasked(q) && Ipv4.Holds(q, a) :: q.bits <= 1
    ensures var r := ApplyRun(env, w, TwoPeerInputs(other, a, b, bgpPeer));
            Succeeded(r) && LeavesThrough(r.w.routes, a, "wg0") && LeavesThrough(r.w.routes, b, "eth0")
    ensures WgConfig.Setting("peer", "endpoint", EndpointText(a), 1) in
            WgConfig.Events(WgConfig.Setconf(WgPeers.ConfigText("=", KEY, TwoPeers(a, b))))
  {
    hide Completion.Works, PlanFor, PlanRun, LeavesThrough, Enters, WellFormed, TwoPeerPlan, TwoPeerInputs;
    hide SplitsEndpoint;
    hide EndpointText, HalvesApp, Succeeded, WgPeers.ConfigText, WgPeers.OneLine, WgPeers.PlainPeers, WgConfig.Events;
    hide WgConfig.Setconf;
    TwoPeersPlanned(env, other, a, b, bgpPeer);
    TwoPeersAccepted(env.v6, other.lib, a, b);
    TwoPeersApply(env, w, a, b);
    PeerReachesKernel(KEY, TwoPeers(a, b), 0);
  }

  lemma TwoPeersApply(env: Env, w: World, a: Ipv4.Addr, b: Ipv4.Addr)
    requires Completion.Works(env) && WellFormed(w) && "eth0" in w.links && "wg0" in w.links && a != b
    requires forall q | q in w.routes && Ipv4.IsMasked(q) && Ipv4.Holds(q, a) :: q.bits <= 1
    ensures var r := PlanRun(env, w, TwoPeerPlan(b));
            Succeeded(r) && LeavesThrough(r.w.routes, a, "wg0") && LeavesThrough(r.w.routes, b, "eth0")
  {
    hide Completion.Works, PlanRun, LeavesThrough, Enters, WellFormed, AdvertisedKeys, PinsOf, Completion.CanAdvertise;
    hide Ipv4.PrintPrefix;
    var plan := TwoPeerPlan(b);
    HalvesAdvertised(env.v6, b);
    Completion.PlanSucceedsExactly(env, w, plan);
    HalfEnters(env.v6, w.routes, a, b);
    TunnelledExactly(env, w, plan, a);
    assert b in PinsOf(env.v6, plan) && !Advertised(env.v6, plan, b);
    PinHoldsExactly(env, w, plan, b);
  }
}
