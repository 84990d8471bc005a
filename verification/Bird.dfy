/** internal/bird/config.go: the BIRD configuration printer, and a parser for the grammar
    it prints that recovers every field. */
module Bird {
  import opened Options
  import opened Text
  import Decimal
  import Ipv4

  type UInt32 = n: nat | n < 0x1_0000_0000

  datatype Config = Config(
    routerID: string,
    localASN: UInt32,
    peerASN: UInt32,
    peerIP: string,
    iface: string,
    advertisedRoutes: seq<string>)
  {
    function WithDefaults(): Config {
      if iface == "" then this.(iface := "wg0") else this
    }
  }

  datatype Error =
    | BadInterface(name: string)
    | NoLocalASN
    | NoPeerASN
    | BadPeerIP
    | PeerNotIPv4
    | BadRouterID
    | RouterIDNotIPv4
    | NoRoutes
    | BadRoute(route: string)

  datatype Result = Ok(text: string) | Err(error: Error)

  predicate IsNameChar(c: char) {
    'A' <= c <= 'Z' || 'a' <= c <= 'z' || '0' <= c <= '9' || c == '_' || c == '.' || c == '-'
  }

  predicate ValidInterfaceName(name: string) {
    1 <= |name| <= 15 && forall i | 0 <= i < |name| :: IsNameChar(name[i])
  }

  function FirstBadRoute(v6: Ipv4.V6Syntax, routes: seq<string>): Option<string> {
    if routes == [] then None
    else if Ipv4.ParsePrefix(v6, routes[0]).None? then Some(routes[0])
    else FirstBadRoute(v6, routes[1..])
  }

  // The checks of Generate, in its order.
  function Check(v6: Ipv4.V6Syntax, c: Config): Option<Error> {
    var peer := Ipv4.ParseAddr(v6, c.peerIP);
    var router := Ipv4.ParseAddr(v6, c.routerID);
    if !ValidInterfaceName(c.iface) then Some(BadInterface(c.iface))
    else if c.localASN == 0 then Some(NoLocalASN)
    else if c.peerASN == 0 then Some(NoPeerASN)
    else if peer.None? then Some(BadPeerIP)
    else if !peer.value.V4? then Some(PeerNotIPv4)
    else if c.routerID != "" && router.None? then Some(BadRouterID)
    else if c.routerID != "" && !router.value.V4? then Some(RouterIDNotIPv4)
    else if c.advertisedRoutes == [] then Some(NoRoutes)
    else
      match FirstBadRoute(v6, c.advertisedRoutes)
      case Some(route) => Some(BadRoute(route))
      case None => None
  }

  function Generate(v6: Ipv4.V6Syntax, config: Config): Result {
    var c := config.WithDefaults();
    match Check(v6, c)
    case Some(error) => Err(error)
    case None => Ok(TrimSpace("\n" + Body(c) + "\n") + "\n")
  }

  // ------------------------------------------------------------- the template

  const LOG := "log stderr all;"
  const ROUTER := "\nrouter id "
  const DIRECT := "\n\n" + "protocol device {\n}\n\nprotocol direct {\n    ipv4;\n    interface \""
  const OPENING := "protocol static advertised_routes {"
  const STATIC := ";\n}\n\n" + (OPENING + "\n    ipv4;")
  const ROUTE := "\n    route "
  const VIA := "via \""
  const BGP := "\n}\n\nprotocol bgp peplink {\n    local as "
  const NEIGHBOR := "\n    neighbor "
  const PEER_AS := "as "
  const FILTER := "import none;\n        export where proto = \"advertised_routes\";"
  const EXPORT := "\n    ipv4 {\n        " + (FILTER + "\n    };\n}")

  predicate ClosesBlock(s: string) {
    s != "" && s[|s| - 1] == '}'
  }

  function BgpPart(c: Config): (s: string)
    ensures ClosesBlock(s)
  {
    BGP + (Decimal.Itoa(c.localASN) +
        (";" + (NEIGHBOR + (c.peerIP + (" " + (PEER_AS + (Decimal.Itoa(c.peerASN) + (";" + EXPORT))))))))
  }

  function RoutePart(routes: seq<string>, c: Config): (s: string)
    ensures ClosesBlock(s)
  {
    if routes == [] then BgpPart(c)
    else ROUTE + (routes[0] + (" " + (VIA + (c.iface + ("\"" + (";" + RoutePart(routes[1..], c)))))))
  }

  function DirectPart(c: Config): (s: string)
    ensures ClosesBlock(s)
  {
    DIRECT + (c.iface + ("\"" + (STATIC + RoutePart(c.advertisedRoutes, c))))
  }

  function RouterPart(c: Config): (s: string)
    ensures ClosesBlock(s)
  {
    ClosesAppend(";", DirectPart(c));
    ClosesAppend(c.routerID, ";" + DirectPart(c));
    ClosesAppend(ROUTER, c.routerID + (";" + DirectPart(c)));
    if c.routerID == "" then DirectPart(c) else ROUTER + (c.routerID + (";" + DirectPart(c)))
  }

  lemma ClosesAppend(p: string, s: string)
    requires ClosesBlock(s)
    ensures ClosesBlock(p + s)
  {
  }

  function Body(c: Config): string {
    LOG + RouterPart(c)
  }

  // ------------------------------------------------------------- the parser

  datatype RouteLine = RouteLine(route: string, via: string)

  datatype Document = Document(
    routerID: string,
    iface: string,
    routes: seq<RouteLine>,
    localASN: nat,
    peerIP: string,
    peerASN: nat)

  function Expect(s: string, literal: string): Option<string> {
    if HasPrefix(s, literal) then Some(s[|literal|..]) else None
  }

  datatype Field = Field(text: string, rest: string)

  // Everything up to a separator.
  function Until(s: string, c: char): Option<Field> {
    var h := Cut(s, c);
    if h.found then Some(Field(h.before, h.after)) else None
  }

  function Tagged(s: string, literal: string, c: char): Option<Field> {
    match Expect(s, literal)
    case None => None
    case Some(t) => Until(t, c)
  }

  function ParseNumber(s: string): Option<nat> {
    if Decimal.Canonical(s) then Some(Decimal.Value(s)) else None
  }

  datatype Routes = Routes(lines: seq<RouteLine>, rest: string)

  function ParseRoutes(s: string): Option<Routes>
    decreases |s|
  {
    match Tagged(s, ROUTE, ' ')
    case None => Some(Routes([], s))
    case Some(route) =>
      match Tagged(route.rest, VIA, '"')
      case None => None
      case Some(via) =>
        match Expect(via.rest, ";")
        case None => None
        case Some(rest) =>
          match ParseRoutes(rest)
          case None => None
          case Some(more) => Some(Routes([RouteLine(route.text, via.text)] + more.lines, more.rest))
  }

  function ParseBgp(s: string, routerID: string, iface: string, routes: seq<RouteLine>): Option<Document> {
    match Tagged(s, BGP, ';')
    case None => None
    case Some(local) =>
      match Tagged(local.rest, NEIGHBOR, ' ')
      case None => None
      case Some(peer) =>
        match Tagged(peer.rest, PEER_AS, ';')
        case None => None
        case Some(remote) =>
          var localASN, peerASN := ParseNumber(local.text), ParseNumber(remote.text);
          if localASN.None? || peerASN.None? || remote.rest != EXPORT + "\n" then None
          else Some(Document(routerID, iface, routes, localASN.value, peer.text, peerASN.value))
  }

  function ParseStatic(s: string, routerID: string): Option<Document> {
    match Tagged(s, DIRECT, '"')
    case None => None
    case Some(iface) =>
      match Expect(iface.rest, STATIC)
      case None => None
      case Some(t) =>
        match ParseRoutes(t)
        case None => None
        case Some(routes) => ParseBgp(routes.rest, routerID, iface.text, routes.lines)
  }

  function ParseDocument(s: string): Option<Document> {
    match Expect(s, LOG)
    case None => None
    case Some(t) =>
      match Tagged(t, ROUTER, ';')
      case None => ParseStatic(t, "")
      case Some(router) => ParseStatic(router.rest, router.text)
  }

  // ------------------------------------------------------------- round trip

  lemma TaggedReads(literal: string, field: string, c: char, rest: string)
    requires c !in field
    ensures Tagged(literal + (field + ([c] + rest)), literal, c) == Some(Field(field, rest))
  {
    var t := field + ([c] + rest);
    assert (literal + t)[|literal|..] == t;
    assert t == field + [c] + rest;
    CutJoined(field, c, rest);
  }

  lemma ExpectReads(literal: string, rest: string)
    ensures Expect(literal + rest, literal) == Some(rest)
  {
  }

  lemma NumberReads(n: nat)
    ensures ParseNumber(Decimal.Itoa(n)) == Some(n)
    ensures ';' !in Decimal.Itoa(n)
  {
    Decimal.ItoaReads(n);
    forall i | 0 <= i < |Decimal.Itoa(n)|
      ensures Decimal.Itoa(n)[i] != ';'
    {
      assert Decimal.IsDigit(Decimal.Itoa(n)[i]);
    }
  }

  // A field that cannot be mistaken for the punctuation around it.
  predicate PlainField(s: string) {
    ' ' !in s && ';' !in s && '"' !in s
  }

  function LinesOf(routes: seq<string>, iface: string): seq<RouteLine> {
    if routes == [] then [] else [RouteLine(routes[0], iface)] + LinesOf(routes[1..], iface)
  }

  predicate Printable(c: Config) {
    PlainField(c.iface) && PlainField(c.peerIP) && PlainField(c.routerID)
    && forall i | 0 <= i < |c.advertisedRoutes| :: PlainField(c.advertisedRoutes[i])
  }

  lemma {:induction false} RoutesRead(routes: seq<string>, c: Config)
    requires PlainField(c.iface) && forall i | 0 <= i < |routes| :: PlainField(routes[i])
    ensures ParseRoutes(RoutePart(routes, c) + "\n") == Some(Routes(LinesOf(routes, c.iface), BgpPart(c) + "\n"))
  {
    hide ParseRoutes;
    if routes == [] {
      NoRoutesRead(c);
    } else {
      var rest := RoutePart(routes[1..], c);
      var via := VIA + (c.iface + (['"'] + (";" + rest)));
      AppendNested(ROUTE, routes[0], " ", via);
      AppendNested(VIA, c.iface, "\"", ";" + rest);
      assert ";" + rest + "\n" == ";" + (rest + "\n");
      RoutesRead(routes[1..], c);
      RouteReads(routes[0], c.iface, rest + "\n");
    }
  }

  lemma NoRoutesRead(c: Config)
    ensures ParseRoutes(BgpPart(c) + "\n") == Some(Routes([], BgpPart(c) + "\n"))
  {
    SecondCharacters();
    assert (BgpPart(c) + "\n")[1] == BGP[1];
  }

  lemma SecondCharacters()
    ensures BGP[1] == '}' && ROUTE[1] == ' ' && DIRECT[1] == '\n' && ROUTER[1] == 'r'
  {
  }

  lemma RouteReads(route: string, iface: string, rest: string)
    requires PlainField(route) && PlainField(iface) && ParseRoutes(rest).Some?
    ensures ParseRoutes(ROUTE + (route + ([' '] + (VIA + (iface + (['"'] + (";" + rest))))))) ==
            Some(Routes([RouteLine(route, iface)] + ParseRoutes(rest).value.lines, ParseRoutes(rest).value.rest))
  {
    var t := VIA + (iface + (['"'] + (";" + rest)));
    var s := ROUTE + (route + ([' '] + t));
    TaggedReads(ROUTE, route, ' ', t);
    assert Tagged(s, ROUTE, ' ') == Some(Field(route, t));
    TaggedReads(VIA, iface, '"', ";" + rest);
    assert Tagged(t, VIA, '"') == Some(Field(iface, ";" + rest));
    ExpectReads(";", rest);
    assert ParseRoutes(s).Some?;
  }

  lemma BgpReads(c: Config, routerID: string, routes: seq<RouteLine>)
    requires PlainField(c.peerIP)
    ensures ParseBgp(BgpPart(c) + "\n", routerID, c.iface, routes) ==
            Some(Document(routerID, c.iface, routes, c.localASN, c.peerIP, c.peerASN))
  {
    NumberReads(c.localASN);
    NumberReads(c.peerASN);
    var end := EXPORT + "\n";
    var t := PEER_AS + (Decimal.Itoa(c.peerASN) + ([';'] + end));
    var u := NEIGHBOR + (c.peerIP + ([' '] + t));
    BgpText(c);
    TaggedReads(BGP, Decimal.Itoa(c.localASN), ';', u);
    TaggedReads(NEIGHBOR, c.peerIP, ' ', t);
    TaggedReads(PEER_AS, Decimal.Itoa(c.peerASN), ';', end);
  }

  lemma BgpText(c: Config)
    ensures BgpPart(c) + "\n" ==
            BGP + (Decimal.Itoa(c.localASN) + ([';'] +
                (NEIGHBOR + (c.peerIP + ([' '] + (PEER_AS + (Decimal.Itoa(c.peerASN) + ([';'] + (EXPORT + "\n")))))))))
  {
    AppendNested(PEER_AS, Decimal.Itoa(c.peerASN), ";", EXPORT);
    AppendNested(NEIGHBOR, c.peerIP, " ", PEER_AS + (Decimal.Itoa(c.peerASN) + (";" + EXPORT)));
    AppendNested(BGP, Decimal.Itoa(c.localASN), ";",
                 NEIGHBOR + (c.peerIP + (" " + (PEER_AS + (Decimal.Itoa(c.peerASN) + (";" + EXPORT))))));
  }

  lemma AppendNested(literal: string, field: string, separator: string, rest: string)
    ensures literal + (field + (separator + rest)) + "\n" == literal + (field + (separator + (rest + "\n")))
  {
  }

  lemma StaticReads(c: Config, routerID: string)
    requires Printable(c)
    ensures ParseStatic(DirectPart(c) + "\n", routerID) ==
            Some(Document(routerID, c.iface, LinesOf(c.advertisedRoutes, c.iface), c.localASN, c.peerIP, c.peerASN))
  {
    var routes := RoutePart(c.advertisedRoutes, c);
    AppendNested(DIRECT, c.iface, "\"", STATIC + routes);
    assert STATIC + routes + "\n" == STATIC + (routes + "\n");
    TaggedReads(DIRECT, c.iface, '"', STATIC + (routes + "\n"));
    ExpectReads(STATIC, routes + "\n");
    RoutesRead(c.advertisedRoutes, c);
    BgpReads(c, routerID, LinesOf(c.advertisedRoutes, c.iface));
  }

  lemma DocumentReads(c: Config)
    requires Printable(c)
    ensures ParseDocument(Body(c) + "\n") ==
            Some(Document(c.routerID, c.iface, LinesOf(c.advertisedRoutes, c.iface), c.localASN, c.peerIP, c.peerASN))
  {
    hide ParseStatic, RouterPart, DirectPart;
    var t := RouterPart(c) + "\n";
    assert Body(c) + "\n" == LOG + t;
    ExpectReads(LOG, t);
    StaticReads(c, c.routerID);
    if c.routerID == "" {
      NoRouterReads(c);
    } else {
      RouterReads(c);
    }
  }

  lemma NoRouterReads(c: Config)
    requires c.routerID == ""
    ensures RouterPart(c) == DirectPart(c) && Tagged(RouterPart(c) + "\n", ROUTER, ';').None?
  {
    hide RoutePart;
    SecondCharacters();
    assert (RouterPart(c) + "\n")[1] == DIRECT[1];
  }

  lemma RouterReads(c: Config)
    requires c.routerID != "" && PlainField(c.routerID)
    ensures Tagged(RouterPart(c) + "\n", ROUTER, ';') == Some(Field(c.routerID, DirectPart(c) + "\n"))
  {
    hide DirectPart, Tagged;
    AppendNested(ROUTER, c.routerID, ";", DirectPart(c));
    TaggedReads(ROUTER, c.routerID, ';', DirectPart(c) + "\n");
  }

  // ------------------------------------------------------------- accepted configurations

  // IPv6 prefixes are written without spaces, semicolons or quotes.
  ghost predicate PlainV6(v6: Ipv4.V6Syntax) {
    forall s | v6.isPrefix(s) :: PlainField(s)
  }

  lemma QuadIsPlain(v6: Ipv4.V6Syntax, s: string)
    requires Ipv4.ParseAddr(v6, s).Some? && Ipv4.ParseAddr(v6, s).value.V4?
    ensures PlainField(s)
  {
    var a := Ipv4.ParseAddr(v6, s).value.addr;
    Ipv4.ParsedAddr(v6, s);
    Ipv4.PrintedAddr(v6, a);
    forall i | 0 <= i < |s|
      ensures s[i] != ' ' && s[i] != ';' && s[i] != '"'
    {
      assert Ipv4.QuadChar(s[i]);
    }
  }

  lemma PrefixIsPlain(v6: Ipv4.V6Syntax, s: string)
    requires PlainV6(v6) && Ipv4.ParsePrefix(v6, s).Some?
    ensures PlainField(s)
  {
    hide PlainField, Ipv4.ParseAddr, Decimal.Atoi;
    if Ipv4.ParsePrefix(v6, s).value.Net4? {
      var i := Ipv4.LastSlash(s);
      QuadIsPlain(v6, s[..i]);
      DigitsArePlain(s[i + 1..]);
      SlashIsPlain(s, i);
    }
  }

  lemma DigitsArePlain(bits: string)
    requires Decimal.Atoi(bits).ok && (|bits| > 1 ==> '1' <= bits[0] <= '9')
    ensures PlainField(bits)
  {
    forall k | 0 <= k < |bits|
      ensures bits[k] != ' ' && bits[k] != ';' && bits[k] != '"'
    {
      assert Decimal.AllDigits(bits) ==> Decimal.IsDigit(bits[k]);
    }
  }

  lemma SlashIsPlain(s: string, i: nat)
    requires i < |s| && s[i] == '/' && PlainField(s[..i]) && PlainField(s[i + 1..])
    ensures PlainField(s)
  {
    assert s == s[..i] + "/" + s[i + 1..];
  }

  lemma {:induction false} AcceptedRoutes(v6: Ipv4.V6Syntax, routes: seq<string>)
    requires FirstBadRoute(v6, routes).None?
    ensures forall i | 0 <= i < |routes| :: Ipv4.ParsePrefix(v6, routes[i]).Some?
  {
    if routes != [] {
      AcceptedRoutes(v6, routes[1..]);
    }
  }

  lemma AcceptedIsPrintable(v6: Ipv4.V6Syntax, c: Config)
    requires PlainV6(v6) && Check(v6, c).None?
    ensures Printable(c)
  {
    QuadIsPlain(v6, c.peerIP);
    if c.routerID != "" {
      QuadIsPlain(v6, c.routerID);
    }
    forall i | 0 <= i < |c.iface|
      ensures c.iface[i] != ' ' && c.iface[i] != ';' && c.iface[i] != '"'
    {
      assert IsNameChar(c.iface[i]);
    }
    AcceptedRoutes(v6, c.advertisedRoutes);
    forall i | 0 <= i < |c.advertisedRoutes|
      ensures PlainField(c.advertisedRoutes[i])
    {
      PrefixIsPlain(v6, c.advertisedRoutes[i]);
    }
  }

  // Every field of an accepted configuration is read back from the generated text.
  lemma GenerateReads(v6: Ipv4.V6Syntax, config: Config)
    requires PlainV6(v6) && Generate(v6, config).Ok?
    ensures var iface := if config.iface == "" then "wg0" else config.iface;
            ParseDocument(Generate(v6, config).text) ==
            Some(Document(config.routerID, iface, LinesOf(config.advertisedRoutes, iface), config.localASN,
                          config.peerIP, config.peerASN))
  {
    hide ParseDocument, Check, Printable, PlainV6, Body, LinesOf, TrimSpace;
    var c := config.WithDefaults();
    AcceptedIsPrintable(v6, c);
    BodyIsTrimmed(c);
    TrimFramed("\n", Body(c), "\n");
    DocumentReads(c);
  }

  lemma BodyIsTrimmed(c: Config)
    ensures Trimmed(Body(c))
  {
    hide RouterPart;
    assert Body(c)[0] == LOG[0] == 'l';
    ClosesAppend(LOG, RouterPart(c));
  }

  // ------------------------------------------------------------- what it exports

  lemma NestedFront(a: string, b: string, c: string, d: string, e: string, f: string, g: string, rest: string)
    ensures a + (b + (c + (d + (e + (f + (g + rest)))))) == a + (b + (c + (d + (e + (f + g))))) + rest
  {
  }

  lemma {:induction false} RoutesThenBgp(routes: seq<string>, c: Config) returns (lines: string)
    ensures RoutePart(routes, c) == lines + BgpPart(c)
  {
    hide BgpPart, ROUTE, VIA;
    lines := "";
    if routes != [] {
      var rest := RoutesThenBgp(routes[1..], c);
      NestedFront(ROUTE, routes[0], " ", VIA, c.iface, "\"", ";", RoutePart(routes[1..], c));
      lines := ROUTE + (routes[0] + (" " + (VIA + (c.iface + ("\"" + ";"))))) + rest;
    }
  }

  lemma ThenStatic(c: Config) returns (direct: string)
    ensures DirectPart(c) == direct + (STATIC + RoutePart(c.advertisedRoutes, c))
  {
    hide RoutePart, DIRECT, STATIC;
    direct := DIRECT + (c.iface + "\"");
  }

  lemma ThenDirect(c: Config) returns (router: string)
    ensures RouterPart(c) == router + DirectPart(c)
  {
    hide DirectPart, ROUTER;
    router := if c.routerID == "" then "" else ROUTER + (c.routerID + ";");
  }

  lemma BgpFilters(c: Config) returns (peer: string, close: string)
    ensures BgpPart(c) == peer + (FILTER + close)
  {
    hide BGP, NEIGHBOR, PEER_AS, FILTER, Decimal.Itoa;
    var open := "\n    ipv4 {\n        ";
    close := "\n    };\n}";
    var own := BGP + (Decimal.Itoa(c.localASN) + ";");
    var theirs := NEIGHBOR + (c.peerIP + (" " + (PEER_AS + (Decimal.Itoa(c.peerASN) + ";"))));
    peer := own + theirs + open;
    assert BgpPart(c) == own + (theirs + (open + (FILTER + close)));
  }

  lemma GeneratedParts(v6: Ipv4.V6Syntax, config: Config) returns (head: string, lines: string, tail: string)
    requires Generate(v6, config).Ok?
    ensures Generate(v6, config).text == head + OPENING + lines + FILTER + tail
  {
    hide Check, RouterPart, DirectPart, RoutePart, BgpPart, TrimSpace, FILTER, OPENING, LOG;
    var c := config.WithDefaults();
    BodyIsTrimmed(c);
    TrimFramed("\n", Body(c), "\n");
    var router := ThenDirect(c);
    var direct := ThenStatic(c);
    var before := RoutesThenBgp(c.advertisedRoutes, c);
    var peer, close := BgpFilters(c);
    Reassociate(LOG, router, direct, ";\n}\n\n", OPENING, "\n    ipv4;", before, peer, FILTER, close);
    head, lines, tail := LOG + router + direct + ";\n}\n\n", "\n    ipv4;" + before + peer, close + "\n";
  }

  lemma Reassociate(log: string, router: string, direct: string, a: string, x: string, b: string, c: string, d: string,
      y: string, e: string)
    ensures log + (router + (direct + ((a + (x + b)) + (c + (d + (y + e)))))) + "\n" ==
            (log + router + direct + a) + x + (b + c + d) + y + (e + "\n")
  {
  }

  // The peer is sent the routes of the static protocol and nothing else, and nothing is taken
  // from it: in the generated text the advertised routes stand in a protocol of the name that
  // the export filter of the BGP protocol asks for.
  lemma ExportsAdvertisedOnly(v6: Ipv4.V6Syntax, config: Config)
    requires Generate(v6, config).Ok?
    ensures exists head, lines, tail ::
              Generate(v6, config).text ==
              head + "protocol static advertised_routes {" + lines
              + "import none;\n        export where proto = \"advertised_routes\";" + tail
  {
    hide Generate;
    var _, _, _ := GeneratedParts(v6, config);
  }

  lemma GeneratedText(v6: Ipv4.V6Syntax, c: Config)
    requires Generate(v6, c).Ok?
    ensures Generate(v6, c).text != ""
  {
    hide Check, Body, TrimSpace;
  }

  lemma {:induction false} LinesInjective(a: seq<string>, b: seq<string>, iface: string)
    requires LinesOf(a, iface) == LinesOf(b, iface)
    ensures a == b
  {
    if a != [] && b != [] {
      assert LinesOf(a, iface)[0] == LinesOf(b, iface)[0];
      assert LinesOf(a, iface)[1..] == LinesOf(b, iface)[1..];
      LinesInjective(a[1..], b[1..], iface);
      assert a == [a[0]] + a[1..] && b == [b[0]] + b[1..];
    }
  }

  // Two accepted configurations give the same text only if they are the same once the
  // interface default is filled in.
  lemma GenerateInjective(v6: Ipv4.V6Syntax, a: Config, b: Config)
    requires PlainV6(v6) && Generate(v6, a).Ok?
    ensures Generate(v6, a) == Generate(v6, b) <==> a.WithDefaults() == b.WithDefaults()
  {
    if Generate(v6, a) == Generate(v6, b) {
      GenerateReads(v6, a);
      GenerateReads(v6, b);
      LinesInjective(a.advertisedRoutes, b.advertisedRoutes, a.WithDefaults().iface);
    }
  }

  // The characters of an interface name, and its length, which the kernel limits to 15.
  const UPPER := "ABCDEFGHIJKLMNOPQRSTUVWXYZ"
  const LOWER := "abcdefghijklmnopqrstuvwxyz"
  const OTHERS := "0123456789_.-"

  predicate IsName(name: string) {
    1 <= |name| <= 15 && forall c | c in name :: c in UPPER || c in LOWER || c in OTHERS
  }

  lemma UpperIs(c: char)
    ensures c in UPPER <==> 'A' <= c <= 'Z'
  {
    assert forall i | 0 <= i < 26 :: UPPER[i] as int == 'A' as int + i;
    if 'A' <= c <= 'Z' {
      assert UPPER[c as int - 'A' as int] == c;
    }
  }

  lemma LowerIs(c: char)
    ensures c in LOWER <==> 'a' <= c <= 'z'
  {
    assert forall i | 0 <= i < 26 :: LOWER[i] as int == 'a' as int + i;
    if 'a' <= c <= 'z' {
      assert LOWER[c as int - 'a' as int] == c;
    }
  }

  lemma OthersAre(c: char)
    ensures c in OTHERS <==> '0' <= c <= '9' || c == '_' || c == '.' || c == '-'
  {
    assert forall i | 0 <= i < 10 :: OTHERS[i] as int == '0' as int + i;
    assert OTHERS[10] == '_' && OTHERS[11] == '.' && OTHERS[12] == '-';
    if '0' <= c <= '9' {
      assert OTHERS[c as int - '0' as int] == c;
    }
  }

  lemma NameExactly(name: string)
    ensures ValidInterfaceName(name) <==> IsName(name)
  {
    hide UPPER, LOWER, OTHERS;
    forall c: char
      ensures IsNameChar(c) <==> c in UPPER || c in LOWER || c in OTHERS
    {
      UpperIs(c);
      LowerIs(c);
      OthersAre(c);
    }
    if IsName(name) {
      assert forall i | 0 <= i < |name| :: name[i] in name;
    }
  }

  // Which configurations are accepted, whatever the order of the checks. An interface that is
  // not named is wg0.
  lemma GenerateAccepts(v6: Ipv4.V6Syntax, config: Config)
    ensures Generate(v6, config).Ok? <==>
            && IsName(if config.iface == "" then "wg0" else config.iface)
            && config.localASN != 0 && config.peerASN != 0
            && (exists a :: Ipv4.ParseAddr(v6, config.peerIP) == Some(Ipv4.V4(a)))
            && (config.routerID == "" || exists a :: Ipv4.ParseAddr(v6, config.routerID) == Some(Ipv4.V4(a)))
            && config.advertisedRoutes != []
            && (forall i | 0 <= i < |config.advertisedRoutes| :: Ipv4.ParsePrefix(v6, config.advertisedRoutes[i]).Some?)
  {
    hide Ipv4.ParseAddr, Ipv4.ParsePrefix, ValidInterfaceName, Body, IsName;
    NameExactly(config.WithDefaults().iface);
    BadRouteMeaning(v6, config.advertisedRoutes);
    var peer, router := Ipv4.ParseAddr(v6, config.peerIP), Ipv4.ParseAddr(v6, config.routerID);
    if peer.Some? && peer.value.V4? {
      assert peer == Some(Ipv4.V4(peer.value.addr));
    }
    if router.Some? && router.value.V4? {
      assert router == Some(Ipv4.V4(router.value.addr));
    }
  }

  lemma {:induction false} BadRouteMeaning(v6: Ipv4.V6Syntax, routes: seq<string>)
    ensures FirstBadRoute(v6, routes).None? <==> forall i | 0 <= i < |routes| :: Ipv4.ParsePrefix(v6, routes[i]).Some?
  {
    hide Ipv4.ParsePrefix;
    if routes != [] {
      BadRouteMeaning(v6, routes[1..]);
      assert forall i | 1 <= i < |routes| :: routes[i] == routes[1..][i - 1];
    }
  }

  // Host bits are no obstacle: any text that reads as a prefix may be advertised.
  lemma AnyPrefixIsAccepted(v6: Ipv4.V6Syntax, c: Config, route: string)
    requires Generate(v6, c).Ok? && Ipv4.ParsePrefix(v6, route).Some?
    ensures Generate(v6, c.(advertisedRoutes := c.advertisedRoutes + [route])).Ok?
  {
    hide Generate, Ipv4.ParsePrefix, Ipv4.ParseAddr, IsName;
    GenerateAccepts(v6, c);
    GenerateAccepts(v6, c.(advertisedRoutes := c.advertisedRoutes + [route]));
  }
}
