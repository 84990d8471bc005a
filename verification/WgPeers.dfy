/** Configurations with several peers, which the validator of internal/wg/config.go accepts:
    what the parser sees of them, and what saving does when a peer is deleted from the page. */
module WgPeers {
  import opened Options
  import opened Text
  import opened WgConfig
  import opened WgRescan
  import opened WgReprint
  import opened WgLaws
  import opened WgMerge
  import WgMeta
  import WgStore
  import Decimal

  datatype Peer = Peer(key: string, endpoint: string)

  function PeerLines(eq: string, peers: seq<Peer>): seq<string> {
    if peers == [] then []
    else ["[Peer]", "PublicKey" + eq + peers[0].key, "Endpoint" + eq + peers[0].endpoint] + PeerLines(eq, peers[1..])
  }

  function ConfigLines(eq: string, private: string, peers: seq<Peer>): seq<string> {
    ["[Interface]", "PrivateKey" + eq + private] + PeerLines(eq, peers)
  }

  function ConfigText(eq: string, private: string, peers: seq<Peer>): string {
    Print(ConfigLines(eq, private, peers))
  }

  // The separator as it is typed, or as a rewriting writes it.
  predicate Separator(eq: string) {
    eq == "=" || eq == "= "
  }

  // A value that can be written on a line.
  predicate OneLine(value: string) {
    Trimmed(value) && '\n' !in value && |value| <= LINE_LIMIT - 20
  }

  predicate PlainPeers(peers: seq<Peer>) {
    forall i | 0 <= i < |peers| :: OneLine(peers[i].key) && OneLine(peers[i].endpoint)
  }

  // ------------------------------------------------------------- what a scan finds

  function PeerEvents(peers: seq<Peer>, n: nat): seq<Event> {
    if peers == [] then []
    else
      [Section("peer"), Setting("peer", "publickey", peers[0].key, n + 1),
          Setting("peer", "endpoint", peers[0].endpoint, n + 1)]
      + PeerEvents(peers[1..], n + 1)
  }

  function ConfigEvents(private: string, peers: seq<Peer>): seq<Event> {
    [Section("interface"), Setting("interface", "privatekey", private, 1)] + PeerEvents(peers, 0)
  }

  lemma HeaderOf(line: string, inner: string, name: string)
    requires line == "[" + inner + "]" && Trimmed(inner) && ToLower(inner) == name
    ensures Classify(line) == Header(name)
  {
    hide ToLower, TrimLeft, TrimRight, TrimSpace;
    TrimOfTrimmed(line);
    assert line[1..|line| - 1] == inner;
    TrimOfTrimmed(inner);
    assert line[0] == '[' && line[|line| - 1] == ']';
  }

  lemma InterfaceLine()
    ensures Classify("[Interface]") == Header("interface")
  {
    hide Classify, ToLower;
    InterfaceName();
    InterfaceText();
    HeaderOf("[Interface]", "Interface", "interface");
  }

  lemma InterfaceText()
    ensures "[Interface]" == "[" + "Interface" + "]" && Trimmed("Interface")
  {
    hide ToLower;
  }

  lemma PeerLine()
    ensures Classify("[Peer]") == Header("peer")
  {
    hide Classify;
    PeerName();
    HeaderOf("[Peer]", "Peer", "peer");
  }

  lemma InterfaceName()
    ensures ToLower("Interface") == "interface"
  {
    LowerIs("Interface", "interface");
  }

  lemma PeerName()
    ensures ToLower("Peer") == "peer"
  {
    LowerIs("Peer", "peer");
  }

  // The names used here, as typed and as looked up.
  predicate Named(name: string, key: string) {
    || (name == "PrivateKey" && key == "privatekey")
    || (name == "PublicKey" && key == "publickey")
    || (name == "Endpoint" && key == "endpoint")
  }

  lemma SettingLine(name: string, key: string, eq: string, value: string)
    requires Named(name, key)
    requires Separator(eq) && Trimmed(value)
    ensures Classify(name + eq + value) == Directive(key, value)
    ensures Cut(name + eq + value, '=').before == name
    ensures !EndsInCR(name + eq + value)
  {
    hide TrimLeft, TrimRight, TrimSpace, Classify, Cut, Named, KeyName;
    var after := if eq == "=" then value else " " + value;
    assert name + eq + value == name + ['='] + after;
    if eq == "=" {
      TrimOfTrimmed(value);
    } else {
      assert " " + value == " " + value + "";
      TrimFramed(" ", value, "");
    }
    KeyOfName(name, key);
    ClassifyCut(name, after);
  }

  predicate NamesKey(name: string, key: string) {
    ToLower(name) == key && |name| <= 10 && Bare(name) && key != "" && key[0] !in "#;["
  }

  // Letters only.
  predicate Bare(name: string) {
    forall i | 0 <= i < |name| :: 'A' <= name[i] <= 'z'
  }

  lemma PrivateKeyName()
    ensures NamesKey("PrivateKey", "privatekey")
  {
    hide ToLower, Bare;
    LowerIs("PrivateKey", "privatekey");
    PrivateKeyIsBare();
  }

  lemma PrivateKeyIsBare()
    ensures Bare("PrivateKey")
  {
  }

  lemma PublicKeyName()
    ensures NamesKey("PublicKey", "publickey")
  {
    hide ToLower, Bare;
    LowerIs("PublicKey", "publickey");
    PublicKeyIsBare();
  }

  lemma PublicKeyIsBare()
    ensures Bare("PublicKey")
  {
  }

  lemma EndpointName()
    ensures NamesKey("Endpoint", "endpoint")
  {
    hide ToLower, Bare;
    LowerIs("Endpoint", "endpoint");
    EndpointIsBare();
  }

  lemma EndpointIsBare()
    ensures Bare("Endpoint")
  {
  }

  lemma KeyOfName(name: string, key: string)
    requires Named(name, key)
    ensures NamesKey(name, key) && KeyName(name) == key && '=' !in name && '\n' !in name
  {
    hide NamesKey;
    PrivateKeyName();
    PublicKeyName();
    EndpointName();
    assert NamesKey(name, key);
    NameIsKey(name, key);
  }

  lemma NameIsKey(name: string, key: string)
    requires NamesKey(name, key)
    ensures KeyName(name) == key && '=' !in name && '\n' !in name
  {
    hide ToLower;
    TrimOfTrimmed(name);
  }

  lemma EventsCons(line: string, rest: seq<string>, ctx: Ctx, g: Replacer)
    ensures EventsFrom([line] + rest, ctx) == EventsOf(line, ctx) + EventsFrom(rest, After(line, ctx))
    ensures RewriteFrom([line] + rest, ctx, g) == [Rewrite(line, ctx, g)] + RewriteFrom(rest, After(line, ctx), g)
  {
    assert ([line] + rest)[1..] == rest;
  }

  // The peers after rewriting with g.
  function MapPeers(peers: seq<Peer>, n: nat, g: Replacer): seq<Peer> {
    if peers == [] then []
    else
      [Peer(g("peer", "publickey", peers[0].key, n + 1), g("peer", "endpoint", peers[0].endpoint, n + 1))]
      + MapPeers(peers[1..], n + 1, g)
  }

  predicate PeerCounts(counts: Counts, n: nat) {
    Count(counts, "peer.publickey") == n && Count(counts, "peer.endpoint") == n
  }

  lemma OnePeer(eq: string, peer: Peer, rest: seq<string>, ctx: Ctx, n: nat, g: Replacer) returns (next: Ctx)
    requires Separator(eq) && OneLine(peer.key) && OneLine(peer.endpoint) && PeerCounts(ctx.counts, n)
    ensures PeerCounts(next.counts, n + 1)
    ensures var lines := ["[Peer]", "PublicKey" + eq + peer.key, "Endpoint" + eq + peer.endpoint] + rest;
            && EventsFrom(lines, ctx) ==
                 [Section("peer"), Setting("peer", "publickey", peer.key, n + 1),
                     Setting("peer", "endpoint", peer.endpoint, n + 1)]
                 + EventsFrom(rest, next)
            && RewriteFrom(lines, ctx, g) ==
                 ["[Peer]", "PublicKey" + "= " + g("peer", "publickey", peer.key, n + 1),
                  "Endpoint" + "= " + g("peer", "endpoint", peer.endpoint, n + 1)]
                 + RewriteFrom(rest, next, g)
  {
    hide Classify, Cut, EventsFrom, RewriteFrom, Trimmed;
    var l1, l2, l3 := "[Peer]", "PublicKey" + eq + peer.key, "Endpoint" + eq + peer.endpoint;
    PeerLine();
    SettingLine("PublicKey", "publickey", eq, peer.key);
    SettingLine("Endpoint", "endpoint", eq, peer.endpoint);
    var c1 := After(l1, ctx);
    var c2 := After(l2, c1);
    next := After(l3, c2);
    EventsCons(l1, [l2] + ([l3] + rest), ctx, g);
    EventsCons(l2, [l3] + rest, c1, g);
    EventsCons(l3, rest, c2, g);
    assert [l1, l2, l3] + rest == [l1] + ([l2] + ([l3] + rest));
    SlotNames();
  }

  lemma SlotNames()
    ensures Slot("peer", "publickey") == "peer.publickey" && Slot("peer", "endpoint") == "peer.endpoint"
    ensures Slot("interface", "privatekey") == "interface.privatekey"
  {
  }

  lemma NoLines(ctx: Ctx, g: Replacer)
    ensures EventsFrom([], ctx) == [] && RewriteFrom([], ctx, g) == []
  {
  }

  lemma {:induction false} PeersScan(eq: string, peers: seq<Peer>, ctx: Ctx, n: nat, g: Replacer)
    requires Separator(eq) && PlainPeers(peers) && PeerCounts(ctx.counts, n)
    ensures EventsFrom(PeerLines(eq, peers), ctx) == PeerEvents(peers, n)
    ensures RewriteFrom(PeerLines(eq, peers), ctx, g) == PeerLines("= ", MapPeers(peers, n, g))
    decreases |peers|
  {
    hide PeerCounts, Separator, OneLine, EventsFrom, RewriteFrom;
    if peers == [] {
      NoLines(ctx, g);
    } else {
      var next := OnePeer(eq, peers[0], PeerLines(eq, peers[1..]), ctx, n, g);
      PeersScan(eq, peers[1..], next, n + 1, g);
      assert MapPeers(peers, n, g)[1..] == MapPeers(peers[1..], n + 1, g);
    }
  }

  lemma ConfigLinesScan(eq: string, private: string, peers: seq<Peer>, g: Replacer)
    requires Separator(eq) && OneLine(private) && PlainPeers(peers)
    ensures EventsFrom(ConfigLines(eq, private, peers), START) == ConfigEvents(private, peers)
    ensures RewriteFrom(ConfigLines(eq, private, peers), START, g) ==
            ConfigLines("= ", g("interface", "privatekey", private, 1), MapPeers(peers, 0, g))
  {
    hide Classify, Cut, EventsFrom, RewriteFrom, PeerLines, PeerEvents, MapPeers, Trimmed, PlainPeers;
    var l1, l2, rest := "[Interface]", "PrivateKey" + eq + private, PeerLines(eq, peers);
    InterfaceLine();
    SettingLine("PrivateKey", "privatekey", eq, private);
    EventsCons(l1, [l2] + rest, START, g);
    EventsCons(l2, rest, After(l1, START), g);
    assert [l1, l2] + rest == [l1] + ([l2] + rest);
    SlotNames();
    var ctx := After(l2, After(l1, START));
    assert ctx.counts == map["interface.privatekey" := 1];
    assert "peer.publickey" != "interface.privatekey" && "peer.endpoint" != "interface.privatekey" by {
      assert |"peer.publickey"| != |"interface.privatekey"| && |"peer.endpoint"| != |"interface.privatekey"|;
    }
    PeersScan(eq, peers, ctx, 0, g);
  }

  // Lines a scanner takes whole.
  predicate PlainLines(lines: seq<string>) {
    NoBreaks(lines) && NoCR(lines) && AllFit(lines)
  }

  lemma PlainValueLine(name: string, key: string, eq: string, value: string)
    requires Named(name, key)
    requires Separator(eq) && OneLine(value)
    ensures var line := name + eq + value; '\n' !in line && !EndsInCR(line) && |line| <= LINE_LIMIT
  {
    hide Classify, Cut, Named, Trimmed;
    KeyOfName(name, key);
    SettingLine(name, key, eq, value);
    assert '\n' !in eq;
  }

  lemma PlainAppend(a: seq<string>, b: seq<string>)
    requires PlainLines(a) && PlainLines(b)
    ensures PlainLines(a + b)
  {
    forall i | 0 <= i < |a + b|
      ensures '\n' !in (a + b)[i] && !EndsInCR((a + b)[i]) && |(a + b)[i]| <= LINE_LIMIT
    {
      if i >= |a| {
        assert (a + b)[i] == b[i - |a|];
      }
    }
  }

  lemma {:induction false} PlainPeerLines(eq: string, peers: seq<Peer>)
    requires Separator(eq) && PlainPeers(peers)
    ensures PlainLines(PeerLines(eq, peers))
  {
    hide OneLine, Separator;
    if peers != [] {
      PlainPeerLines(eq, peers[1..]);
      PlainValueLine("PublicKey", "publickey", eq, peers[0].key);
      PlainValueLine("Endpoint", "endpoint", eq, peers[0].endpoint);
      PlainAppend(["[Peer]", "PublicKey" + eq + peers[0].key, "Endpoint" + eq + peers[0].endpoint],
          PeerLines(eq, peers[1..]));
    }
  }

  lemma PlainConfigLines(eq: string, private: string, peers: seq<Peer>)
    requires Separator(eq) && OneLine(private) && PlainPeers(peers)
    ensures PlainLines(ConfigLines(eq, private, peers))
  {
    hide OneLine, Separator, PeerLines;
    PlainValueLine("PrivateKey", "privatekey", eq, private);
    PlainPeerLines(eq, peers);
    PlainAppend(["[Interface]", "PrivateKey" + eq + private], PeerLines(eq, peers));
  }

  // Printed plain lines are scanned as they are.
  lemma PlainPrint(lines: seq<string>, g: Replacer)
    requires PlainLines(lines)
    ensures !Scan(Print(lines)).tooLong && Events(Print(lines)) == EventsFrom(lines, START)
    ensures Transform(Print(lines), g) == Print(RewriteFrom(lines, START, g))
  {
    hide Core, CoreLeft, CoreRight, Print, EventsFrom, RewriteFrom;
    TokensPrint(lines);
    CoreLines(lines);
    CoreShortens(lines);
    VisibleFits(Core(lines));
    EventsOfPrint(lines);
    ScanPrint(lines);
    RewriteCore(lines, g);
  }

  lemma CoreShortens(lines: seq<string>)
    requires AllFit(lines)
    ensures AllFit(Core(lines))
  {
    WgMeta.CoreFits(lines);
    WgMeta.CoreFits(CoreLeft(lines));
  }

  // The text of several peers has their settings, numbered, in order.
  lemma ConfigScans(eq: string, private: string, peers: seq<Peer>, g: Replacer)
    requires Separator(eq) && OneLine(private) && PlainPeers(peers)
    ensures !Scan(ConfigText(eq, private, peers)).tooLong
    ensures Events(ConfigText(eq, private, peers)) == ConfigEvents(private, peers)
    ensures Transform(ConfigText(eq, private, peers), g) ==
            ConfigText("= ", g("interface", "privatekey", private, 1), MapPeers(peers, 0, g))
  {
    hide ConfigLines, PlainLines, Separator, OneLine, PlainPeers, Print;
    PlainConfigLines(eq, private, peers);
    ConfigLinesScan(eq, private, peers, g);
    PlainPrint(ConfigLines(eq, private, peers), g);
  }

  // ------------------------------------------------------------- the parser sees the last peer

  lemma {:induction false} LastPeer(peers: seq<Peer>, n: nat, before: seq<Event>)
    ensures var all := before + PeerEvents(peers, n);
            && WgMeta.LastValue(all, "peer.endpoint", "") ==
                 (if peers == [] then WgMeta.LastValue(before, "peer.endpoint", "") else peers[|peers| - 1].endpoint)
            && WgMeta.LastValue(all, "peer.publickey", "") ==
                 (if peers == [] then WgMeta.LastValue(before, "peer.publickey", "") else peers[|peers| - 1].key)
            && WgMeta.LastValue(all, "interface.privatekey", "") == WgMeta.LastValue(before, "interface.privatekey", "")
    decreases |peers|
  {
    hide WgMeta.LastValue;
    if peers == [] {
      assert before + PeerEvents(peers, n) == before;
    } else {
      var s, k, e := Section("peer"), Setting("peer", "publickey", peers[0].key, n + 1),
          Setting("peer", "endpoint", peers[0].endpoint, n + 1);
      var all := before + [s] + [k] + [e];
      assert before + PeerEvents(peers, n) == all + PeerEvents(peers[1..], n + 1);
      LastPeer(peers[1..], n + 1, all);
      LastOfThree(before, s, k, e, "peer.endpoint");
      LastOfThree(before, s, k, e, "peer.publickey");
      LastOfThree(before, s, k, e, "interface.privatekey");
      SlotNames();
    }
  }

  lemma LastOfThree(before: seq<Event>, a: Event, b: Event, c: Event, slot: string)
    ensures WgMeta.LastValue(before + [a] + [b] + [c], slot, "") ==
            if c.Setting? && Slot(c.section, c.key) == slot then c.value
            else if b.Setting? && Slot(b.section, b.key) == slot then b.value
            else if a.Setting? && Slot(a.section, a.key) == slot then a.value
            else WgMeta.LastValue(before, slot, "")
  {
    hide WgMeta.LastValue;
    WgMeta.LastSnoc(before + [a] + [b], c, slot, "");
    WgMeta.LastSnoc(before + [a], b, slot, "");
    WgMeta.LastSnoc(before, a, slot, "");
  }

  lemma LastEndpointOf(private: string, peers: seq<Peer>)
    requires peers != []
    ensures WgMeta.LastValue(ConfigEvents(private, peers), "peer.endpoint", "") == peers[|peers| - 1].endpoint
  {
    hide WgMeta.LastValue, PeerEvents;
    LastPeer(peers, 0, [Section("interface"), Setting("interface", "privatekey", private, 1)]);
  }

  lemma EndpointSetting(private: string, peers: seq<Peer>, i: nat)
    requires i < |peers|
    ensures Setting("peer", "endpoint", peers[i].endpoint, i + 1) in ConfigEvents(private, peers)
  {
    hide PeerEvents;
    PeerSettings(peers, 0, i);
  }

  predicate GoodPeers(lib: Lib, peers: seq<Peer>) {
    forall i | 0 <= i < |peers| :: ValidKey(peers[i].key) && peers[i].endpoint != ""
        && ValidEndpoint(lib, peers[i].endpoint)
  }

  // Any number of peers is accepted, and of their endpoints the metadata holds the last.
  lemma PeersAccepted(lib: Lib, eq: string, private: string, peers: seq<Peer>)
    requires Separator(eq) && OneLine(private) && PlainPeers(peers)
    requires peers != [] && ValidKey(private) && GoodPeers(lib, peers)
    ensures Validate(lib, ConfigText(eq, private, peers)).error.None?
    ensures Meta(ConfigText(eq, private, peers)).endpoint == peers[|peers| - 1].endpoint
    ensures Events(ConfigText(eq, private, peers)) == ConfigEvents(private, peers)
  {
    hide ConfigText, Separator, OneLine, PlainPeers, GoodPeers, ValidKey, WgMeta.LastValue, WgMeta.EventAllowed;
    hide FirstError, Meta;
    var text := ConfigText(eq, private, peers);
    var head := [Section("interface"), Setting("interface", "privatekey", private, 1)];
    ConfigScans(eq, private, peers, IDENTITY);
    LastPeer(peers, 0, head);
    HeadKey(private);
    KeysNotEmpty(lib, private, peers);
    forall i | 0 <= i < |ConfigEvents(private, peers)|
      ensures WgMeta.EventAllowed(lib, ConfigEvents(private, peers)[i])
    {
      if i < 2 {
        HeadAllowed(lib, private);
      } else {
        PeersAllowed(lib, peers, 0, i - 2);
      }
    }
    WgMeta.ValidateAcceptsExactly(lib, text);
    WgMeta.LastSettingWins(text);
  }

  lemma HeadKey(private: string)
    ensures WgMeta.LastValue([Section("interface"), Setting("interface", "privatekey", private, 1)],
            "interface.privatekey", "") == private
  {
    SlotNames();
  }

  lemma EmptyIsNoKey()
    ensures !ValidKey("")
  {
  }

  lemma KeysNotEmpty(lib: Lib, private: string, peers: seq<Peer>)
    requires ValidKey(private) && GoodPeers(lib, peers)
    ensures private != "" && forall i | 0 <= i < |peers| :: peers[i].key != ""
  {
    hide ValidKey, ValidEndpoint;
    EmptyIsNoKey();
  }

  lemma HeadAllowed(lib: Lib, private: string)
    requires ValidKey(private)
    ensures WgMeta.EventAllowed(lib, Section("interface"))
    ensures WgMeta.EventAllowed(lib, Setting("interface", "privatekey", private, 1))
  {
    EmptyIsNoKey();
    SlotNames();
    hide Base64Length, WgMeta.IsKey;
    WgMeta.KeyExactly(private);
  }

  lemma {:induction false} PeersAllowed(lib: Lib, peers: seq<Peer>, n: nat, i: nat)
    requires GoodPeers(lib, peers) && i < |PeerEvents(peers, n)|
    ensures WgMeta.EventAllowed(lib, PeerEvents(peers, n)[i])
    decreases |peers|
  {
    if i < 3 {
      PeerAllowed(lib, peers[0], n);
    } else {
      hide WgMeta.EventAllowed, ValidKey, ValidEndpoint;
      PeersAllowed(lib, peers[1..], n + 1, i - 3);
    }
  }

  lemma PeerAllowed(lib: Lib, peer: Peer, n: nat)
    requires ValidKey(peer.key) && peer.endpoint != "" && ValidEndpoint(lib, peer.endpoint)
    ensures WgMeta.EventAllowed(lib, Section("peer"))
    ensures WgMeta.EventAllowed(lib, Setting("peer", "publickey", peer.key, n + 1))
    ensures WgMeta.EventAllowed(lib, Setting("peer", "endpoint", peer.endpoint, n + 1))
  {
    EmptyIsNoKey();
    SlotNames();
    hide Base64Length, ValidEndpoint, WgMeta.IsKey, WgMeta.IsHostAndPort;
    WgMeta.KeyExactly(peer.key);
    WgMeta.EndpointExactly(lib, peer.endpoint);
  }

  // ------------------------------------------------------------- deleting a peer on the page

  function Without(peers: seq<Peer>, j: nat): (r: seq<Peer>)
    requires j < |peers|
    ensures |r| == |peers| - 1
    ensures forall i | 0 <= i < |r| :: r[i] == if i < j then peers[i] else peers[i + 1]
  {
    peers[..j] + peers[j + 1..]
  }

  // The peers as the page shows them.
  function Hidden(peers: seq<Peer>): (r: seq<Peer>)
    ensures |r| == |peers| && forall i | 0 <= i < |r| :: r[i] == Peer(REDACTED, peers[i].endpoint)
  {
    if peers == [] then [] else [Peer(REDACTED, peers[0].endpoint)] + Hidden(peers[1..])
  }

  // The keys that come back: by position, the last one left over.
  function Shifted(peers: seq<Peer>, rest: seq<Peer>): (r: seq<Peer>)
    requires |rest| <= |peers|
    ensures |r| == |rest| && forall i | 0 <= i < |r| :: r[i] == Peer(peers[i].key, rest[i].endpoint)
  {
    if rest == [] then [] else [Peer(peers[0].key, rest[0].endpoint)] + Shifted(peers[1..], rest[1..])
  }

  lemma {:induction false} PeerSettings(peers: seq<Peer>, n: nat, i: nat)
    requires i < |peers|
    ensures Setting("peer", "publickey", peers[i].key, n + 1 + i) in PeerEvents(peers, n)
    ensures Setting("peer", "endpoint", peers[i].endpoint, n + 1 + i) in PeerEvents(peers, n)
    decreases |peers|
  {
    if i > 0 {
      PeerSettings(peers[1..], n + 1, i - 1);
      assert PeerEvents(peers[1..], n + 1) == PeerEvents(peers, n)[3..];
    } else {
      assert PeerEvents(peers, n)[1] == Setting("peer", "publickey", peers[0].key, n + 1);
      assert PeerEvents(peers, n)[2] == Setting("peer", "endpoint", peers[0].endpoint, n + 1);
    }
  }

  // The stored key of the i-th peer.
  lemma StoredKey(text: string, private: string, peers: seq<Peer>, i: nat)
    requires Events(text) == ConfigEvents(private, peers)
    ensures NthValue(Events(text), "interface.privatekey", 1) == private
    ensures i < |peers| ==> NthValue(Events(text), "peer.publickey", i + 1) == peers[i].key
  {
    hide Events, NthValue, PeerEvents;
    Numbered(text);
    SlotNames();
    var first := Setting("interface", "privatekey", private, 1);
    assert ConfigEvents(private, peers)[1] == first;
    NthValueOf(Events(text), first);
    if i < |peers| {
      var e := Setting("peer", "publickey", peers[i].key, 1 + i);
      PeerSettings(peers, 0, i);
      assert e in ConfigEvents(private, peers);
      NthValueOf(Events(text), e);
    }
  }

  lemma MergedPrivateKey(text: string, private: string, peers: seq<Peer>)
    requires Events(text) == ConfigEvents(private, peers)
    ensures MergeWith(Events(text))("interface", "privatekey", REDACTED, 1) ==
            if private == "" then REDACTED else private
  {
    hide NthValue, Events, PeerEvents;
    StoredKey(text, private, peers, |peers|);
    SlotNames();
    assert NthValue(Events(text), Slot("interface", "privatekey"), 1) == private;
    assert IsSensitive("interface", "privatekey");
  }

  lemma MergedKey(text: string, private: string, peers: seq<Peer>, i: nat)
    requires Events(text) == ConfigEvents(private, peers) && i < |peers| && peers[i].key != ""
    ensures MergeWith(Events(text))("peer", "publickey", REDACTED, i + 1) == peers[i].key
  {
    hide NthValue, Events, PeerEvents;
    StoredKey(text, private, peers, i);
    SlotNames();
    assert NthValue(Events(text), Slot("peer", "publickey"), i + 1) == peers[i].key;
    assert IsSensitive("peer", "publickey");
  }

  lemma MergedEndpoint(text: string, endpoint: string, n: nat)
    ensures MergeWith(Events(text))("peer", "endpoint", endpoint, n) == endpoint
  {
    hide NthValue, Events;
    SlotNames();
    EndpointIsNotSensitive();
  }

  lemma EndpointIsNotSensitive()
    ensures !IsSensitive("peer", "endpoint")
  {
    SlotNames();
    assert |"peer.endpoint"| == 13 && |"peer.publickey"| == 14;
    assert |"peer.presharedkey"| == 17 && |"interface.privatekey"| == 20;
  }

  lemma {:induction false} MergedPeers(text: string, private: string, peers: seq<Peer>, rest: seq<Peer>, n: nat)
    requires Events(text) == ConfigEvents(private, peers) && n + |rest| <= |peers|
    requires forall i | 0 <= i < |peers| :: peers[i].key != ""
    ensures MapPeers(Hidden(rest), n, MergeWith(Events(text))) == Shifted(peers[n..], rest)
    decreases |rest|
  {
    hide Events, PeerEvents, NthValue, MergeWith;
    if rest != [] {
      MergedPeers(text, private, peers, rest[1..], n + 1);
      MergedKey(text, private, peers, n);
      MergedEndpoint(text, rest[0].endpoint, n + 1);
      assert Hidden(rest)[1..] == Hidden(rest[1..]);
      assert peers[n..][1..] == peers[n + 1..];
    }
  }

  predicate Starless(s: string) {
    '*' !in s
  }

  lemma {:induction false} JoinStarless(lines: seq<string>)
    requires forall i | 0 <= i < |lines| :: Starless(lines[i])
    ensures Starless(Join(lines, '\n'))
  {
    if |lines| > 1 {
      JoinStarless(lines[1..]);
    }
  }

  lemma {:induction false} PeersStarless(peers: seq<Peer>)
    requires forall i | 0 <= i < |peers| :: Starless(peers[i].key) && Starless(peers[i].endpoint)
    ensures forall i | 0 <= i < |PeerLines("= ", peers)| :: Starless(PeerLines("= ", peers)[i])
  {
    if peers != [] {
      PeersStarless(peers[1..]);
    }
  }

  lemma TextStarless(private: string, peers: seq<Peer>)
    requires Starless(private) && forall i | 0 <= i < |peers| :: Starless(peers[i].key) && Starless(peers[i].endpoint)
    ensures !HasPlaceholder(ConfigText("= ", private, peers))
  {
    hide TrimSpace, PeerLines;
    var lines := ConfigLines("= ", private, peers);
    PeersStarless(peers);
    assert forall i | 0 <= i < |lines| :: Starless(lines[i]);
    JoinStarless(lines);
    var a, b := TrimSplits(Join(lines, '\n'));
    StarlessShowsNoPlaceholder(ConfigText("= ", private, peers));
  }

  lemma StarlessShowsNoPlaceholder(text: string)
    requires Starless(text)
    ensures !HasPlaceholder(text)
  {
    hide Contains;
    assert ("= " + REDACTED)[2] == '*' && ("=" + REDACTED)[1] == '*';
    if Contains(text, "= " + REDACTED) {
      ContainsHas(text, "= " + REDACTED, '*');
    }
    if Contains(text, "=" + REDACTED) {
      ContainsHas(text, "=" + REDACTED, '*');
    }
  }

  // A key has no character of the placeholder in it.
  lemma {:induction false} WithoutBreaksHas(s: string, c: char)
    requires c in s && c != '\r' && c != '\n'
    ensures c in WithoutBreaks(s)
  {
    if s[0] != c {
      WithoutBreaksHas(s[1..], c);
    }
  }

  lemma KeyIsStarless(key: string)
    requires ValidKey(key)
    ensures Starless(key) && key != ""
  {
    EmptyIsNoKey();
    WgMeta.KeyExactly(key);
    hide Base64Length, WithoutBreaks;
    if '*' in key {
      WithoutBreaksHas(key, '*');
    }
  }

  // What the merge of the page without a peer gives, accepted or not.
  lemma DeletedPeerMerges(eq: string, eq': string, private: string, peers: seq<Peer>, j: nat)
    requires Separator(eq) && Separator(eq') && OneLine(private) && PlainPeers(peers) && j < |peers|
    requires private != "" && forall i | 0 <= i < |peers| :: peers[i].key != ""
    ensures Merged(ConfigText(eq, private, peers), ConfigText(eq', REDACTED, Hidden(Without(peers, j)))) ==
            ConfigText("= ", private, Shifted(peers, Without(peers, j)))
  {
    hide ConfigText, Separator, OneLine, MapPeers, Events, MergeWith, PlainPeers, Transform, ConfigEvents;
    var rest := Without(peers, j);
    ConfigScans(eq, private, peers, IDENTITY);
    HiddenArePlain(rest, peers, j);
    MergedConfig(ConfigText(eq, private, peers), eq', private, peers, rest);
  }

  lemma MergedConfig(stored: string, eq: string, private: string, peers: seq<Peer>, rest: seq<Peer>)
    requires Events(stored) == ConfigEvents(private, peers) && private != "" && |rest| <= |peers|
    requires forall i | 0 <= i < |peers| :: peers[i].key != ""
    requires Separator(eq) && OneLine(REDACTED) && PlainPeers(Hidden(rest))
    ensures Merged(stored, ConfigText(eq, REDACTED, Hidden(rest))) == ConfigText("= ", private, Shifted(peers, rest))
  {
    hide ConfigText, Separator, OneLine, PlainPeers, MapPeers, Events, MergeWith, Transform, ConfigEvents, Hidden;
    hide Shifted;
    ConfigScans(eq, REDACTED, Hidden(rest), MergeWith(Events(stored)));
    MergedPrivateKey(stored, private, peers);
    MergedPeers(stored, private, peers, rest, 0);
    assert peers[0..] == peers;
  }

  lemma HiddenArePlain(rest: seq<Peer>, peers: seq<Peer>, j: nat)
    requires PlainPeers(peers) && j < |peers| && rest == Without(peers, j)
    ensures PlainPeers(Hidden(rest)) && OneLine(REDACTED)
  {
    hide OneLine;
    assert OneLine(REDACTED) by { PlaceholderIsPlain(); }
  }

  lemma PlaceholderIsPlain()
    ensures OneLine(REDACTED)
  {
  }

  // The page of a configuration: the same with every key replaced.
  lemma PageShows(eq: string, private: string, peers: seq<Peer>)
    requires Separator(eq) && OneLine(private) && PlainPeers(peers) && private != ""
    requires forall i | 0 <= i < |peers| :: peers[i].key != ""
    ensures Redact(ConfigText(eq, private, peers)) == ConfigText("= ", REDACTED, Hidden(peers))
  {
    hide ConfigText, Separator, OneLine, PlainPeers, REDACT, Hidden;
    ConfigScans(eq, private, peers, REDACT);
    RedactedPrivateKey(private);
    RedactedPeers(peers, 0);
  }

  lemma RedactedPrivateKey(private: string)
    requires private != ""
    ensures REDACT("interface", "privatekey", private, 1) == REDACTED
  {
    SlotNames();
  }

  lemma {:induction false} RedactedPeers(peers: seq<Peer>, n: nat)
    requires forall i | 0 <= i < |peers| :: peers[i].key != ""
    ensures MapPeers(peers, n, REDACT) == Hidden(peers)
    decreases |peers|
  {
    hide REDACT;
    if peers != [] {
      RedactedPeers(peers[1..], n + 1);
      RedactedPeer(peers[0], n + 1);
    }
  }

  lemma RedactedPeer(peer: Peer, n: nat)
    requires peer.key != ""
    ensures REDACT("peer", "publickey", peer.key, n) == REDACTED
    ensures REDACT("peer", "endpoint", peer.endpoint, n) == peer.endpoint
  {
    SlotNames();
    EndpointIsNotSensitive();
  }

  lemma ShiftedPeers(lib: Lib, peers: seq<Peer>, j: nat)
    requires PlainPeers(peers) && GoodPeers(lib, peers) && j < |peers|
    ensures PlainPeers(Shifted(peers, Without(peers, j))) && GoodPeers(lib, Shifted(peers, Without(peers, j)))
  {
    hide OneLine, ValidKey, ValidEndpoint, Without, Shifted;
    var rest := Without(peers, j);
    forall i | 0 <= i < |rest|
      ensures OneLine(peers[i].key) && ValidKey(peers[i].key)
      ensures Shifted(peers, rest)[i] == Peer(peers[i].key, rest[i].endpoint) && rest[i] in peers
    {
      WithoutAt(peers, j, i);
      ShiftedAt(peers, rest, i);
      assert rest[i] in peers;
    }
    assert forall p | p in peers :: OneLine(p.endpoint) && p.endpoint != "" && ValidEndpoint(lib, p.endpoint);
  }

  // The configuration that is stored, an upload of its page without the j-th peer, and the
  // text that comes of it.
  function Stored(eq: string, private: string, peers: seq<Peer>): WgStore.Content {
    Some(ConfigText(eq, private, peers))
  }

  function PageWithout(eq: string, peers: seq<Peer>, j: nat): WgStore.Upload
    requires j < |peers|
  {
    WgStore.Upload(Some(ConfigText(eq, REDACTED, Hidden(Without(peers, j)))), true, true)
  }

  function ShiftedText(private: string, peers: seq<Peer>, j: nat): string
    requires j < |peers|
  {
    ConfigText("= ", private, Shifted(peers, Without(peers, j)))
  }

  predicate StoredPeers(lib: Lib, private: string, peers: seq<Peer>) {
    OneLine(private) && PlainPeers(peers) && ValidKey(private) && GoodPeers(lib, peers)
  }

  lemma DeletedPeerUpload(lib: Lib, eq: string, eq': string, private: string, peers: seq<Peer>, j: nat)
    requires Separator(eq) && Separator(eq') && StoredPeers(lib, private, peers) && j < |peers|
    ensures var text := ShiftedText(private, peers, j);
            WgStore.MergedUpload(Stored(eq, private, peers), PageWithout(eq', peers, j).body.value) ==
            if HasPlaceholder(text) then Err(PlaceholderUnresolved) else Ok(text)
  {
    hide Separator, OneLine, PlainPeers, ValidKey, ValidEndpoint, HasPlaceholder, Shifted, Merged;
    KeyIsStarless(private);
    forall i | 0 <= i < |peers|
      ensures peers[i].key != ""
    {
      KeyIsStarless(peers[i].key);
    }
    DeletedPeerMerges(eq, eq', private, peers, j);
    hide GoodPeers;
    TextNotEmpty(eq, private, peers);
  }

  lemma TextNotEmpty(eq: string, private: string, peers: seq<Peer>)
    ensures ConfigText(eq, private, peers) != ""
  {
  }

  // Deleting a peer from the page and saving it. The stored file becomes exactly the text in
  // which every later peer has the key of the one before it, since placeholders are filled
  // in by position; only if an endpoint makes that text show a placeholder is it refused.
  lemma DeletedPeerShiftsKeys(lib: Lib, eq: string, eq': string, private: string, peers: seq<Peer>, j: nat)
    requires Separator(eq) && Separator(eq') && StoredPeers(lib, private, peers) && j < |peers| && |peers| >= 2
    ensures WgStore.Usable(lib, Stored(eq, private, peers))
    ensures var text := ShiftedText(private, peers, j);
            WgStore.SavePage(lib, Stored(eq, private, peers), PageWithout(eq', peers, j)) ==
            if HasPlaceholder(text) then
              WgStore.Saved(Stored(eq, private, peers), WgStore.BadRequest(Some(PlaceholderUnresolved)))
            else WgStore.Saved(Some(text), WgStore.Showing(Redact(text), WgStore.Shown(Meta(text))))
    ensures (forall i | 0 <= i < |peers| :: Starless(peers[i].endpoint)) ==>
            !HasPlaceholder(ShiftedText(private, peers, j))
  {
    hide ConfigText, Separator, OneLine, PlainPeers, ValidKey, GoodPeers, HasPlaceholder, Validate, Redact, Meta;
    hide WgStore.MergedUpload, Starless;
    PeersAccepted(lib, eq, private, peers);
    DeletedPeerUpload(lib, eq, eq', private, peers, j);
    ShiftedPeers(lib, peers, j);
    PlainEquals();
    PeersAccepted(lib, "= ", private, Shifted(peers, Without(peers, j)));
    WgStore.AcceptedMeta(lib, ShiftedText(private, peers, j));
    if forall i | 0 <= i < |peers| :: Starless(peers[i].endpoint) {
      ShiftedStarless(lib, private, peers, j);
    }
  }

  // On a fresh server such a configuration is stored as it is.
  lemma PeersStored(lib: Lib, eq: string, private: string, peers: seq<Peer>, readOk: bool)
    requires Separator(eq) && StoredPeers(lib, private, peers) && peers != []
    ensures var text := ConfigText(eq, private, peers);
            var s := WgStore.SavePage(lib, None, WgStore.Upload(Some(text), readOk, true));
            && s.content == Some(text)
            && WgStore.Shows(s.page, text) && s.page.config == ConfigText("= ", REDACTED, Hidden(peers))
  {
    hide ConfigText, Separator, OneLine, PlainPeers, ValidKey, GoodPeers, Validate, Redact, Meta;
    var text := ConfigText(eq, private, peers);
    PeersAccepted(lib, eq, private, peers);
    WgStore.FirstSaveExactly(lib, None, WgStore.Upload(Some(text), readOk, true));
    KeysNotEmpty(lib, private, peers);
    PageShows(eq, private, peers);
  }

  lemma PlainEquals()
    ensures Separator("= ")
  {
  }

  lemma ShiftedStarless(lib: Lib, private: string, peers: seq<Peer>, j: nat)
    requires ValidKey(private) && GoodPeers(lib, peers) && j < |peers|
    requires forall i | 0 <= i < |peers| :: Starless(peers[i].endpoint)
    ensures !HasPlaceholder(ShiftedText(private, peers, j))
  {
    hide Starless, HasPlaceholder, ConfigText, ValidKey, ValidEndpoint;
    KeyIsStarless(private);
    forall i | 0 <= i < |peers|
      ensures Starless(peers[i].key)
    {
      KeyIsStarless(peers[i].key);
    }
    TextStarless(private, Shifted(peers, Without(peers, j)));
  }

  // The only peer cannot be deleted: without a peer key the save is refused.
  lemma LastPeerStays(lib: Lib, eq: string, eq': string, private: string, peer: Peer)
    requires Separator(eq) && Separator(eq') && StoredPeers(lib, private, [peer])
    ensures WgStore.SavePage(lib, Stored(eq, private, [peer]), PageWithout(eq', [peer], 0)) ==
            WgStore.Saved(Stored(eq, private, [peer]), WgStore.BadRequest(Some(MissingKeys)))
  {
    hide ConfigText, Separator, OneLine, PlainPeers, ValidKey, GoodPeers, HasPlaceholder, Validate, Redact, Meta;
    hide WgStore.MergedUpload;
    var text := ShiftedText(private, [peer], 0);
    DeletedPeerUpload(lib, eq, eq', private, [peer], 0);
    assert Without([peer], 0) == [] && Shifted([peer], []) == [];
    KeyIsStarless(private);
    TextStarless(private, []);
    NoPeersRefused(lib, private);
  }

  lemma NoPeersRefused(lib: Lib, private: string)
    requires OneLine(private)
    ensures Validate(lib, ConfigText("= ", private, [])).error == Some(MissingKeys)
  {
    hide ConfigText, FirstError, Events, Meta, WgMeta.LastValue;
    var text := ConfigText("= ", private, []);
    ConfigScans("= ", private, [], IDENTITY);
    LastPeer([], 0, [Section("interface"), Setting("interface", "privatekey", private, 1)]);
    WgMeta.LastSettingWins(text);
    HeadHasNoPeer(private);
  }

  lemma HeadHasNoPeer(private: string)
    ensures WgMeta.LastValue(ConfigEvents(private, []), "peer.publickey", "") == ""
    ensures WgMeta.LastMeta(ConfigEvents(private, [])).peerPublicKey == ""
  {
    hide Decimal.Atoi, CsvFields;
    var head := [Section("interface")];
    var e := Setting("interface", "privatekey", private, 1);
    assert ConfigEvents(private, []) == [] + head + [e];
    WgMeta.LastSnoc([] + head, e, "peer.publickey", "");
    WgMeta.LastSnoc([], head[0], "peer.publickey", "");
    SlotNames();
    assert |"interface.privatekey"| != |"peer.publickey"|;
  }

  lemma WithoutAt(peers: seq<Peer>, j: nat, i: nat)
    requires j < |peers| && i < |peers| - 1
    ensures Without(peers, j)[i] == if i < j then peers[i] else peers[i + 1]
  {
  }

  lemma ShiftedAt(peers: seq<Peer>, rest: seq<Peer>, i: nat)
    requires |rest| <= |peers| && i < |rest|
    ensures Shifted(peers, rest)[i] == Peer(peers[i].key, rest[i].endpoint)
    ensures Shifted(peers, rest)[i] == rest[i] <==> peers[i].key == rest[i].key
  {
    assert rest[i] == Peer(rest[i].key, rest[i].endpoint);
  }

  // So of the peers that are left each has its own key exactly when the keys from the
  // deleted peer on are all equal; deleting the last peer is harmless.
  lemma DeletedPeerKeepsExactly(peers: seq<Peer>, j: nat)
    requires j < |peers|
    ensures Shifted(peers, Without(peers, j)) == Without(peers, j) <==>
            forall i | j <= i < |peers| - 1 :: peers[i].key == peers[i + 1].key
    ensures j == |peers| - 1 ==> Shifted(peers, Without(peers, j)) == Without(peers, j)
  {
    hide Shifted, Without;
    var rest := Without(peers, j);
    var shifted := Shifted(peers, rest);
    if shifted == rest {
      forall i | j <= i < |peers| - 1
        ensures peers[i].key == peers[i + 1].key
      {
        WithoutAt(peers, j, i);
        ShiftedAt(peers, rest, i);
      }
    }
    if forall i | j <= i < |peers| - 1 :: peers[i].key == peers[i + 1].key {
      forall i | 0 <= i < |rest|
        ensures shifted[i] == rest[i]
      {
        assert i >= j ==> peers[i].key == peers[i + 1].key;
        WithoutAt(peers, j, i);
        ShiftedAt(peers, rest, i);
      }
      assert shifted == rest;
    }
  }
}
