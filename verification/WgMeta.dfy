/** What the scanners of internal/wg/config.go say about each other: stripping wg-quick
    metadata is a projection, the parser's metadata is valid whenever the validator
    accepts, and redaction depends only on the shape of a text. */
module WgMeta {
  import opened Options
  import opened Text
  import opened WgConfig
  import opened WgRescan
  import opened WgReprint
  import opened WgLaws
  import Decimal

  // ------------------------------------------------------------- SetconfConfig

  function WithoutMetadata(events: seq<Event>): seq<Event> {
    if events == [] then []
    else if events[0].Setting? && IsMetadata(events[0].section, events[0].key) then WithoutMetadata(events[1..])
    else [events[0]] + WithoutMetadata(events[1..])
  }

  predicate MetadataSlot(slot: string) {
    slot == "interface.address" || slot == "interface.mtu"
  }

  // The dot of a metadata slot stands after nine characters, wherever it came from.
  lemma MetadataBySlot(section: string, key: string)
    ensures IsMetadata(section, key) <==> MetadataSlot(Slot(section, key))
  {
    var slot := Slot(section, key);
    if MetadataSlot(slot) {
      assert slot[|section|] == '.';
      assert |section| == 9;
      assert section == slot[..9] == "interface";
      assert key == slot[10..];
    }
  }

  ghost predicate CountsAgree(a: Counts, b: Counts) {
    forall slot | !MetadataSlot(slot) :: Count(a, slot) == Count(b, slot)
  }

  lemma KeptLine(raw: string, ctx: Ctx, ctx': Ctx)
    requires ctx'.section == ctx.section && CountsAgree(ctx.counts, ctx'.counts)
    ensures Kept(raw, ctx) == [] || Kept(raw, ctx) == [raw]
    ensures var next' := if Kept(raw, ctx) == [] then ctx' else After(raw, ctx');
            next'.section == After(raw, ctx).section && CountsAgree(After(raw, ctx).counts, next'.counts)
    ensures (if Kept(raw, ctx) == [] then [] else EventsOf(raw, ctx')) == WithoutMetadata(EventsOf(raw, ctx))
  {
    hide Classify, Slot, MetadataSlot;
    if Classify(raw).Directive? {
      MetadataBySlot(ctx.section, Classify(raw).key);
    }
  }

  lemma {:induction false} WithoutMetadataAppend(a: seq<Event>, b: seq<Event>)
    ensures WithoutMetadata(a + b) == WithoutMetadata(a) + WithoutMetadata(b)
  {
    if a == [] {
      assert a + b == b;
    } else {
      assert (a + b)[1..] == a[1..] + b;
      WithoutMetadataAppend(a[1..], b);
    }
  }

  lemma {:induction false} KeptEvents(lines: seq<string>, ctx: Ctx, ctx': Ctx)
    requires ctx'.section == ctx.section && CountsAgree(ctx.counts, ctx'.counts)
    ensures EventsFrom(KeptFrom(lines, ctx), ctx') == WithoutMetadata(EventsFrom(lines, ctx))
  {
    if lines != [] {
      var now, rest := Kept(lines[0], ctx), KeptFrom(lines[1..], After(lines[0], ctx));
      KeptLine(lines[0], ctx, ctx');
      KeptEvents(lines[1..], After(lines[0], ctx), if now == [] then ctx' else After(lines[0], ctx'));
      WithoutMetadataAppend(EventsOf(lines[0], ctx), EventsFrom(lines[1..], After(lines[0], ctx)));
      if now == [] {
        assert now + rest == rest;
      } else {
        assert (now + rest)[1..] == rest;
      }
    }
  }

  // Every line handed out fits, so every line kept does, and trimming only shortens.
  lemma {:induction false} KeptFits(lines: seq<string>, ctx: Ctx)
    ensures AllFit(lines) ==> AllFit(KeptFrom(lines, ctx))
    ensures NoBreaks(lines) ==> NoBreaks(KeptFrom(lines, ctx))
  {
    if lines != [] {
      KeptFits(lines[1..], After(lines[0], ctx));
    }
  }

  lemma {:induction false} CoreFits(lines: seq<string>)
    requires AllFit(lines)
    ensures AllFit(CoreLeft(lines)) && AllFit(CoreRight(lines))
  {
    hide TrimLeft, TrimRight, TrimSpace;
    if lines != [] {
      CoreFits(lines[1..]);
      TrimLeftSplits(lines[0]);
      TrimRightSplits(lines[0]);
    }
  }

  // The text given to `wg setconf` has exactly the events of the stored text, in order,
  // less the interface's Address and MTU.
  lemma SetconfIsProjection(x: string)
    ensures !Scan(Setconf(x)).tooLong
    ensures Events(Setconf(x)) == WithoutMetadata(Events(x))
  {
    var lines := Scan(x).lines;
    var kept := KeptFrom(lines, START);
    ScanHasNoBreaks(x);
    VisibleFits(Tokens(x));
    KeptFits(lines, START);
    CoreFits(kept);
    CoreFits(CoreLeft(kept));
    TokensPrint(kept);
    VisibleFits(Core(kept));
    EventsOfPrint(kept);
    KeptEvents(lines, START, START);
  }

  // So every other setting, those of every peer in particular, is still there.
  lemma {:induction false} KeptSetting(events: seq<Event>, e: Event)
    requires e in events && !(e.Setting? && IsMetadata(e.section, e.key))
    ensures e in WithoutMetadata(events)
  {
    if events[0] != e {
      KeptSetting(events[1..], e);
    }
  }

  function Cleared(meta: ConfigMeta): ConfigMeta {
    meta.(interfaceAddress := "", interfaceMTU := 0)
  }

  lemma ClearedSetting(meta: ConfigMeta, section: string, key: string, value: string)
    ensures Cleared(WithSetting(meta, section, key, value)) ==
            if IsMetadata(section, key) then Cleared(meta) else WithSetting(Cleared(meta), section, key, value)
  {
    hide Decimal.Atoi, CsvFields;
    MetadataBySlot(section, key);
  }

  lemma {:induction false} ClearedMeta(meta: ConfigMeta, events: seq<Event>)
    ensures MetaFrom(Cleared(meta), WithoutMetadata(events)) == Cleared(MetaFrom(meta, events))
    decreases |events|
  {
    if events != [] {
      var e := events[0];
      if e.Setting? {
        ClearedSetting(meta, e.section, e.key, e.value);
        ClearedMeta(WithSetting(meta, e.section, e.key, e.value), events[1..]);
      } else {
        ClearedMeta(meta, events[1..]);
      }
      if !(e.Setting? && IsMetadata(e.section, e.key)) {
        assert WithoutMetadata(events)[1..] == WithoutMetadata(events[1..]);
      }
    }
  }

  lemma SetconfMeta(x: string)
    ensures Meta(Setconf(x)) == Cleared(Meta(x))
  {
    SetconfIsProjection(x);
    ClearedMeta(EMPTY_META, Events(x));
  }

  lemma {:induction false} FirstErrorWithout(lib: Lib, events: seq<Event>)
    requires FirstError(lib, events).None?
    ensures FirstError(lib, WithoutMetadata(events)).None?
  {
    if events != [] {
      FirstErrorWithout(lib, events[1..]);
      if !(events[0].Setting? && IsMetadata(events[0].section, events[0].key)) {
        assert WithoutMetadata(events)[1..] == WithoutMetadata(events[1..]);
      }
    }
  }

  // An accepted configuration stays accepted, and then the metadata is gone from it.
  lemma SetconfStaysAccepted(lib: Lib, x: string)
    requires Validate(lib, x).error.None?
    ensures Validate(lib, Setconf(x)) == Validation(Cleared(Meta(x)), None)
  {
    SetconfIsProjection(x);
    SetconfMeta(x);
    FirstErrorWithout(lib, Events(x));
  }

  lemma {:induction false} WithoutMetadataTwice(events: seq<Event>)
    ensures WithoutMetadata(WithoutMetadata(events)) == WithoutMetadata(events)
  {
    if events != [] {
      WithoutMetadataTwice(events[1..]);
      if !(events[0].Setting? && IsMetadata(events[0].section, events[0].key)) {
        assert WithoutMetadata(events)[1..] == WithoutMetadata(events[1..]);
      }
    }
  }

  lemma SetconfTwice(x: string)
    ensures Events(Setconf(Setconf(x))) == Events(Setconf(x))
  {
    SetconfIsProjection(x);
    SetconfIsProjection(Setconf(x));
    WithoutMetadataTwice(Events(x));
  }

  // ------------------------------------------------------------- two scans agree

  predicate GoodMTU(mtu: int) {
    mtu == 0 || 576 <= mtu <= 9000
  }

  predicate GoodInterface(lib: Lib, meta: ConfigMeta) {
    && GoodMTU(meta.interfaceMTU)
    && (meta.interfaceAddress == "" || (',' !in meta.interfaceAddress && lib.isPrefix(meta.interfaceAddress)))
  }

  predicate GoodPeerKey(meta: ConfigMeta) {
    meta.peerPublicKey == "" || ValidKey(meta.peerPublicKey)
  }

  predicate GoodPeer(lib: Lib, meta: ConfigMeta) {
    && (meta.endpoint == "" || ValidEndpoint(lib, meta.endpoint))
    && (forall p | p in meta.allowedIPs :: lib.isPrefix(p))
  }

  predicate GoodMeta(lib: Lib, meta: ConfigMeta) {
    GoodInterface(lib, meta) && GoodPeerKey(meta) && GoodPeer(lib, meta)
  }

  lemma GoodInterfaceSetting(lib: Lib, meta: ConfigMeta, section: string, key: string, value: string)
    requires GoodInterface(lib, meta) && DirectiveError(lib, section, key, value).None?
    ensures GoodInterface(lib, WithSetting(meta, section, key, value))
  {
    InterfaceChecked(lib, section, key, value);
    hide DirectiveError, Decimal.Atoi, CsvFields;
  }

  lemma InterfaceChecked(lib: Lib, section: string, key: string, value: string)
    requires DirectiveError(lib, section, key, value).None?
    ensures Slot(section, key) == "interface.mtu" ==> 576 <= Decimal.Atoi(value).value <= 9000
    ensures Slot(section, key) == "interface.address" ==> ',' !in value && lib.isPrefix(value)
  {
    hide ValidKey, ValidPort, ValidEndpoint, CsvFields, Decimal.Atoi;
  }

  lemma GoodPeerKeySetting(lib: Lib, meta: ConfigMeta, section: string, key: string, value: string)
    requires GoodPeerKey(meta) && DirectiveError(lib, section, key, value).None?
    ensures GoodPeerKey(WithSetting(meta, section, key, value))
  {
    hide ValidKey, ValidPort, Decimal.Atoi, CsvFields, ValidEndpoint;
  }

  lemma GoodPeerSetting(lib: Lib, meta: ConfigMeta, section: string, key: string, value: string)
    requires GoodPeer(lib, meta) && DirectiveError(lib, section, key, value).None?
    ensures GoodPeer(lib, WithSetting(meta, section, key, value))
  {
    hide ValidKey, Decimal.Atoi, CsvFields, ValidEndpoint, ValidPort;
  }

  lemma GoodSetting(lib: Lib, meta: ConfigMeta, section: string, key: string, value: string)
    requires GoodMeta(lib, meta) && DirectiveError(lib, section, key, value).None?
    ensures GoodMeta(lib, WithSetting(meta, section, key, value))
  {
    GoodInterfaceSetting(lib, meta, section, key, value);
    GoodPeerKeySetting(lib, meta, section, key, value);
    GoodPeerSetting(lib, meta, section, key, value);
  }

  lemma {:induction false} GoodMetaFrom(lib: Lib, meta: ConfigMeta, events: seq<Event>)
    requires GoodMeta(lib, meta) && FirstError(lib, events).None?
    ensures GoodMeta(lib, MetaFrom(meta, events))
    decreases |events|
  {
    if events != [] {
      var e := events[0];
      if e.Setting? {
        GoodSetting(lib, meta, e.section, e.key, e.value);
        GoodMetaFrom(lib, WithSetting(meta, e.section, e.key, e.value), events[1..]);
      } else {
        GoodMetaFrom(lib, meta, events[1..]);
      }
    }
  }

  // The metadata is collected by one scan and the directives are checked by another: when
  // the second accepts, what the first collected is itself valid.
  lemma AcceptedMetaIsValid(lib: Lib, x: string)
    requires Validate(lib, x).error.None?
    ensures var meta := Validate(lib, x).meta;
            && GoodMeta(lib, meta)
            && meta.hasPrivateKey
            && meta.peerPublicKey != "" && Base64Length(meta.peerPublicKey) == Some(32)
  {
    GoodMetaFrom(lib, EMPTY_META, Events(x));
  }

  // A redacted text never passes for a configuration: the placeholder is no key.
  lemma RedactedIsRejected(lib: Lib, x: string)
    ensures Validate(lib, Redact(x)).error.Some?
  {
    hide FitsPrinted;
    if Validate(lib, Redact(x)).error.None? {
      AcceptedMetaIsValid(lib, Redact(x));
      RedactIsTame(x);
      ReprintableExactly(x, REDACT);
      TransformReparses(x, REDACT);
      RedactedPeerKey(EMPTY_META, Events(x));
      PlaceholderIsNoKey(Meta(Redact(x)).peerPublicKey);
    }
  }

  lemma PlaceholderIsNoKey(key: string)
    requires key == REDACTED
    ensures Base64Length(key).None?
  {
    assert WithoutBreaks(key[2..]) == key[2..];
    assert WithoutBreaks(key[1..]) == key[1..];
    assert |WithoutBreaks(key)| == 3;
  }

  lemma {:induction false} RedactedPeerKey(meta: ConfigMeta, events: seq<Event>)
    requires meta.peerPublicKey == "" || meta.peerPublicKey == REDACTED
    ensures MetaFrom(meta, MapEvents(events, REDACT)).peerPublicKey in ["", REDACTED]
    decreases |events|
  {
    if events != [] {
      var e := Mapped(events[0], REDACT);
      assert MapEvents(events, REDACT)[1..] == MapEvents(events[1..], REDACT);
      if e.Setting? {
        RedactedSetting(meta, events[0]);
        RedactedPeerKey(WithSetting(meta, e.section, e.key, e.value), events[1..]);
      } else {
        RedactedPeerKey(meta, events[1..]);
      }
    }
  }

  lemma RedactedSetting(meta: ConfigMeta, e: Event)
    requires e.Setting? && (meta.peerPublicKey == "" || meta.peerPublicKey == REDACTED)
    ensures WithSetting(meta, e.section, e.key, Mapped(e, REDACT).value).peerPublicKey in ["", REDACTED]
  {
  }

  // ------------------------------------------------------------- shape

  // Lines that differ at most in the non-empty value of a sensitive directive.
  predicate LineAlike(a: string, b: string, ctx: Ctx) {
    a == b ||
    (&& Classify(a).Directive? && Classify(b).Directive?
     && Cut(a, '=').before == Cut(b, '=').before
     && IsSensitive(ctx.section, Classify(a).key)
     && Classify(a).value != "" && Classify(b).value != "")
  }

  predicate SameShape(xs: seq<string>, ys: seq<string>, ctx: Ctx)
    requires |xs| == |ys|
  {
    xs == [] || (LineAlike(xs[0], ys[0], ctx) && SameShape(xs[1..], ys[1..], After(xs[0], ctx)))
  }

  lemma AlikeKeys(a: string, b: string)
    requires Classify(a).Directive? && Classify(b).Directive? && Cut(a, '=').before == Cut(b, '=').before
    ensures Classify(a).key == Classify(b).key
  {
    RawCut(a);
    RawCut(b);
  }

  lemma {:induction false} ShapeRewrites(xs: seq<string>, ys: seq<string>, ctx: Ctx)
    requires |xs| == |ys| && SameShape(xs, ys, ctx)
    ensures RewriteFrom(xs, ctx, REDACT) == RewriteFrom(ys, ctx, REDACT)
  {
    if xs != [] {
      if xs[0] != ys[0] {
        AlikeKeys(xs[0], ys[0]);
      }
      ShapeRewrites(xs[1..], ys[1..], After(xs[0], ctx));
    }
  }

  // Two texts that differ only in their keys are redacted to the same text.
  lemma RedactionSeesOnlyShape(x: string, y: string)
    requires |Scan(x).lines| == |Scan(y).lines| && SameShape(Scan(x).lines, Scan(y).lines, START)
    ensures Redact(x) == Redact(y)
  {
    ShapeRewrites(Scan(x).lines, Scan(y).lines, START);
  }

  // Conversely, texts redacted alike differ in nothing but their keys, as far as any
  // scanner can tell.
  lemma RedactionShowsTheRest(x: string, y: string)
    requires Redact(x) == Redact(y)
    ensures |Events(x)| == |Events(y)|
    ensures forall i | 0 <= i < |Events(x)| ::
              var a, b := Events(x)[i], Events(y)[i];
              a == b || (&& a.Setting? && b.Setting? && b == a.(value := b.value)
                         && IsSensitive(a.section, a.key) && a.value != "" && b.value != "")
  {
    RedactIsTame(x);
    RedactIsTame(y);
    TransformReparses(x, REDACT);
    TransformReparses(y, REDACT);
    forall i | 0 <= i < |Events(x)|
      ensures Mapped(Events(x)[i], REDACT) == Mapped(Events(y)[i], REDACT)
    {
      assert MapEvents(Events(x), REDACT)[i] == MapEvents(Events(y), REDACT)[i];
    }
  }

  // ------------------------------------------------------------- what is accepted

  predicate InRange(value: string, low: int, high: int) {
    Decimal.Atoi(value).ok && low <= Decimal.Atoi(value).value <= high
  }

  // A key: line breaks aside, 43 letters of the alphabet and one '=' (section 4 of RFC 4648).
  predicate IsKey(value: string) {
    var t := WithoutBreaks(value);
    |t| == 44 && t[43] == '=' && forall i | 0 <= i < 43 :: IsBase64Char(t[i])
  }

  lemma KeyExactly(value: string)
    ensures ValidKey(value) <==> IsKey(value)
  {
    hide WithoutBreaks, IsBase64Char;
    var t := WithoutBreaks(value);
    if |t| == 44 {
      assert !IsBase64Char('=') by { PaddingIsNoLetter(); }
      assert AllBase64(t) ==> IsBase64Char(t[43]);
      assert t[..43][..42] == t[..42];
    }
  }

  lemma PaddingIsNoLetter()
    ensures !IsBase64Char('=')
  {
  }

  // A host that is not empty and holds no blank, and a port number.
  predicate IsHostAndPort(lib: Lib, value: string) {
    match lib.hostPort(value)
    case None => false
    case Some(hp) =>
      && hp.host != "" && ' ' !in hp.host && '\t' !in hp.host && '\r' !in hp.host && '\n' !in hp.host
      && InRange(hp.port, 1, 65535)
  }

  lemma EndpointExactly(lib: Lib, value: string)
    ensures ValidEndpoint(lib, value) <==> IsHostAndPort(lib, value)
  {
    hide Decimal.Atoi;
    var blanks := " \t\r\n";
    assert blanks[0] == ' ' && blanks[1] == '\t' && blanks[2] == '\r' && blanks[3] == '\n';
    if ValidEndpoint(lib, value) {
      var host := lib.hostPort(value).value.host;
      assert forall i | 0 <= i < |host| :: host[i] !in blanks;
    }
  }

  // Every field between commas that is not blank is a prefix.
  predicate AllPrefixes(lib: Lib, value: string) {
    forall k | 0 <= k < |Split(value, ',')| ::
      TrimSpace(Split(value, ',')[k]) == "" || lib.isPrefix(TrimSpace(Split(value, ',')[k]))
  }

  lemma PrefixesExactly(lib: Lib, value: string)
    ensures (forall p | p in CsvFields(value) :: lib.isPrefix(p)) <==> AllPrefixes(lib, value)
  {
    hide TrimSpace, Split, CsvFields;
    FieldsMeaning(value);
    if forall p | p in CsvFields(value) :: lib.isPrefix(p) {
      forall k | 0 <= k < |Split(value, ',')|
        ensures TrimSpace(Split(value, ',')[k]) == "" || lib.isPrefix(TrimSpace(Split(value, ',')[k]))
      {
        assert TrimSpace(Split(value, ',')[k]) != "" ==> IsField(value, TrimSpace(Split(value, ',')[k]));
      }
    }
  }

  // The directives the program knows, and the values each may have.
  predicate Allowed(lib: Lib, slot: string, value: string) {
    || (slot in {"interface.privatekey", "peer.publickey", "peer.presharedkey"} && IsKey(value))
    || (slot == "interface.address" && ',' !in value && lib.isPrefix(value))
    || (slot == "interface.mtu" && InRange(value, 576, 9000))
    || (slot == "interface.listenport" && InRange(value, 1, 65535))
    || (slot == "interface.fwmark" && (value == "off" || lib.isUint32(value)))
    || (slot == "peer.endpoint" && IsHostAndPort(lib, value))
    || (slot == "peer.allowedips" && AllPrefixes(lib, value))
    || (slot == "peer.persistentkeepalive" && InRange(value, 0, 65535))
  }

  lemma DirectiveAllowed(lib: Lib, section: string, key: string, value: string)
    ensures DirectiveError(lib, section, key, value).None? <==> Allowed(lib, Slot(section, key), value)
  {
    hide Base64Length, Decimal.Atoi, CsvFields, ValidEndpoint, IsKey, IsHostAndPort, AllPrefixes;
    KeyExactly(value);
    EndpointExactly(lib, value);
    PrefixesExactly(lib, value);
  }

  predicate EventAllowed(lib: Lib, e: Event) {
    match e
    case Section(name) => name in {"interface", "peer"}
    case Junk(_) => false
    case Setting(section, key, value, _) => value != "" && Allowed(lib, Slot(section, key), value)
  }

  lemma {:induction false} AllEventsAllowed(lib: Lib, events: seq<Event>)
    ensures FirstError(lib, events).None? <==> forall i | 0 <= i < |events| :: EventAllowed(lib, events[i])
  {
    hide Allowed, DirectiveError;
    if events != [] {
      AllEventsAllowed(lib, events[1..]);
      if events[0].Setting? {
        DirectiveAllowed(lib, events[0].section, events[0].key, events[0].value);
      }
      assert forall i | 1 <= i < |events| :: events[i] == events[1..][i - 1];
    }
  }

  // The value of the last setting of a slot, or a default when there is none.
  function LastValue(events: seq<Event>, slot: string, default: string): string {
    if events == [] then default
    else
      var e := events[|events| - 1];
      if e.Setting? && Slot(e.section, e.key) == slot then e.value
      else LastValue(events[..|events| - 1], slot, default)
  }

  lemma {:induction false} MetaSnoc(meta: ConfigMeta, events: seq<Event>, e: Event)
    ensures MetaFrom(meta, events + [e]) ==
            if e.Setting? then WithSetting(MetaFrom(meta, events), e.section, e.key, e.value)
            else MetaFrom(meta, events)
    decreases |events|
  {
    hide WithSetting;
    if events == [] {
      assert events + [e] == [e] && [e][1..] == [];
    } else {
      assert (events + [e])[1..] == events[1..] + [e];
      var f := events[0];
      MetaSnoc(if f.Setting? then WithSetting(meta, f.section, f.key, f.value) else meta, events[1..], e);
    }
  }

  // The metadata read off the last setting of each slot.
  function LastMeta(events: seq<Event>): ConfigMeta {
    var ips := LastValue(events, "peer.allowedips", "");
    ConfigMeta(
      LastValue(events, "interface.address", ""),
      Decimal.Atoi(LastValue(events, "interface.mtu", "0")).value,
      LastValue(events, "peer.endpoint", ""),
      CsvFields(ips),
      LastValue(events, "peer.publickey", ""),
      LastValue(events, "interface.privatekey", "") != "",
      LastValue(events, "peer.presharedkey", "") != "",
      LastValue(events, "peer.persistentkeepalive", ""))
  }

  lemma LastSnoc(events: seq<Event>, e: Event, slot: string, default: string)
    ensures LastValue(events + [e], slot, default) ==
            if e.Setting? && Slot(e.section, e.key) == slot then e.value else LastValue(events, slot, default)
  {
    assert (events + [e])[..|events|] == events;
  }

  lemma LastMetaSnoc(events: seq<Event>, e: Event)
    ensures LastMeta(events + [e]) ==
            if e.Setting? then WithSetting(LastMeta(events), e.section, e.key, e.value) else LastMeta(events)
  {
    hide LastValue, Slot, CsvFields, Decimal.Atoi;
    LastSnoc(events, e, "peer.allowedips", "");
    LastSnoc(events, e, "interface.address", "");
    LastSnoc(events, e, "interface.mtu", "0");
    LastSnoc(events, e, "peer.endpoint", "");
    LastSnoc(events, e, "peer.publickey", "");
    LastSnoc(events, e, "interface.privatekey", "");
    LastSnoc(events, e, "peer.presharedkey", "");
    LastSnoc(events, e, "peer.persistentkeepalive", "");
  }

  lemma NoSettingsNoMeta()
    ensures LastMeta([]) == EMPTY_META
  {
    assert Split("", ',') == [""];
    assert CsvFields("") == [] by { FieldsMeaning(""); }
    assert Decimal.Atoi("0").value == 0;
  }

  lemma {:induction false} MetaIsLast(events: seq<Event>)
    ensures MetaFrom(EMPTY_META, events) == LastMeta(events)
    decreases |events|
  {
    hide LastMeta, WithSetting;
    if events == [] {
      NoSettingsNoMeta();
    } else {
      var init, e := events[..|events| - 1], events[|events| - 1];
      assert events == init + [e];
      MetaIsLast(init);
      MetaSnoc(EMPTY_META, init, e);
      LastMetaSnoc(init, e);
    }
  }

  // Each field of the metadata is the last setting of its slot: of several peers, only the
  // last one's key, endpoint and addresses are seen.
  lemma LastSettingWins(x: string)
    ensures Meta(x) == LastMeta(Events(x))
  {
    MetaIsLast(Events(x));
  }

  // A text is accepted exactly when the last private key given is not empty, the last peer
  // key is not empty, every line is a known section header or a known directive with an
  // allowed value, and no line is too long to be read.
  lemma ValidateAcceptsExactly(lib: Lib, x: string)
    ensures Validate(lib, x).error.None? <==>
            && LastValue(Events(x), "interface.privatekey", "") != ""
            && LastValue(Events(x), "peer.publickey", "") != ""
            && (forall i | 0 <= i < |Events(x)| :: EventAllowed(lib, Events(x)[i]))
            && !Scan(x).tooLong
  {
    hide Meta, Events, EventAllowed, FirstError, LastValue, Decimal.Atoi, CsvFields;
    AllEventsAllowed(lib, Events(x));
    LastSettingWins(x);
  }

  // Whether there is a setting of this slot at all.
  predicate Given(events: seq<Event>, slot: string) {
    exists i | 0 <= i < |events| :: events[i].Setting? && Slot(events[i].section, events[i].key) == slot
  }

  lemma {:induction false} LastValueGiven(events: seq<Event>, slot: string, default: string)
    ensures !Given(events, slot) ==> LastValue(events, slot, default) == default
    ensures Given(events, slot) ==>
              exists i | 0 <= i < |events| ::
                events[i].Setting? && Slot(events[i].section, events[i].key) == slot
                && events[i].value == LastValue(events, slot, default)
  {
    hide Slot;
    if events != [] {
      var init := events[..|events| - 1];
      LastValueGiven(init, slot, default);
      assert forall i | 0 <= i < |init| :: init[i] == events[i];
    }
  }

  lemma {:induction false} SameLastValue(events: seq<Event>, slot: string, default: string, other: string)
    requires Given(events, slot)
    ensures LastValue(events, slot, default) == LastValue(events, slot, other)
  {
    hide Slot;
    var init, e := events[..|events| - 1], events[|events| - 1];
    if !(e.Setting? && Slot(e.section, e.key) == slot) {
      var i :| 0 <= i < |events| && events[i].Setting? && Slot(events[i].section, events[i].key) == slot;
      assert init[i] == events[i];
      SameLastValue(init, slot, default, other);
    }
  }

  // In an accepted text the last value given has passed its check.
  lemma AcceptedLastValue(lib: Lib, x: string, slot: string, default: string)
    requires Validate(lib, x).error.None? && Given(Events(x), slot)
    ensures LastValue(Events(x), slot, default) != "" && Allowed(lib, slot, LastValue(Events(x), slot, default))
  {
    hide Events, Allowed, LastValue, Validate, Slot, Given;
    ValidateAcceptsExactly(lib, x);
    LastValueGiven(Events(x), slot, default);
    var i :| 0 <= i < |Events(x)| && Events(x)[i].Setting? && Slot(Events(x)[i].section, Events(x)[i].key) == slot
             && Events(x)[i].value == LastValue(Events(x), slot, default);
    assert EventAllowed(lib, Events(x)[i]);
  }

  // The addresses in the metadata are the fields of the last AllowedIPs.
  lemma AllowedIPsAreFields(x: string)
    ensures var ips, value := Meta(x).allowedIPs, LastValue(Events(x), "peer.allowedips", "");
            && (forall p | p in ips :: p != "" && Trimmed(p) && ',' !in p)
            && (forall p :: p in ips <==> IsField(value, p))
            && (',' !in value ==> ips == if TrimSpace(value) == "" then [] else [TrimSpace(value)])
            && (forall a, b | value == a + "," + b :: ips == CsvFields(a) + CsvFields(b))
  {
    hide Meta, Events, LastValue, TrimSpace, Trimmed, IsField, CsvFields, Decimal.Atoi;
    LastSettingWins(x);
    var value := LastValue(Events(x), "peer.allowedips", "");
    FieldsMeaning(value);
    forall a, b | value == a + "," + b
      ensures CsvFields(value) == CsvFields(a) + CsvFields(b)
    {
      FieldsAppend(a, b);
    }
  }

  // ------------------------------------------------------------- which error

  predicate Known(slot: string) {
    slot in {"interface.privatekey", "interface.address", "interface.mtu", "interface.listenport", "interface.fwmark",
             "peer.publickey", "peer.presharedkey", "peer.endpoint", "peer.allowedips", "peer.persistentkeepalive"}
  }

  // What is reported of a line that is not allowed.
  function Refusal(e: Event): ConfigError {
    match e
    case Section(name) => UnsupportedSection(name)
    case Junk(text) => InvalidLine(text)
    case Setting(section, key, value, _) =>
      var slot := Slot(section, key);
      if value == "" then EmptyValue(slot)
      else if Known(slot) then InvalidValue(slot, value)
      else UnsupportedDirective(slot)
  }

  lemma RefusedEvent(lib: Lib, e: Event)
    ensures EventError(lib, e) == if EventAllowed(lib, e) then None else Some(Refusal(e))
  {
    hide ValidKey, Decimal.Atoi, CsvFields, ValidEndpoint, ValidPort, Allowed;
    if e.Setting? {
      DirectiveAllowed(lib, e.section, e.key, e.value);
    }
  }

  lemma {:induction false} FirstRefused(lib: Lib, events: seq<Event>, i: nat)
    requires i < |events| && !EventAllowed(lib, events[i])
    requires forall j | 0 <= j < i :: EventAllowed(lib, events[j])
    ensures FirstError(lib, events) == Some(Refusal(events[i]))
  {
    hide EventError, EventAllowed, Refusal;
    RefusedEvent(lib, events[0]);
    if i > 0 {
      forall j | 0 <= j < i - 1
        ensures EventAllowed(lib, events[1..][j])
      {
        assert events[1..][j] == events[j + 1];
      }
      FirstRefused(lib, events[1..], i - 1);
    }
  }

  // Which error is reported: a missing key first of all; then the first line, in the order of
  // the text, that is not allowed; then a line that is too long.
  lemma ValidateReportsFirst(lib: Lib, x: string)
    ensures var events, error := Events(x), Validate(lib, x).error;
            if LastValue(events, "interface.privatekey", "") == "" || LastValue(events, "peer.publickey", "") == "" then
              error == Some(MissingKeys)
            else
              && (forall i | 0 <= i < |events| && !EventAllowed(lib, events[i]) ::
                    (forall j | 0 <= j < i :: EventAllowed(lib, events[j])) ==> error == Some(Refusal(events[i])))
              && ((forall i | 0 <= i < |events| :: EventAllowed(lib, events[i])) ==>
                    error == if Scan(x).tooLong then Some(LineTooLong) else None)
  {
    hide Meta, Events, EventAllowed, FirstError, LastValue, Decimal.Atoi, CsvFields, Refusal;
    var events := Events(x);
    AllEventsAllowed(lib, events);
    LastSettingWins(x);
    forall i | 0 <= i < |events| && !EventAllowed(lib, events[i])
      ensures (forall j | 0 <= j < i :: EventAllowed(lib, events[j])) ==>
                FirstError(lib, events) == Some(Refusal(events[i]))
    {
      if forall j | 0 <= j < i :: EventAllowed(lib, events[j]) {
        FirstRefused(lib, events, i);
      }
    }
  }
}
