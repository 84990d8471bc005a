/** internal/wg/config.go: the five scanners over WireGuard configuration text.

    Each scanner is a method with the source's own loop and its own section state,
    proved against a specification. All of them are specified through one notion, the
    events a text consists of, so that statements about two scanners can be compared. */
module WgConfig {
  import opened Options
  import opened Text
  import Decimal

  // ------------------------------------------------------------- the line scanner

  // Longest line, without its newline, that fits the scanner's 64 KiB buffer.
  const LINE_LIMIT: nat := 65535

  datatype Scanned = Scanned(lines: seq<string>, tooLong: bool)

  predicate EndsInCR(line: string) {
    line != "" && line[|line| - 1] == '\r'
  }

  function DropCR(line: string): string {
    if EndsInCR(line) then line[..|line| - 1] else line
  }

  // The lines handed out before the scanner stops: all of them, or those before the
  // first one that does not fit.
  function Visible(tokens: seq<string>): Scanned {
    if tokens == [] then Scanned([], false)
    else if |tokens[0]| > LINE_LIMIT then Scanned([], true)
    else
      var rest := Visible(tokens[1..]);
      Scanned([DropCR(tokens[0])] + rest.lines, rest.tooLong)
  }

  function Tokens(input: string): seq<string> {
    var segments := Split(input, '\n');
    if segments[|segments| - 1] == "" then segments[..|segments| - 1] else segments
  }

  function Scan(input: string): Scanned {
    Visible(Tokens(input))
  }

  // What is written back: lines joined, outer white space trimmed, one final newline.
  function Print(lines: seq<string>): string {
    TrimSpace(Join(lines, '\n')) + "\n"
  }

  // ------------------------------------------------------------- lines

  predicate IsSkipped(line: string) {
    line == "" || HasPrefix(line, "#") || HasPrefix(line, ";")
  }

  predicate IsHeader(line: string) {
    HasPrefix(line, "[") && HasSuffix(line, "]")
  }

  function SectionName(line: string): string
    requires IsHeader(line)
  {
    assert line[0] == '[' && line[|line| - 1] == ']';
    ToLower(TrimSpace(line[1..|line| - 1]))
  }

  function KeyName(before: string): string {
    ToLower(TrimSpace(before))
  }

  datatype Line = Skipped | Header(section: string) | Directive(key: string, value: string) | Other(text: string)

  function Classify(raw: string): Line {
    var line := TrimSpace(raw);
    if IsSkipped(line) then Skipped
    else if IsHeader(line) then Header(SectionName(line))
    else
      var h := Cut(line, '=');
      if h.found then Directive(KeyName(h.before), TrimSpace(h.after)) else Other(line)
  }

  // The name a directive is known by: section and key with a dot between.
  function Slot(section: string, key: string): string {
    section + "." + key
  }

  type Counts = map<string, nat>

  function Count(counts: Counts, slot: string): nat {
    if slot in counts then counts[slot] else 0
  }

  function Bump(counts: Counts, slot: string): Counts {
    counts[slot := Count(counts, slot) + 1]
  }

  // ------------------------------------------------------------- events

  // What a text consists of, comments and blank lines aside. `nth` counts the settings
  // of the same slot, from 1.
  datatype Event =
    | Section(name: string)
    | Setting(section: string, key: string, value: string, nth: nat)
    | Junk(text: string)

  // What a scanner remembers between lines.
  datatype Ctx = Ctx(section: string, counts: Counts)

  const START := Ctx("", map[])

  function After(raw: string, ctx: Ctx): Ctx {
    match Classify(raw)
    case Header(name) => ctx.(section := name)
    case Directive(key, _) => ctx.(counts := Bump(ctx.counts, Slot(ctx.section, key)))
    case _ => ctx
  }

  // The number of this setting among those of its slot.
  function Nth(ctx: Ctx, key: string): nat {
    Bump(ctx.counts, Slot(ctx.section, key))[Slot(ctx.section, key)]
  }

  function EventsOf(raw: string, ctx: Ctx): seq<Event> {
    match Classify(raw)
    case Skipped => []
    case Header(name) => [Section(name)]
    case Other(text) => [Junk(text)]
    case Directive(key, value) => [Setting(ctx.section, key, value, Nth(ctx, key))]
  }

  function EventsFrom(lines: seq<string>, ctx: Ctx): seq<Event> {
    if lines == [] then [] else EventsOf(lines[0], ctx) + EventsFrom(lines[1..], After(lines[0], ctx))
  }

  function Events(input: string): seq<Event> {
    EventsFrom(Scan(input).lines, START)
  }

  // ------------------------------------------------------------- ParseConfig

  datatype ConfigMeta = ConfigMeta(
    interfaceAddress: string,
    interfaceMTU: int,
    endpoint: string,
    allowedIPs: seq<string>,
    peerPublicKey: string,
    hasPrivateKey: bool,
    hasPresharedKey: bool,
    persistentKeepalive: string)

  const EMPTY_META := ConfigMeta("", 0, "", [], "", false, false, "")

  // The non-empty fields of a comma-separated list.
  function NonEmptyTrimmed(parts: seq<string>): seq<string> {
    if parts == [] then []
    else
      var part := TrimSpace(parts[0]);
      (if part == "" then [] else [part]) + NonEmptyTrimmed(parts[1..])
  }

  // The fields of a list.
  function CsvFields(value: string): seq<string> {
    NonEmptyTrimmed(Split(value, ','))
  }

  predicate IsField(value: string, p: string) {
    p != "" && exists k | 0 <= k < |Split(value, ',')| :: TrimSpace(Split(value, ',')[k]) == p
  }

  lemma TrimHasNone(s: string, c: char)
    requires c !in s
    ensures Trimmed(TrimSpace(s)) && c !in TrimSpace(s)
  {
    var _, _ := TrimSplits(s);
  }

  lemma {:induction false} TrimmedParts(parts: seq<string>)
    requires forall p | p in parts :: ',' !in p
    ensures forall p | p in NonEmptyTrimmed(parts) :: p != "" && Trimmed(p) && ',' !in p
    ensures forall p :: p in NonEmptyTrimmed(parts) <==>
              p != "" && exists k | 0 <= k < |parts| :: TrimSpace(parts[k]) == p
  {
    hide TrimSpace, Trimmed;
    if parts != [] {
      TrimHasNone(parts[0], ',');
      TrimmedParts(parts[1..]);
      assert parts == [parts[0]] + parts[1..];
      var now := if TrimSpace(parts[0]) == "" then [] else [TrimSpace(parts[0])];
      assert forall p :: p in now <==> p == TrimSpace(parts[0]) && p != "";
    }
  }

  // Each part between commas that is not blank is listed, without the white space around it,
  // and nothing else is.
  lemma FieldsMeaning(value: string)
    ensures forall p | p in CsvFields(value) :: p != "" && Trimmed(p) && ',' !in p
    ensures forall p :: p in CsvFields(value) <==> IsField(value, p)
    ensures ',' !in value ==> CsvFields(value) == if TrimSpace(value) == "" then [] else [TrimSpace(value)]
  {
    hide TrimSpace, Trimmed, Split;
    TrimmedParts(Split(value, ','));
    if ',' !in value {
      SplitWhole(value, ',');
      assert [value][1..] == [] && NonEmptyTrimmed([]) == [];
    }
  }

  lemma {:induction false} TrimmedPartsAppend(a: seq<string>, b: seq<string>)
    ensures NonEmptyTrimmed(a + b) == NonEmptyTrimmed(a) + NonEmptyTrimmed(b)
  {
    hide TrimSpace;
    if a == [] {
      assert a + b == b;
    } else {
      assert (a + b)[1..] == a[1..] + b;
      TrimmedPartsAppend(a[1..], b);
    }
  }

  // Lists joined by a comma list what each of them does, in order.
  lemma FieldsAppend(a: string, b: string)
    ensures CsvFields(a + "," + b) == CsvFields(a) + CsvFields(b)
  {
    hide NonEmptyTrimmed, Split;
    SplitAppend(a, ',', b);
    TrimmedPartsAppend(Split(a, ','), Split(b, ','));
  }

  method SplitCSV(value: string) returns (out: seq<string>)
    ensures out == CsvFields(value)
    ensures forall p | p in out :: p != "" && Trimmed(p) && ',' !in p
    ensures forall p :: p in out <==> IsField(value, p)
    ensures ',' !in value ==> out == if TrimSpace(value) == "" then [] else [TrimSpace(value)]
  {
    FieldsMeaning(value);
    hide TrimSpace, Trimmed, IsField;
    var parts := Split(value, ',');
    out := [];
    for i := 0 to |parts|
      invariant out + NonEmptyTrimmed(parts[i..]) == NonEmptyTrimmed(parts)
    {
      assert parts[i..][1..] == parts[i + 1..];
      var part := TrimSpace(parts[i]);
      if part != "" {
        out := out + [part];
      }
    }
    assert parts[|parts|..] == [];
  }

  function WithSetting(meta: ConfigMeta, section: string, key: string, value: string): ConfigMeta {
    var slot := Slot(section, key);
    if slot == "interface.privatekey" then meta.(hasPrivateKey := value != "")
    else if slot == "interface.address" then meta.(interfaceAddress := value)
    else if slot == "interface.mtu" then meta.(interfaceMTU := Decimal.Atoi(value).value)
    else if slot == "peer.publickey" then meta.(peerPublicKey := value)
    else if slot == "peer.presharedkey" then meta.(hasPresharedKey := value != "")
    else if slot == "peer.endpoint" then meta.(endpoint := value)
    else if slot == "peer.allowedips" then meta.(allowedIPs := CsvFields(value))
    else if slot == "peer.persistentkeepalive" then meta.(persistentKeepalive := value)
    else meta
  }

  function MetaFrom(meta: ConfigMeta, events: seq<Event>): ConfigMeta
    decreases |events|
  {
    if events == [] then meta
    else if events[0].Setting? then
      MetaFrom(WithSetting(meta, events[0].section, events[0].key, events[0].value), events[1..])
    else MetaFrom(meta, events[1..])
  }

  function Meta(input: string): ConfigMeta {
    MetaFrom(EMPTY_META, Events(input))
  }

  // The switch of ParseConfig.
  method StoreSetting(meta: ConfigMeta, section: string, key: string, value: string) returns (r: ConfigMeta)
    ensures r == WithSetting(meta, section, key, value)
  {
    r := meta;
    var slot := section + "." + key;
    if slot == "interface.privatekey" {
      r := meta.(hasPrivateKey := value != "");
    } else if slot == "interface.address" {
      r := meta.(interfaceAddress := value);
    } else if slot == "interface.mtu" {
      r := meta.(interfaceMTU := Decimal.Atoi(value).value);
    } else if slot == "peer.publickey" {
      r := meta.(peerPublicKey := value);
    } else if slot == "peer.presharedkey" {
      r := meta.(hasPresharedKey := value != "");
    } else if slot == "peer.endpoint" {
      r := meta.(endpoint := value);
    } else if slot == "peer.allowedips" {
      var ips := SplitCSV(value);
      r := meta.(allowedIPs := ips);
    } else if slot == "peer.persistentkeepalive" {
      r := meta.(persistentKeepalive := value);
    }
  }

  function LineMeta(meta: ConfigMeta, raw: string, section: string): ConfigMeta {
    match Classify(raw)
    case Directive(key, value) => WithSetting(meta, section, key, value)
    case _ => meta
  }

  lemma MetaStep(meta: ConfigMeta, lines: seq<string>, i: nat, ctx: Ctx)
    requires i < |lines|
    ensures MetaFrom(meta, EventsFrom(lines[i..], ctx)) ==
            MetaFrom(LineMeta(meta, lines[i], ctx.section), EventsFrom(lines[i + 1..], After(lines[i], ctx)))
  {
    assert lines[i..][1..] == lines[i + 1..];
    var now, rest := EventsOf(lines[i], ctx), EventsFrom(lines[i + 1..], After(lines[i], ctx));
    if now == [] {
      assert now + rest == rest;
    } else {
      assert (now + rest)[1..] == rest && now[1..] == [];
    }
  }

  method ParseConfig(input: string) returns (meta: ConfigMeta)
    ensures meta == Meta(input)
  {
    meta := EMPTY_META;
    var section := "";
    var lines := Scan(input).lines;
    ghost var counts: Counts := map[];
    for i := 0 to |lines|
      invariant MetaFrom(meta, EventsFrom(lines[i..], Ctx(section, counts))) == Meta(input)
    {
      MetaStep(meta, lines, i, Ctx(section, counts));
      var line := TrimSpace(lines[i]);
      if IsSkipped(line) {
        continue;
      }
      if IsHeader(line) {
        section := SectionName(line);
        continue;
      }
      var h := Cut(line, '=');
      if !h.found {
        continue;
      }
      var key := KeyName(h.before);
      var value := TrimSpace(h.after);
      counts := Bump(counts, Slot(section, key));
      meta := StoreSetting(meta, section, key, value);
    }
    assert lines[|lines|..] == [];
  }

  // ------------------------------------------------------------- transformConfig

  // (section, key, trimmed value, occurrence) to the value written in its place.
  type Replacer = (string, string, string, nat) -> string

  function Rewrite(raw: string, ctx: Ctx, replace: Replacer): string {
    match Classify(raw)
    case Directive(key, value) => WithValue(raw, replace(ctx.section, key, value, Nth(ctx, key)))
    case _ => raw
  }

  function RewriteFrom(lines: seq<string>, ctx: Ctx, replace: Replacer): (out: seq<string>)
    ensures |out| == |lines|
  {
    if lines == [] then []
    else [Rewrite(lines[0], ctx, replace)] + RewriteFrom(lines[1..], After(lines[0], ctx), replace)
  }

  // A directive line keeps its key as typed, spaces included.
  function WithValue(raw: string, value: string): string {
    Cut(raw, '=').before + "= " + value
  }

  function Transform(input: string, replace: Replacer): string {
    Print(RewriteFrom(Scan(input).lines, START, replace))
  }

  method TransformConfig(input: string, replace: Replacer) returns (r: string)
    ensures r == Transform(input, replace)
  {
    var out: seq<string> := [];
    var section := "";
    var occurrences: Counts := map[];
    var lines := Scan(input).lines;
    for i := 0 to |lines|
      invariant out + RewriteFrom(lines[i..], Ctx(section, occurrences), replace) == RewriteFrom(lines, START, replace)
    {
      var raw := lines[i];
      RewriteStep(out, lines, i, Ctx(section, occurrences), replace);
      RawCut(raw);
      var line := TrimSpace(raw);
      if IsSkipped(line) {
        out := out + [raw];
        continue;
      }
      if IsHeader(line) {
        section := SectionName(line);
        out := out + [raw];
        continue;
      }
      var h := Cut(raw, '=');
      if !h.found {
        out := out + [raw];
        continue;
      }
      var trimmedKey := KeyName(h.before);
      var occurrenceKey := section + "." + trimmedKey;
      occurrences := Bump(occurrences, occurrenceKey);
      var nextValue := replace(section, trimmedKey, TrimSpace(h.after), occurrences[occurrenceKey]);
      out := out + [h.before + "= " + nextValue];
    }
    assert lines[|lines|..] == [] && out + [] == out;
    r := TrimSpace(Join(out, '\n')) + "\n";
  }

  lemma RewriteStep(out: seq<string>, lines: seq<string>, i: nat, ctx: Ctx, replace: Replacer)
    requires i < |lines|
    ensures out + RewriteFrom(lines[i..], ctx, replace) ==
            (out + [Rewrite(lines[i], ctx, replace)]) + RewriteFrom(lines[i + 1..], After(lines[i], ctx), replace)
  {
    assert lines[i..][1..] == lines[i + 1..];
  }

  // transformConfig cuts the line as typed, the other scanners the trimmed line: the
  // key and value names they find are the same.
  lemma RawCut(raw: string)
    ensures Cut(raw, '=').found == Cut(TrimSpace(raw), '=').found
    ensures TrimSpace(Cut(raw, '=').before) == TrimSpace(Cut(TrimSpace(raw), '=').before)
    ensures Cut(raw, '=').found ==> TrimSpace(Cut(raw, '=').after) == TrimSpace(Cut(TrimSpace(raw), '=').after)
  {
    var a, b := TrimSplits(raw);
    var m := TrimSpace(raw);
    var h := Cut(m, '=');
    if h.found {
      FramedCut(a, h.before, h.after, b);
      assert raw == a + (h.before + ['='] + h.after) + b;
    }
  }

  lemma FramedCut(a: string, before: string, after: string, b: string)
    requires AllSpace(a) && AllSpace(b) && '=' !in before
    ensures var h := Cut(a + (before + ['='] + after) + b, '=');
            h.found && TrimSpace(h.before) == TrimSpace(before) && TrimSpace(h.after) == TrimSpace(after)
  {
    assert a + (before + ['='] + after) + b == (a + before) + ['='] + (after + b);
    CutJoined(a + before, '=', after + b);
    assert a + before == a + before + "" && after + b == "" + after + b;
    TrimIgnoresFrame(a, before, "");
    TrimIgnoresFrame("", after, b);
  }

  // ------------------------------------------------------------- secrets

  const REDACTED := "***"

  predicate SensitiveSlot(slot: string) {
    slot == "interface.privatekey" || slot == "peer.publickey" || slot == "peer.presharedkey"
  }

  predicate IsSensitive(section: string, key: string) {
    SensitiveSlot(Slot(section, key))
  }

  const REDACT: Replacer :=
    (section: string, key: string, value: string, nth: nat) =>
        if IsSensitive(section, key) && value != "" then REDACTED else value

  method RedactConfig(input: string) returns (r: string)
    ensures r == Redact(input)
  {
    r := TransformConfig(input, REDACT);
  }

  function Redact(input: string): string {
    Transform(input, REDACT)
  }

  function SensitiveKey(section: string, key: string, occurrence: nat): string {
    section + "." + key + "." + Decimal.Itoa(occurrence)
  }

  // The value of the n-th setting of a slot, or "" when there is none.
  function NthValue(events: seq<Event>, slot: string, n: nat): string {
    if events == [] then ""
    else if events[0].Setting? && Slot(events[0].section, events[0].key) == slot && events[0].nth == n then
      events[0].value
    else NthValue(events[1..], slot, n)
  }

  function MapGet(values: map<string, string>, key: string): string {
    if key in values then values[key] else ""
  }

  function MergeWith(stored: seq<Event>): Replacer {
    (section: string, key: string, value: string, nth: nat) =>
      if !IsSensitive(section, key) || value != REDACTED then value
      else
        var existing := NthValue(stored, Slot(section, key), nth);
        if existing == "" then value else existing
  }

  function Merged(existing: string, submitted: string): string {
    Transform(submitted, MergeWith(Events(existing)))
  }

  predicate HasPlaceholder(text: string) {
    Contains(text, "= " + REDACTED) || Contains(text, "=" + REDACTED)
  }

  datatype Result<T> = Ok(value: T) | Err(error: ConfigError)

  function Merge(existing: string, submitted: string): Result<string> {
    var merged := Merged(existing, submitted);
    if HasPlaceholder(merged) then Err(PlaceholderUnresolved) else Ok(merged)
  }

  // ------------------------------------------------------------- SetconfConfig

  predicate IsMetadataName(key: string) {
    ToLower(key) == "address" || ToLower(key) == "mtu"
  }

  predicate IsMetadata(section: string, key: string) {
    section == "interface" && (key == "address" || key == "mtu")
  }

  function Kept(raw: string, ctx: Ctx): seq<string> {
    match Classify(raw)
    case Directive(key, _) => if IsMetadata(ctx.section, key) then [] else [raw]
    case _ => [raw]
  }

  function KeptFrom(lines: seq<string>, ctx: Ctx): seq<string> {
    if lines == [] then [] else Kept(lines[0], ctx) + KeptFrom(lines[1..], After(lines[0], ctx))
  }

  function Setconf(input: string): string {
    Print(KeptFrom(Scan(input).lines, START))
  }

  // SetconfConfig has no comment test of its own: a comment never looks like a header
  // or a metadata directive.
  lemma CommentIsInert(line: string)
    requires IsSkipped(line) && Trimmed(line)
    ensures !IsHeader(line)
    ensures Cut(line, '=').found ==> !IsMetadataName(TrimSpace(Cut(line, '=').before))
  {
    var h := Cut(line, '=');
    if h.found {
      if h.before != "" {
        var c := line[0];
        assert h.before[0] == c && !IsSpace(c);
        assert TrimLeft(h.before) == h.before;
        TrimRightSplits(h.before);
        assert TrimSpace(h.before) != "" ==> TrimSpace(h.before)[0] == c;
        assert KeyName(h.before) != "" ==> KeyName(h.before)[0] == ToLowerChar(c);
      }
    }
  }

  method SetconfConfig(input: string) returns (r: string)
    ensures r == Setconf(input)
  {
    hide After, Kept, Classify, TrimLeft, TrimRight, IndexOf;
    var out: seq<string> := [];
    var section := "";
    var lines := Scan(input).lines;
    ghost var counts: Counts := map[];
    for i := 0 to |lines|
      invariant out + KeptFrom(lines[i..], Ctx(section, counts)) == KeptFrom(lines, START)
    {
      var raw := lines[i];
      ghost var ctx := Ctx(section, counts);
      KeptStep(out, lines, i, ctx);
      SetconfLine(raw, ctx);
      counts := After(raw, ctx).counts;
      var line := TrimSpace(raw);
      if IsHeader(line) {
        section := SectionName(line);
        out := out + [raw];
        continue;
      }
      var h := Cut(line, '=');
      if h.found && section == "interface" && IsMetadataName(TrimSpace(h.before)) {
        continue;
      }
      out := out + [raw];
    }
    assert lines[|lines|..] == [] && out + [] == out;
    r := TrimSpace(Join(out, '\n')) + "\n";
  }

  lemma KeptStep(out: seq<string>, lines: seq<string>, i: nat, ctx: Ctx)
    requires i < |lines|
    ensures out + KeptFrom(lines[i..], ctx) ==
            (out + Kept(lines[i], ctx)) + KeptFrom(lines[i + 1..], After(lines[i], ctx))
  {
    assert lines[i..][1..] == lines[i + 1..];
  }

  // The tests SetconfConfig makes on a line, told by its class.
  lemma SetconfLine(raw: string, ctx: Ctx)
    ensures IsHeader(TrimSpace(raw)) ==>
              Kept(raw, ctx) == [raw] && After(raw, ctx).section == SectionName(TrimSpace(raw))
    ensures !IsHeader(TrimSpace(raw)) ==>
              var h := Cut(TrimSpace(raw), '=');
              && After(raw, ctx).section == ctx.section
              && Kept(raw, ctx) ==
                 if h.found && ctx.section == "interface" && IsMetadataName(TrimSpace(h.before)) then [] else [raw]
  {
    var _, _ := TrimSplits(raw);
    if IsSkipped(TrimSpace(raw)) {
      CommentIsInert(TrimSpace(raw));
    }
  }

  // ------------------------------------------------------------- ValidateConfig

  datatype ConfigError =
    | MissingKeys
    | UnsupportedSection(name: string)
    | InvalidLine(text: string)
    | EmptyValue(slot: string)
    | InvalidValue(slot: string, value: string)
    | UnsupportedDirective(slot: string)
    | LineTooLong
    | PlaceholderUnresolved

  datatype HostPort = HostPort(host: string, port: string)

  // Library parsers whose grammar is not modelled: netip.ParsePrefix, net.SplitHostPort
  // and strconv.ParseUint(_, 0, 32).
  datatype Lib = Lib(isPrefix: string -> bool, hostPort: string -> Option<HostPort>, isUint32: string -> bool)

  // Section 4 of RFC 4648: the alphabet.
  predicate IsBase64Char(c: char) {
    'A' <= c <= 'Z' || 'a' <= c <= 'z' || '0' <= c <= '9' || c == '+' || c == '/'
  }

  predicate AllBase64(s: string) {
    forall i | 0 <= i < |s| :: IsBase64Char(s[i])
  }

  // Go's decoder skips line breaks anywhere in its input.
  function WithoutBreaks(s: string): string {
    if s == "" then ""
    else (if s[0] == '\r' || s[0] == '\n' then "" else [s[0]]) + WithoutBreaks(s[1..])
  }

  // Number of bytes base64.StdEncoding decodes the text to, if it decodes at all.
  function Base64Length(s: string): Option<nat> {
    var t := WithoutBreaks(s);
    var n := |t|;
    if n % 4 != 0 then None
    else if AllBase64(t) then Some(n / 4 * 3)
    else if t[n - 1] != '=' then None
    else if AllBase64(t[..n - 1]) then Some(n / 4 * 3 - 1)
    else if t[n - 2] == '=' && AllBase64(t[..n - 2]) then Some(n / 4 * 3 - 2)
    else None
  }

  predicate ValidKey(value: string) {
    Base64Length(value) == Some(32)
  }

  predicate ValidPort(value: string) {
    var n := Decimal.Atoi(value);
    n.ok && 1 <= n.value <= 65535
  }

  predicate ValidEndpoint(lib: Lib, value: string) {
    match lib.hostPort(value)
    case None => false
    case Some(hp) =>
      hp.host != ""
      && (forall i | 0 <= i < |hp.host| :: hp.host[i] !in " \t\r\n")
      && ValidPort(hp.port)
  }

  function DirectiveError(lib: Lib, section: string, key: string, value: string): Option<ConfigError> {
    var slot := Slot(section, key);
    var bad := Some(InvalidValue(slot, value));
    if SensitiveSlot(slot) then
      if ValidKey(value) then None else bad
    else if slot == "interface.address" then
      if ',' in value || !lib.isPrefix(value) then bad else None
    else if slot == "interface.mtu" then
      var n := Decimal.Atoi(value);
      if !n.ok || n.value < 576 || n.value > 9000 then bad else None
    else if slot == "interface.listenport" then
      if ValidPort(value) then None else bad
    else if slot == "interface.fwmark" then
      if value == "off" || lib.isUint32(value) then None else bad
    else if slot == "peer.endpoint" then
      if ValidEndpoint(lib, value) then None else bad
    else if slot == "peer.allowedips" then
      if forall p | p in CsvFields(value) :: lib.isPrefix(p) then None else bad
    else if slot == "peer.persistentkeepalive" then
      var n := Decimal.Atoi(value);
      if !n.ok || n.value < 0 || n.value > 65535 then bad else None
    else Some(UnsupportedDirective(slot))
  }

  function EventError(lib: Lib, e: Event): Option<ConfigError> {
    match e
    case Section(name) => if name == "interface" || name == "peer" then None else Some(UnsupportedSection(name))
    case Junk(text) => Some(InvalidLine(text))
    case Setting(section, key, value, _) =>
      if value == "" then Some(EmptyValue(Slot(section, key))) else DirectiveError(lib, section, key, value)
  }

  function FirstError(lib: Lib, events: seq<Event>): Option<ConfigError> {
    if events == [] then None
    else if EventError(lib, events[0]).Some? then EventError(lib, events[0])
    else FirstError(lib, events[1..])
  }

  datatype Validation = Validation(meta: ConfigMeta, error: Option<ConfigError>)

  function Validate(lib: Lib, input: string): Validation {
    var meta := Meta(input);
    Validation(meta,
               if !meta.hasPrivateKey || meta.peerPublicKey == "" then Some(MissingKeys)
               else if FirstError(lib, Events(input)).Some? then FirstError(lib, Events(input))
               else if Scan(input).tooLong then Some(LineTooLong)
               else None)
  }

  lemma FirstErrorStep(lib: Lib, lines: seq<string>, i: nat, ctx: Ctx)
    requires i < |lines|
    ensures FirstError(lib, EventsFrom(lines[i..], ctx)) ==
            if FirstError(lib, EventsOf(lines[i], ctx)).Some? then FirstError(lib, EventsOf(lines[i], ctx))
            else FirstError(lib, EventsFrom(lines[i + 1..], After(lines[i], ctx)))
  {
    assert lines[i..][1..] == lines[i + 1..];
    var now, rest := EventsOf(lines[i], ctx), EventsFrom(lines[i + 1..], After(lines[i], ctx));
    if now == [] {
      assert now + rest == rest;
    } else {
      assert (now + rest)[1..] == rest && now[1..] == [];
    }
  }

  method ValidateConfig(lib: Lib, input: string) returns (meta: ConfigMeta, error: Option<ConfigError>)
    ensures Validation(meta, error) == Validate(lib, input)
  {
    hide DirectiveError, TrimSpace, IsSkipped, IsHeader, SectionName, KeyName, Cut, MetaFrom;
    meta := ParseConfig(input);
    if !meta.hasPrivateKey || meta.peerPublicKey == "" {
      return meta, Some(MissingKeys);
    }
    var section := "";
    var scanner := Scan(input);
    var lines := scanner.lines;
    ghost var counts: Counts := map[];
    for i := 0 to |lines|
      invariant FirstError(lib, EventsFrom(lines[i..], Ctx(section, counts))) == FirstError(lib, Events(input))
    {
      FirstErrorStep(lib, lines, i, Ctx(section, counts));
      var line := TrimSpace(lines[i]);
      if IsSkipped(line) {
        continue;
      }
      if IsHeader(line) {
        section := SectionName(line);
        if section != "interface" && section != "peer" {
          return meta, Some(UnsupportedSection(section));
        }
        continue;
      }
      var h := Cut(line, '=');
      if !h.found {
        return meta, Some(InvalidLine(line));
      }
      var key := KeyName(h.before);
      var value := TrimSpace(h.after);
      counts := Bump(counts, Slot(section, key));
      if value == "" {
        return meta, Some(EmptyValue(Slot(section, key)));
      }
      error := DirectiveError(lib, section, key, value);
      if error.Some? {
        return meta, error;
      }
    }
    assert lines[|lines|..] == [];
    if scanner.tooLong {
      return meta, Some(LineTooLong);
    }
    error := None;
  }
}
