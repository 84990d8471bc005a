# Verified model of the routing container's configuration and supervisor logic

The program runs a WireGuard tunnel and a BIRD daemon inside a container next to a router. A
web server edits three configuration files; a privileged supervisor turns them into kernel
routes, a tunnel interface and processes. This project models the logic of both and proves
what it keeps.

| module | what it models |
|---|---|
| `WgConfig`, `WgLines`, `WgRescan`, `WgReprint`, `WgLaws`, `WgMerge`, `WgMeta` | the scanners over WireGuard configuration text: parsing, validation, redaction, merging redacted text back, stripping wg-quick metadata; and the laws that connect them |
| `WgEdit`, `WgPeers` | what saving an edited page does to the keys, and configurations with several peers |
| `WgStore` | the page that serves the redacted file and saves an edited one |
| `Ipv4` | IPv4 addresses and prefixes: dotted quads, prefix arithmetic, parsing and printing |
| `Kernel` | the machine the commands act on: one IPv4 table with longest-prefix lookup (section 5.1 of RFC 4632), links, processes, and a log of every command with the table after it |
| `Routes`, `RouteLaws`, `ApplyLaws`, `Endpoints` | resolving and pinning the endpoint, pinning clients, sending the advertised prefixes into the tunnel; what a run does told from the files it reads; and which peers of an accepted configuration stay reachable |
| `WgManager` | starting and stopping the tunnel, with the userspace fallback process |
| `Orchestrator`, `RoutingLaws` | plans of supervisor actions, and what they do to forwarding |
| `Completion`, `RequestLaws` | what is achieved when no command is made to fail: when Apply, Start and each routing request succeed, and Start followed by Stop from conditions known beforehand; and what each call and request runs |
| `Steps`, `Supervisor` | the supervisor's actions one command at a time, and connection handlers that run concurrently around one action lock |
| `Paths`, `AppConfig`, `WebConfig` | path containment, pinned-route normalisation, the configuration checks, and the web handlers that read, copy and write back the configuration without a lock |
| `Bird` | the BIRD configuration printer and a parser for what it prints |
| `Text`, `Decimal`, `Options` | splitting, trimming, cutting and joining text; decimal numbers |

Text is `seq<char>`, split, trimmed, cut and joined for real; nothing starts from parsed
directives. Code that loops or changes fields is a method or a class proved against a
specification function, and the laws are lemmas about those functions. Every command of the
supervisor may fail: the outcome of the n-th command is a parameter, so each statement holds
for every pattern of failures.

Three words recur below. A text is *reprintable* when no line of it ends in a carriage return
and none is longer than the scanner's limit. A replacer is *tame* on a text when the values it
returns are trimmed, hold no newline, and do not turn the directive into a header; the
replacers of redaction and merging are proved tame. The *print survives* (`SurvivesPrint`) when,
of the lines of the text given, from the first to the last that is not blank, every directive
fits on a line with "= " and its new value, and no other line but the last ends in a carriage
return; this condition on the input is proved equivalent to the output being reprintable.

Results where the code does less than its callers may expect, each with its condition:

- One pass of any rewriting takes a carriage return from a raw line that ends in one, and drops
  an over-long line with everything after it. Redaction is idempotent, saving a loaded page
  restores the stored text, and merging is stable exactly when the print in between survives
  (`RedactIdempotent`, `LoadSaveRestores`, `LoadThenSave`, `MergeStable`;
  `StrayCRDoesNotSurvive` gives an input).
- Placeholders are filled in by position. After an edit every key left as a placeholder has the
  value it showed exactly when, slot by slot, its number is unchanged or the stored setting of
  that number has the same value (`EditKeepsExactly`). Deleting one of several peers is accepted
  and gives every later peer the key of the one before it (`DeletedPeerShiftsKeys`), harmless
  exactly when the keys from there on are equal, as they are when it is the last peer
  (`DeletedPeerKeepsExactly`); the only peer cannot be deleted (`LastPeerStays`).
- Of several peers the parser sees the last one only (`LastSettingWins`), so only its endpoint is
  kept out of the tunnel, while the kernel is given all of them (`EndpointsKeptExactly`,
  `EarlierPeerLoops`; `EarlierPeerReached` gives the input).
- Nothing stops the interface for host routes from being the tunnel itself
  (`UnderlayMayBeTunnel`). A pin is kept out of the tunnel exactly when it is another interface
  and the pin's /32 is not advertised (`PinHoldsExactly`, `NoTunnelLoop`).
- Apply run twice differs exactly when no gateway is configured, a gateway was found, 0.0.0.0/0
  is advertised and some pin is not itself advertised (`ApplyIdempotentExactly`;
  `ApplyTwiceDiffers` gives the input).
- A pinned route without a length, or with white space around it, passes the configuration
  checks and is then refused by Apply (`AcceptedRouteParsesExactly`).
- An advertised route with host bits set passes the BIRD checks (`AnyPrefixIsAccepted`), and no
  run of Apply then succeeds (`HostBitsRefused`).
- A process that has exited cannot be killed. With a handle on one, Stop, Restart and the plans
  that use them fail, and Start fails too when only a process could make the link
  (`StopSucceedsExactly`, `RestartPlansSucceedExactly`, `StartSucceedsExactly`;
  `StaleHandleReached` gives the run). It costs one Start at most (`StaleHandleCostsOneStart`), and
  a Restart that fails so has brought the tunnel up all the same (`RestartLeavesUp`).
- The web handlers write back a copy. Memory is serial in the order of the write-backs exactly
  when no copy is stale (`SerialExactly`, `StaleExactly`); no order at all explains it exactly when
  a part has its original value back although posts that changed it have finished (`LostExactly`);
  and the BIRD file disagrees with the configuration exactly when the BIRD part written last is not the one in
  memory (`BirdFileExactly`). `LostUpdateReached` gives the run for all three.

## Model

| member | source | states |
|---|---|---|
| WgConfig.ParseConfig | internal/wg/config.go:26-65 | the line loop computes the fold of the switch over the settings the text consists of |
| WgConfig.SplitCSV | internal/wg/config.go:311-321 | each part between commas that is not blank, trimmed, and nothing else; of a value without a comma the value itself |
| WgConfig.FieldsAppend | internal/wg/config.go:311-321 | lists joined by a comma list what each of them does, in order |
| WgConfig.TransformConfig | internal/wg/config.go:132-161 | every directive line gets the replacer's value, the replacer being given the section, key, value and occurrence number that all other scanners would see; every other line is raw |
| WgConfig.RawCut | internal/wg/config.go:150-156 | cutting the raw line and cutting the trimmed line find the same key and value |
| WgConfig.RedactConfig | internal/wg/config.go:67-74 | non-empty values of sensitive directives become the placeholder, everything else stays |
| WgConfig.SetconfConfig | internal/wg/config.go:205-224 | the lines that remain are all but the interface's Address and MTU, although this scanner has no comment test of its own |
| WgConfig.CommentIsInert | internal/wg/config.go:205-224 | a comment never looks like a section header or a metadata directive, so the missing comment test is harmless |
| WgConfig.ValidateConfig | internal/wg/config.go:94-130 | the error is the first one in text order after the key checks, an over-long line last; the metadata is the parser's |
| WgLines.BlankReads | internal/wg/config.go:32-34 | blank lines and comments after # or ;, however indented, are skipped |
| WgLines.HeaderReads | internal/wg/config.go:35-38 | a name in brackets is a header in lower case, whatever white space stands inside and around the brackets |
| WgLines.DirectiveReads | internal/wg/config.go:39-44 | any other line with an equals sign is a directive: the trimmed key in lower case, and the trimmed value after the first equals sign |
| WgLines.OtherReads | internal/wg/config.go:39-42 | a line without one is no part of a configuration |
| WgLines.LinesRead | internal/wg/config.go:29-31 | a text of lines is scanned into them, ended by a newline or by a carriage return and a newline |
| WgLines.LongLineStops | internal/wg/config.go:29-31 | the scanner stops at a line of 65536 characters and at none shorter |
| WgLines.ScansExactly | internal/wg/config.go:132-224 | what the scanners find in a text, what is written back and what is given to wg, line by line, told from the line, the last header before it and the number of directives of its name before it; comments and blank lines are written back as they are |
| WgLines.PrintedShape | internal/wg/config.go:160-160 | what is written back has no white space around it but one newline at its end |
| WgRescan.PrintedDirective | internal/wg/config.go:150-157 | a printed directive scans back as the same key with the new value, and its key text is byte for byte the same |
| WgRescan.RewriteReplays | internal/wg/config.go:132-161 | rewriting rewritten lines sees the same sections, keys and occurrence numbers and equals one pass with the composed replacer |
| WgRescan.TransformCongruent | internal/wg/config.go:132-161 | the result depends on the replacer only at the settings that occur |
| WgRescan.ScanPrint | internal/wg/config.go:132-161 | scanning reprintable output gives the written lines back, outer blank lines and outer white space aside |
| WgRescan.EventsOfPrint | internal/wg/config.go:132-161 | what a scanner finds in the written lines it finds again in the printed text, carriage returns included, up to the first line that is too long |
| WgRescan.RewriteCore | internal/wg/config.go:132-161 | trimming the output before or after another rewriting is the same |
| WgReprint.ReprintableExactly | internal/wg/config.go:132-161 | the output is reprintable if and only if the print survives, and has no over-long line if and only if its lines fit: both told from the lines of the input |
| WgLaws.TransformReparses | internal/wg/config.go:132-161 | the settings found in the output are the input's with the replacer applied, same sections, order and numbers: all of them if the printed lines fit, and always an initial part |
| WgLaws.Fusion | internal/wg/config.go:132-161 | two passes equal one pass with the replacers composed, for every text whose first print survives and every tame first replacer |
| WgLaws.FusionExactly | internal/wg/config.go:132-161 | with both replacers tame, if and only if the first print survives, which the given text decides |
| WgLaws.FusedOnlyIfSurvives | internal/wg/config.go:132-161 | two passes that give what some single pass gives lost nothing in between |
| WgLaws.RoundTripSurvives | internal/wg/config.go:132-161 | two passes that give the text back unchanged lost nothing in between |
| WgLaws.NoStrayCRPrintsNone | internal/wg/config.go:132-161 | a text whose scanned lines end in no carriage return is printed without any |
| WgLaws.ScannedValues | internal/wg/config.go:132-161 | every value a scan finds is trimmed, of one line, and makes no header |
| WgLaws.RedactIsTame | internal/wg/config.go:67-74 | the redacting replacer meets the condition of the fusion law on every text |
| WgLaws.MergeIsTame | internal/wg/config.go:76-92 | so does the merging replacer, for every stored text |
| WgLaws.RedactIdempotent | internal/wg/config.go:67-74 | redacting twice is redacting once if and only if the redacted print survives |
| WgLaws.NormaliseIdempotent | internal/wg/config.go:132-161 | the same for the transform that changes no value |
| WgLaws.StrayCRDoesNotSurvive | internal/wg/config.go:140-148 | a concrete comment ending in two carriage returns on which redaction is not idempotent |
| WgMerge.Numbered | internal/wg/config.go:153-155 | no two settings of a text share section, key and occurrence number |
| WgMerge.SensitiveValues | internal/wg/config.go:163-190 | the map holds exactly the sensitive settings, the last write under a key winning, although this scanner counts only sensitive ones |
| WgMerge.SensitiveKeyInjective | internal/wg/config.go:201-203 | two sensitive settings with the same map key have the same name and number |
| WgMerge.SecretsLookup | internal/wg/config.go:163-190 | looking a name and number up in the map finds the value of that setting, or nothing if there is none |
| WgMerge.MergeRedactedConfig | internal/wg/config.go:76-92 | the merged text, or the error when a placeholder is left in it |
| WgMerge.PlaceholderExactly | internal/wg/config.go:88-90 | a text shows a placeholder if and only if it has three stars behind an equals sign, with or without one space between |
| WgMerge.ValueIsPrinted | internal/wg/config.go:132-161 | every value written is found in the printed text behind an equals sign, whatever the final trim removes |
| WgMerge.MergeRejectsUnresolved | internal/wg/config.go:76-92 | a placeholder with no usable stored value makes the merge fail |
| WgMerge.MergeSpecification | internal/wg/config.go:76-92 | on success: the submitted sections and keys in order, as far as the lines fit; each sensitive placeholder, the k-th of its name, carries the non-empty k-th stored value; every other value as submitted; no value is the placeholder |
| WgMerge.MergeKeepsRedaction | internal/wg/config.go:67-92 | the merged text redacts to what the submitted text redacts to if and only if the merged print survives |
| WgMerge.MergeStable | internal/wg/config.go:76-92 | merging the merged text again changes nothing if and only if the merged print survives |
| WgMerge.LoadSaveRestores | internal/wg/config.go:67-92 | merging the redacted text into its own original gives the normalised original if and only if the redacted print survives |
| WgMerge.LoadSaveSucceeds | internal/wg/config.go:67-92 | that merge succeeds with the normalised original if and only if, besides, the normalised original shows no placeholder |
| WgMerge.LoadSaveUnchanged | internal/wg/config.go:67-92 | it leaves the text byte for byte as it is if and only if the text is normal already, its redacted print survives and it shows no placeholder |
| WgMerge.SecondLoadSaveIsIdentity | internal/wg/config.go:67-92 | what was saved redacts to the same page and is saved back byte for byte if and only if the normalised print survives |
| WgMerge.NormaliseKeepsEvents | internal/wg/config.go:132-161 | normalising a text adds nothing, and keeps every section, setting, number and stray line if the printed lines fit |
| WgMerge.LoadSaveKeepsMeaning | internal/wg/config.go:26-130 | whatever is saved has an initial part of the stored settings; if all lines fit, all of them and the same metadata, and the same verdict unless the stored text was refused for an over-long line; a saved text with an over-long line is refused |
| WgMerge.RedactShows | internal/wg/config.go:67-74 | a scan of redacted text finds the settings of the text in order, the three key directives as three stars where they are not empty, and everything else as it was |
| WgMerge.RedactHidesKeys | internal/wg/config.go:67-74 | so every key directive a scan finds in redacted text is empty or three stars |
| WgMeta.SetconfIsProjection | internal/wg/config.go:205-224 | for every text, the events of the stripped text are those of the text less the interface's Address and MTU, in order |
| WgMeta.SetconfMeta | internal/wg/config.go:205-224 | its metadata is the original's with those two fields cleared |
| WgMeta.SetconfStaysAccepted | internal/wg/config.go:94-130 | an accepted text stays accepted when stripped |
| WgMeta.SetconfTwice | internal/wg/config.go:205-224 | stripping again finds nothing more to remove |
| WgMeta.AcceptedMetaIsValid | internal/wg/config.go:94-130 | when the validator's scan accepts, what the parser's scan collected is valid: MTU 0 or 576 to 9000, a peer key of 32 bytes, valid allowed IPs, address and endpoint |
| WgMeta.RedactedIsRejected | internal/wg/config.go:94-130 | redacted text is never a valid configuration |
| WgMeta.RedactionSeesOnlyShape | internal/wg/config.go:67-74 | two texts that differ only in non-empty sensitive values redact to the same text |
| WgMeta.RedactionShowsTheRest | internal/wg/config.go:67-74 | conversely, texts that redact alike differ in nothing else a scanner can tell, over-long prints included |
| WgMeta.DirectiveAllowed | internal/wg/config.go:226-321 | the table of accepted directives and their values, both directions: a key is 43 letters and a padding character, an endpoint a host without blanks and a port from 1 to 65535, and every part of AllowedIPs between commas that is not blank a prefix |
| WgMeta.KeyExactly | internal/wg/config.go:274-280 | a value decodes to 32 bytes if and only if, line breaks aside, it is 43 base64 letters and one padding character |
| WgMeta.EndpointExactly | internal/wg/config.go:282-299 | an endpoint is accepted if and only if it splits into a host that is not empty and has no blank, and a number from 1 to 65535 |
| WgMeta.AllowedIPsAreFields | internal/wg/config.go:58-59 | the addresses in the metadata are the trimmed parts of the last AllowedIPs that are not blank, in order |
| WgMeta.LastSettingWins | internal/wg/config.go:26-65 | every field of the metadata is the last setting of its name: of several peers only the last one is seen |
| WgMeta.ValidateAcceptsExactly | internal/wg/config.go:94-130 | a text is accepted if and only if its last private key and last peer key are not empty, and it has only known sections and allowed non-empty directives, no stray line and no over-long line |
| WgMeta.ValidateReportsFirst | internal/wg/config.go:94-130 | which error is reported: missing keys before all else, then what is wrong with the first line in text order that is not allowed, then an over-long line |
| WgStore.Server.GetWGConfig | internal/server/api_wg.go:13-35 | the page shows the redacted text and the metadata with the peer key hidden |
| WgStore.Server.PostWGConfig | internal/server/api_wg.go:53-96 | the new file content and the answer, over every error path |
| WgStore.FirstSaveExactly | internal/server/api_wg.go:53-96 | with no file or an empty one the body is stored byte for byte and shown, its peer key covered, if and only if it is read, the file can be read, the validator accepts it and it can be written; otherwise the content stays and the answer says which of these failed |
| WgStore.NextSaveExactly | internal/server/api_wg.go:53-96 | over a stored text the same holds of the merged text, if and only if the merge succeeds besides |
| WgStore.LoadAfterSave | internal/server/api_wg.go:13-35 | loading what was just saved shows the page the save answered with |
| WgStore.PagesHideKeys | internal/server/api_wg.go:98-103 | no page, loaded or answered, shows a key, in the text or in the metadata |
| WgStore.StoredIsUsable | internal/server/api_wg.go:53-96 | after any uploads and any failures the stored file is one the validator accepts |
| WgStore.SaveAllOrNothing | internal/server/api_wg.go:53-96 | an upload either stores an accepted text and shows its redaction, or leaves the file as it was |
| WgStore.StoredHoldsKeys | internal/server/api_wg.go:53-96 | no stored sensitive value is ever a placeholder, or anything but a 32-byte key |
| WgStore.LoadThenSave | internal/server/api_wg.go:13-96 | loading the page and saving it unedited stores the normalised text, with the same settings and metadata, if and only if the stored text's normalised print survives and shows no placeholder |
| WgStore.LoadThenSaveAddsNothing | internal/server/api_wg.go:13-96 | whatever an unedited save stores has an initial part of the stored settings and no others |
| WgStore.SaveChangesNothingExactly | internal/server/api_wg.go:53-96 | an unedited save leaves the file byte for byte as it is if and only if the stored text is normal already and shows no placeholder |
| WgStore.SecondSaveChangesNothing | internal/server/api_wg.go:53-96 | a second load and save of what such a save stored leaves the file byte for byte as it is |
| WgEdit.FilledExactly | internal/wg/config.go:76-92 | in an accepted merge a sensitive placeholder comes back as a given stored value if and only if the stored setting of its name and number has that value |
| WgEdit.KeyKeptExactly | internal/wg/config.go:76-92 | a setting left as the placeholder of a stored one is filled with that one's value if and only if its number is the stored one's or that of another with the same value |
| WgEdit.EditKeepsExactly | internal/server/api_wg.go:68-76 | for a whole edit, peers added, removed or reordered: every key left as a placeholder is stored with the value it showed if and only if each one's number fits so |
| WgEdit.EditKeepsKeys | internal/server/api_wg.go:68-76 | so an edit that leaves the sequence of sensitive settings alone keeps every key: each has its stored value, or the new one where one was typed in |
| WgPeers.PeersAccepted | internal/wg/config.go:94-130 | configurations with any number of peers are accepted, the metadata holding the last one's endpoint |
| WgPeers.PeersStored | internal/server/api_wg.go:53-96 | on a fresh server a configuration with any number of peers is stored as it is, and its page shows placeholders for all keys |
| WgPeers.PageShows | internal/server/api_wg.go:13-35 | the page of such a configuration is the same text with every key replaced by the placeholder |
| WgPeers.DeletedPeerShiftsKeys | internal/server/api_wg.go:53-96 | saving the page with one of several peers deleted succeeds and the file becomes exactly the text in which every later peer has the key of the one before it, unless an endpoint makes that text show a placeholder: then it is refused and the file stays |
| WgPeers.LastPeerStays | internal/server/api_wg.go:53-96 | saving the page with the only peer deleted is refused for missing keys and the file stays |
| WgPeers.DeletedPeerKeepsExactly | internal/wg/config.go:76-92 | with those shifted keys every remaining peer has its own if and only if neighbouring keys are equal from the deleted peer on, so always when it is the last |
| Ipv4.HoldsIsCover | internal/supervisor/routes.go:97-118 | a masked prefix holds an address exactly when masking the address to its length gives the prefix |
| Ipv4.QuadReads | internal/config/config.go:149-171 | reading a printed address gives the address |
| Ipv4.QuadPrints | internal/config/config.go:149-171 | printing a read address gives the text: there is one way to write an address |
| Ipv4.PrefixReads | internal/supervisor/routes.go:97-118 | reading a printed prefix gives the prefix |
| Ipv4.PrefixPrints | internal/supervisor/routes.go:98-110 | an IPv4 prefix that parses is printed as the text it was read from |
| Decimal.AtoiExactly | internal/wg/config.go:295-299 | a text reads as a number if and only if it is a row of digits with that value in the range of 64 bits, after at most one sign |
| Ipv4.PrefixIsNoAddr | internal/config/config.go:149-171 | no text is both an address and a printed prefix |
| Kernel.LookupIsLongestMatch | README.md:115-118 | the modelled lookup finds exactly the entry of the most specific prefix that holds the address |
| Kernel.HostRouteWins | internal/supervisor/routes.go:140-169 | a host route decides its address |
| Kernel.ReplayKeepsPin | internal/supervisor/routes.go:67-138 | a pin on the underlay is in place after every single command of a run that neither re-routes it nor touches its interface |
| Kernel.ReplayOnTunnel | internal/supervisor/wg.go:125-183 | commands on the tunnel interface leave every route elsewhere as it was |
| Routes.DefaultRouteGateway | internal/supervisor/routes.go:213-221 | the word after the first "via" that has one |
| Routes.DiscoveredGateway | internal/supervisor/routes.go:213-221 | what the kernel prints for a default route is read back as exactly its gateway, and as none when there is none |
| Routes.ResolveEndpoint | internal/supervisor/routes.go:171-211 | the endpoint's addresses or the error, over literal addresses and resolver answers |
| Routes.EndpointAddrsMeaning | internal/supervisor/routes.go:171-211 | an endpoint can be pinned if and only if its host is an IPv4 address, or no address and resolves to one, and its addresses are all of these, each once |
| Routes.RouteApplyManager.ApplyHostRoute | internal/supervisor/routes.go:140-169 | the query and replacement it runs, and where it stops |
| Routes.RouteApplyManager.ApplyPlan | internal/supervisor/routes.go:91-118 | the three loops, stopping at the first failure |
| Routes.RouteApplyManager.Apply | internal/supervisor/routes.go:67-119 | the checks in order, then the three loops |
| Routes.RouteApplyManager.PinClient | internal/supervisor/routes.go:121-138 | the pin of one client, refused before any command if it has no IPv4 address |
| RouteLaws.HostRouteEffect | internal/supervisor/routes.go:140-169 | on success one host route to the configured or discovered gateway, on failure the table unchanged |
| RouteLaws.PlanEffect | internal/supervisor/routes.go:91-118 | the table after a successful run: all pins through one and the same gateway, then all advertised prefixes into the tunnel |
| RouteLaws.PinHoldsExactly | internal/supervisor/routes.go:91-118 | after a successful run an endpoint or pinned client is kept out of the tunnel if and only if host routes do not go into it and its own /32 is not advertised |
| RouteLaws.TunnelledExactly | internal/supervisor/routes.go:91-118 | after a successful run an address is sent into the tunnel if and only if a prefix that leads there holds it and no pin or earlier route that holds it is more specific |
| RouteLaws.ApplyIdempotentExactly | internal/supervisor/routes.go:67-119 | of two runs that succeed, the second changes nothing if and only if a gateway is configured, or 0.0.0.0/0 is not advertised, or there was no gateway to find, or every pin is advertised |
| RouteLaws.SecondRunQuiet | internal/supervisor/routes.go:67-119 | a second run, also one stopped by a failed command, changes nothing at any step if the same gateway is found and no pin is advertised |
| RouteLaws.SecondGateway | internal/supervisor/routes.go:140-169 | which gateway a later run discovers |
| RouteLaws.Phases | internal/supervisor/routes.go:91-118 | every run, failed ones included, is pinning commands and then advertising commands, and the second part is empty unless every pin is in place |
| RouteLaws.NoTunnelLoop | internal/supervisor/routes.go:91-118 | at every table of every run from the first advertised prefix on, failed runs included, an endpoint or pinned client whose /32 is not advertised is kept out of the tunnel if and only if host routes do not go into it |
| RouteLaws.HostBitsRefused | internal/supervisor/routes.go:109-117 | no run succeeds that advertises a prefix with host bits set |
| ApplyLaws.TableExactly | internal/supervisor/routes.go:67-119 | the table a successful run leaves, entry by entry, from app.yaml, wg0.conf and the table before: advertised prefixes go into the tunnel (wg0 if none is named); the /32 of each address of the last endpoint and of each pinned route goes out of the configured interface (eth0 if none is named) through the trimmed gateway or the default route's; the rest is untouched |
| ApplyLaws.PinsKeptExactly | internal/supervisor/routes.go:67-119 | after a successful run every pinned route denotes an address, and each leaves through the configured interface if and only if its /32 is not advertised or that interface is the tunnel; the endpoint's addresses likewise |
| ApplyLaws.PinsKeptThroughout | internal/supervisor/routes.go:67-119 | the same at every table from the first advertised prefix on, of failed runs too |
| ApplyLaws.AdvertisedLast | internal/supervisor/routes.go:109-118 | a successful run ends with one command for each advertised route, IPv6 included, in order, and each worked |
| ApplyLaws.HostRouteCommandsExactly | internal/supervisor/routes.go:140-169 | a host route is one command through a configured gateway; otherwise the default route is asked for first and its gateway, if any, is used |
| ApplyLaws.ApplySucceedsExactly | internal/supervisor/routes.go:67-119 | when no command is made to fail, a run succeeds if and only if both files are accepted, the endpoint stands for an IPv4 address, both interfaces are there, the gateway is an address, no pinned route is bare or has white space around it, and no advertised route has host bits; with files that are not accepted no command is run |
| ApplyLaws.ApplyErrorMeans | internal/supervisor/routes.go:67-119 | which error is reported: the first check not passed, a pinned route that cannot be read as it stands, or a failed last command; never an unreadable advertised route |
| Endpoints.PinnedEndpoints | internal/supervisor/routes.go:67-90 | the addresses pinned for the tunnel are those of the last endpoint setting of the text |
| Endpoints.EndpointsKeptExactly | internal/supervisor/routes.go:67-119 | for every endpoint setting of an accepted text and every address of it, when that address is sent into the tunnel; the last setting's addresses are pinned |
| Endpoints.EarlierPeerLoops | internal/wg/config.go:55-56 | with several peers the kernel is given all of them, the endpoints pinned are the last one's, and an earlier one's address that is not pinned and that an advertised prefix holds most specifically is sent into the tunnel |
| Endpoints.EarlierPeerReached | internal/supervisor/routes.go:67-119 | the input: two peers with literal addresses and the two halves of the address space advertised; Apply succeeds, the second peer is kept on the underlay and the first is sent into the tunnel, on every machine with both links and no earlier route to the first peer longer than a half |
| RouteLaws.AcceptedRouteParsesExactly | internal/supervisor/routes.go:97-108 | of the pinned routes the configuration checks accept, Apply parses exactly those with a length and without outer white space, and to the same address |
| RouteLaws.BareAddressIsRefused | internal/supervisor/routes.go:97-108 | a bare address passes the configuration checks and is refused by Apply |
| WgManager.WGProcessManager.KillLocked | internal/supervisor/wg.go:312-319 | the handle is dropped whether or not the kill worked |
| WgManager.WGProcessManager.EnsureInterface | internal/supervisor/wg.go:185-216 | show, add, or launch and wait; a process that does not get ready is killed |
| WgManager.WGProcessManager.Start | internal/supervisor/wg.go:125-162 | the whole new state and result over every failure |
| WgManager.WGProcessManager.Stop | internal/supervisor/wg.go:164-183 | deletes the link, kills the process in any case, and excuses a missing interface |
| WgManager.WGProcessManager.Restart | internal/supervisor/wg.go:273-284 | starts even if stopping failed, and reports the first failure |
| WgManager.StartHandle | internal/supervisor/wg.go:125-216 | Start keeps the handle exact, ends without one when it fails in or after the interface step, and touches nothing when it is refused before |
| WgManager.StopHandle | internal/supervisor/wg.go:164-183 | Stop keeps the handle exact and ends without one |
| WgManager.HandleAlwaysExact | internal/supervisor/wg.go:125-319 | over every sequence of operations, failures and process deaths, at most one launched process has had no kill attempted and the manager holds exactly that one |
| WgManager.EnsureTries | internal/supervisor/wg.go:185-216 | the first commands of a Start: show, then add if that fails, then launch if that fails and no handle is held |
| WgManager.StaleHandleFailsStart | internal/supervisor/wg.go:185-216 | with a handle held, no link and none made by the kernel, Start launches nothing and fails, dropping the handle |
| WgManager.StaleHandleCostsOneStart | internal/supervisor/wg.go:125-216 | the Start after a failed one finds the link, has the kernel make it, or launches anew |
| WgManager.StartCommands | internal/supervisor/wg.go:335-347 | Start touches nothing but its interface, and with no MTU set in the manager brings it up with one in 576 to 9000 |
| WgManager.StopCommands | internal/supervisor/wg.go:164-183 | the exact commands of a Stop |
| WgManager.RestartCommands | internal/supervisor/wg.go:273-284 | Restart touches nothing but its interface |
| WgManager.StartCompletes | internal/supervisor/wg.go:137-161 | a Start that succeeds ended with the stripped configuration, the address if there is one, and the MTU, each applied successfully |
| WgManager.StartBringsUp | internal/supervisor/wg.go:125-162 | and told from the text: the settings less Address and MTU, the last Address given, and up with the MTU that the last MTU setting reads as, or the manager's if none is given, or 1320 |
| WgManager.StartMakesLink | internal/supervisor/wg.go:125-162 | a successful Start leaves the link in place |
| WgManager.StopRemovesLink | internal/supervisor/wg.go:164-183 | a successful Stop leaves no link |
| WgManager.MissingIsRecognised | internal/supervisor/wg.go:246-251 | the kernel's text for a missing device is recognised in spite of its capital letter |
| WgManager.MissingExactly | internal/supervisor/wg.go:246-251 | an output names a missing interface if and only if it holds one of the three texts, in any capitals |
| WgManager.StopTwice | internal/supervisor/wg.go:164-183 | stopping again succeeds and changes nothing |
| Orchestrator.Supervisor.Dispatch | internal/supervisor/actions.go:5-36 | which manager call each action makes, and the new state |
| Orchestrator.Supervisor.StartBird | internal/supervisor/bird.go:62-96 | status first, then launch, then bounded polling |
| Orchestrator.Supervisor.Call | internal/supervisor/client.go:16-48 | the connection may fail before the action, and the reply may be lost after it |
| Orchestrator.Supervisor.RunPlan | internal/orchestrator/routing.go:75-96 | the actions up to the first failure, with their states and reports |
| Orchestrator.Supervisor.RunRequest | internal/orchestrator/routing.go:31-73 | the plan of each request, Apply choosing by the tunnel's status |
| Orchestrator.Supervisor.RoutingAction | internal/server/api_routing.go:35-63 | the dashboard client is pinned first, and nothing else runs if that fails |
| Orchestrator.PlanReports | internal/orchestrator/routing.go:75-96 | a result lists the plan's actions in order up to the first failure and is OK exactly when all are there and none failed |
| RoutingLaws.RequestCommands | internal/orchestrator/routing.go:31-96 | every command any routing plan runs is a tunnel command or one of Apply's pins and advertisements |
| RoutingLaws.PinClientPins | internal/server/api_routing.go:71-80 | a successful pin has an IPv4 client and leaves its host route on the underlay |
| RoutingLaws.DashboardClientKept | internal/server/api_routing.go:35-63 | with pinning on, the dashboard client leaves through the interface for host routes after every single command of the action, whatever fails, if that interface is not the tunnel and its /32 is not advertised; if it is the tunnel, the pin itself sends the client there; if the pin fails nothing else runs |
| RoutingLaws.StartPlanEffect | internal/orchestrator/routing.go:49-56 | a successful Start plan leaves the routes elsewhere as they were and then lays pins and advertised prefixes over them |
| RoutingLaws.StopPlanEffect | internal/orchestrator/routing.go:58-63 | a successful Stop plan leaves exactly the routes that are not on the tunnel, and no tunnel link |
| RoutingLaws.StartThenStop | internal/orchestrator/routing.go:49-63 | the table after both, whatever the interfaces: the original without tunnel routes, with pins and then advertised prefixes laid over it, those through the tunnel only taking away what was there |
| RoutingLaws.RestoredExactly | internal/supervisor/routes.go:109-118 | apart from the pins the table is restored if and only if it held no tunnel route, and held an advertised prefix only if BIRD uses another interface, and then as Apply sets it |
| RoutingLaws.ForwardingRestored | internal/orchestrator/routing.go:49-63 | no address is sent into the tunnel, and from a restorable table every address that is not pinned has its original lookup |
| Completion.PlanSucceedsExactly | internal/supervisor/routes.go:91-118 | when no command is made to fail, Apply's loops succeed if and only if the underlay exists and its configured gateway is an address, every pinned route is an IPv4 /32, the tunnel exists, and every advertised route is a prefix without host bits |
| Completion.StartSucceedsExactly | internal/supervisor/wg.go:125-216 | Start then succeeds if and only if the configuration is there, accepted and can be copied, and the link exists, or the kernel can make it, or no process is held |
| Completion.StopSucceedsExactly | internal/supervisor/wg.go:164-183 | Stop then succeeds if and only if no process is held or the held one has not exited; a missing link is no obstacle, and the handle is gone either way |
| Completion.RestartSucceedsExactly | internal/supervisor/wg.go:273-284 | Restart then succeeds if and only if Stop would and the configuration is accepted |
| Completion.RestartLeavesUp | internal/supervisor/wg.go:273-284 | Restart then leaves the tunnel up if and only if the configuration is accepted, even when it reports that the old process could not be killed |
| Completion.StaleHandleReached | internal/supervisor/wg.go:99-120 | the run: a process launched by Start dies, and Stop, Restart and Start all fail next |
| Completion.ApplyTwiceDiffers | internal/supervisor/routes.go:140-169 | the input on which two successful runs of Apply leave different tables |
| Completion.StartPlanSucceedsExactly | internal/orchestrator/routing.go:49-56 | the Start plan then succeeds if and only if Start would and Apply can do its part once the tunnel is up |
| Completion.RestartPlansSucceedExactly | internal/orchestrator/routing.go:31-73 | the Restart plan and the re-applying plan then succeed if and only if no process is held or it is alive, the configuration is accepted, and Apply can do its part |
| Completion.StopPlanSucceedsExactly | internal/orchestrator/routing.go:58-63 | the Stop plan then succeeds if and only if no process is held or the held one is alive |
| Completion.StartThenStopRestores | internal/orchestrator/routing.go:49-63 | from conditions on the configuration and the first state alone: Start and Stop both succeed, no address is sent into the tunnel, and the routes apart from the pins are back, with the lookups of all addresses that are not pinned, if and only if the first table was restorable |
| RequestLaws.CallExactly | internal/supervisor/client.go:16-48 | without a connection nothing is run; with one the action is, and its response reaches the caller unless the reply is lost |
| RequestLaws.OneCommandActions | internal/supervisor/actions.go:5-36 | the one command that status, BIRD stop and BIRD reload run, answering with its outcome |
| RequestLaws.BirdStartSucceedsExactly | internal/supervisor/bird.go:62-96 | BIRD is launched if and only if it is not found running, and the start succeeds if and only if it was, or is found ready within 20 rounds of which no wait is cut short |
| RequestLaws.RoutingActionSteps | internal/orchestrator/routing.go:31-73 | the actions of each request in order, up to the first failure; Apply restarts if and only if the status call is answered with a text that names an interface, and starts otherwise; the client's pin comes first except for a stop |
| RequestLaws.RoutingActionSucceedsExactly | internal/server/api_routing.go:35-63 | when no command is made to fail, a dashboard action succeeds if and only if the client can be pinned where it has to be and, told from the files and the first state, the request can be carried out |
| Supervisor.StepKeepsSerialized | internal/supervisor/server.go:56-76 | every move of every handler keeps the managers in the state of the requests served so far plus a prefix of the lock holder's own |
| Supervisor.HandlersSerialize | internal/supervisor/server.go:56-100 | so does every interleaving, for dispatches of any number of atomic steps |
| Supervisor.SomebodyCanMove | internal/supervisor/server.go:56-76 | while a connection is open some handler can move |
| Steps.DispatchGoes | internal/supervisor/actions.go:5-36 | carried out alone, one command or field access at a time, every action does what its specification says and answers with its response |
| Steps.EndIsUnique | internal/supervisor/actions.go:5-36 | in however many steps it comes to its end |
| Supervisor.ServerRunsActionsInLockOrder | internal/supervisor/server.go:56-100 | with handlers interrupted after any single command, the managers, kernel and command log are those of dispatching the requests one at a time in lock order; the action lock alone keeps them apart, between the halves of a restart too |
| Supervisor.ServerAnswersInLockOrder | internal/supervisor/server.go:56-76 | and every request gets the response it would get in its turn |
| Supervisor.DispatchKeepsHandle | internal/supervisor/actions.go:5-36 | every action keeps the process handle exact |
| Supervisor.ServerKeepsHandle | internal/supervisor/server.go:56-100 | so does every run of the server |
| Paths.InsideIsProperPrefix | internal/config/config.go:184-201 | a path is accepted if and only if the cleaned root's elements are a proper initial part of the cleaned path's, whatever the names look like |
| Paths.ElementsMeaning | internal/config/config.go:184-201 | what a cleaned path consists of: the root of nothing, a name adds itself, a dot or final slash nothing, two dots take the last element away, and a relative path continues the working directory |
| Paths.OnlyElements | internal/config/config.go:184-201 | these rules leave no choice: whatever obeys them gives every absolute path the same elements |
| Paths.ClimbIsOutside | internal/config/config.go:184-201 | a path that climbs out of a root other than / is never inside it, whatever is named then |
| Paths.JoinedIsInside | internal/config/config.go:89-104 | a file name joined to an absolute root is inside it |
| AppConfig.NormalizePinnedClientRoutes | internal/config/config.go:132-147 | the normalised distinct routes, or the error of the first bad one |
| AppConfig.NormalRoute | internal/config/config.go:149-171 | the /32 of an address normalises to itself |
| AppConfig.NormalizeRouteMeaning | internal/config/config.go:149-171 | a route is accepted if and only if it denotes an IPv4 address, and becomes that address's /32 |
| AppConfig.NormalizedExactly | internal/config/config.go:132-147 | a list is accepted if and only if each of its routes denotes an IPv4 address |
| AppConfig.DistinctEachMeaning | internal/config/config.go:132-147 | the result holds each normal form once, in the order of first occurrence |
| AppConfig.NormalizedMeaning | internal/config/config.go:132-171 | the same addresses before and after, each once, each entry passing Apply's own /32 parse |
| AppConfig.NormalizedIdempotent | internal/config/config.go:132-147 | normalising again changes nothing |
| AppConfig.OwnPathsAreInside | internal/config/config.go:89-104 | the checks on app.yaml and wg0.conf never fail for an absolute state directory |
| AppConfig.RuntimeErrorMeaning | internal/config/config.go:123-130 | the runtime check passes if and only if every pinned route denotes an address |
| AppConfig.ManagedMeaning | internal/config/config.go:89-121 | what an accepted configuration amounts to, both directions |
| AppConfig.ClimbingPathRefused | internal/config/config.go:102-104 | a configuration whose BIRD file is named by climbing out of the state directory is refused |
| AppConfig.UnderlayMayBeTunnel | internal/config/config.go:105-121 | an accepted configuration stays accepted when the interface for host routes is made the tunnel |
| Bird.GenerateAccepts | internal/bird/config.go:28-69 | a configuration is accepted if and only if every field passes its check |
| Bird.NameExactly | internal/bird/config.go:71-82 | an interface name is accepted if and only if it has 1 to 15 characters, all letters, digits, underscores, dots or hyphens |
| Bird.AnyPrefixIsAccepted | internal/bird/config.go:28-69 | any further route that reads as a prefix is accepted, host bits or not |
| Bird.AcceptedIsPrintable | internal/bird/config.go:28-69 | no accepted field holds a character of the surrounding syntax |
| Bird.GenerateReads | internal/bird/config.go:28-109 | parsing the generated text recovers router ID, both ASNs, peer, interface and the routes in order |
| Bird.ExportsAdvertisedOnly | internal/bird/config.go:79-109 | the BGP protocol of the generated text takes in nothing and exports the routes of the protocol the advertised routes stand in |
| Bird.GenerateInjective | internal/bird/config.go:28-109 | two accepted configurations generate the same text exactly when they are equal up to defaults |
| WebConfig.WebServer.PostBirdConfig | internal/server/api_bird.go:31-73 | the handler without interruption: the files, memory and answer over every failure |
| WebConfig.WebServer.PostSettings | internal/server/api_settings.go:27-61 | likewise |
| WebConfig.BirdPostExactly | internal/server/api_bird.go:31-73 | a BIRD post succeeds if and only if a file can be generated and both files can be written; then the BIRD part alone is replaced in memory and on disk; if it fails nothing changes but perhaps the BIRD file |
| WebConfig.SettingsPostExactly | internal/server/api_settings.go:27-61 | a settings post succeeds if and only if every pinned route denotes an address and the file can be written; then the runtime part alone is replaced, otherwise nothing |
| WebConfig.BirdChangeIsGood | internal/server/api_bird.go:47-64 | a configuration that passes the checks still passes with any generated BIRD part |
| WebConfig.SettingsChangeIsGood | internal/server/api_settings.go:37-57 | and with any normalised runtime part |
| WebConfig.ConfigAlwaysManaged | internal/server/api_bird.go:31-73 | under every interleaving of the unlocked handlers every configuration in memory, on disk, in a handler's hands or handed to Save passes the checks and keeps the paths and interfaces |
| WebConfig.ServerConfigAlwaysManaged | internal/server/server.go:36-39 | so it does from the start of a server that began with a configuration that passes |
| WebConfig.MemoryWasSaved | internal/server/api_settings.go:37-57 | what is in memory is the original or has been saved |
| WebConfig.WriteBackEffect | internal/server/api_bird.go:47-64 | writing back puts the handler's own copy in memory and on disk whatever was written since it was taken |
| WebConfig.SerialExactly | internal/server/api_bird.go:47-64 | throughout a run memory is the finished posts handled one after the other, in the order of their write-backs, if and only if no write-back is stale: the part it does not set is still the one it copied |
| WebConfig.StaleExactly | internal/server/api_bird.go:47-64 | a write-back is stale if and only if the part it does not set got another value in memory between the handler's copying and its write-back |
| WebConfig.SomeOrderExactly | internal/server/api_settings.go:37-57 | some order of the finished posts explains a configuration if and only if each part is one of those posted, or the original if none was |
| WebConfig.LostExactly | internal/server/api_settings.go:37-57 | after any run of a server no order explains memory if and only if a part has its original value back although posts that changed it have finished |
| WebConfig.BirdFileExactly | internal/server/api_bird.go:47-64 | after any run the BIRD file, once written, holds the text of the configuration in memory if and only if the BIRD part in memory is the one written last |
| WebConfig.FailedSaveLeavesFile | internal/server/api_bird.go:54-61 | a post whose second write fails leaves its text in the BIRD file and nothing elsewhere |
| WebConfig.OverlappingPosts | internal/server/api_bird.go:47-64 | of two handlers that both hold copies both report success; memory and app.yaml are the second one's copy with its change, and the BIRD file keeps a BIRD change that is lost in both |
| WebConfig.LostUpdateReached | internal/server/api_bird.go:47-64 | the run from a fresh server in which that happens |
| WebConfig.SequentialUpdatesKept | internal/server/api_settings.go:37-57 | one after the other, both changes are kept |

## Left out

- Text is ASCII: Unicode white space and case folding are not modelled.
- The scanners read a whole string: the read error of a scanner is its line limit only.
- IPv6 syntax, host:port splitting, prefix parsing inside the WireGuard validator and unsigned
  parsing are parameters. The BIRD round trip asks of the IPv6 parameter that an accepted
  prefix holds no space, semicolon or quote.
- Base64 is modelled as far as the decoded length; the bytes are not.
- Error wording and command output are not modelled, except the texts that decide something:
  a missing interface, the default route, the tunnel status.
- Sockets, JSON, YAML, files, DNS, process execution and peer credentials are outcomes chosen
  from outside; saving a file is atomic.
- Timeouts and polling intervals are outcomes too: ready, not ready, or out of time.
- The kernel has one IPv4 table keyed by masked prefix, without metrics, without a local table
  and without IPv6 routes. Connected routes that an address or a link may bring are any set of
  new prefixes on that interface.
- Of the reasons for a command to fail, a missing or existing link, an unmasked or unreadable
  destination and a gateway that is no dotted quad are modelled; the others are left to the
  command's outcome.
- A process that dies by itself does so between two operations, not within one. Deleting a link
  does not end the process behind it; whether that process is gone before it is killed is the
  outcome of the kill.
- A failed Start may leave an interface the kernel made, and starting BIRD may leave a process
  that is not ready; the code does not prevent it and nothing is claimed.
- RoutingLaws.StopPlanEffect: a failed command says "missing" only of a missing device.
- RoutingLaws.DashboardClientKept: the configuration files do not change during one routing
  action.
- Supervisor actions that only report (ping, details, dump, protocols) are not modelled.
- Supervisor and WebConfig handlers are goroutines; they are step systems on values. The tunnel
  manager's own mutex is left out: the action lock is proved to be enough.
- Loading the configuration with its defaults, login tokens and sessions, logs, status parsing,
  diagnostics, pages, scripts and images are not part of this model.
