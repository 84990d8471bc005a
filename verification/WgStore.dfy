/** internal/server/api_wg.go: serving the redacted WireGuard configuration and saving an
    edited one. */
module WgStore {
  import opened Options
  import opened WgConfig
  import WgReprint
  import WgLaws
  import WgMerge
  import WgMeta

  // The stored file; None when there is none.
  type Content = Option<string>

  datatype Page =
    | NotThere
    | ReadFailed
    | BadRequest(error: Option<ConfigError>)
    | WriteFailed
    | Showing(config: string, meta: ConfigMeta)

  // The metadata as it is shown: without the peer's key.
  function Shown(meta: ConfigMeta): ConfigMeta {
    if meta.peerPublicKey == "" then meta else meta.(peerPublicKey := REDACTED)
  }

  // How reading and writing the file turn out, and what the request body holds; None for a
  // body that cannot be read.
  datatype Upload = Upload(body: Option<string>, readOk: bool, writeOk: bool)

  datatype Saved = Saved(content: Content, page: Page)

  function LoadPage(content: Content, readOk: bool): Page {
    match content
    case None => NotThere
    case Some(data) => if readOk then Showing(Redact(data), Shown(Meta(data))) else ReadFailed
  }

  // What is stored if the upload is accepted.
  function MergedUpload(content: Content, body: string): Result<string> {
    if content.None? || content.value == "" then Ok(body) else Merge(content.value, body)
  }

  function SavePage(lib: Lib, content: Content, u: Upload): Saved {
    if u.body.None? then Saved(content, BadRequest(None))
    else if content.Some? && !u.readOk then Saved(content, ReadFailed)
    else
      match MergedUpload(content, u.body.value)
      case Err(e) => Saved(content, BadRequest(Some(e)))
      case Ok(merged) =>
        var v := Validate(lib, merged);
        if v.error.Some? then Saved(content, BadRequest(v.error))
        else if !u.writeOk then Saved(content, WriteFailed)
        else Saved(Some(merged), Showing(Redact(merged), Shown(v.meta)))
  }

  class Server {
    var content: Content
    const lib: Lib

    constructor (content0: Content, lib0: Lib)
      ensures content == content0 && lib == lib0
    {
      content, lib := content0, lib0;
    }

    method GetWGConfig(readOk: bool) returns (page: Page)
      ensures page == LoadPage(content, readOk)
    {
      if content.None? {
        return NotThere;
      }
      if !readOk {
        return ReadFailed;
      }
      var config := RedactConfig(content.value);
      var meta := ParseConfig(content.value);
      page := Showing(config, Shown(meta));
    }

    method PostWGConfig(u: Upload) returns (page: Page)
      modifies this
      ensures Saved(content, page) == SavePage(lib, old(content), u)
    {
      hide Validate, Merge, Redact;
      if u.body.None? {
        return BadRequest(None);
      }
      if content.Some? && !u.readOk {
        return ReadFailed;
      }
      var merged := u.body.value;
      if content.Some? && content.value != "" {
        var result := WgMerge.MergeRedactedConfig(content.value, u.body.value);
        if result.Err? {
          return BadRequest(Some(result.error));
        }
        merged := result.value;
      }
      var meta, error := ValidateConfig(lib, merged);
      if error.Some? {
        return BadRequest(error);
      }
      if !u.writeOk {
        return WriteFailed;
      }
      content := Some(merged);
      var config := RedactConfig(merged);
      page := Showing(config, Shown(meta));
    }
  }

  // ------------------------------------------------------------- every run of uploads

  function SaveAll(lib: Lib, content: Content, uploads: seq<Upload>): Content
    decreases |uploads|
  {
    if uploads == [] then content else SaveAll(lib, SavePage(lib, content, uploads[0]).content, uploads[1..])
  }

  predicate Usable(lib: Lib, content: Content) {
    content.Some? ==> Validate(lib, content.value).error.None?
  }

  // Whatever is uploaded and whatever fails, the stored file is one the validator accepts;
  // an upload that is refused or cannot be written leaves it as it was.
  lemma {:induction false} StoredIsUsable(lib: Lib, content: Content, uploads: seq<Upload>)
    requires Usable(lib, content)
    ensures Usable(lib, SaveAll(lib, content, uploads))
    decreases |uploads|
  {
    hide Validate, MergedUpload;
    if uploads != [] {
      StoredIsUsable(lib, SavePage(lib, content, uploads[0]).content, uploads[1..]);
    }
  }

  lemma SaveAllOrNothing(lib: Lib, content: Content, u: Upload)
    ensures var s := SavePage(lib, content, u);
            if s.page.Showing? then
              s.content.Some? && s.page.config == Redact(s.content.value)
              && Validate(lib, s.content.value).error.None?
            else s.content == content
  {
    hide Validate, MergedUpload, Redact;
  }

  // ------------------------------------------------------------- one upload

  // The page of a text: its redaction, and its metadata with the peer's key covered.
  predicate Shows(page: Page, text: string) {
    var meta := Meta(text);
    && page.Showing? && page.config == Redact(text)
    && page.meta == meta.(peerPublicKey := if meta.peerPublicKey == "" then "" else "***")
  }

  // Why the upload of what should become this text fails: its error, or writing it.
  function Obstacle(lib: Lib, text: string): Page {
    var error := Validate(lib, text).error;
    if error.Some? then BadRequest(error) else WriteFailed
  }

  // With nothing stored yet the body is saved byte for byte, and shown, exactly if it is read,
  // the file can be read, the validator accepts it and it can be written. Otherwise the file
  // stays as it is, and the answer says what was wrong.
  lemma FirstSaveExactly(lib: Lib, content: Content, u: Upload)
    requires content == None || content == Some("")
    ensures var s := SavePage(lib, content, u);
            && (u.body.Some? && s.content == u.body && Shows(s.page, u.body.value) <==>
                && u.body.Some? && (content.Some? ==> u.readOk)
                && Validate(lib, u.body.value).error.None? && u.writeOk)
            && (!s.page.Showing? ==>
                  && s.content == content
                  && s.page == if u.body.None? then BadRequest(None)
                               else if content.Some? && !u.readOk then ReadFailed
                               else Obstacle(lib, u.body.value))
            && (s.page.Showing? ==> s.content == u.body)
  {
    hide Redact, Meta, FirstError;
  }

  // Over a stored text the same is true of the body merged with it, if they can be merged.
  lemma NextSaveExactly(lib: Lib, content: Content, u: Upload)
    requires content.Some? && content.value != ""
    ensures var s := SavePage(lib, content, u);
            var merged := if u.body.Some? then Merge(content.value, u.body.value) else Err(PlaceholderUnresolved);
            && (merged.Ok? && s.content == Some(merged.value) && Shows(s.page, merged.value) <==>
                u.readOk && merged.Ok? && Validate(lib, merged.value).error.None? && u.writeOk)
            && (!s.page.Showing? ==>
                  && s.content == content
                  && s.page == if u.body.None? then BadRequest(None)
                               else if !u.readOk then ReadFailed
                               else if merged.Err? then BadRequest(Some(PlaceholderUnresolved))
                               else Obstacle(lib, merged.value))
            && (s.page.Showing? ==> merged.Ok? && s.content == Some(merged.value))
  {
    hide Redact, Meta, FirstError, Merged, HasPlaceholder;
  }

  // Loading what an upload has just stored shows the very page that was its answer.
  lemma LoadAfterSave(lib: Lib, content: Content, u: Upload)
    requires SavePage(lib, content, u).page.Showing?
    ensures LoadPage(SavePage(lib, content, u).content, true) == SavePage(lib, content, u).page
  {
    hide Redact, Meta, FirstError, MergedUpload;
  }

  // No page shows a key, whatever is stored, uploaded or fails.
  lemma PagesHideKeys(lib: Lib, content: Content, u: Upload, readOk: bool)
    ensures HidesKeys(LoadPage(content, readOk)) && HidesKeys(SavePage(lib, content, u).page)
  {
    hide Redact, Meta, Events, Validate, MergedUpload, Slot;
    if content.Some? {
      WgMerge.RedactHidesKeys(content.value);
    }
    if SavePage(lib, content, u).page.Showing? {
      WgMerge.RedactHidesKeys(SavePage(lib, content, u).content.value);
    }
  }

  predicate HidesKeys(page: Page) {
    page.Showing? ==>
      && page.meta.peerPublicKey in {"", "***"}
      && forall e | e in Events(page.config) && e.Setting? && Slot(e.section, e.key) in WgMerge.KEY_SLOTS ::
           e.value in {"", "***"}
  }

  // No stored setting of a key is ever a placeholder.
  lemma {:induction false} AcceptedKeysAreKeys(lib: Lib, events: seq<Event>)
    requires FirstError(lib, events).None?
    ensures forall e | e in events && e.Setting? && IsSensitive(e.section, e.key) :: ValidKey(e.value)
  {
    if events != [] {
      AcceptedKeysAreKeys(lib, events[1..]);
      if events[0].Setting? && IsSensitive(events[0].section, events[0].key) {
        KeyIsChecked(lib, events[0]);
      }
    }
  }

  lemma KeyIsChecked(lib: Lib, e: Event)
    requires EventError(lib, e).None? && e.Setting? && IsSensitive(e.section, e.key)
    ensures ValidKey(e.value)
  {
  }

  lemma StoredHoldsKeys(lib: Lib, content: Content, uploads: seq<Upload>)
    requires Usable(lib, content) && SaveAll(lib, content, uploads).Some?
    ensures forall e | e in Events(SaveAll(lib, content, uploads).value)
                       && e.Setting? && IsSensitive(e.section, e.key) ::
              ValidKey(e.value) && e.value != REDACTED
  {
    hide SaveAll, ValidKey;
    StoredIsUsable(lib, content, uploads);
    AcceptedKeysAreKeys(lib, Events(SaveAll(lib, content, uploads).value));
    WgMeta.PlaceholderIsNoKey(REDACTED);
    PlaceholderInvalid();
  }

  lemma PlaceholderInvalid()
    ensures !ValidKey(REDACTED)
  {
    WgMeta.PlaceholderIsNoKey(REDACTED);
  }

  // ------------------------------------------------------------- load, then save

  // The page as it was loaded, sent back unchanged.
  function Unedited(content: Content): Upload
    requires content.Some?
  {
    Upload(Some(Redact(content.value)), true, true)
  }

  lemma {:induction false} BreaksOnlyShorten(s: string)
    ensures |WithoutBreaks(s)| <= |s|
  {
    if s != "" {
      BreaksOnlyShorten(s[1..]);
    }
  }

  lemma KeyIsLong(value: string)
    requires ValidKey(value)
    ensures |value| > |REDACTED|
  {
    hide AllBase64, WithoutBreaks;
    BreaksOnlyShorten(value);
  }

  // In an accepted text the placeholder is shorter than what it stands for, so redacting
  // makes no line longer.
  lemma RedactionSurvivesToo(lib: Lib, x: string)
    requires Validate(lib, x).error.None? && WgReprint.SurvivesPrint(x, WgLaws.IDENTITY)
    ensures WgReprint.SurvivesPrint(x, REDACT)
  {
    hide WgReprint.SurvivesFrom, FirstError, ValidKey;
    AcceptedKeysAreKeys(lib, Events(x));
    forall e | e in Events(x) && e.Setting?
      ensures |REDACT(e.section, e.key, e.value, e.nth)| <= |WgLaws.IDENTITY(e.section, e.key, e.value, e.nth)|
    {
      if IsSensitive(e.section, e.key) {
        KeyIsLong(e.value);
      }
    }
    WgReprint.ShorterSurvives(Scan(x).lines, START, REDACT, WgLaws.IDENTITY, true, true);
  }

  // What normalising keeps when its print survives.
  lemma NormalIsAccepted(lib: Lib, x: string)
    requires Validate(lib, x).error.None?
    ensures Validate(lib, WgLaws.Normalise(x)).error.None? ==> WgReprint.FitsPrinted(x, WgLaws.IDENTITY)
    ensures WgReprint.SurvivesPrint(x, WgLaws.IDENTITY) ==>
              && Validate(lib, WgLaws.Normalise(x)) == Validate(lib, x)
              && Events(WgLaws.Normalise(x)) == Events(x)
              && Meta(WgLaws.Normalise(x)) == Meta(x)
  {
    hide WgReprint.SurvivesPrint, WgReprint.FitsPrinted, FirstError;
    WgLaws.IdentityIsTame(x);
    WgReprint.ReprintableExactly(x, WgLaws.IDENTITY);
    WgMerge.NormaliseKeepsEvents(x);
  }

  lemma SurvivesBoth(x: string)
    requires WgReprint.SurvivesPrint(x, REDACT) && WgReprint.FitsPrinted(x, WgLaws.IDENTITY)
    ensures WgReprint.SurvivesPrint(x, WgLaws.IDENTITY)
  {
    WgReprint.SurvivalParts(Scan(x).lines, START, WgLaws.IDENTITY, REDACT, true);
  }

  // Loading the page and saving it unchanged stores the same text normalised, with the same
  // settings and metadata, exactly when the normalised print survives and shows no
  // placeholder: a condition on the stored text.
  lemma LoadThenSave(lib: Lib, content: Content)
    requires content.Some? && content.value != "" && Usable(lib, content)
    ensures var stored, normal := content.value, WgLaws.Normalise(content.value);
            && (SavePage(lib, content, Unedited(content)) ==
                 Saved(Some(normal), Showing(Redact(normal), Shown(Meta(stored)))) <==>
                  WgReprint.SurvivesPrint(stored, WgLaws.IDENTITY) && !HasPlaceholder(normal))
            && (WgReprint.SurvivesPrint(stored, WgLaws.IDENTITY) ==> Events(normal) == Events(stored))
  {
    hide Redact, WgLaws.Normalise, HasPlaceholder, Validate, Merge, Meta, WgReprint.SurvivesPrint;
    hide WgReprint.FitsPrinted;
    var stored := content.value;
    WgMerge.LoadSaveSucceeds(stored);
    NormalIsAccepted(lib, stored);
    AcceptedMeta(lib, stored);
    if WgReprint.SurvivesPrint(stored, WgLaws.IDENTITY) {
      RedactionSurvivesToo(lib, stored);
    } else if WgReprint.SurvivesPrint(stored, REDACT) && WgReprint.FitsPrinted(stored, WgLaws.IDENTITY) {
      SurvivesBoth(stored);
    }
  }

  lemma AcceptedMeta(lib: Lib, x: string)
    ensures Validate(lib, x).meta == Meta(x)
  {
    hide Meta, FirstError, Events;
  }

  // Whatever an unedited save stores has the stored settings in their order, and no others.
  lemma LoadThenSaveAddsNothing(lib: Lib, content: Content)
    requires content.Some? && content.value != ""
    ensures var s := SavePage(lib, content, Unedited(content));
            s.content.Some? && Events(s.content.value) <= Events(content.value)
  {
    hide Redact, Merge, Validate, Events;
    if Merge(content.value, Redact(content.value)).Ok? {
      WgMerge.LoadSaveKeepsMeaning(lib, content.value);
    }
  }

  // An unedited save leaves the file byte for byte as it is exactly when the stored text is
  // normal already and shows no placeholder.
  lemma SaveChangesNothingExactly(lib: Lib, content: Content)
    requires content.Some? && content.value != "" && Usable(lib, content)
    ensures var stored := content.value;
            SavePage(lib, content, Unedited(content)) ==
            Saved(content, Showing(Redact(stored), Shown(Meta(stored)))) <==>
              WgLaws.Normalise(stored) == stored && !HasPlaceholder(stored)
  {
    hide Redact, WgLaws.Normalise, HasPlaceholder, Validate, Merge, Meta, WgReprint.SurvivesPrint;
    var stored := content.value;
    WgMerge.LoadSaveUnchanged(stored);
    AcceptedMeta(lib, stored);
    if WgLaws.Normalise(stored) == stored {
      WgLaws.NormaliseIdempotent(stored);
      RedactionSurvivesToo(lib, stored);
    }
  }

  // So a second load and save of what the first one stored changes no byte of it.
  lemma SecondSaveChangesNothing(lib: Lib, content: Content)
    requires content.Some? && content.value != "" && Usable(lib, content)
    requires WgReprint.SurvivesPrint(content.value, WgLaws.IDENTITY) && !HasPlaceholder(WgLaws.Normalise(content.value))
    ensures var saved := SavePage(lib, content, Unedited(content));
            saved.content.Some? && SavePage(lib, saved.content, Unedited(saved.content)) == saved
  {
    hide Redact, WgLaws.Normalise, HasPlaceholder, Validate, Merge, Meta, SavePage, WgReprint.SurvivesPrint;
    var stored := content.value;
    LoadThenSave(lib, content);
    NormalIsAccepted(lib, stored);
    WgLaws.NormaliseIdempotent(stored);
    PrintIsNotEmpty(stored);
    SaveChangesNothingExactly(lib, Some(WgLaws.Normalise(stored)));
  }

  lemma PrintIsNotEmpty(x: string)
    ensures WgLaws.Normalise(x) != ""
  {
  }
}
