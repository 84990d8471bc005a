/** Putting stored keys back in place of redaction placeholders: `sensitiveValues` and
    `MergeRedactedConfig` of internal/wg/config.go, and the laws of loading a redacted
    text and saving it again. */
module WgMerge {
  import opened Text
  import opened WgConfig
  import opened WgRescan
  import opened WgReprint
  import opened WgLaws
  import opened Options
  import Decimal

  // ------------------------------------------------------------- numbering

  predicate SameSetting(a: Event, b: Event) {
    a.Setting? && b.Setting? && Slot(a.section, a.key) == Slot(b.section, b.key) && a.nth == b.nth
  }

  predicate UniquelyNumbered(events: seq<Event>) {
    forall i, j | 0 <= i < j < |events| :: !SameSetting(events[i], events[j])
  }

  lemma {:induction false} NumberedFrom(lines: seq<string>, ctx: Ctx)
    ensures forall e | e in EventsFrom(lines, ctx) && e.Setting? :: e.nth > Count(ctx.counts, Slot(e.section, e.key))
    ensures UniquelyNumbered(EventsFrom(lines, ctx))
  {
    hide Classify, Slot;
    if lines != [] {
      var now, rest := EventsOf(lines[0], ctx), EventsFrom(lines[1..], After(lines[0], ctx));
      assert EventsFrom(lines, ctx) == now + rest;
      NumberedFrom(lines[1..], After(lines[0], ctx));
      forall i, j | 0 <= i < j < |now + rest|
        ensures !SameSetting((now + rest)[i], (now + rest)[j])
      {
        if i < |now| {
          assert (now + rest)[j] in rest;
        }
      }
    }
  }

  lemma Numbered(x: string)
    ensures UniquelyNumbered(Events(x))
  {
    NumberedFrom(Scan(x).lines, START);
  }

  // Under unique numbering a setting is found by its slot and number.
  lemma {:induction false} NthValueOf(events: seq<Event>, e: Event)
    requires UniquelyNumbered(events) && e in events && e.Setting?
    ensures NthValue(events, Slot(e.section, e.key), e.nth) == e.value
  {
    if events[0] != e {
      var i :| 0 <= i < |events| && events[i] == e;
      assert !SameSetting(events[0], events[i]);
      assert e == events[1..][i - 1];
      forall i, j | 0 <= i < j < |events[1..]|
        ensures !SameSetting(events[1..][i], events[1..][j])
      {
        assert !SameSetting(events[i + 1], events[j + 1]);
      }
      NthValueOf(events[1..], e);
    }
  }

  lemma {:induction false} NthValueAbsent(events: seq<Event>, slot: string, n: nat)
    requires forall e | e in events && e.Setting? :: Slot(e.section, e.key) != slot || e.nth != n
    ensures NthValue(events, slot, n) == ""
  {
    if events != [] {
      NthValueAbsent(events[1..], slot, n);
    }
  }

  lemma {:induction false} NthValueSnoc(events: seq<Event>, e: Event, slot: string, n: nat)
    requires UniquelyNumbered(events + [e])
    ensures NthValue(events + [e], slot, n) ==
            if e.Setting? && Slot(e.section, e.key) == slot && e.nth == n then e.value
            else NthValue(events, slot, n)
  {
    if e.Setting? && Slot(e.section, e.key) == slot && e.nth == n {
      NthValueOf(events + [e], e);
    } else {
      NthValueSkipsLast(events, e, slot, n);
    }
  }

  lemma {:induction false} NthValueSkipsLast(events: seq<Event>, e: Event, slot: string, n: nat)
    requires !(e.Setting? && Slot(e.section, e.key) == slot && e.nth == n)
    ensures NthValue(events + [e], slot, n) == NthValue(events, slot, n)
  {
    if events != [] {
      assert (events + [e])[1..] == events[1..] + [e];
      NthValueSkipsLast(events[1..], e, slot, n);
    }
  }

  // ------------------------------------------------------------- sensitiveValues

  // The map the scanner builds: each sensitive setting under its own key.
  function SecretsOf(events: seq<Event>): map<string, string> {
    if events == [] then map[]
    else
      var secrets, e := SecretsOf(events[..|events| - 1]), events[|events| - 1];
      if e.Setting? && IsSensitive(e.section, e.key) then secrets[SensitiveKey(e.section, e.key, e.nth) := e.value]
      else secrets
  }

  function Secret(values: map<string, string>, section: string, key: string, n: nat): string {
    MapGet(values, SensitiveKey(section, key, n))
  }

  lemma SensitiveKeyInjective(s: string, k: string, n: nat, s': string, k': string, n': nat)
    requires IsSensitive(s, k) && IsSensitive(s', k')
    requires SensitiveKey(s, k, n) == SensitiveKey(s', k', n')
    ensures Slot(s, k) == Slot(s', k') && n == n'
  {
    var a, b := Slot(s, k), Slot(s', k');
    var key := SensitiveKey(s, k, n);
    assert key == a + ("." + Decimal.Itoa(n)) && key == b + ("." + Decimal.Itoa(n'));
    SlotsDiffer(a, b, key);
    assert key[|a| + 1..] == Decimal.Itoa(n) && key[|b| + 1..] == Decimal.Itoa(n');
    Decimal.ItoaInjective(n, n');
  }

  lemma SlotsDiffer(a: string, b: string, key: string)
    requires SensitiveSlot(a) && SensitiveSlot(b) && a <= key && b <= key
    ensures a == b
  {
    assert a[0] == key[0] == b[0] && a[6] == key[6] == b[6];
  }

  lemma {:induction false} SecretsLookup(events: seq<Event>, section: string, key: string, n: nat)
    requires UniquelyNumbered(events) && IsSensitive(section, key)
    ensures Secret(SecretsOf(events), section, key, n) == NthValue(events, Slot(section, key), n)
  {
    if events != [] {
      var init, e := events[..|events| - 1], events[|events| - 1];
      assert events == init + [e];
      forall i, j | 0 <= i < j < |init|
        ensures !SameSetting(init[i], init[j])
      {
        assert !SameSetting(events[i], events[j]);
      }
      SecretsLookup(init, section, key, n);
      NthValueSnoc(init, e, Slot(section, key), n);
      if e.Setting? && IsSensitive(e.section, e.key)
          && SensitiveKey(e.section, e.key, e.nth) == SensitiveKey(section, key, n) {
        SensitiveKeyInjective(e.section, e.key, e.nth, section, key, n);
      }
    }
  }

  // This scanner counts sensitive settings only; on those it counts as the others do.
  ghost predicate CountAlike(occurrences: Counts, counts: Counts) {
    forall slot | SensitiveSlot(slot) :: Count(occurrences, slot) == Count(counts, slot)
  }

  lemma CountStep(occurrences: Counts, raw: string, ctx: Ctx)
    requires CountAlike(occurrences, ctx.counts)
    ensures match Classify(raw)
            case Directive(key, _) =>
              if IsSensitive(ctx.section, key) then
                var slot := Slot(ctx.section, key);
                CountAlike(Bump(occurrences, slot), After(raw, ctx).counts)
                    && Bump(occurrences, slot)[slot] == Nth(ctx, key)
              else CountAlike(occurrences, After(raw, ctx).counts)
            case _ => CountAlike(occurrences, After(raw, ctx).counts)
  {
  }

  method SensitiveValues(input: string) returns (values: map<string, string>)
    ensures values == SecretsOf(Events(input))
  {
    values := map[];
    var section := "";
    var occurrences: Counts := map[];
    var lines := Scan(input).lines;
    ghost var counts: Counts, done: seq<Event> := map[], [];
    for i := 0 to |lines|
      invariant done + EventsFrom(lines[i..], Ctx(section, counts)) == Events(input)
      invariant values == SecretsOf(done)
      invariant CountAlike(occurrences, counts)
    {
      ghost var ctx := Ctx(section, counts);
      EventsStep(done, lines, i, ctx);
      SecretsStep(done, lines[i], ctx);
      CountStep(occurrences, lines[i], ctx);
      done := done + EventsOf(lines[i], ctx);
      counts := After(lines[i], ctx).counts;
      var line := TrimSpace(lines[i]);
      if IsSkipped(line) {
        continue;
      }
      if IsHeader(line) {
        section := SectionName(line);
        continue;
      }
      var h := Cut(line, '=');
      if !h.found {
        continue;
      }
      var trimmedKey := KeyName(h.before);
      if !IsSensitive(section, trimmedKey) {
        continue;
      }
      var occurrenceKey := Slot(section, trimmedKey);
      occurrences := Bump(occurrences, occurrenceKey);
      values := values[SensitiveKey(section, trimmedKey, occurrences[occurrenceKey]) := TrimSpace(h.after)];
    }
    assert lines[|lines|..] == [] && done + [] == done;
  }

  // Looking a sensitive setting up by slot and number in the map finds its value.
  lemma SecretsOfText(input: string)
    ensures forall section, key, n | IsSensitive(section, key) ::
              Secret(SecretsOf(Events(input)), section, key, n) == NthValue(Events(input), Slot(section, key), n)
  {
    Numbered(input);
    forall section, key, n | IsSensitive(section, key)
      ensures Secret(SecretsOf(Events(input)), section, key, n) == NthValue(Events(input), Slot(section, key), n)
    {
      SecretsLookup(Events(input), section, key, n);
    }
  }

  lemma EventsStep(done: seq<Event>, lines: seq<string>, i: nat, ctx: Ctx)
    requires i < |lines|
    ensures done + EventsFrom(lines[i..], ctx) ==
            (done + EventsOf(lines[i], ctx)) + EventsFrom(lines[i + 1..], After(lines[i], ctx))
  {
    assert lines[i..][1..] == lines[i + 1..];
  }

  function WithSecret(secrets: map<string, string>, raw: string, ctx: Ctx): map<string, string> {
    match Classify(raw)
    case Directive(key, value) =>
      if IsSensitive(ctx.section, key) then secrets[SensitiveKey(ctx.section, key, Nth(ctx, key)) := value] else secrets
    case _ => secrets
  }

  lemma SecretsStep(done: seq<Event>, raw: string, ctx: Ctx)
    ensures SecretsOf(done + EventsOf(raw, ctx)) ==
            WithSecret(SecretsOf(done), raw, ctx)
  {
    var now := EventsOf(raw, ctx);
    if now == [] {
      assert done + now == done;
    } else {
      assert (done + now)[..|done + now| - 1] == done;
    }
  }

  // ------------------------------------------------------------- MergeRedactedConfig

  method MergeRedactedConfig(existing: string, submitted: string) returns (r: Result<string>)
    ensures r == Merge(existing, submitted)
  {
    var values := SensitiveValues(existing);
    SecretsOfText(existing);
    var replace: Replacer := (section: string, key: string, value: string, nth: nat) =>
      if !IsSensitive(section, key) || value != REDACTED then value
      else
        var existingValue := Secret(values, section, key, nth);
        if existingValue == "" then value else existingValue;
    var merged := TransformConfig(submitted, replace);
    TransformCongruent(submitted, replace, MergeWith(Events(existing)));
    if Contains(merged, "= " + REDACTED) || Contains(merged, "=" + REDACTED) {
      return Err(PlaceholderUnresolved);
    }
    return Ok(merged);
  }

  // ------------------------------------------------------------- printed values

  // Trimming a text removes nothing from a part that starts and ends with other characters.
  lemma TrimKeepsInner(p: string, w: string, q: string)
    requires w != "" && Trimmed(w)
    ensures Contains(TrimSpace(p + w + q), w)
  {
    hide TrimSpace, TrimLeft, TrimRight, Contains;
    var s := p + w + q;
    var a, b := TrimSplits(s);
    var m := TrimSpace(s);
    assert s[|p|] == w[0] && s[|p| + |w| - 1] == w[|w| - 1];
    assert |a| <= |p|;
    assert |p| + |w| <= |a| + |m|;
    var i := |p| - |a|;
    assert m[i..i + |w|] == s[|p|..|p| + |w|] == w;
    assert m == m[..i] + w + m[i + |w|..];
    ContainsFramed(m[..i], w, m[i + |w|..]);
  }

  lemma {:induction false} JoinHas(lines: seq<string>, i: nat) returns (p: string, q: string)
    requires i < |lines|
    ensures Join(lines, '\n') == p + lines[i] + q
  {
    if |lines| == 1 {
      p, q := "", "";
    } else if i == 0 {
      p, q := "", "\n" + Join(lines[1..], '\n');
    } else {
      var p', q' := JoinHas(lines[1..], i - 1);
      p, q := lines[0] + "\n" + p', q';
    }
  }

  lemma {:induction false} SettingIsPrinted(
      lines: seq<string>, ctx: Ctx, g: Replacer, e: Event) returns (i: nat, before: string)
    requires e in EventsFrom(lines, ctx) && e.Setting?
    ensures i < |lines| && RewriteFrom(lines, ctx, g)[i] == before + "= " + g(e.section, e.key, e.value, e.nth)
  {
    hide Classify, Cut, Nth;
    var now, rest := EventsOf(lines[0], ctx), EventsFrom(lines[1..], After(lines[0], ctx));
    assert EventsFrom(lines, ctx) == now + rest;
    if e in now {
      i, before := 0, Cut(lines[0], '=').before;
    } else {
      assert e in rest;
      var j, b := SettingIsPrinted(lines[1..], After(lines[0], ctx), g, e);
      i, before := j + 1, b;
      var tail := RewriteFrom(lines[1..], After(lines[0], ctx), g);
      assert RewriteFrom(lines, ctx, g) == [Rewrite(lines[0], ctx, g)] + tail;
      assert ([Rewrite(lines[0], ctx, g)] + tail)[j + 1] == tail[j];
    }
  }

  lemma ValueIsPrinted(x: string, g: Replacer, e: Event)
    requires e in Events(x) && e.Setting?
    requires var v := g(e.section, e.key, e.value, e.nth); Trimmed(v) && v != ""
    ensures Contains(Transform(x, g), "= " + g(e.section, e.key, e.value, e.nth))
  {
    hide RewriteFrom, EventsFrom, Contains, TrimLeft, TrimRight, TrimSpace, Join;
    var v := g(e.section, e.key, e.value, e.nth);
    var i, before := SettingIsPrinted(Scan(x).lines, START, g, e);
    var out := RewriteFrom(Scan(x).lines, START, g);
    var p, q := JoinHas(out, i);
    var w := "= " + v;
    assert Join(out, '\n') == (p + before) + w + q;
    TrimKeepsInner(p + before, w, q);
    var m := TrimSpace(Join(out, '\n'));
    assert Print(out) == "" + m + "\n";
    ContainsWider("", m, "\n", w);
  }

  // ------------------------------------------------------------- what a merge does

  lemma MergedReparses(existing: string, submitted: string)
    ensures Events(Merged(existing, submitted)) <= MapEvents(Events(submitted), MergeWith(Events(existing)))
    ensures FitsPrinted(submitted, MergeWith(Events(existing))) ==>
              Events(Merged(existing, submitted)) == MapEvents(Events(submitted), MergeWith(Events(existing)))
  {
    hide FitsPrinted;
    MergeIsTame(submitted, existing);
    TransformReparses(submitted, MergeWith(Events(existing)));
  }

  // A placeholder with no stored value to take makes the merge fail.
  lemma MergeRejectsUnresolved(existing: string, submitted: string, e: Event)
    requires e in Events(submitted) && e.Setting? && e.value == REDACTED
    requires !IsSensitive(e.section, e.key)
             || NthValue(Events(existing), Slot(e.section, e.key), e.nth) in ["", REDACTED]
    ensures Merge(existing, submitted) == Err(PlaceholderUnresolved)
  {
    ValueIsPrinted(submitted, MergeWith(Events(existing)), e);
  }

  // The merged text has the submitted sections and settings in the submitted order, as far
  // as its lines fit. Each sensitive placeholder, the k-th of its slot, has become the k-th
  // stored value of that slot; every other value is as submitted; no value is a placeholder.
  lemma MergeSpecification(existing: string, submitted: string)
    requires Merge(existing, submitted).Ok?
    ensures var before, after := Events(submitted), Events(Merge(existing, submitted).value);
            && |after| <= |before|
            && (forall i | 0 <= i < |after| :: IsMergeOf(after[i], before[i], Events(existing)))
            && (FitsPrinted(submitted, MergeWith(Events(existing))) ==> |after| == |before|)
  {
    hide FitsPrinted;
    MergedReparses(existing, submitted);
    ReplacedAsSpecified(existing, submitted);
  }

  lemma ReplacedAsSpecified(existing: string, submitted: string)
    requires Merge(existing, submitted).Ok?
    ensures forall e | e in Events(submitted) :: IsMergeOf(Mapped(e, MergeWith(Events(existing))), e, Events(existing))
  {
    var replace := MergeWith(Events(existing));
    forall e | e in Events(submitted)
      ensures IsMergeOf(Mapped(e, replace), e, Events(existing))
    {
      if e.Setting? && e.value == REDACTED && !IsMergeOf(Mapped(e, replace), e, Events(existing)) {
        MergeRejectsUnresolved(existing, submitted, e);
      }
    }
  }

  predicate IsMergeOf(after: Event, before: Event, stored: seq<Event>) {
    if !before.Setting? then after == before
    else
      && after.Setting?
      && after == before.(value := after.value)
      && after.value != REDACTED
      && if IsSensitive(before.section, before.key) && before.value == REDACTED then
           after.value == NthValue(stored, Slot(before.section, before.key), before.nth) && after.value != ""
         else after.value == before.value
  }

  // A merge is invisible through redaction exactly when the merged print survives.
  lemma MergeKeepsRedaction(existing: string, submitted: string)
    ensures Redact(Merged(existing, submitted)) == Redact(submitted) <==>
            SurvivesPrint(submitted, MergeWith(Events(existing)))
  {
    hide SurvivesPrint;
    var replace := MergeWith(Events(existing));
    MergeIsTame(submitted, existing);
    if SurvivesPrint(submitted, replace) {
      Fusion(submitted, REDACT, replace);
      TransformCongruent(submitted, Compose(REDACT, replace), REDACT);
    } else if Redact(Merged(existing, submitted)) == Redact(submitted) {
      RedactIsTame(submitted);
      RedactIsTame(Merged(existing, submitted));
      FusedOnlyIfSurvives(submitted, REDACT, replace, REDACT);
    }
  }

  // Merging a merged text again changes nothing exactly when the merged print survives.
  lemma MergeStable(existing: string, submitted: string)
    requires Merge(existing, submitted).Ok?
    ensures Merge(existing, Merge(existing, submitted).value) == Merge(existing, submitted) <==>
            SurvivesPrint(submitted, MergeWith(Events(existing)))
  {
    hide SurvivesPrint;
    var replace := MergeWith(Events(existing));
    MergeIsTame(submitted, existing);
    if SurvivesPrint(submitted, replace) {
      ReplacedOnce(existing, submitted);
      Fusion(submitted, replace, replace);
      TransformCongruent(submitted, Compose(replace, replace), replace);
    } else if Merged(existing, Merged(existing, submitted)) == Merged(existing, submitted) {
      MergeIsTame(Merged(existing, submitted), existing);
      FusedOnlyIfSurvives(submitted, replace, replace, replace);
    }
  }

  lemma ReplacedOnce(existing: string, submitted: string)
    requires Merge(existing, submitted).Ok?
    ensures var replace := MergeWith(Events(existing)); Agree(Events(submitted), Compose(replace, replace), replace)
  {
    var replace := MergeWith(Events(existing));
    ReplacedAsSpecified(existing, submitted);
    forall e | e in Events(submitted) && e.Setting?
      ensures Compose(replace, replace)(e.section, e.key, e.value, e.nth) == replace(e.section, e.key, e.value, e.nth)
    {
      assert IsMergeOf(Mapped(e, replace), e, Events(existing));
    }
  }

  // ------------------------------------------------------------- load, then save

  // Merging undoes redaction setting by setting.
  lemma MergeUndoesRedaction(stored: string)
    ensures Agree(Events(stored), Compose(MergeWith(Events(stored)), REDACT), IDENTITY)
  {
    Numbered(stored);
    forall e | e in Events(stored) && e.Setting?
      ensures Compose(MergeWith(Events(stored)), REDACT)(e.section, e.key, e.value, e.nth) == e.value
    {
      NthValueOf(Events(stored), e);
    }
  }

  // Saving the redacted text back gives the stored text, normalised, exactly when the
  // redacted print survives.
  lemma LoadSaveRestores(stored: string)
    ensures Merged(stored, Redact(stored)) == Normalise(stored) <==> SurvivesPrint(stored, REDACT)
  {
    hide SurvivesPrint;
    var replace := MergeWith(Events(stored));
    RedactIsTame(stored);
    if SurvivesPrint(stored, REDACT) {
      Fusion(stored, replace, REDACT);
      MergeUndoesRedaction(stored);
      TransformCongruent(stored, Compose(replace, REDACT), IDENTITY);
    } else if Merged(stored, Redact(stored)) == Normalise(stored) {
      IdentityIsTame(stored);
      MergeIsTame(Redact(stored), stored);
      FusedOnlyIfSurvives(stored, replace, REDACT, IDENTITY);
    }
  }

  // It succeeds with that exactly when, besides, the normalised text itself shows no
  // placeholder.
  lemma LoadSaveSucceeds(stored: string)
    ensures Merge(stored, Redact(stored)) == Ok(Normalise(stored)) <==>
            SurvivesPrint(stored, REDACT) && !HasPlaceholder(Normalise(stored))
  {
    hide SurvivesPrint, HasPlaceholder;
    LoadSaveRestores(stored);
  }

  // It leaves the text byte for byte as it is exactly when the text is normal already, its
  // redacted print survives, and it shows no placeholder.
  lemma LoadSaveUnchanged(stored: string)
    ensures Merge(stored, Redact(stored)) == Ok(stored) <==>
            Normalise(stored) == stored && SurvivesPrint(stored, REDACT) && !HasPlaceholder(stored)
  {
    hide SurvivesPrint, HasPlaceholder;
    LoadSaveRestores(stored);
    if Merged(stored, Redact(stored)) == stored {
      RedactIsTame(stored);
      MergeIsTame(Redact(stored), stored);
      RoundTripSurvives(stored, MergeWith(Events(stored)), REDACT);
    }
  }

  // What was saved loads as the same redacted text and is saved back byte for byte, exactly
  // when the normalised print survives.
  lemma SecondLoadSaveIsIdentity(stored: string)
    requires SurvivesPrint(stored, REDACT) && Merge(stored, Redact(stored)).Ok?
    ensures var saved := Merge(stored, Redact(stored)).value;
            Redact(saved) == Redact(stored) && Merge(saved, Redact(saved)) == Ok(saved) <==>
                SurvivesPrint(stored, IDENTITY)
  {
    hide SurvivesPrint, HasPlaceholder;
    LoadSaveRestores(stored);
    var saved := Normalise(stored);
    LoadSaveUnchanged(saved);
    NormaliseIdempotent(stored);
    if SurvivesPrint(stored, IDENTITY) {
      IdentityIsTame(stored);
      Fusion(stored, REDACT, IDENTITY);
      TransformCongruent(stored, Compose(REDACT, IDENTITY), REDACT);
      RedactIdempotent(stored);
      RedactIsTame(saved);
      RedactionSurvivesAgain(stored);
    }
  }

  // The redaction of a normalised text is the redaction of the text, which survives.
  lemma RedactionSurvivesAgain(stored: string)
    requires Redact(Normalise(stored)) == Redact(stored) && SurvivesPrint(stored, REDACT)
    ensures SurvivesPrint(Normalise(stored), REDACT)
  {
    hide SurvivesPrint;
    RedactIsTame(stored);
    RedactIsTame(Normalise(stored));
    ReprintableExactly(stored, REDACT);
    ReprintableExactly(Normalise(stored), REDACT);
  }

  // Normalising loses no setting but what stands after a line that does not fit any more.
  lemma NormaliseKeepsEvents(x: string)
    ensures Events(Normalise(x)) <= Events(x)
    ensures FitsPrinted(x, IDENTITY) ==> Events(Normalise(x)) == Events(x)
  {
    hide FitsPrinted;
    IdentityIsTame(x);
    TransformReparses(x, IDENTITY);
  }

  lemma MapEventsPrefix(a: seq<Event>, b: seq<Event>, g: Replacer)
    requires a <= b
    ensures MapEvents(a, g) <= MapEvents(b, g)
  {
    assert forall i | 0 <= i < |a| :: MapEvents(a, g)[i] == MapEvents(b, g)[i];
  }

  // Load and save: whatever is saved has the stored settings in their order, up to the first
  // line that does not fit. When all fit, the metadata is the same, and so is the verdict,
  // unless the stored text was refused for an over-long line of its own. A saved text with
  // an over-long line is refused.
  lemma LoadSaveKeepsMeaning(lib: Lib, stored: string)
    requires Merge(stored, Redact(stored)).Ok?
    ensures var saved := Merge(stored, Redact(stored)).value;
            && Events(saved) <= Events(stored)
            && (Scan(saved).tooLong ==> Validate(lib, saved).error.Some?)
            && (FitsPrinted(stored, REDACT) && !Scan(saved).tooLong ==>
                  && Meta(saved) == Meta(stored)
                  && (Validate(lib, saved) == Validate(lib, stored) <==>
                       Validate(lib, stored).error != Some(LineTooLong)))
  {
    hide FitsPrinted, HasPlaceholder, FirstError;
    var saved := Merged(stored, Redact(stored));
    SavedEvents(stored);
    NoLineTooLong(lib, Events(stored));
  }

  lemma SavedEvents(stored: string)
    ensures Events(Merged(stored, Redact(stored))) <= Events(stored)
    ensures FitsPrinted(stored, REDACT) && !Scan(Merged(stored, Redact(stored))).tooLong ==>
              Events(Merged(stored, Redact(stored))) == Events(stored)
  {
    hide FitsPrinted;
    var replace := MergeWith(Events(stored));
    RedactIsTame(stored);
    TransformReparses(stored, REDACT);
    MergeIsTame(Redact(stored), stored);
    TransformReparses(Redact(stored), replace);
    ReprintableExactly(Redact(stored), replace);
    MapEventsPrefix(Events(Redact(stored)), MapEvents(Events(stored), REDACT), replace);
    MergeUndoesRedaction(stored);
    assert MapEvents(MapEvents(Events(stored), REDACT), replace) == Events(stored) by {
      forall i | 0 <= i < |Events(stored)|
        ensures MapEvents(MapEvents(Events(stored), REDACT), replace)[i] == Events(stored)[i]
      {
        var e := Events(stored)[i];
        assert e in Events(stored);
        assert e.Setting? ==> Compose(replace, REDACT)(e.section, e.key, e.value, e.nth) == e.value;
      }
    }
  }

  // Only the scan itself reports an over-long line.
  lemma {:induction false} NoLineTooLong(lib: Lib, events: seq<Event>)
    ensures FirstError(lib, events) != Some(LineTooLong)
  {
    hide ValidKey, ValidPort, ValidEndpoint, Decimal.Atoi, CsvFields;
    if events != [] {
      NoLineTooLong(lib, events[1..]);
    }
  }

  // A text shows the placeholder where it stands behind an equals sign, with or without one
  // space between.
  lemma PlaceholderExactly(text: string)
    ensures HasPlaceholder(text) <==>
            (exists a, b :: text == a + "=***" + b) || (exists a, b :: text == a + "= ***" + b)
  {
    hide Contains;
    assert "= " + REDACTED == "= ***" && "=" + REDACTED == "=***";
    ContainsExactly(text, "= ***");
    ContainsExactly(text, "=***");
  }

  const KEY_SLOTS := {"interface.privatekey", "peer.publickey", "peer.presharedkey"}

  // What a scan shows of redacted text: of the settings of these three names no value but the
  // placeholder or nothing, and everything else as it was, to the first line that is too long.
  lemma RedactShows(x: string)
    ensures |Events(Redact(x))| <= |Events(x)|
    ensures FitsPrinted(x, REDACT) ==> |Events(Redact(x))| == |Events(x)|
    ensures forall i | 0 <= i < |Events(Redact(x))| ::
              var e := Events(x)[i];
              Events(Redact(x))[i] ==
              if e.Setting? && Slot(e.section, e.key) in KEY_SLOTS && e.value != "" then e.(value := "***") else e
  {
    hide Events, FitsPrinted, Redact, Slot, REDACT;
    RedactIsTame(x);
    assert Redact(x) == Transform(x, REDACT) by { RedactIsTransform(x); }
    TransformReparses(x, REDACT);
    var shown := MapEvents(Events(x), REDACT);
    forall i | 0 <= i < |Events(Redact(x))|
      ensures var e := Events(x)[i];
              Events(Redact(x))[i] ==
              if e.Setting? && Slot(e.section, e.key) in KEY_SLOTS && e.value != "" then e.(value := "***") else e
    {
      assert Events(Redact(x))[i] == shown[i] == Mapped(Events(x)[i], REDACT);
      RedactedEvent(Events(x)[i]);
    }
  }

  lemma RedactIsTransform(x: string)
    ensures Redact(x) == Transform(x, REDACT)
  {
  }

  lemma RedactedEvent(e: Event)
    ensures Mapped(e, REDACT) ==
            if e.Setting? && Slot(e.section, e.key) in KEY_SLOTS && e.value != "" then e.(value := "***") else e
  {
    hide Slot;
  }

  // So no key is left in it.
  lemma RedactHidesKeys(x: string)
    ensures forall e | e in Events(Redact(x)) && e.Setting? && Slot(e.section, e.key) in KEY_SLOTS ::
              e.value == "" || e.value == "***"
  {
    hide Events, FitsPrinted, Slot;
    RedactShows(x);
  }
}
