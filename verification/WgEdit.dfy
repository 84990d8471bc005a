/** Saving an edited page: when every key that was left as a placeholder comes back. */
module WgEdit {
  import opened Options
  import opened WgConfig
  import opened WgRescan
  import opened WgReprint
  import opened WgLaws
  import opened WgMerge

  // The sensitive settings among the events.
  function Keys(events: seq<Event>): (r: seq<Event>)
    ensures forall i | 0 <= i < |r| :: r[i] in events && r[i].Setting? && IsSensitive(r[i].section, r[i].key)
  {
    if events == [] then []
    else
      var rest := Keys(events[1..]);
      if events[0].Setting? && IsSensitive(events[0].section, events[0].key) then [events[0]] + rest else rest
  }

  // How many of the settings have this slot.
  function SlotCount(keys: seq<Event>, slot: string): nat {
    if keys == [] then 0
    else (if keys[0].Setting? && Slot(keys[0].section, keys[0].key) == slot then 1 else 0) + SlotCount(keys[1..], slot)
  }

  predicate SameSlot(a: Event, b: Event) {
    a.Setting? && b.Setting? && Slot(a.section, a.key) == Slot(b.section, b.key)
  }

  predicate SameSlots(a: seq<Event>, b: seq<Event>) {
    && |a| == |b|
    && forall i | 0 <= i < |a| :: SameSlot(a[i], b[i])
  }

  lemma {:induction false} KeysAppend(a: seq<Event>, b: seq<Event>)
    ensures Keys(a + b) == Keys(a) + Keys(b)
  {
    if a == [] {
      assert a + b == b;
    } else {
      assert (a + b)[1..] == a[1..] + b;
      KeysAppend(a[1..], b);
    }
  }

  lemma CountCons(e: Event, keys: seq<Event>, i: nat, slot: string)
    requires 1 <= i <= |keys| + 1
    ensures SlotCount(([e] + keys)[..i], slot) ==
            (if e.Setting? && Slot(e.section, e.key) == slot then 1 else 0) + SlotCount(keys[..i - 1], slot)
  {
    assert ([e] + keys)[..i] == [e] + keys[..i - 1];
    assert ([e] + keys[..i - 1])[1..] == keys[..i - 1];
  }

  lemma KeysCons(e: Event, events: seq<Event>)
    ensures Keys([e] + events) == (if e.Setting? && IsSensitive(e.section, e.key) then [e] else []) + Keys(events)
  {
    hide IsSensitive;
    assert ([e] + events)[1..] == events;
  }

  predicate NumberedFromCounts(keys: seq<Event>, counts: Counts) {
    forall i | 0 <= i < |keys| ::
      && keys[i].Setting?
      && keys[i].nth == Count(counts, Slot(keys[i].section, keys[i].key))
                        + SlotCount(keys[..i], Slot(keys[i].section, keys[i].key)) + 1
  }

  lemma NumberedCons(e: Event, keys: seq<Event>, counts: Counts)
    requires e.Setting? && e.nth == Count(counts, Slot(e.section, e.key)) + 1
    requires NumberedFromCounts(keys, Bump(counts, Slot(e.section, e.key)))
    ensures NumberedFromCounts([e] + keys, counts)
  {
    hide Slot;
    var all := [e] + keys;
    forall i | 0 <= i < |all|
      ensures all[i].Setting?
      ensures all[i].nth == Count(counts, Slot(all[i].section, all[i].key))
                            + SlotCount(all[..i], Slot(all[i].section, all[i].key)) + 1
    {
      if i > 0 {
        assert all[i] == keys[i - 1];
        CountCons(e, keys, i, Slot(all[i].section, all[i].key));
      }
    }
  }

  lemma NumberedDespite(keys: seq<Event>, counts: Counts, slot: string)
    requires NumberedFromCounts(keys, Bump(counts, slot)) && !SensitiveSlot(slot)
    requires forall i | 0 <= i < |keys| :: keys[i].Setting? && IsSensitive(keys[i].section, keys[i].key)
    ensures NumberedFromCounts(keys, counts)
  {
    hide Slot, SlotCount;
  }

  // Each sensitive setting is numbered by those of its slot before it.
  lemma {:induction false} KeysNumbered(lines: seq<string>, ctx: Ctx)
    ensures NumberedFromCounts(Keys(EventsFrom(lines, ctx)), ctx.counts)
    decreases |lines|
  {
    hide NumberedFromCounts, Classify, Keys, SensitiveSlot;
    if lines == [] {
      NothingNumbered(ctx.counts);
    } else {
      var now, rest := EventsOf(lines[0], ctx), EventsFrom(lines[1..], After(lines[0], ctx));
      KeysNumbered(lines[1..], After(lines[0], ctx));
      if Classify(lines[0]).Directive? {
        KeysCons(now[0], rest);
        var slot := Slot(now[0].section, now[0].key);
        if IsSensitive(now[0].section, now[0].key) {
          NumberedCons(now[0], Keys(rest), ctx.counts);
        } else {
          NumberedDespite(Keys(rest), ctx.counts, slot);
          assert [] + Keys(rest) == Keys(rest);
        }
      } else if now == [] {
        assert now + rest == rest;
      } else {
        KeysCons(now[0], rest);
        assert [] + Keys(rest) == Keys(rest);
      }
    }
  }

  lemma NothingNumbered(counts: Counts)
    ensures NumberedFromCounts(Keys([]), counts)
  {
  }

  lemma {:induction false} CountsBySlots(a: seq<Event>, b: seq<Event>, slot: string)
    requires SameSlots(a, b)
    ensures SlotCount(a, slot) == SlotCount(b, slot)
  {
    if a != [] {
      CountsBySlots(a[1..], b[1..], slot);
    }
  }

  // Texts with the same sensitive slots in the same order number them alike.
  lemma SameNumbers(x: string, y: string, i: nat)
    requires SameSlots(Keys(Events(x)), Keys(Events(y))) && i < |Keys(Events(x))|
    ensures Keys(Events(x))[i].nth == Keys(Events(y))[i].nth
  {
    hide EventsFrom, Keys;
    var a, b := Keys(Events(x)), Keys(Events(y));
    KeysNumbered(Scan(x).lines, START);
    KeysNumbered(Scan(y).lines, START);
    CountsBySlots(a[..i], b[..i], Slot(a[i].section, a[i].key));
  }

  lemma {:induction false} KeysMapped(events: seq<Event>, g: Replacer)
    ensures Keys(MapEvents(events, g)) == MapEvents(Keys(events), g)
  {
    hide IsSensitive, Keys;
    if events == [] {
      NoKeys(g);
    } else {
      var e, rest := events[0], events[1..];
      KeysMapped(rest, g);
      assert events == [e] + rest;
      KeysCons(e, rest);
      KeysCons(Mapped(e, g), MapEvents(rest, g));
      assert [] + Keys(rest) == Keys(rest) && [] + Keys(MapEvents(rest, g)) == Keys(MapEvents(rest, g));
      assert ([e] + Keys(rest))[1..] == Keys(rest);
    }
  }

  lemma NoKeys(g: Replacer)
    ensures Keys(MapEvents([], g)) == MapEvents(Keys([]), g)
  {
  }

  lemma {:induction false} KeysHave(events: seq<Event>, e: Event)
    requires e in events && e.Setting? && IsSensitive(e.section, e.key)
    ensures e in Keys(events)
  {
    hide IsSensitive;
    if events[0] != e {
      KeysHave(events[1..], e);
    }
  }

  lemma KeysPrefix(a: seq<Event>, b: seq<Event>)
    requires a <= b
    ensures Keys(a) <= Keys(b)
  {
    hide Keys;
    assert b == a + b[|a|..];
    KeysAppend(a, b[|a|..]);
  }

  // ------------------------------------------------------------- one placeholder

  predicate IsPlaceholder(e: Event) {
    e.Setting? && IsSensitive(e.section, e.key) && e.value == REDACTED
  }

  // What a placeholder is filled with is the stored value at its own number, so it comes
  // back as a given stored value exactly when that is the value there.
  lemma FilledExactly(existing: string, submitted: string, t: Event, s: Event)
    requires Merge(existing, submitted).Ok?
    requires t in Events(submitted) && IsPlaceholder(t) && SameSlot(t, s)
    ensures Mapped(t, MergeWith(Events(existing))).value == s.value <==>
            exists u :: u in Events(existing) && SameSetting(u, t) && u.value == s.value
  {
    hide Events, NthValue, HasPlaceholder, Slot;
    var stored, slot := Events(existing), Slot(t.section, t.key);
    ReplacedAsSpecified(existing, submitted);
    assert IsMergeOf(Mapped(t, MergeWith(stored)), t, stored);
    NthValueFound(stored, slot, t.nth);
    Numbered(existing);
    if u :| u in stored && SameSetting(u, t) && u.value == s.value {
      NthValueOf(stored, u);
    }
  }

  // ------------------------------------------------------------- a whole edit

  // For each sensitive setting of the text sent back, the stored one whose placeholder was
  // left there, or None where something was typed in.
  type Edit = seq<Option<nat>>

  predicate IsEdit(edit: Edit, stored: seq<Event>, typed: seq<Event>) {
    && |edit| == |typed|
    && forall i | 0 <= i < |edit| && edit[i].Some? ::
         edit[i].value < |stored| && IsPlaceholder(typed[i]) && SameSlot(typed[i], stored[edit[i].value])
  }

  // The placeholder has the number the stored setting has, or that of another one of its
  // slot with the same value.
  predicate NumberFits(stored: seq<Event>, t: Event, s: Event)
    requires SameSlot(t, s)
  {
    t.nth == s.nth || exists k | 0 <= k < |stored| :: SameSetting(stored[k], t) && stored[k].value == s.value
  }

  // What was saved, setting by setting.
  lemma SavedKeys(existing: string, submitted: string)
    requires Merge(existing, submitted).Ok?
    ensures var typed, saved := Keys(Events(submitted)), Keys(Events(Merge(existing, submitted).value));
            && |saved| <= |typed|
            && (FitsPrinted(submitted, MergeWith(Events(existing))) ==> |saved| == |typed|)
            && forall i | 0 <= i < |saved| :: saved[i] == Mapped(typed[i], MergeWith(Events(existing)))
  {
    hide Events, Keys, FitsPrinted, HasPlaceholder;
    var replace := MergeWith(Events(existing));
    MergedReparses(existing, submitted);
    KeysMapped(Events(submitted), replace);
    KeysPrefix(Events(Merged(existing, submitted)), MapEvents(Events(submitted), replace));
  }

  // The i-th sensitive setting, if it was left as a placeholder, is saved with the value it
  // showed exactly when its number fits.
  lemma KeyKeptExactly(existing: string, submitted: string, edit: Edit, i: nat)
    requires Merge(existing, submitted).Ok? && IsEdit(edit, Keys(Events(existing)), Keys(Events(submitted)))
    requires i < |edit| && edit[i].Some?
    ensures var stored, t := Keys(Events(existing)), Keys(Events(submitted))[i];
            Mapped(t, MergeWith(Events(existing))).value == stored[edit[i].value].value <==>
            NumberFits(stored, t, stored[edit[i].value])
  {
    hide Events, Keys, MergeWith, HasPlaceholder, Slot, SensitiveSlot;
    var stored, t := Keys(Events(existing)), Keys(Events(submitted))[i];
    var s := stored[edit[i].value];
    FilledExactly(existing, submitted, t, s);
    if t.nth == s.nth {
      assert s in Events(existing) && SameSetting(s, t);
    }
    if u :| u in Events(existing) && SameSetting(u, t) && u.value == s.value {
      KeysHave(Events(existing), u);
      var k :| 0 <= k < |stored| && stored[k] == u;
    }
    if k :| 0 <= k < |stored| && SameSetting(stored[k], t) && stored[k].value == s.value {
      assert stored[k] in Events(existing);
    }
  }

  ghost predicate AllKept(edit: Edit, stored: seq<Event>, saved: seq<Event>)
    requires |saved| <= |edit|
  {
    forall i | 0 <= i < |saved| && edit[i].Some? ::
      edit[i].value < |stored| && saved[i].Setting? && stored[edit[i].value].Setting?
      && saved[i].value == stored[edit[i].value].value
  }

  ghost predicate AllNumbersFit(edit: Edit, stored: seq<Event>, typed: seq<Event>, n: nat)
    requires IsEdit(edit, stored, typed) && n <= |edit|
  {
    forall i | 0 <= i < n && edit[i].Some? :: NumberFits(stored, typed[i], stored[edit[i].value])
  }

  // After an edit every key that was left as a placeholder has the value it had exactly when,
  // slot by slot, each one's number is unchanged or that number's stored value is the same.
  // (A number is given by the settings of the slot before it: KeysNumbered.)
  lemma EditKeepsExactly(existing: string, submitted: string, edit: Edit)
    requires Merge(existing, submitted).Ok? && IsEdit(edit, Keys(Events(existing)), Keys(Events(submitted)))
    ensures var stored, typed := Keys(Events(existing)), Keys(Events(submitted));
            var saved := Keys(Events(Merge(existing, submitted).value));
            && |saved| <= |typed|
            && (FitsPrinted(submitted, MergeWith(Events(existing))) ==> |saved| == |typed|)
            && (AllKept(edit, stored, saved) <==> AllNumbersFit(edit, stored, typed, |saved|))
  {
    hide Events, Keys, MergeWith, HasPlaceholder, FitsPrinted, NumberFits, IsSensitive, Merge;
    var stored, typed := Keys(Events(existing)), Keys(Events(submitted));
    var saved := Keys(Events(Merge(existing, submitted).value));
    SavedKeys(existing, submitted);
    forall i | 0 <= i < |saved| && edit[i].Some?
      ensures saved[i].value == stored[edit[i].value].value <==> NumberFits(stored, typed[i], stored[edit[i].value])
    {
      KeyKeptExactly(existing, submitted, edit, i);
    }
  }

  // In particular an edit that adds, removes and reorders no sensitive setting loses no key:
  // after the save each one has its stored value, or the new one where one was typed in.
  lemma EditKeepsKeys(existing: string, submitted: string, i: nat)
    requires Merge(existing, submitted).Ok? && FitsPrinted(submitted, MergeWith(Events(existing)))
    requires SameSlots(Keys(Events(submitted)), Keys(Events(existing))) && i < |Keys(Events(submitted))|
    ensures var stored, typed := Keys(Events(existing)), Keys(Events(submitted));
            var saved := Keys(Events(Merge(existing, submitted).value));
            && SameSlots(saved, stored)
            && saved[i].value == if typed[i].value == REDACTED then stored[i].value else typed[i].value
  {
    hide Events, Keys, HasPlaceholder, FitsPrinted, NthValue, Merge;
    var stored, typed := Keys(Events(existing)), Keys(Events(submitted));
    SavedKeys(existing, submitted);
    if typed[i].value == REDACTED {
      var edit: Edit := seq(|typed|, k requires 0 <= k < |typed| => if k == i then Some(k) else None);
      SameNumbers(submitted, existing, i);
      KeyKeptExactly(existing, submitted, edit, i);
    }
  }
}
