/** Printing configuration lines and scanning the print again: which lines come back,
    what they are classified as, and what a second scan therefore computes. */
module WgRescan {
  import opened Text
  import opened WgConfig

  // ------------------------------------------------------------- one directive line

  lemma {:induction false} TrimLeftStops(s: string, c: char, t: string)
    requires !IsSpace(c)
    ensures TrimLeft(s + [c] + t) == TrimLeft(s) + [c] + t
  {
    if s != "" && IsSpace(s[0]) {
      assert (s + [c] + t)[1..] == s[1..] + [c] + t;
      TrimLeftStops(s[1..], c, t);
    }
  }

  lemma {:induction false} TrimRightStops(s: string, c: char, t: string)
    requires !IsSpace(c)
    ensures TrimRight(s + [c] + t) == s + [c] + TrimRight(t)
  {
    var w := s + [c] + t;
    if t != "" && IsSpace(t[|t| - 1]) {
      assert w[..|w| - 1] == s + [c] + t[..|t| - 1];
      TrimRightStops(s, c, t[..|t| - 1]);
    }
  }

  lemma DirectiveTrims(before: string, after: string)
    ensures TrimSpace(before + ['='] + after) == TrimLeft(before) + ['='] + TrimRight(after)
  {
    TrimLeftStops(before, '=', after);
    TrimRightStops(TrimLeft(before), '=', after);
  }

  // The first and last characters decide whether the line is a comment or a header; they
  // can be read off the key and the value.
  lemma DirectiveEdges(before: string, after: string)
    ensures var line := TrimSpace(before + ['='] + after);
            && line != ""
            && (line[0] == if KeyName(before) == "" then '=' else TrimSpace(before)[0])
            && (line[|line| - 1] == if TrimSpace(after) == "" then '=' else TrimSpace(after)[|TrimSpace(after)| - 1])
  {
    DirectiveTrims(before, after);
    var k := TrimLeft(before);
    TrimLeftSplits(before);
    TrimRightSplits(k);
    TrimsCommute(after);
    var v := TrimRight(after);
    TrimLeftSplits(v);
    TrimRightSplits(after);
  }

  predicate MakesHeader(key: string, value: string) {
    key != "" && key[0] == '[' && value != "" && value[|value| - 1] == ']'
  }

  // A value that may be written in place of another without changing what the line is.
  predicate Plain(key: string, value: string) {
    Trimmed(value) && '\n' !in value && !MakesHeader(key, value)
  }

  lemma LowerFirst(s: string, c: char)
    requires s != "" && (c == '[' || c == '#' || c == ';')
    ensures ToLower(s)[0] == c <==> s[0] == c
  {
  }

  lemma ClassifyCut(before: string, after: string)
    requires '=' !in before
    ensures var raw := before + ['='] + after;
            && (Classify(raw).Directive? <==>
                !(KeyName(before) != "" && KeyName(before)[0] in "#;")
                    && !MakesHeader(KeyName(before), TrimSpace(after)))
            && (Classify(raw).Directive? ==> Classify(raw) == Directive(KeyName(before), TrimSpace(after)))
            && Cut(raw, '=') == Halves(before, after, true)
  {
    var raw := before + ['='] + after;
    CutJoined(before, '=', after);
    RawCut(raw);
    DirectiveEdges(before, after);
    var line := TrimSpace(raw);
    var key := KeyName(before);
    if key != "" {
      LowerFirst(TrimSpace(before), '[');
      LowerFirst(TrimSpace(before), '#');
      LowerFirst(TrimSpace(before), ';');
    }
    assert HasPrefix(line, "#") <==> line[0] == '#';
    assert HasPrefix(line, ";") <==> line[0] == ';';
    assert HasPrefix(line, "[") <==> line[0] == '[';
    assert HasSuffix(line, "]") <==> line[|line| - 1] == ']';
  }

  // A directive printed with a plain value is read back as the same directive with that
  // value, and its key text is unchanged.
  lemma PrintedDirective(raw: string, value: string)
    requires Classify(raw).Directive? && Plain(Classify(raw).key, value)
    ensures Classify(WithValue(raw, value)) == Directive(Classify(raw).key, value)
    ensures Cut(WithValue(raw, value), '=').before == Cut(raw, '=').before
    ensures !EndsInCR(WithValue(raw, value))
    ensures '\n' !in raw ==> '\n' !in WithValue(raw, value)
  {
    RawCut(raw);
    var h := Cut(raw, '=');
    ClassifyCut(h.before, h.after);
    PrintedCut(h.before, value);
  }

  lemma PrintedCut(before: string, value: string)
    requires '=' !in before && Trimmed(value)
    ensures var raw := before + "= " + value;
            && (Classify(raw).Directive? <==>
                !(KeyName(before) != "" && KeyName(before)[0] in "#;") && !MakesHeader(KeyName(before), value))
            && (Classify(raw).Directive? ==> Classify(raw) == Directive(KeyName(before), value))
            && Cut(raw, '=').before == before
            && !EndsInCR(raw)
  {
    var after := " " + value;
    var raw := before + "= " + value;
    assert raw == before + ['='] + after;
    assert after == " " + value + "";
    TrimFramed(" ", value, "");
    ClassifyCut(before, after);
    assert raw[|raw| - 1] == if value == "" then ' ' else value[|value| - 1];
  }

  // ------------------------------------------------------------- events under rewriting

  function Mapped(e: Event, replace: Replacer): Event {
    if e.Setting? then e.(value := replace(e.section, e.key, e.value, e.nth)) else e
  }

  function MapEvents(events: seq<Event>, replace: Replacer): (r: seq<Event>)
    ensures |r| == |events|
    ensures forall i | 0 <= i < |events| :: r[i] == Mapped(events[i], replace)
  {
    if events == [] then [] else [Mapped(events[0], replace)] + MapEvents(events[1..], replace)
  }

  // On every setting of the text the replacer returns a plain value.
  predicate Tame(events: seq<Event>, replace: Replacer) {
    forall e | e in events && e.Setting? :: Plain(e.key, replace(e.section, e.key, e.value, e.nth))
  }

  function Compose(f: Replacer, g: Replacer): Replacer {
    (section: string, key: string, value: string, nth: nat) => f(section, key, g(section, key, value, nth), nth)
  }

  lemma TameHead(lines: seq<string>, ctx: Ctx, g: Replacer)
    requires lines != [] && Tame(EventsFrom(lines, ctx), g)
    ensures Tame(EventsOf(lines[0], ctx), g)
    ensures Tame(EventsFrom(lines[1..], After(lines[0], ctx)), g)
    ensures Classify(lines[0]).Directive? ==>
              var key := Classify(lines[0]).key;
              Plain(key, g(ctx.section, key, Classify(lines[0]).value, Nth(ctx, key)))
  {
    var now, rest := EventsOf(lines[0], ctx), EventsFrom(lines[1..], After(lines[0], ctx));
    assert EventsFrom(lines, ctx) == now + rest;
    if Classify(lines[0]).Directive? {
      assert now[0] in now;
    }
  }

  lemma RewriteLine(raw: string, ctx: Ctx, f: Replacer, g: Replacer)
    requires Tame(EventsOf(raw, ctx), g)
    ensures var raw' := Rewrite(raw, ctx, g);
            && EventsOf(raw', ctx) == MapEvents(EventsOf(raw, ctx), g)
            && After(raw', ctx) == After(raw, ctx)
            && Rewrite(raw', ctx, f) == Rewrite(raw, ctx, Compose(f, g))
  {
    if Classify(raw).Directive? {
      var key := Classify(raw).key;
      var e := Setting(ctx.section, key, Classify(raw).value, Nth(ctx, key));
      assert e in EventsOf(raw, ctx);
      PrintedDirective(raw, g(e.section, e.key, e.value, e.nth));
    }
  }

  lemma {:induction false} RewriteReplays(lines: seq<string>, ctx: Ctx, f: Replacer, g: Replacer)
    requires Tame(EventsFrom(lines, ctx), g)
    ensures EventsFrom(RewriteFrom(lines, ctx, g), ctx) == MapEvents(EventsFrom(lines, ctx), g)
    ensures RewriteFrom(RewriteFrom(lines, ctx, g), ctx, f) == RewriteFrom(lines, ctx, Compose(f, g))
  {
    if lines != [] {
      var now, rest := EventsOf(lines[0], ctx), EventsFrom(lines[1..], After(lines[0], ctx));
      assert EventsFrom(lines, ctx) == now + rest;
      RewriteLine(lines[0], ctx, f, g);
      RewriteReplays(lines[1..], After(lines[0], ctx), f, g);
      assert RewriteFrom(lines, ctx, g)[1..] == RewriteFrom(lines[1..], After(lines[0], ctx), g);
      assert MapEvents(now + rest, g) == MapEvents(now, g) + MapEvents(rest, g);
    }
  }

  // Two replacers that agree on the settings of a text rewrite it alike.
  predicate Agree(events: seq<Event>, f: Replacer, g: Replacer) {
    forall e | e in events && e.Setting? ::
      f(e.section, e.key, e.value, e.nth) == g(e.section, e.key, e.value, e.nth)
  }

  lemma {:induction false} RewriteCongruent(lines: seq<string>, ctx: Ctx, f: Replacer, g: Replacer)
    requires Agree(EventsFrom(lines, ctx), f, g)
    ensures RewriteFrom(lines, ctx, f) == RewriteFrom(lines, ctx, g)
  {
    if lines != [] {
      var now, rest := EventsOf(lines[0], ctx), EventsFrom(lines[1..], After(lines[0], ctx));
      assert EventsFrom(lines, ctx) == now + rest;
      if Classify(lines[0]).Directive? {
        var key := Classify(lines[0]).key;
        assert Setting(ctx.section, key, Classify(lines[0]).value, Nth(ctx, key)) in now;
      }
      RewriteCongruent(lines[1..], After(lines[0], ctx), f, g);
    }
  }

  lemma TransformCongruent(x: string, f: Replacer, g: Replacer)
    requires Agree(Events(x), f, g)
    ensures Transform(x, f) == Transform(x, g)
  {
    RewriteCongruent(Scan(x).lines, START, f, g);
  }

  // ------------------------------------------------------------- the printed lines

  // Leading blank lines and the indentation of the first other line are lost.
  function CoreLeft(lines: seq<string>): seq<string> {
    if lines == [] then []
    else if TrimSpace(lines[0]) == "" then CoreLeft(lines[1..])
    else [TrimLeft(lines[0])] + lines[1..]
  }

  // Trailing blank lines and the white space ending the last other line are lost.
  function CoreRight(lines: seq<string>): seq<string> {
    if lines == [] then []
    else
      var rest := CoreRight(lines[1..]);
      if rest != [] then [lines[0]] + rest
      else if TrimSpace(lines[0]) == "" then []
      else [TrimRight(lines[0])]
  }

  // The lines a scanner finds in Print(lines).
  function Core(lines: seq<string>): (core: seq<string>)
    ensures core != []
  {
    var core := CoreRight(CoreLeft(lines));
    if core == [] then [""] else core
  }

  lemma BlankIsSpace(line: string)
    ensures TrimSpace(line) == "" <==> AllSpace(line)
    ensures TrimSpace(line) == "" ==> Classify(line) == Skipped
  {
    var a, b := TrimSplits(line);
    if AllSpace(line) {
      assert line == line + "" + "";
      TrimFramed(line, "", "");
    }
  }

  lemma TrimRightAppend(p: string, q: string)
    ensures TrimRight(p + q) == if TrimRight(q) == "" then TrimRight(p) else p + TrimRight(q)
  {
    TrimRightSplits(q);
    if TrimRight(q) == "" {
      TrimRightFramed(p, q);
    } else {
      var r := TrimRight(q);
      assert p + q == (p + r) + q[|r|..];
      TrimRightFramed(p + r, q[|r|..]);
    }
  }

  lemma TrimLeftAppend(p: string, q: string)
    ensures TrimLeft(p + q) == if TrimLeft(p) == "" then TrimLeft(q) else TrimLeft(p) + q
  {
    TrimLeftSplits(p);
    var l := TrimLeft(p);
    assert p == p[..|p| - |l|] + l;
    if l == "" {
      TrimLeftFramed(p, q);
    } else {
      assert p + q == p[..|p| - |l|] + (l + q);
      TrimLeftFramed(p[..|p| - |l|], l + q);
    }
  }

  lemma BlankTrims(line: string)
    ensures TrimSpace(line) == "" <==> TrimLeft(line) == ""
    ensures TrimSpace(line) == "" <==> TrimRight(line) == ""
  {
    BlankIsSpace(line);
    TrimLeftSplits(line);
    TrimRightSplits(line);
    if AllSpace(line) {
      assert line == line + "" && line == "" + line;
      TrimLeftFramed(line, "");
      TrimRightFramed("", line);
    }
  }

  // Join of a non-empty list, one line at a time.
  lemma JoinCons(line: string, rest: seq<string>)
    ensures Join([line] + rest, '\n') == if rest == [] then line else line + ("\n" + Join(rest, '\n'))
  {
    assert ([line] + rest)[1..] == rest;
  }

  lemma TrimLeftNewline(s: string)
    ensures TrimLeft("\n" + s) == TrimLeft(s)
    ensures TrimRight("\n" + s) == if TrimRight(s) == "" then "" else "\n" + TrimRight(s)
  {
    TrimLeftFramed("\n", s);
    TrimRightAppend("\n", s);
    assert "\n" == "" + "\n";
    TrimRightFramed("", "\n");
  }

  lemma {:induction false} JoinCoreLeft(lines: seq<string>)
    ensures TrimLeft(Join(lines, '\n')) == Join(CoreLeft(lines), '\n')
  {
    if lines != [] {
      var line, rest := lines[0], lines[1..];
      assert lines == [line] + rest;
      JoinCons(line, rest);
      BlankTrims(line);
      JoinCoreLeft(rest);
      JoinCons(TrimLeft(line), rest);
      if rest != [] {
        TrimLeftAppend(line, "\n" + Join(rest, '\n'));
        TrimLeftNewline(Join(rest, '\n'));
      }
    }
  }

  lemma {:induction false} JoinCoreRight(lines: seq<string>)
    ensures TrimRight(Join(lines, '\n')) == Join(CoreRight(lines), '\n')
    ensures CoreRight(lines) == [] <==> Join(CoreRight(lines), '\n') == ""
  {
    if lines != [] {
      var line, rest := lines[0], lines[1..];
      assert lines == [line] + rest;
      JoinCons(line, rest);
      BlankTrims(line);
      JoinCoreRight(rest);
      JoinCons(line, CoreRight(rest));
      if rest != [] {
        TrimRightAppend(line, "\n" + Join(rest, '\n'));
        TrimLeftNewline(Join(rest, '\n'));
      }
    }
  }

  lemma PrintIsCore(lines: seq<string>)
    ensures Print(lines) == Join(Core(lines), '\n') + "\n"
  {
    JoinCoreLeft(lines);
    JoinCoreRight(CoreLeft(lines));
  }

  // ------------------------------------------------------------- scanning the print

  predicate NoBreaks(lines: seq<string>) {
    forall i | 0 <= i < |lines| :: '\n' !in lines[i]
  }

  predicate NoCR(lines: seq<string>) {
    forall i | 0 <= i < |lines| :: !EndsInCR(lines[i])
  }

  lemma {:induction false} VisibleLines(tokens: seq<string>)
    requires NoBreaks(tokens)
    ensures NoBreaks(Visible(tokens).lines)
    ensures !Visible(tokens).tooLong && NoCR(tokens) ==> Visible(tokens).lines == tokens
  {
    if tokens != [] {
      VisibleLines(tokens[1..]);
    }
  }

  lemma ScanHasNoBreaks(x: string)
    ensures NoBreaks(Scan(x).lines)
  {
    VisibleLines(Tokens(x));
  }

  // A text that a scanner sees whole: no line over its limit, and none that ends in a CR
  // for it to drop.
  predicate Reprintable(text: string) {
    !Scan(text).tooLong && NoCR(Tokens(text))
  }

  lemma {:induction false} CoreLeftLines(lines: seq<string>)
    ensures NoBreaks(lines) ==> NoBreaks(CoreLeft(lines))
    ensures NoCR(lines) ==> NoCR(CoreLeft(lines))
  {
    if lines != [] {
      CoreLeftLines(lines[1..]);
      var l := TrimLeft(lines[0]);
      TrimLeftSplits(lines[0]);
      assert l != "" ==> l[|l| - 1] == lines[0][|lines[0]| - 1];
    }
  }

  lemma {:induction false} CoreRightLines(lines: seq<string>)
    ensures NoBreaks(lines) ==> NoBreaks(CoreRight(lines))
    ensures NoCR(lines) ==> NoCR(CoreRight(lines))
  {
    if lines != [] {
      CoreRightLines(lines[1..]);
      TrimRightSplits(lines[0]);
    }
  }

  lemma CoreLines(lines: seq<string>)
    ensures NoBreaks(lines) ==> NoBreaks(Core(lines))
    ensures NoCR(lines) ==> NoCR(Core(lines))
  {
    CoreLeftLines(lines);
    CoreRightLines(CoreLeft(lines));
  }

  lemma TokensPrint(lines: seq<string>)
    requires NoBreaks(lines)
    ensures Tokens(Print(lines)) == Core(lines)
  {
    CoreLines(lines);
    PrintIsCore(lines);
    var core := Core(lines);
    JoinAppend(core, [""], '\n');
    SplitJoin(core + [""], '\n');
    assert Print(lines) == Join(core + [""], '\n');
  }

  // Scanning a print gives back its core lines.
  lemma ScanPrint(lines: seq<string>)
    requires NoBreaks(lines) && Reprintable(Print(lines))
    ensures Scan(Print(lines)).lines == Core(lines)
  {
    TokensPrint(lines);
    CoreLines(lines);
    VisibleLines(Core(lines));
  }

  lemma {:induction false} RewriteKeepsShape(lines: seq<string>, ctx: Ctx, g: Replacer)
    requires Tame(EventsFrom(lines, ctx), g)
    ensures NoBreaks(lines) ==> NoBreaks(RewriteFrom(lines, ctx, g))
    ensures NoCR(lines) ==> NoCR(RewriteFrom(lines, ctx, g))
  {
    if lines != [] {
      TameHead(lines, ctx, g);
      RewriteKeepsShape(lines[1..], After(lines[0], ctx), g);
      RewriteKeepsLine(lines[0], ctx, g);
    }
  }

  lemma RewriteKeepsLine(raw: string, ctx: Ctx, g: Replacer)
    requires Classify(raw).Directive? ==>
               Plain(Classify(raw).key,
                   g(ctx.section, Classify(raw).key, Classify(raw).value, Nth(ctx, Classify(raw).key)))
    ensures '\n' !in raw ==> '\n' !in Rewrite(raw, ctx, g)
    ensures EndsInCR(Rewrite(raw, ctx, g)) ==> Rewrite(raw, ctx, g) == raw
  {
    if Classify(raw).Directive? {
      PrintedDirective(raw, g(ctx.section, Classify(raw).key, Classify(raw).value, Nth(ctx, Classify(raw).key)));
    }
  }

  // ------------------------------------------------------------- trimming is invisible

  lemma SameTrimSameClass(a: string, b: string)
    requires TrimSpace(a) == TrimSpace(b)
    ensures Classify(a) == Classify(b)
  {
  }

  lemma TrimKeepsClass(raw: string)
    ensures Classify(TrimLeft(raw)) == Classify(raw) && Classify(TrimRight(raw)) == Classify(raw)
  {
    hide Classify, TrimLeft, TrimRight, TrimSpace;
    var l, r := TrimLeft(raw), TrimRight(raw);
    assert TrimSpace(l) == TrimSpace(raw) by {
      TrimLeftSplits(raw);
      assert raw == raw[..|raw| - |l|] + l + "";
      TrimIgnoresFrame(raw[..|raw| - |l|], l, "");
    }
    assert TrimSpace(r) == TrimSpace(raw) by {
      TrimRightSplits(raw);
      assert raw == "" + r + raw[|r|..];
      TrimIgnoresFrame("", r, raw[|r|..]);
    }
    SameTrimSameClass(l, raw);
    SameTrimSameClass(r, raw);
  }

  lemma {:induction false} EventsOfCoreLeft(lines: seq<string>, ctx: Ctx)
    ensures EventsFrom(CoreLeft(lines), ctx) == EventsFrom(lines, ctx)
  {
    if lines != [] {
      EventsOfCoreLeft(lines[1..], ctx);
      BlankIsSpace(lines[0]);
      TrimKeepsClass(lines[0]);
      if TrimSpace(lines[0]) != "" {
        assert CoreLeft(lines)[1..] == lines[1..];
      }
    }
  }

  lemma {:induction false} EventsOfCoreRight(lines: seq<string>, ctx: Ctx)
    ensures EventsFrom(CoreRight(lines), ctx) == EventsFrom(lines, ctx)
  {
    if lines != [] {
      var ctx' := After(lines[0], ctx);
      EventsOfCoreRight(lines[1..], ctx');
      BlankIsSpace(lines[0]);
      TrimKeepsClass(lines[0]);
      var rest := CoreRight(lines[1..]);
      if rest != [] {
        assert CoreRight(lines)[1..] == rest;
      }
    }
  }

  lemma EventsOfCore(lines: seq<string>)
    ensures EventsFrom(Core(lines), START) == EventsFrom(lines, START)
  {
    EventsOfCoreLeft(lines, START);
    EventsOfCoreRight(CoreLeft(lines), START);
    if CoreRight(CoreLeft(lines)) == [] {
      BlankIsSpace("");
      assert EventsFrom([""], START) == EventsOf("", START) + EventsFrom([], START);
    }
  }

  // Rewriting leaves blank lines alone, and a trimmed line is rewritten to the trimmed
  // rewriting.
  lemma RewriteTrimLeft(raw: string, ctx: Ctx, f: Replacer)
    ensures TrimLeft(Rewrite(TrimLeft(raw), ctx, f)) == TrimLeft(Rewrite(raw, ctx, f))
    ensures TrimSpace(Rewrite(raw, ctx, f)) == "" <==> TrimSpace(raw) == ""
  {
    TrimKeepsClass(raw);
    if Classify(raw).Directive? {
      RawCut(raw);
      BlankIsSpace(raw);
      var v := f(ctx.section, Classify(raw).key, Classify(raw).value, Nth(ctx, Classify(raw).key));
      IndentedValue(raw, v);
    } else {
      TrimLeftSplits(raw);
      TrimLeftFramed("", TrimLeft(raw));
    }
  }

  // Trimming a directive line's indentation before or after its value is replaced is the
  // same, and the line with the new value is not blank.
  lemma IndentedValue(raw: string, v: string)
    requires '=' in raw
    ensures TrimLeft(WithValue(TrimLeft(raw), v)) == TrimLeft(WithValue(raw, v))
    ensures TrimSpace(WithValue(raw, v)) != ""
  {
    hide TrimLeft, TrimRight, TrimSpace, Cut;
    var k := Cut(raw, '=').before;
    CutTrimLeft(raw);
    ValuedTrims(k, v);
    ValuedTrims(TrimLeft(k), v);
    TrimLeftTwice(k);
  }

  lemma CutTrimLeft(raw: string)
    requires '=' in raw
    ensures Cut(TrimLeft(raw), '=').before == TrimLeft(Cut(raw, '=').before)
  {
    hide IndexOf, TrimLeft;
    var h := Cut(raw, '=');
    TrimLeftStops(h.before, '=', h.after);
    TrimLeftSplits(h.before);
    CutJoined(TrimLeft(h.before), '=', h.after);
  }

  lemma ValuedTrims(k: string, v: string)
    ensures TrimLeft(k + "= " + v) == TrimLeft(k) + "= " + v
    ensures TrimSpace(k + "= " + v) != ""
  {
    hide TrimLeft, TrimRight, TrimSpace;
    assert k + "= " + v == k + ['='] + (" " + v);
    TrimLeftStops(k, '=', " " + v);
    DirectiveTrims(k, " " + v);
    assert TrimLeft(k) + ['='] + (" " + v) == TrimLeft(k) + "= " + v;
  }

  lemma TrimLeftTwice(s: string)
    ensures TrimLeft(TrimLeft(s)) == TrimLeft(s)
  {
    TrimLeftSplits(s);
  }

  lemma RewriteTrimRight(raw: string, ctx: Ctx, f: Replacer)
    ensures TrimRight(Rewrite(TrimRight(raw), ctx, f)) == TrimRight(Rewrite(raw, ctx, f))
  {
    TrimKeepsClass(raw);
    if Classify(raw).Directive? {
      RawCut(raw);
      CutTrimRight(raw);
    } else {
      TrimRightSplits(raw);
      TrimRightFramed(TrimRight(raw), "");
    }
  }

  lemma CutTrimRight(raw: string)
    requires '=' in raw
    ensures Cut(TrimRight(raw), '=').before == Cut(raw, '=').before
  {
    var h := Cut(raw, '=');
    TrimRightStops(h.before, '=', h.after);
    CutJoined(h.before, '=', TrimRight(h.after));
  }

  lemma {:induction false} RewriteCoreLeft(lines: seq<string>, ctx: Ctx, f: Replacer)
    ensures TrimLeft(Join(RewriteFrom(CoreLeft(lines), ctx, f), '\n')) ==
            TrimLeft(Join(RewriteFrom(lines, ctx, f), '\n'))
  {
    if lines != [] {
      var line, rest := lines[0], lines[1..];
      BlankIsSpace(line);
      BlankTrims(line);
      var rest' := RewriteFrom(rest, After(line, ctx), f);
      JoinCons(Rewrite(line, ctx, f), rest');
      if TrimSpace(line) == "" {
        RewriteCoreLeft(rest, ctx, f);
        TrimLeftAppend(line, "\n" + Join(rest', '\n'));
        TrimLeftNewline(Join(rest', '\n'));
      } else {
        assert CoreLeft(lines)[1..] == rest;
        TrimKeepsClass(line);
        RewriteTrimLeft(line, ctx, f);
        BlankTrims(Rewrite(line, ctx, f));
        JoinCons(Rewrite(TrimLeft(line), ctx, f), rest');
        TrimLeftAppend(Rewrite(line, ctx, f), "\n" + Join(rest', '\n'));
        TrimLeftAppend(Rewrite(TrimLeft(line), ctx, f), "\n" + Join(rest', '\n'));
      }
    }
  }

  lemma {:induction false} RewriteCoreRight(lines: seq<string>, ctx: Ctx, f: Replacer)
    ensures TrimRight(Join(RewriteFrom(CoreRight(lines), ctx, f), '\n')) ==
            TrimRight(Join(RewriteFrom(lines, ctx, f), '\n'))
  {
    if lines != [] {
      var line, rest := lines[0], lines[1..];
      BlankIsSpace(line);
      BlankTrims(line);
      var ctx' := After(line, ctx);
      RewriteCoreRight(rest, ctx', f);
      var out, out' := Rewrite(line, ctx, f), RewriteFrom(rest, ctx', f);
      JoinCons(out, out');
      TrimLeftNewline(Join(out', '\n'));
      TrimRightAppend(out, "\n" + Join(out', '\n'));
      var core := CoreRight(rest);
      if core != [] {
        assert CoreRight(lines)[1..] == core;
        var core' := RewriteFrom(core, ctx', f);
        JoinCons(out, core');
        TrimLeftNewline(Join(core', '\n'));
        TrimRightAppend(out, "\n" + Join(core', '\n'));
      } else if TrimSpace(line) != "" {
        TrimKeepsClass(line);
        RewriteTrimRight(line, ctx, f);
        assert CoreRight(lines) == [TrimRight(line)];
        assert RewriteFrom(CoreRight(lines), ctx, f) == [Rewrite(TrimRight(line), ctx, f)];
      }
    }
  }

  // The scanned lines of a print are rewritten to the same print as the lines themselves.
  lemma RewriteCore(lines: seq<string>, f: Replacer)
    ensures Print(RewriteFrom(Core(lines), START, f)) == Print(RewriteFrom(lines, START, f))
  {
    var left := CoreLeft(lines);
    var right := CoreRight(left);
    RewriteCoreLeft(lines, START, f);
    RewriteCoreRight(left, START, f);
    TrimsCommute(Join(RewriteFrom(left, START, f), '\n'));
    TrimsCommute(Join(RewriteFrom(right, START, f), '\n'));
    if right == [] {
      BlankIsSpace("");
      assert RewriteFrom([""], START, f) == [""];
      assert RewriteFrom(right, START, f) == [];
    }
  }

  // Carriage returns that a second scan drops are trimmed away from settings anyway: of a
  // print only what stands at and after an over-long line is lost.
  lemma {:induction false} EventsOfVisible(tokens: seq<string>, ctx: Ctx)
    ensures EventsFrom(Visible(tokens).lines, ctx) <= EventsFrom(tokens, ctx)
    ensures !Visible(tokens).tooLong ==> EventsFrom(Visible(tokens).lines, ctx) == EventsFrom(tokens, ctx)
  {
    hide Classify, DropCR;
    if tokens != [] && |tokens[0]| <= LINE_LIMIT {
      var ctx' := After(tokens[0], ctx);
      var seen := Visible(tokens[1..]).lines;
      SameClassSameEvents(DropCR(tokens[0]), tokens[0], ctx);
      EventsOfVisible(tokens[1..], ctx');
      assert Visible(tokens).lines == [DropCR(tokens[0])] + seen;
      assert ([DropCR(tokens[0])] + seen)[1..] == seen;
      PrefixAppend(EventsOf(tokens[0], ctx), EventsFrom(seen, ctx'), EventsFrom(tokens[1..], ctx'));
    }
  }

  lemma SameClassSameEvents(a: string, b: string, ctx: Ctx)
    requires a == DropCR(b)
    ensures EventsOf(a, ctx) == EventsOf(b, ctx) && After(a, ctx) == After(b, ctx)
  {
    hide Classify, DropCR;
    DropCRKeepsClass(b);
  }

  lemma PrefixAppend(first: seq<Event>, a: seq<Event>, b: seq<Event>)
    requires a <= b
    ensures first + a <= first + b
  {
  }

  lemma DropCRKeepsClass(line: string)
    ensures Classify(DropCR(line)) == Classify(line)
  {
    if EndsInCR(line) {
      var l := DropCR(line);
      assert line == "" + l + "\r";
      TrimIgnoresFrame("", l, "\r");
      SameTrimSameClass(line, l);
    }
  }

  lemma EventsOfPrint(lines: seq<string>)
    requires NoBreaks(lines)
    ensures EventsFrom(Tokens(Print(lines)), START) == EventsFrom(lines, START)
    ensures Events(Print(lines)) <= EventsFrom(lines, START)
    ensures !Scan(Print(lines)).tooLong ==> Events(Print(lines)) == EventsFrom(lines, START)
  {
    TokensPrint(lines);
    EventsOfVisible(Core(lines), START);
    EventsOfCore(lines);
  }
}
