/** When the text a rewriting of internal/wg/config.go prints can be scanned again without
    loss, told from the text it was given. */
module WgReprint {
  import opened Text
  import opened WgConfig
  import opened WgRescan

  // With cr, a line that ends in a carriage return does not count as good either.
  predicate GoodLine(line: string, cr: bool) {
    |line| <= LINE_LIMIT && (cr ==> !EndsInCR(line))
  }

  predicate GoodLines(lines: seq<string>, cr: bool) {
    forall i | 0 <= i < |lines| :: GoodLine(lines[i], cr)
  }

  predicate AllBlank(lines: seq<string>) {
    forall i | 0 <= i < |lines| :: TrimSpace(lines[i]) == ""
  }

  // The key text, "= " and the new value of a directive fit on a line; any other line does
  // not end in a carriage return. The indentation of the first line printed and the white
  // space that ends the last one are trimmed and do not count.
  predicate PrintsWhole(raw: string, ctx: Ctx, g: Replacer, first: bool, last: bool, cr: bool) {
    match Classify(raw)
    case Directive(key, value) =>
      var before, v := Cut(raw, '=').before, g(ctx.section, key, value, Nth(ctx, key));
      (if first then |TrimLeft(before)| else |before|) + (if last && v == "" then 1 else 2 + |v|) <= LINE_LIMIT
    case _ => cr && !last ==> !EndsInCR(raw)
  }

  // Of the scanned lines, those from the first that is not blank to the last that is not
  // blank are printed. `first` is true until the first one is reached.
  predicate SurvivesFrom(lines: seq<string>, ctx: Ctx, g: Replacer, first: bool, cr: bool) {
    if AllBlank(lines) then true
    else if first && TrimSpace(lines[0]) == "" then SurvivesFrom(lines[1..], After(lines[0], ctx), g, true, cr)
    else
      && PrintsWhole(lines[0], ctx, g, first, AllBlank(lines[1..]), cr)
      && SurvivesFrom(lines[1..], After(lines[0], ctx), g, false, cr)
  }

  // No printed line is too long to be scanned.
  predicate FitsPrinted(x: string, g: Replacer) {
    SurvivesFrom(Scan(x).lines, START, g, true, false)
  }

  // And none but the last was left with a carriage return at its end.
  predicate SurvivesPrint(x: string, g: Replacer) {
    SurvivesFrom(Scan(x).lines, START, g, true, true)
  }

  // ------------------------------------------------------------- one line

  lemma PrintedLength(raw: string, ctx: Ctx, g: Replacer)
    requires Classify(raw).Directive?
    requires Plain(Classify(raw).key,
            g(ctx.section, Classify(raw).key, Classify(raw).value, Nth(ctx, Classify(raw).key)))
    ensures var before, v :=
            Cut(raw, '=').before, g(ctx.section, Classify(raw).key, Classify(raw).value, Nth(ctx, Classify(raw).key));
            var out := Rewrite(raw, ctx, g);
            && |out| == |before| + 2 + |v| && !EndsInCR(out)
            && TrimLeft(out) == TrimLeft(before) + "= " + v
            && |TrimRight(out)| == |before| + (if v == "" then 1 else 2 + |v|)
            && |TrimRight(TrimLeft(out))| == |TrimLeft(before)| + (if v == "" then 1 else 2 + |v|)
  {
    hide TrimLeft, TrimRight, Cut, Trimmed;
    var before, v := Cut(raw, '=').before,
        g(ctx.section, Classify(raw).key, Classify(raw).value, Nth(ctx, Classify(raw).key));
    PrintedDirective(raw, v);
    ValuedTrims(before, v);
    ValuedTrimRight(before, v);
    ValuedTrimRight(TrimLeft(before), v);
  }

  lemma ValuedTrimRight(k: string, v: string)
    requires Trimmed(v)
    ensures |TrimRight(k + "= " + v)| == |k| + (if v == "" then 1 else 2 + |v|)
  {
    var s := k + "= " + v;
    if v == "" {
      assert s == (k + "=") + " ";
      TrimRightFramed(k + "=", " ");
    } else {
      assert s == s + "" && s[|s| - 1] == v[|v| - 1];
      TrimRightFramed(s, "");
    }
  }

  lemma TrimmedEnds(line: string)
    requires TrimSpace(line) != ""
    ensures !EndsInCR(TrimRight(line)) && !EndsInCR(TrimRight(TrimLeft(line)))
    ensures EndsInCR(TrimLeft(line)) <==> EndsInCR(line)
    ensures |TrimRight(line)| <= |line| && |TrimLeft(line)| <= |line| && |TrimRight(TrimLeft(line))| <= |line|
  {
    TrimLeftSplits(line);
    TrimRightSplits(line);
    TrimRightSplits(TrimLeft(line));
    BlankTrims(line);
    assert TrimLeft(line)[|TrimLeft(line)| - 1] == line[|line| - 1];
  }

  function Ends(line: string, first: bool, last: bool): string {
    var l := if first then TrimLeft(line) else line;
    if last then TrimRight(l) else l
  }

  lemma LineSurvives(raw: string, ctx: Ctx, g: Replacer, first: bool, last: bool, cr: bool)
    requires |raw| <= LINE_LIMIT && (first || last ==> TrimSpace(raw) != "")
    requires Classify(raw).Directive? ==>
               Plain(Classify(raw).key,
                   g(ctx.section, Classify(raw).key, Classify(raw).value, Nth(ctx, Classify(raw).key)))
    ensures GoodLine(Ends(Rewrite(raw, ctx, g), first, last), cr) <==> PrintsWhole(raw, ctx, g, first, last, cr)
  {
    hide TrimLeft, TrimRight, TrimSpace, Cut, Classify, Trimmed;
    if Classify(raw).Directive? {
      var out := Rewrite(raw, ctx, g);
      PrintedLength(raw, ctx, g);
      RewriteTrimLeft(raw, ctx, g);
      DirectiveNotBlank(raw);
      TrimmedEnds(out);
    } else if first || last {
      TrimmedEnds(raw);
    }
  }

  lemma DirectiveNotBlank(raw: string)
    requires Classify(raw).Directive?
    ensures TrimSpace(raw) != ""
  {
    BlankIsSpace(raw);
  }

  // ------------------------------------------------------------- all lines

  predicate AllFit(lines: seq<string>) {
    forall i | 0 <= i < |lines| :: |lines[i]| <= LINE_LIMIT
  }

  lemma {:induction false} VisibleFits(tokens: seq<string>)
    ensures AllFit(Visible(tokens).lines)
    ensures AllFit(tokens) <==> !Visible(tokens).tooLong
  {
    if tokens != [] {
      VisibleFits(tokens[1..]);
    }
  }

  lemma {:induction false} CoreRightBlank(lines: seq<string>)
    ensures CoreRight(lines) == [] <==> AllBlank(lines)
  {
    if lines != [] {
      CoreRightBlank(lines[1..]);
    }
  }

  lemma {:induction false} RewriteBlank(lines: seq<string>, ctx: Ctx, g: Replacer)
    ensures AllBlank(RewriteFrom(lines, ctx, g)) <==> AllBlank(lines)
  {
    hide TrimSpace, Rewrite;
    if lines != [] {
      RewriteBlank(lines[1..], After(lines[0], ctx), g);
      RewriteTrimLeft(lines[0], ctx, g);
      AllBlankCons(lines[0], lines[1..]);
      AllBlankCons(Rewrite(lines[0], ctx, g), RewriteFrom(lines[1..], After(lines[0], ctx), g));
      assert lines == [lines[0]] + lines[1..];
    }
  }

  lemma NothingIsBlank()
    ensures AllBlank([])
  {
  }

  lemma AllBlankCons(line: string, rest: seq<string>)
    ensures AllBlank([line] + rest) <==> TrimSpace(line) == "" && AllBlank(rest)
  {
    hide TrimSpace;
    assert ([line] + rest)[0] == line;
    assert forall i | 0 <= i < |rest| :: ([line] + rest)[i + 1] == rest[i];
  }

  lemma GoodCons(line: string, rest: seq<string>, cr: bool)
    ensures GoodLines([line] + rest, cr) <==> GoodLine(line, cr) && GoodLines(rest, cr)
  {
    hide GoodLine;
    assert ([line] + rest)[0] == line;
    assert forall i | 0 <= i < |rest| :: ([line] + rest)[i + 1] == rest[i];
  }

  lemma CoreRightCons(line: string, rest: seq<string>)
    ensures CoreRight([line] + rest) ==
            if !AllBlank(rest) then [line] + CoreRight(rest)
            else if TrimSpace(line) == "" then []
            else [TrimRight(line)]
  {
    CoreRightBlank(rest);
    assert ([line] + rest)[1..] == rest;
  }

  // The lines from one that is printed on.
  lemma {:induction false} RestSurvives(lines: seq<string>, ctx: Ctx, g: Replacer, first: bool, cr: bool)
    requires AllFit(lines) && Tame(EventsFrom(lines, ctx), g)
    requires first ==> lines != [] && TrimSpace(lines[0]) != ""
    ensures var out := RewriteFrom(lines, ctx, g);
            GoodLines(CoreRight(if first then [TrimLeft(out[0])] + out[1..] else out), cr) <==>
            SurvivesFrom(lines, ctx, g, first, cr)
    decreases |lines|
  {
    hide TrimSpace, TrimLeft, TrimRight, GoodLine, CoreRight, Rewrite, PrintsWhole, AllBlank, Tame;
    var out := RewriteFrom(lines, ctx, g);
    if lines == [] {
      NothingIsBlank();
      CoreRightBlank(out);
    } else {
      var line, rest, next := lines[0], lines[1..], After(lines[0], ctx);
      var o := Rewrite(line, ctx, g);
      var head := if first then TrimLeft(o) else o;
      assert lines == [line] + rest && out == [o] + RewriteFrom(rest, next, g);
      TameHead(lines, ctx, g);
      RestSurvives(rest, next, g, false, cr);
      RewriteBlank(rest, next, g);
      AllBlankCons(line, rest);
      RewriteTrimLeft(line, ctx, g);
      if first {
        TrimLeftNotBlank(o);
      }
      CoreRightCons(head, RewriteFrom(rest, next, g));
      GoodCons(head, CoreRight(RewriteFrom(rest, next, g)), cr);
      GoodCons(TrimRight(head), [], cr);
      if !AllBlank(lines) {
        LineSurvives(line, ctx, g, first, AllBlank(rest), cr);
        assert [TrimRight(head)] + [] == [TrimRight(head)];
      }
    }
  }

  lemma TrimLeftNotBlank(line: string)
    ensures TrimSpace(TrimLeft(line)) == "" <==> TrimSpace(line) == ""
  {
    BlankTrims(line);
    BlankTrims(TrimLeft(line));
    TrimLeftTwice(line);
  }

  lemma {:induction false} LinesSurvive(lines: seq<string>, ctx: Ctx, g: Replacer, cr: bool)
    requires AllFit(lines) && Tame(EventsFrom(lines, ctx), g)
    ensures GoodLines(CoreRight(CoreLeft(RewriteFrom(lines, ctx, g))), cr) <==> SurvivesFrom(lines, ctx, g, true, cr)
  {
    hide TrimSpace, TrimLeft, GoodLine, CoreRight, Rewrite, Tame;
    if lines != [] {
      RewriteTrimLeft(lines[0], ctx, g);
      if TrimSpace(lines[0]) == "" {
        TameHead(lines, ctx, g);
        LinesSurvive(lines[1..], After(lines[0], ctx), g, cr);
        AllBlankCons(lines[0], lines[1..]);
        assert lines == [lines[0]] + lines[1..];
        if AllBlank(lines[1..]) {
          BlankSurvives(lines[1..], After(lines[0], ctx), g, cr);
        }
      } else {
        RestSurvives(lines, ctx, g, true, cr);
      }
    } else {
      CoreRightBlank([]);
    }
  }

  lemma BlankSurvives(lines: seq<string>, ctx: Ctx, g: Replacer, cr: bool)
    requires AllBlank(lines)
    ensures SurvivesFrom(lines, ctx, g, true, cr)
  {
  }

  // Told from the lines of the given text: when the printed text can be scanned whole, and
  // when no line of it is too long.
  lemma ReprintableExactly(x: string, g: Replacer)
    requires Tame(Events(x), g)
    ensures Reprintable(Transform(x, g)) <==> SurvivesPrint(x, g)
    ensures !Scan(Transform(x, g)).tooLong <==> FitsPrinted(x, g)
    ensures SurvivesPrint(x, g) ==> FitsPrinted(x, g)
  {
    hide Core, CoreLeft, CoreRight, RewriteFrom, SurvivesFrom, Tame;
    var lines := Scan(x).lines;
    var out := RewriteFrom(lines, START, g);
    ScanHasNoBreaks(x);
    VisibleFits(Tokens(x));
    RewriteKeepsShape(lines, START, g);
    TokensPrint(out);
    VisibleFits(Core(out));
    GoodCore(out, true);
    GoodCore(out, false);
    LinesSurvive(lines, START, g, true);
    LinesSurvive(lines, START, g, false);
  }

  lemma GoodCore(lines: seq<string>, cr: bool)
    ensures GoodLines(Core(lines), cr) <==> GoodLines(CoreRight(CoreLeft(lines)), cr)
    ensures GoodLines(Core(lines), cr) <==> AllFit(Core(lines)) && (cr ==> NoCR(Core(lines)))
  {
    hide CoreLeft, CoreRight;
  }

  // ------------------------------------------------------------- comparing replacers

  // Shorter values survive where longer ones do.
  lemma {:induction false} ShorterSurvives(
      lines: seq<string>, ctx: Ctx, f: Replacer, g: Replacer, first: bool, cr: bool)
    requires forall e | e in EventsFrom(lines, ctx) && e.Setting? ::
               |f(e.section, e.key, e.value, e.nth)| <= |g(e.section, e.key, e.value, e.nth)|
    requires SurvivesFrom(lines, ctx, g, first, cr)
    ensures SurvivesFrom(lines, ctx, f, first, cr)
    decreases |lines|
  {
    hide TrimSpace, Classify, Cut, TrimLeft;
    if !AllBlank(lines) {
      var now, rest := EventsOf(lines[0], ctx), EventsFrom(lines[1..], After(lines[0], ctx));
      assert EventsFrom(lines, ctx) == now + rest;
      if Classify(lines[0]).Directive? {
        assert now[0] in now + rest;
      }
      ShorterSurvives(lines[1..], After(lines[0], ctx), f, g, first && TrimSpace(lines[0]) == "", cr);
    }
  }

  // The carriage returns of a text survive whatever the values are.
  lemma {:induction false} SurvivalParts(lines: seq<string>, ctx: Ctx, f: Replacer, g: Replacer, first: bool)
    requires SurvivesFrom(lines, ctx, g, first, true) && SurvivesFrom(lines, ctx, f, first, false)
    ensures SurvivesFrom(lines, ctx, f, first, true)
    decreases |lines|
  {
    hide TrimSpace, Classify, Cut, TrimLeft;
    if !AllBlank(lines) {
      SurvivalParts(lines[1..], After(lines[0], ctx), f, g, first && TrimSpace(lines[0]) == "");
    }
  }
}
