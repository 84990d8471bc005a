/** How a line of WireGuard configuration text is read, told from the way it is typed: every
    line is blank, a comment, a header, a directive or something else, whatever white space
    stands around its parts. */
module WgLines {
  import opened Options
  import opened Text
  import opened WgConfig

  predicate IsComment(text: string) {
    text != "" && (text[0] == '#' || text[0] == ';')
  }

  predicate IsBracketed(text: string) {
    text != "" && text[0] == '[' && text[|text| - 1] == ']'
  }

  lemma Framed(a: string, text: string, b: string)
    requires AllSpace(a) && AllSpace(b) && Trimmed(text)
    ensures Classify(a + text + b) == Classify(text)
  {
    hide TrimSpace, IsSkipped, IsHeader, SectionName, Cut, KeyName;
    TrimFramed(a, text, b);
    TrimOfTrimmed(text);
  }

  // Blank lines and comments, however indented, say nothing.
  lemma BlankReads(a: string, text: string)
    requires AllSpace(a)
    ensures Classify(a) == Skipped
    ensures IsComment(text) ==> Classify(a + text) == Skipped
  {
    hide TrimLeft, TrimRight, TrimSpace, Classify;
    assert a == a + "" + "";
    Framed(a, "", "");
    ClassifyTrimmed("");
    if IsComment(text) {
      var x, b := TrimSplits(text);
      var core := TrimSpace(text);
      CommentCore(text, x, core, b);
      assert a + text == a + core + b;
      Framed(a, core, b);
      ClassifyTrimmed(core);
    }
  }

  lemma CommentCore(text: string, x: string, core: string, b: string)
    requires IsComment(text) && text == x + core + b && AllSpace(x) && AllSpace(b)
    ensures x == "" && IsComment(core)
  {
    assert !IsSpace(text[0]);
  }

  lemma ClassifyTrimmed(line: string)
    requires Trimmed(line)
    ensures line == "" || IsComment(line) ==> Classify(line) == Skipped
    ensures line != "" && !IsComment(line) && IsBracketed(line) && |line| >= 2 ==>
              Classify(line) == Header(ToLower(TrimSpace(line[1..|line| - 1])))
    ensures line != "" && !IsComment(line) && !IsBracketed(line) ==>
              Classify(line) ==
              if Cut(line, '=').found then Directive(KeyName(Cut(line, '=').before), TrimSpace(Cut(line, '=').after))
              else Other(line)
  {
    hide TrimLeft, TrimRight, TrimSpace, ToLower, Cut;
    TrimOfTrimmed(line);
    if line != "" {
      assert HasPrefix(line, "#") <==> line[0] == '#';
      assert HasPrefix(line, ";") <==> line[0] == ';';
      assert HasPrefix(line, "[") <==> line[0] == '[';
      assert line[|line| - 1..] == [line[|line| - 1]];
    }
  }

  // "[name]" is a header, and its name is taken in lower case.
  lemma HeaderReads(a: string, c: string, name: string, d: string, b: string)
    requires AllSpace(a) && AllSpace(b) && AllSpace(c) && AllSpace(d) && Trimmed(name)
    ensures Classify(a + ("[" + c + name + d + "]") + b) == Header(ToLower(name))
  {
    hide TrimLeft, TrimRight, TrimSpace, ToLower, Classify;
    var line := "[" + c + name + d + "]";
    assert line[0] == '[' && line[|line| - 1] == ']' && |line| >= 2;
    assert line[1..|line| - 1] == c + name + d;
    Framed(a, line, b);
    ClassifyTrimmed(line);
    TrimFramed(c, name, d);
  }

  // "key = value" is a directive, split at the first '='; the key is taken in lower case, the
  // value as it is.
  lemma DirectiveReads(a: string, key: string, c: string, d: string, value: string, b: string)
    requires AllSpace(a) && AllSpace(b) && AllSpace(c) && AllSpace(d) && Trimmed(key) && Trimmed(value)
    requires '=' !in key && !IsComment(key) && !IsBracketed(key + c + "=" + d + value)
    ensures Classify(a + key + c + "=" + d + value + b) == Directive(ToLower(key), value)
  {
    hide TrimLeft, TrimRight, TrimSpace, ToLower, Classify, Cut, KeyName, AllSpace;
    var front, back := if key == "" then a + c else a, if value == "" then d + b else b;
    var before, after := if key == "" then "" else key + c, if value == "" then "" else d + value;
    var line := before + "=" + after;
    Blanks(a, c, d, b);
    NothingBefore(key, c);
    assert a + key + c + "=" + d + value + b == front + line + back;
    CoreTrimmed(key, c, d, value);
    Framed(front, line, back);
    assert line[0] == if key == "" then '=' else key[0];
    assert line[|line| - 1] == if value == "" then '=' else value[|value| - 1];
    assert IsBracketed(line) ==> key != "" && value != "";
    ClassifyTrimmed(line);
    assert line == before + ['='] + after;
    CutJoined(before, '=', after);
    KeyAndValue(key, c, d, value);
  }

  lemma Blanks(a: string, c: string, d: string, b: string)
    requires AllSpace(a) && AllSpace(b) && AllSpace(c) && AllSpace(d)
    ensures AllSpace(a + c) && AllSpace(d + b)
  {
  }

  lemma NothingBefore(key: string, c: string)
    requires '=' !in key && AllSpace(c)
    ensures '=' !in key + c
  {
  }

  lemma CoreTrimmed(key: string, c: string, d: string, value: string)
    requires Trimmed(key) && Trimmed(value)
    ensures Trimmed((if key == "" then "" else key + c) + "=" + (if value == "" then "" else d + value))
  {
    var line := (if key == "" then "" else key + c) + "=" + (if value == "" then "" else d + value);
    assert line[0] == if key == "" then '=' else key[0];
    assert line[|line| - 1] == if value == "" then '=' else value[|value| - 1];
  }

  lemma KeyAndValue(key: string, c: string, d: string, value: string)
    requires AllSpace(c) && AllSpace(d) && Trimmed(key) && Trimmed(value)
    ensures KeyName(if key == "" then "" else key + c) == ToLower(key)
    ensures TrimSpace(if value == "" then "" else d + value) == value
  {
    hide TrimLeft, TrimRight, TrimSpace, ToLower;
    assert key + c == "" + key + c && d + value == d + value + "";
    TrimFramed("", key, c);
    TrimFramed(d, value, "");
    TrimOfTrimmed("");
  }

  // Anything else is no part of a configuration.
  lemma OtherReads(a: string, text: string, b: string)
    requires AllSpace(a) && AllSpace(b) && Trimmed(text) && text != ""
    requires '=' !in text && !IsComment(text) && !IsBracketed(text)
    ensures Classify(a + text + b) == Other(text)
  {
    hide TrimLeft, TrimRight, TrimSpace, ToLower, Classify;
    Framed(a, text, b);
    ClassifyTrimmed(text);
  }

  // ------------------------------------------------------------- sections and numbers

  // The section a line stands in: the name of the last header before it.
  function SectionAt(lines: seq<string>, i: nat): string
    requires i <= |lines|
  {
    if i == 0 then ""
    else
      match Classify(lines[i - 1])
      case Header(name) => name
      case _ => SectionAt(lines, i - 1)
  }

  // How many directives of this name stand before a line.
  function CountBefore(lines: seq<string>, i: nat, slot: string): nat
    requires i <= |lines|
  {
    if i == 0 then 0
    else
      match Classify(lines[i - 1])
      case Directive(key, _) =>
        CountBefore(lines, i - 1, slot) + if Slot(SectionAt(lines, i - 1), key) == slot then 1 else 0
      case _ => CountBefore(lines, i - 1, slot)
  }

  // What one line amounts to, told from the lines before it.
  function EventAt(lines: seq<string>, i: nat): seq<Event>
    requires i < |lines|
  {
    match Classify(lines[i])
    case Skipped => []
    case Header(name) => [Section(name)]
    case Other(text) => [Junk(text)]
    case Directive(key, value) =>
      var section := SectionAt(lines, i);
      [Setting(section, key, value, CountBefore(lines, i, Slot(section, key)) + 1)]
  }

  // What is written back for it.
  function WrittenAt(lines: seq<string>, i: nat, g: Replacer): string
    requires i < |lines|
  {
    match Classify(lines[i])
    case Directive(key, value) =>
      var section := SectionAt(lines, i);
      Cut(lines[i], '=').before + "= " + g(section, key, value, CountBefore(lines, i, Slot(section, key)) + 1)
    case _ => lines[i]
  }

  // What is given to wg for it.
  function GivenAt(lines: seq<string>, i: nat): seq<string>
    requires i < |lines|
  {
    match Classify(lines[i])
    case Directive(key, _) =>
      if SectionAt(lines, i) == "interface" && (key == "address" || key == "mtu") then [] else [lines[i]]
    case _ => [lines[i]]
  }

  function EventsUpTo(lines: seq<string>, n: nat): seq<Event>
    requires n <= |lines|
  {
    if n == 0 then [] else EventsUpTo(lines, n - 1) + EventAt(lines, n - 1)
  }

  function WrittenUpTo(lines: seq<string>, n: nat, g: Replacer): seq<string>
    requires n <= |lines|
  {
    if n == 0 then [] else WrittenUpTo(lines, n - 1, g) + [WrittenAt(lines, n - 1, g)]
  }

  function GivenUpTo(lines: seq<string>, n: nat): seq<string>
    requires n <= |lines|
  {
    if n == 0 then [] else GivenUpTo(lines, n - 1) + GivenAt(lines, n - 1)
  }

  // A scanner that has come to a line remembers just this.
  ghost predicate Remembers(ctx: Ctx, lines: seq<string>, i: nat)
    requires i <= |lines|
  {
    ctx.section == SectionAt(lines, i) && forall slot :: Count(ctx.counts, slot) == CountBefore(lines, i, slot)
  }

  lemma RemembersNext(ctx: Ctx, lines: seq<string>, i: nat, g: Replacer)
    requires i < |lines| && Remembers(ctx, lines, i)
    ensures Remembers(After(lines[i], ctx), lines, i + 1)
    ensures EventsOf(lines[i], ctx) == EventAt(lines, i)
    ensures Rewrite(lines[i], ctx, g) == WrittenAt(lines, i, g)
    ensures Kept(lines[i], ctx) == GivenAt(lines, i)
  {
    hide Classify, Slot, Rewrite, Cut;
    RewrittenLine(lines[i], ctx, g);
    var next := After(lines[i], ctx);
    forall slot
      ensures Count(next.counts, slot) == CountBefore(lines, i + 1, slot)
    {
      assert Count(ctx.counts, slot) == CountBefore(lines, i, slot);
    }
  }

  lemma StartsEmpty(lines: seq<string>, g: Replacer)
    ensures forall written :: WrittenUpTo(lines, 0, g) + written == written
    ensures forall given :: GivenUpTo(lines, 0) + given == given
    ensures forall events :: EventsUpTo(lines, 0) + events == events
  {
  }

  lemma RewrittenLine(raw: string, ctx: Ctx, g: Replacer)
    ensures Rewrite(raw, ctx, g) ==
            match Classify(raw)
            case Directive(key, value) => Cut(raw, '=').before + "= " + g(ctx.section, key, value, Nth(ctx, key))
            case _ => raw
  {
    hide Classify, Slot, Cut, Nth;
  }

  lemma {:induction false} ScanFrom(ctx: Ctx, lines: seq<string>, i: nat, g: Replacer)
    requires i <= |lines| && Remembers(ctx, lines, i)
    ensures EventsUpTo(lines, i) + EventsFrom(lines[i..], ctx) == EventsUpTo(lines, |lines|)
    ensures WrittenUpTo(lines, i, g) + RewriteFrom(lines[i..], ctx, g) == WrittenUpTo(lines, |lines|, g)
    ensures GivenUpTo(lines, i) + KeptFrom(lines[i..], ctx) == GivenUpTo(lines, |lines|)
    decreases |lines| - i
  {
    hide Remembers, EventAt, WrittenAt, GivenAt, EventsOf, Rewrite, Kept, After;
    if i < |lines| {
      assert lines[i..][1..] == lines[i + 1..];
      RemembersNext(ctx, lines, i, g);
      ScanFrom(After(lines[i], ctx), lines, i + 1, g);
    }
  }

  // What a text consists of, what is written back and what is given to wg: of each line this,
  // told from the line, the last header before it, and the directives of its name before it.
  lemma ScansExactly(x: string, g: Replacer)
    ensures var lines := Scan(x).lines;
            && Events(x) == EventsUpTo(lines, |lines|)
            && Transform(x, g) == TrimSpace(Join(WrittenUpTo(lines, |lines|, g), '\n')) + "\n"
            && Setconf(x) == TrimSpace(Join(GivenUpTo(lines, |lines|), '\n')) + "\n"
  {
    hide Scan, EventsFrom, RewriteFrom, KeptFrom, TrimSpace, Join;
    var lines := Scan(x).lines;
    assert lines[0..] == lines;
    ScanFrom(START, lines, 0, g);
    StartsEmpty(lines, g);
  }

  // What is written back has no white space around it but one newline at its end.
  lemma PrintedShape(x: string, g: Replacer)
    ensures var y, z := Transform(x, g), Setconf(x);
            && (exists core :: Trimmed(core) && y == core + "\n")
            && (exists core :: Trimmed(core) && z == core + "\n")
  {
    hide TrimSpace, Trimmed;
    var _, _ := TrimSplits(Join(RewriteFrom(Scan(x).lines, START, g), '\n'));
    var _, _ := TrimSplits(Join(KeptFrom(Scan(x).lines, START), '\n'));
  }

  // ------------------------------------------------------------- lines

  // The same lines with the other way to end them.
  function WithCR(lines: seq<string>): (r: seq<string>)
    ensures |r| == |lines| && forall i | 0 <= i < |lines| :: r[i] == lines[i] + "\r"
  {
    if lines == [] then [] else [lines[0] + "\r"] + WithCR(lines[1..])
  }

  lemma {:induction false} VisibleReads(lines: seq<string>)
    requires forall i | 0 <= i < |lines| :: |lines[i]| < 65535 && !EndsInCR(lines[i])
    ensures Visible(lines) == Scanned(lines, false)
    ensures Visible(WithCR(lines)) == Scanned(lines, false)
  {
    if lines != [] {
      VisibleReads(lines[1..]);
      assert WithCR(lines)[1..] == WithCR(lines[1..]);
      var line := lines[0] + "\r";
      assert line[|line| - 1] == '\r' && line[..|line| - 1] == lines[0];
    }
  }

  lemma TokensOf(lines: seq<string>)
    requires lines != [] && forall line | line in lines :: '\n' !in line
    ensures Tokens(Join(lines, '\n') + "\n") == lines
  {
    hide Join, Split;
    JoinOne("", '\n');
    JoinAppend(lines, [""], '\n');
    assert Join(lines, '\n') + "\n" == Join(lines, '\n') + ['\n'] + "";
    SplitJoin(lines + [""], '\n');
  }

  // A text of lines is scanned into them, whether they end in a newline or in a carriage
  // return and a newline.
  lemma LinesRead(lines: seq<string>)
    requires lines != [] && forall line | line in lines :: '\n' !in line && |line| < 65535 && !EndsInCR(line)
    ensures Scan(Join(lines, '\n') + "\n") == Scanned(lines, false)
    ensures Scan(Join(WithCR(lines), '\n') + "\n") == Scanned(lines, false)
  {
    hide Join, Tokens, EndsInCR;
    TokensOf(lines);
    forall line | line in WithCR(lines)
      ensures '\n' !in line
    {
      var i :| 0 <= i < |lines| && WithCR(lines)[i] == line;
      assert lines[i] in lines && line == lines[i] + "\r";
    }
    TokensOf(WithCR(lines));
    assert forall i | 0 <= i < |lines| :: lines[i] in lines;
    VisibleReads(lines);
  }

  // The scanner stops at a line of 65536 characters, and at none shorter.
  lemma LongLineStops(line: string)
    requires '\n' !in line
    ensures Scan(line).tooLong <==> |line| >= 65536
    ensures Scan(line).tooLong ==> Scan(line).lines == []
  {
    SplitWhole(line, '\n');
    assert [line][1..] == [] && Visible([]) == Scanned([], false);
    assert Tokens(line) == if line == "" then [] else [line];
  }
}
