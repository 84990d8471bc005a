/** The string primitives of Go's `strings`, `bufio` and `path` packages that the
    program is built from, on ASCII text, with the laws that relate printing to
    re-scanning: trimming a framed text, cutting at the first separator, and
    splitting what was joined. */
module Text {

  // White space of strings.TrimSpace and strings.Fields, restricted to ASCII.
  predicate IsSpace(c: char) {
    c == ' ' || c == '\t' || c == '\n' || c == '\r' || c == '\U{0B}' || c == '\U{0C}'
  }

  predicate AllSpace(s: string) {
    forall i | 0 <= i < |s| :: IsSpace(s[i])
  }

  predicate Trimmed(s: string) {
    s == "" || (!IsSpace(s[0]) && !IsSpace(s[|s| - 1]))
  }

  function TrimLeft(s: string): string {
    if s != "" && IsSpace(s[0]) then TrimLeft(s[1..]) else s
  }

  function TrimRight(s: string): string {
    if s != "" && IsSpace(s[|s| - 1]) then TrimRight(s[..|s| - 1]) else s
  }

  function TrimSpace(s: string): string {
    TrimRight(TrimLeft(s))
  }

  function ToLowerChar(c: char): char {
    if 'A' <= c <= 'Z' then (c as int + 32) as char else c
  }

  function ToLower(s: string): (r: string)
    ensures |r| == |s|
    ensures forall i | 0 <= i < |s| :: r[i] == ToLowerChar(s[i])
  {
    if s == "" then "" else [ToLowerChar(s[0])] + ToLower(s[1..])
  }

  predicate HasPrefix(s: string, p: string) {
    p <= s
  }

  predicate HasSuffix(s: string, p: string) {
    |p| <= |s| && s[|s| - |p|..] == p
  }

  predicate Contains(s: string, sub: string) {
    exists i | 0 <= i <= |s| :: HasPrefix(s[i..], sub)
  }

  // Position of the first c, or |s|.
  function IndexOf(s: string, c: char): (i: nat)
    ensures i <= |s|
    ensures i < |s| ==> s[i] == c
    ensures c !in s[..i]
  {
    if s == "" then 0
    else if s[0] == c then 0
    else
      var j := IndexOf(s[1..], c);
      assert s[..j + 1] == [s[0]] + s[1..][..j];
      j + 1
  }

  // strings.Cut at a one-character separator.
  datatype Halves = Halves(before: string, after: string, found: bool)

  function Cut(s: string, c: char): (r: Halves)
    ensures r.found <==> c in s
    ensures r.found ==> s == r.before + [c] + r.after && c !in r.before
    ensures !r.found ==> r == Halves(s, "", false)
  {
    var i := IndexOf(s, c);
    if i < |s| then Halves(s[..i], s[i + 1..], true)
    else
      assert s[..i] == s;
      Halves(s, "", false)
  }

  function Split(s: string, c: char): (r: seq<string>)
    ensures |r| >= 1
    ensures forall p | p in r :: c !in p
    decreases |s|
  {
    var i := IndexOf(s, c);
    if i < |s| then [s[..i]] + Split(s[i + 1..], c)
    else
      assert s[..i] == s;
      [s]
  }

  function Join(parts: seq<string>, c: char): string {
    if |parts| == 0 then ""
    else if |parts| == 1 then parts[0]
    else parts[0] + [c] + Join(parts[1..], c)
  }

  // ------------------------------------------------------------- trimming

  lemma {:induction false} TrimLeftFramed(a: string, m: string)
    requires AllSpace(a)
    ensures TrimLeft(a + m) == TrimLeft(m)
  {
    if a == "" {
      assert a + m == m;
    } else {
      assert (a + m)[1..] == a[1..] + m;
      TrimLeftFramed(a[1..], m);
    }
  }

  lemma {:induction false} TrimRightFramed(m: string, b: string)
    requires AllSpace(b)
    ensures TrimRight(m + b) == TrimRight(m)
  {
    if b == "" {
      assert m + b == m;
    } else {
      assert (m + b)[..|m + b| - 1] == m + b[..|b| - 1];
      TrimRightFramed(m, b[..|b| - 1]);
    }
  }

  lemma {:induction false} TrimLeftSplits(s: string)
    ensures |TrimLeft(s)| <= |s|
    ensures TrimLeft(s) == s[|s| - |TrimLeft(s)|..]
    ensures AllSpace(s[..|s| - |TrimLeft(s)|])
    ensures TrimLeft(s) == "" || !IsSpace(TrimLeft(s)[0])
  {
    if s != "" && IsSpace(s[0]) {
      TrimLeftSplits(s[1..]);
      var n := |s| - |TrimLeft(s)|;
      assert s[..n] == [s[0]] + s[1..][..n - 1];
    } else {
      assert s[0..] == s;
    }
  }

  lemma {:induction false} TrimRightSplits(s: string)
    ensures |TrimRight(s)| <= |s|
    ensures TrimRight(s) == s[..|TrimRight(s)|]
    ensures AllSpace(s[|TrimRight(s)|..])
    ensures TrimRight(s) == "" || !IsSpace(TrimRight(s)[|TrimRight(s)| - 1])
  {
    if s != "" && IsSpace(s[|s| - 1]) {
      TrimRightSplits(s[..|s| - 1]);
      var n := |TrimRight(s)|;
      assert s[n..] == s[..|s| - 1][n..] + [s[|s| - 1]];
    } else {
      assert s[..|s|] == s;
    }
  }

  // A text is its trimmed core between two runs of white space.
  lemma TrimSplits(s: string) returns (a: string, b: string)
    ensures s == a + TrimSpace(s) + b && AllSpace(a) && AllSpace(b)
    ensures Trimmed(TrimSpace(s))
  {
    hide TrimLeft, TrimRight;
    var l := TrimLeft(s);
    var m := TrimRight(l);
    TrimLeftSplits(s);
    TrimRightSplits(l);
    a := s[..|s| - |l|];
    b := l[|m|..];
    assert l == m + b && m + b == l;
    assert s == a + l && a + (m + b) == a + m + b;
    assert m != "" ==> m[0] == l[0];
  }

  // Conversely, white space around a trimmed text is exactly what trimming removes.
  lemma TrimFramed(a: string, m: string, b: string)
    requires AllSpace(a) && AllSpace(b) && Trimmed(m)
    ensures TrimSpace(a + m + b) == m
  {
    assert a + m + b == a + (m + b);
    TrimLeftFramed(a, m + b);
    if m == "" {
      assert m + b == b && b == b + "";
      TrimLeftFramed(b, "");
    } else {
      assert (m + b)[0] == m[0];
      TrimRightFramed(m, b);
    }
  }

  lemma TrimIgnoresFrame(a: string, m: string, b: string)
    requires AllSpace(a) && AllSpace(b)
    ensures TrimSpace(a + m + b) == TrimSpace(m)
  {
    var x, y := TrimSplits(m);
    assert a + m + b == (a + x) + TrimSpace(m) + (y + b);
    TrimFramed(a + x, TrimSpace(m), y + b);
  }

  lemma TrimOfTrimmed(s: string)
    requires Trimmed(s)
    ensures TrimSpace(s) == s
  {
    assert s == "" + s + "";
    TrimFramed("", s, "");
  }

  lemma NothingToTrim(s: string)
    ensures s == "" || !IsSpace(s[0]) ==> TrimLeft(s) == s
    ensures s == "" || !IsSpace(s[|s| - 1]) ==> TrimRight(s) == s
  {
  }

  lemma TrimsCommute(s: string)
    ensures TrimLeft(TrimRight(s)) == TrimSpace(s)
  {
    hide TrimLeft, TrimRight, TrimSpace;
    var a, b := TrimSplits(s);
    var m := TrimSpace(s);
    assert s == (a + m) + b;
    TrimRightFramed(a + m, b);
    NothingToTrim(m);
    if m == "" {
      assert a + m == "" + a;
      TrimRightFramed("", a);
    } else {
      assert (a + m)[|a + m| - 1] == m[|m| - 1];
      NothingToTrim(a + m);
      TrimLeftFramed(a, m);
    }
  }

  // ------------------------------------------------------------- cutting

  lemma {:induction false} IndexOfFirst(k: string, c: char, v: string)
    requires c !in k
    ensures IndexOf(k + [c] + v, c) == |k|
  {
    var s := k + [c] + v;
    if k != "" {
      assert s[1..] == k[1..] + [c] + v;
      assert s[0] == k[0];
      IndexOfFirst(k[1..], c, v);
    }
  }

  lemma CutJoined(k: string, c: char, v: string)
    requires c !in k
    ensures Cut(k + [c] + v, c) == Halves(k, v, true)
  {
    IndexOfFirst(k, c, v);
  }

  // ------------------------------------------------------------- splitting

  lemma {:induction false} IndexOfAbsent(s: string, c: char)
    requires c !in s
    ensures IndexOf(s, c) == |s|
  {
  }

  lemma {:induction false} SplitJoin(parts: seq<string>, c: char)
    requires |parts| >= 1
    requires forall p | p in parts :: c !in p
    ensures Split(Join(parts, c), c) == parts
  {
    if |parts| == 1 {
      IndexOfAbsent(parts[0], c);
    } else {
      var rest := Join(parts[1..], c);
      IndexOfFirst(parts[0], c, rest);
      var s := parts[0] + [c] + rest;
      assert s[..|parts[0]|] == parts[0] && s[|parts[0]| + 1..] == rest;
      SplitJoin(parts[1..], c);
    }
  }

  lemma JoinFirst(p: string, parts: seq<string>, c: char)
    requires |parts| >= 1
    ensures Join([p] + parts, c) == p + [c] + Join(parts, c)
  {
    assert ([p] + parts)[1..] == parts;
  }

  lemma {:induction false} JoinSplit(s: string, c: char)
    ensures Join(Split(s, c), c) == s
    decreases |s|
  {
    hide IndexOf, Join;
    var i := IndexOf(s, c);
    if i < |s| {
      var p, rest := s[..i], s[i + 1..];
      JoinSplit(rest, c);
      JoinFirst(p, Split(rest, c), c);
      assert s == p + [c] + rest;
    } else {
      JoinOne(s, c);
    }
  }

  lemma JoinOne(s: string, c: char)
    ensures Join([s], c) == s
  {
  }

  lemma {:induction false} JoinAppend(a: seq<string>, b: seq<string>, c: char)
    requires |a| >= 1 && |b| >= 1
    ensures Join(a + b, c) == Join(a, c) + [c] + Join(b, c)
  {
    if |a| == 1 {
      assert (a + b)[1..] == b;
    } else {
      assert (a + b)[1..] == a[1..] + b;
      JoinAppend(a[1..], b, c);
    }
  }

  lemma SplitAppend(a: string, c: char, b: string)
    ensures Split(a + [c] + b, c) == Split(a, c) + Split(b, c)
  {
    hide Split, Join;
    JoinSplit(a, c);
    JoinSplit(b, c);
    JoinAppend(Split(a, c), Split(b, c), c);
    SplitJoin(Split(a, c) + Split(b, c), c);
  }

  lemma SplitWhole(s: string, c: char)
    requires c !in s
    ensures Split(s, c) == [s]
  {
    IndexOfAbsent(s, c);
  }

  // ------------------------------------------------------------- containment

  lemma ContainsFramed(a: string, sub: string, b: string)
    ensures Contains(a + sub + b, sub)
  {
    var s := a + sub + b;
    assert s[|a|..] == sub + b;
    assert HasPrefix(s[|a|..], sub);
  }

  lemma ContainsExactly(s: string, sub: string)
    ensures Contains(s, sub) <==> exists a, b :: s == a + sub + b
  {
    if Contains(s, sub) {
      var i :| 0 <= i <= |s| && HasPrefix(s[i..], sub);
      assert s == s[..i] + sub + s[i..][|sub|..];
    }
    if a, b :| s == a + sub + b {
      ContainsFramed(a, sub, b);
    }
  }

  lemma ContainsWider(a: string, m: string, b: string, sub: string)
    requires Contains(m, sub)
    ensures Contains(a + m + b, sub)
  {
    var i :| 0 <= i <= |m| && HasPrefix(m[i..], sub);
    var s := a + m + b;
    assert s[|a| + i..] == m[i..] + b;
    assert HasPrefix(s[|a| + i..], sub);
  }

  lemma ContainsHas(s: string, sub: string, c: char)
    requires Contains(s, sub) && c in sub
    ensures c in s
  {
    var i :| 0 <= i <= |s| && HasPrefix(s[i..], sub);
    var k :| 0 <= k < |sub| && sub[k] == c;
    assert s[i..][k] == c && s[i + k] == c;
  }

  // ------------------------------------------------------------- lower case

  lemma LowerIs(s: string, t: string)
    requires |s| == |t| && forall i | 0 <= i < |s| :: ToLowerChar(s[i]) == t[i]
    ensures ToLower(s) == t
  {
    hide ToLowerChar;
  }
}
