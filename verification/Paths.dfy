/** requirePathInside of internal/config/config.go: lexical containment of one file path
    in another, over filepath.Clean, Abs and Rel. */
module Paths {
  import opened Text

  predicate IsAbs(path: string) {
    path != "" && path[0] == '/'
  }

  // filepath.Clean on a rooted path: empty and "." elements go, ".." takes the element
  // before it away, or nothing at the root.
  function Walk(at: seq<string>, parts: seq<string>): seq<string>
    decreases |parts|
  {
    if parts == [] then at
    else if parts[0] == "" || parts[0] == "." then Walk(at, parts[1..])
    else if parts[0] == ".." then Walk(if at == [] then [] else at[..|at| - 1], parts[1..])
    else Walk(at + [parts[0]], parts[1..])
  }

  // The elements of filepath.Abs(filepath.Clean(path)); cwd is the working directory.
  function Elements(cwd: string, path: string): seq<string> {
    Walk([], Split(if IsAbs(path) then path else cwd + "/" + path, '/'))
  }

  function CommonLength(a: seq<string>, b: seq<string>): (n: nat)
    ensures n <= |a| && n <= |b|
    ensures a[..n] == b[..n]
    ensures n < |a| && n < |b| ==> a[n] != b[n]
  {
    if a == [] || b == [] || a[0] != b[0] then 0
    else
      var n := CommonLength(a[1..], b[1..]);
      assert a[..n + 1] == [a[0]] + a[1..][..n] && b[..n + 1] == [b[0]] + b[1..][..n];
      n + 1
  }

  function Ups(n: nat): (s: seq<string>)
    ensures |s| == n
    ensures forall i | 0 <= i < n :: s[i] == ".."
  {
    if n == 0 then [] else [".."] + Ups(n - 1)
  }

  // filepath.Rel of two cleaned rooted paths.
  function Rel(base: seq<string>, target: seq<string>): string {
    if base == target then "."
    else
      var n := CommonLength(base, target);
      Join(Ups(|base| - n) + target[n..], '/')
  }

  function Inside(cwd: string, root: string, path: string): bool {
    var rel := Rel(Elements(cwd, root), Elements(cwd, path));
    !(rel == "." || HasPrefix(rel, "../") || rel == ".." || IsAbs(rel))
  }

  // filepath.Join with a rooted first element, before cleaning.
  function JoinPath(root: string, name: string): string {
    root + "/" + name
  }

  // ------------------------------------------------------------- what it accepts

  predicate CleanName(name: string) {
    name != "" && name != "." && name != ".." && '/' !in name
  }

  predicate CleanNames(names: seq<string>) {
    forall i | 0 <= i < |names| :: CleanName(names[i])
  }

  lemma {:induction false} WalkClean(at: seq<string>, parts: seq<string>)
    requires CleanNames(at) && forall i | 0 <= i < |parts| :: '/' !in parts[i]
    ensures CleanNames(Walk(at, parts))
    decreases |parts|
  {
    if parts != [] {
      if parts[0] == "" || parts[0] == "." {
        WalkClean(at, parts[1..]);
      } else if parts[0] == ".." {
        WalkClean(if at == [] then [] else at[..|at| - 1], parts[1..]);
      } else {
        WalkClean(at + [parts[0]], parts[1..]);
      }
    }
  }

  lemma ElementsClean(cwd: string, path: string)
    ensures CleanNames(Elements(cwd, path))
  {
    var parts := Split(if IsAbs(path) then path else cwd + "/" + path, '/');
    forall i | 0 <= i < |parts|
      ensures '/' !in parts[i]
    {
      assert parts[i] in parts;
    }
    WalkClean([], parts);
  }

  // A relative path made of clean names goes down, whatever the names look like.
  lemma DownIsInside(names: seq<string>)
    requires names != [] && CleanNames(names)
    ensures var rel := Join(names, '/');
            !(rel == "." || HasPrefix(rel, "../") || rel == ".." || IsAbs(rel))
  {
    var rel, first := Join(names, '/'), names[0];
    assert rel == first || (|rel| > |first| && rel == first + ['/'] + rel[|first| + 1..]);
    assert first <= rel;
    assert first[0] == rel[0] && first[0] != '/';
    assert CleanName(first);
    if HasPrefix(rel, "../") {
      FirstOfClimb(first, rel);
    }
    if rel != first {
      assert rel[|first|] == '/';
    }
  }

  lemma FirstOfClimb(first: string, rel: string)
    requires first != "" && '/' !in first && first <= rel && (rel == first || rel[|first|] == '/')
    requires HasPrefix(rel, "../")
    ensures first == ".."
  {
    var climb := "../";
    assert rel[0] == climb[0] && rel[1] == climb[1] && rel[2] == climb[2];
    assert forall i | 0 <= i < |first| :: rel[i] == first[i];
    assert |first| == 2;
  }

  lemma UpIsOutside(base: seq<string>, target: seq<string>)
    requires CommonLength(base, target) < |base|
    ensures var rel := Rel(base, target); rel == ".." || HasPrefix(rel, "../")
  {
    var n := CommonLength(base, target);
    var steps := Ups(|base| - n) + target[n..];
    assert steps[0] == "..";
    if |steps| > 1 {
      var rest := Join(steps[1..], '/');
      assert Join(steps, '/') == ".." + ['/'] + rest;
      assert (".." + ['/'] + rest)[..3] == "../";
    }
  }

  // Accepted exactly when the root's elements are a proper initial part of the path's.
  lemma InsideIsProperPrefix(cwd: string, root: string, path: string)
    ensures Inside(cwd, root, path) <==> Elements(cwd, root) < Elements(cwd, path)
  {
    var base, target := Elements(cwd, root), Elements(cwd, path);
    ElementsClean(cwd, root);
    ElementsClean(cwd, path);
    var n := CommonLength(base, target);
    if n < |base| {
      UpIsOutside(base, target);
    } else {
      assert base == target[..n];
      assert Ups(0) + target[n..] == target[n..];
      if base != target {
        DownIsInside(target[n..]);
      }
    }
  }

  // ------------------------------------------------------------- what the elements are

  lemma {:induction false} WalkAppend(at: seq<string>, parts: seq<string>, more: seq<string>)
    ensures Walk(at, parts + more) == Walk(Walk(at, parts), more)
    decreases |parts|
  {
    if parts == [] {
      assert parts + more == more;
    } else {
      assert (parts + more)[1..] == parts[1..] + more;
      if parts[0] == "" || parts[0] == "." {
        WalkAppend(at, parts[1..], more);
      } else if parts[0] == ".." {
        WalkAppend(if at == [] then [] else at[..|at| - 1], parts[1..], more);
      } else {
        WalkAppend(at + [parts[0]], parts[1..], more);
      }
    }
  }

  lemma WalkOne(at: seq<string>, part: string)
    ensures Walk(at, [part]) ==
            if part == "" || part == "." then at
            else if part == ".." then (if at == [] then [] else at[..|at| - 1])
            else at + [part]
  {
    assert [part][1..] == [];
  }

  lemma SplitSnoc(s: string, name: string)
    requires '/' !in name
    ensures Split(s + "/" + name, '/') == Split(s, '/') + [name]
  {
    SplitAppend(s, '/', name);
    SplitWhole(name, '/');
  }

  lemma OneMore(cwd: string, path: string, part: string)
    requires IsAbs(path) && '/' !in part
    ensures IsAbs(path + "/" + part)
    ensures Elements(cwd, path + "/" + part) == Walk(Elements(cwd, path), [part])
  {
    hide Split, Walk;
    SplitSnoc(path, part);
    WalkAppend([], Split(path, '/'), [part]);
  }

  // A slash before an absolute path, or alone, adds no element.
  lemma LeadingSlash(cwd: string, path: string)
    requires path == "" || IsAbs(path)
    ensures Elements(cwd, "/" + path) == if path == "" then [] else Elements(cwd, path)
  {
    var s := "/" + path;
    assert s[0] == '/' && s[..0] == "" && s[1..] == path;
    assert Split(s, '/') == [""] + Split(path, '/');
    WalkAppend([], [""], Split(path, '/'));
    WalkOne([], "");
    if path == "" {
      assert Split("", '/') == [""];
    }
  }

  lemma TopLevel(cwd: string, name: string)
    requires CleanName(name)
    ensures Elements(cwd, "/" + name) == [name]
  {
    SplitSnoc("", name);
    assert "" + "/" + name == "/" + name;
    assert Split("", '/') == [""];
    WalkAppend([], [""], [name]);
    WalkOne([], "");
    WalkOne([], name);
  }

  // What the elements of a path are, told from the path alone: the root has none; a name adds
  // itself, "." and a final slash nothing, and ".." takes the last one away; a relative path
  // continues the working directory.
  lemma ElementsMeaning(cwd: string, path: string, name: string)
    requires CleanName(name)
    ensures Elements(cwd, "/") == [] && Elements(cwd, "/" + name) == [name]
    ensures IsAbs(path) ==>
              && Elements(cwd, path + "/" + name) == Elements(cwd, path) + [name]
              && Elements(cwd, path + "/.") == Elements(cwd, path)
              && Elements(cwd, path + "/") == Elements(cwd, path)
              && Elements(cwd, "/" + path) == Elements(cwd, path)
              && Elements(cwd, path + "/..") ==
                 if Elements(cwd, path) == [] then [] else Elements(cwd, path)[..|Elements(cwd, path)| - 1]
    ensures IsAbs(cwd) && !IsAbs(path) ==> Elements(cwd, path) == Elements("/", cwd + "/" + path)
  {
    hide Elements, Walk;
    assert "/" + "" == "/";
    LeadingSlash(cwd, "");
    TopLevel(cwd, name);
    if IsAbs(path) {
      LeadingSlash(cwd, path);
      OneMore(cwd, path, name);
      OneMore(cwd, path, ".");
      OneMore(cwd, path, "");
      OneMore(cwd, path, "..");
      WalkOne(Elements(cwd, path), name);
      WalkOne(Elements(cwd, path), ".");
      WalkOne(Elements(cwd, path), "");
      WalkOne(Elements(cwd, path), "..");
      assert path + "/" + "." == path + "/." && path + "/" + ".." == path + "/.." && path + "/" + "" == path + "/";
    } else if IsAbs(cwd) {
      RelativeElements(cwd, path);
    }
  }

  lemma RelativeElements(cwd: string, path: string)
    requires IsAbs(cwd) && !IsAbs(path)
    ensures Elements(cwd, path) == Elements("/", cwd + "/" + path)
  {
    assert (cwd + "/" + path)[0] == '/';
  }

  // What ElementsMeaning says of absolute paths, of any way to take a path apart.
  predicate Rules(f: string -> seq<string>, path: string, name: string) {
    && f("/") == []
    && (CleanName(name) ==> f("/" + name) == [name])
    && (IsAbs(path) ==>
          && (CleanName(name) ==> f(path + "/" + name) == f(path) + [name])
          && f(path + "/.") == f(path)
          && f(path + "/") == f(path)
          && f("/" + path) == f(path)
          && f(path + "/..") == if f(path) == [] then [] else f(path)[..|f(path)| - 1])
  }

  // There is one way only.
  lemma {:induction false} OnlyElements(f: string -> seq<string>, cwd: string, path: string)
    requires IsAbs(path) && forall p, n :: Rules(f, p, n)
    ensures f(path) == Elements(cwd, path)
    decreases |path|
  {
    hide Elements;
    var head, part := LastPart(path);
    if head == "" {
      FirstPart(f, cwd, part);
      assert path == "/" + part;
    } else {
      OnlyElements(f, cwd, head);
      assert Rules(f, head, part);
      ElementsMeaning(cwd, head, if CleanName(part) then part else "a");
      assert head + "/" + "." == head + "/." && head + "/" + ".." == head + "/.." && head + "/" + "" == head + "/";
    }
  }

  lemma {:induction false} LastPart(path: string) returns (head: string, part: string)
    requires '/' in path
    ensures path == head + "/" + part && '/' !in part && (IsAbs(path) ==> head == "" || IsAbs(head))
  {
    var last := path[|path| - 1];
    var rest := path[..|path| - 1];
    assert path == rest + [last];
    if last == '/' {
      head, part := rest, "";
      assert rest + "/" + "" == path;
    } else {
      var more;
      head, more := LastPart(rest);
      part := more + [last];
      assert head + "/" + more + [last] == head + "/" + part;
    }
  }

  lemma FirstPart(f: string -> seq<string>, cwd: string, part: string)
    requires '/' !in part && forall p, n :: Rules(f, p, n)
    ensures f("/" + part) == Elements(cwd, "/" + part)
  {
    hide Elements;
    var s := "/" + part;
    assert Rules(f, "/", part) && Rules(f, s, part);
    assert "/" + "/." == "/" + ("/" + ".") && "/" + "/.." == "/" + ("/" + "..");
    ElementsMeaning(cwd, "/", if CleanName(part) then part else "a");
    ElementsMeaning(cwd, s, if CleanName(part) then part else "a");
    assert part == "" ==> s == "/";
  }

  // A clean name joined to an absolute root is inside the root.
  lemma JoinedIsInside(cwd: string, root: string, name: string)
    requires IsAbs(root) && CleanName(name)
    ensures Elements(cwd, JoinPath(root, name)) == Elements(cwd, root) + [name]
    ensures Inside(cwd, root, JoinPath(root, name))
  {
    hide Elements;
    ElementsMeaning(cwd, root, name);
    InsideIsProperPrefix(cwd, root, JoinPath(root, name));
  }

  // Climbing out of a root is never inside it, whatever is named then, the root itself
  // included.
  lemma ClimbIsOutside(cwd: string, root: string, name: string)
    requires IsAbs(root) && Elements(cwd, root) != [] && CleanName(name)
    ensures !Inside(cwd, root, root + "/..")
    ensures !Inside(cwd, root, root + "/../" + name)
  {
    hide Elements, Inside;
    var up := root + "/..";
    assert IsAbs(up) && root + "/../" + name == up + "/" + name;
    ElementsMeaning(cwd, root, name);
    ElementsMeaning(cwd, up, name);
    InsideIsProperPrefix(cwd, root, up);
    InsideIsProperPrefix(cwd, root, up + "/" + name);
  }
}
