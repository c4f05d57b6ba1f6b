/** The lexical path functions of Go's `path/filepath` on Unix, by components. */
module Paths {
  import opened Options
  import opened Text

  /** strings.Split(s, "/") */
  function Split(s: string): (r: seq<string>)
    ensures r != []
  {
    if s == "" then [""]
    else if s[0] == '/' then [""] + Split(s[1..])
    else var r := Split(s[1..]); [[s[0]] + r[0]] + r[1..]
  }

  /** strings.Join(parts, "/") */
  function JoinWith(parts: seq<string>): string {
    if parts == [] then ""
    else if |parts| == 1 then parts[0]
    else parts[0] + ("/" + JoinWith(parts[1..]))
  }

  predicate Rooted(p: string) {
    p != "" && p[0] == '/'
  }

  /** The component stack that filepath.Clean builds. */
  function Walk(parts: seq<string>, stack: seq<string>, rooted: bool): seq<string> {
    if parts == [] then stack
    else if parts[0] == "" || parts[0] == "." then Walk(parts[1..], stack, rooted)
    else if parts[0] != ".." then Walk(parts[1..], stack + [parts[0]], rooted)
    else if stack != [] && stack[|stack| - 1] != ".." then Walk(parts[1..], stack[..|stack| - 1], rooted)
    else Walk(parts[1..], if rooted then stack else stack + [".."], rooted)
  }

  function Components(p: string): seq<string> {
    Walk(Split(p), [], Rooted(p))
  }

  /** filepath.Clean */
  function CleanPath(p: string): string {
    if Rooted(p) then "/" + JoinWith(Components(p))
    else if Components(p) == [] then "."
    else JoinWith(Components(p))
  }

  /** filepath.Join of two elements */
  function Join(a: string, b: string): string {
    if a != "" then CleanPath(a + ("/" + b))
    else if b != "" then CleanPath(b)
    else ""
  }

  /** filepath.Rel on component lists */
  function RelParts(base: seq<string>, target: seq<string>): Option<seq<string>> {
    if base != [] && target != [] && base[0] == target[0] then RelParts(base[1..], target[1..])
    else if ".." in base then None
    else Some(seq(|base|, _ => "..") + target)
  }

  /** filepath.Rel; None for its error. */
  function Rel(base: string, target: string): Option<string> {
    if Rooted(base) != Rooted(target) then None
    else match RelParts(Components(base), Components(target))
      case None => None
      case Some(parts) => Some(if parts == [] then "." else JoinWith(parts))
  }

  /** filepath.Base */
  function Base(p: string): string {
    if p == "" then "." else LastName(Split(p))
  }

  function LastName(parts: seq<string>): string {
    if parts == [] then "/"
    else if parts[|parts| - 1] != "" then parts[|parts| - 1]
    else LastName(parts[..|parts| - 1])
  }

  /** What stands up to and including the last slash. */
  function UpToSlash(p: string): string {
    if p == "" || p[|p| - 1] == '/' then p else UpToSlash(p[..|p| - 1])
  }

  /** filepath.Dir */
  function Dir(p: string): string {
    CleanPath(UpToSlash(p))
  }

  /** filepath.Ext: from the last dot of the last component. */
  function Ext(p: string): (r: string)
    ensures HasSuffix(p, r)
    ensures r != "" ==> r[0] == '.' && Free('.', r[1..]) && Free('/', r)
    ensures r == "" ==> Free('/', p) ==> Free('.', p)
  {
    if p == "" then ""
    else
      var front, last := p[..|p| - 1], p[|p| - 1];
      if last == '/' then ""
      else if last == '.' then "."
      else
        var e := Ext(front);
        if e == "" then "" else e + [last]
  }

  /** strings.TrimSuffix */
  function TrimSuffix(s: string, suffix: string): string {
    if HasSuffix(s, suffix) then s[..|s| - |suffix|] else s
  }

  /** Names that a path keeps: neither empty nor ".". */
  function Names(parts: seq<string>): seq<string> {
    if parts == [] then []
    else (if parts[0] == "" || parts[0] == "." then [] else [parts[0]]) + Names(parts[1..])
  }

  predicate Real(name: string) {
    name != "" && name != "." && name != ".." && Free('/', name)
  }

  predicate AllReal(parts: seq<string>) {
    forall i :: 0 <= i < |parts| ==> Real(parts[i])
  }

  // ----------------------------------------------------------------- lemmas

  lemma {:induction false} SplitSep(a: string, b: string)
    ensures Split(a + ("/" + b)) == Split(a) + Split(b)
  {
    var s := a + ("/" + b);
    if a == "" {
      assert s == "/" + b && s[1..] == b;
    } else {
      assert s[1..] == a[1..] + ("/" + b);
      SplitSep(a[1..], b);
    }
  }

  lemma {:induction false} SplitFree(a: string)
    requires Free('/', a)
    ensures Split(a) == [a]
  {
    if a != "" {
      SplitFree(a[1..]);
      assert [a[0]] + a[1..] == a;
    }
  }

  lemma {:induction false} SplitSlashFree(s: string)
    ensures forall i :: 0 <= i < |Split(s)| ==> Free('/', Split(s)[i])
  {
    if s != "" {
      SplitSlashFree(s[1..]);
    }
  }

  lemma {:induction false} SplitJoin(parts: seq<string>)
    requires parts != [] && AllReal(parts)
    ensures Split(JoinWith(parts)) == parts
  {
    SplitFree(parts[0]);
    if |parts| > 1 {
      SplitJoin(parts[1..]);
      SplitSep(parts[0], JoinWith(parts[1..]));
    }
  }

  lemma {:induction false} JoinWithAppend(a: seq<string>, b: seq<string>)
    requires a != [] && b != []
    ensures JoinWith(a + b) == JoinWith(a) + ("/" + JoinWith(b))
  {
    assert (a + b)[1..] == a[1..] + b;
    if |a| > 1 {
      JoinWithAppend(a[1..], b);
    } else {
      assert a[1..] + b == b;
    }
  }

  lemma {:induction false} WalkAppend(a: seq<string>, b: seq<string>, stack: seq<string>, rooted: bool)
    ensures Walk(a + b, stack, rooted) == Walk(b, Walk(a, stack, rooted), rooted)
    decreases |a|
  {
    if a == [] {
      assert a + b == b;
    } else {
      assert (a + b)[1..] == a[1..] + b;
      var next :=
        if a[0] == "" || a[0] == "." then stack
        else if a[0] != ".." then stack + [a[0]]
        else if stack != [] && stack[|stack| - 1] != ".." then stack[..|stack| - 1]
        else if rooted then stack else stack + [".."];
      WalkAppend(a[1..], b, next, rooted);
    }
  }

  lemma {:induction false} WalkNames(parts: seq<string>, stack: seq<string>, rooted: bool)
    requires ".." !in parts
    ensures Walk(parts, stack, rooted) == stack + Names(parts)
  {
    if parts != [] {
      var next := if parts[0] == "" || parts[0] == "." then stack else stack + [parts[0]];
      WalkNames(parts[1..], next, rooted);
      assert parts[0] == "" || parts[0] == "." || stack + Names(parts) == (stack + [parts[0]]) + Names(parts[1..]);
    }
  }

  lemma {:induction false} NamesReal(parts: seq<string>)
    requires ".." !in parts && forall i :: 0 <= i < |parts| ==> Free('/', parts[i])
    ensures AllReal(Names(parts))
  {
    if parts != [] {
      NamesReal(parts[1..]);
    }
  }

  lemma {:induction false} NamesOfReal(parts: seq<string>)
    requires AllReal(parts)
    ensures Names(parts) == parts && ".." !in parts
  {
    if parts != [] {
      NamesOfReal(parts[1..]);
    }
  }

  lemma {:induction false} NamesAppend(a: seq<string>, b: seq<string>)
    ensures Names(a + b) == Names(a) + Names(b)
  {
    if a == [] {
      assert a + b == b;
    } else {
      assert (a + b)[1..] == a[1..] + b;
      NamesAppend(a[1..], b);
    }
  }

  /** The components of a rooted path are real names. */
  lemma {:induction false} WalkRootedReal(parts: seq<string>, stack: seq<string>)
    requires AllReal(stack) && forall i :: 0 <= i < |parts| ==> Free('/', parts[i])
    ensures AllReal(Walk(parts, stack, true))
  {
    if parts != [] {
      var next :=
        if parts[0] == "" || parts[0] == "." then stack
        else if parts[0] != ".." then stack + [parts[0]]
        else if stack != [] then stack[..|stack| - 1]
        else stack;
      WalkRootedReal(parts[1..], next);
    }
  }

  lemma ComponentsReal(p: string)
    requires Rooted(p)
    ensures AllReal(Components(p))
  {
    SplitSlashFree(p);
    WalkRootedReal(Split(p), []);
  }

  lemma {:induction false} WalkNotEmpty(parts: seq<string>, stack: seq<string>, rooted: bool)
    requires forall i :: 0 <= i < |stack| ==> |stack[i]| > 0
    ensures forall i :: 0 <= i < |Walk(parts, stack, rooted)| ==> |Walk(parts, stack, rooted)[i]| > 0
    decreases |parts|
  {
    if parts != [] {
      var top := parts[0];
      if top == "" || top == "." {
        WalkNotEmpty(parts[1..], stack, rooted);
      } else if top != ".." {
        WalkNotEmpty(parts[1..], stack + [top], rooted);
      } else if stack != [] && stack[|stack| - 1] != ".." {
        WalkNotEmpty(parts[1..], stack[..|stack| - 1], rooted);
      } else {
        WalkNotEmpty(parts[1..], if rooted then stack else stack + [".."], rooted);
      }
    }
  }

  /** A cleaned path is never empty. */
  lemma CleanPathNotEmpty(p: string)
    ensures CleanPath(p) != ""
  {
    WalkNotEmpty(Split(p), [], Rooted(p));
  }

  lemma NoNames()
    ensures Split("/") == ["", ""] && Split(".") == ["."]
    ensures Names(["", ""]) == [] && Names(["."]) == []
  {
    SplitFree(".");
    assert "/"[1..] == "";
    assert ["", ""][1..] == [""];
  }

  lemma RootedSplit(q: string)
    ensures Split("/" + q) == [""] + Split(q)
    ensures Names(Split("/" + q)) == Names(Split(q))
  {
    assert ("/" + q)[1..] == q;
  }

  /** A cleaned relative or rooted path without ".." has the names of the original, in order. */
  lemma NamesOfClean(p: string)
    requires ".." !in Split(p)
    ensures Names(Split(CleanPath(p))) == Names(Split(p)) && ".." !in Split(CleanPath(p))
  {
    var names := Names(Split(p));
    SplitSlashFree(p);
    NamesReal(Split(p));
    WalkNames(Split(p), [], Rooted(p));
    assert [] + names == names;
    NamesOfReal(names);
    if names == [] {
      NoNames();
    } else {
      SplitJoin(names);
      RootedSplit(JoinWith(names));
    }
  }

  /** Joining a rooted path with one that has no ".." appends the names of the second. */
  lemma JoinBelow(root: string, rel: string)
    requires Rooted(root) && ".." !in Split(rel)
    ensures Join(root, rel) == "/" + JoinWith(Components(root) + Names(Split(rel)))
    ensures Components(Join(root, rel)) == Components(root) + Names(Split(rel))
  {
    var p := root + ("/" + rel);
    var names := Components(root) + Names(Split(rel));
    SplitSep(root, rel);
    WalkAppend(Split(root), Split(rel), [], true);
    WalkNames(Split(rel), Components(root), true);
    assert Components(p) == names;
    ComponentsReal(root);
    SplitSlashFree(rel);
    NamesReal(Split(rel));
    RootedComponents(names);
  }

  lemma RootedComponents(names: seq<string>)
    requires AllReal(names)
    ensures Components("/" + JoinWith(names)) == names
  {
    var q := "/" + JoinWith(names);
    assert q[1..] == JoinWith(names);
    assert Split(q) == [""] + Split(JoinWith(names));
    if names != [] {
      SplitJoin(names);
    }
    NamesOfReal(names);
    assert ".." !in Split(q);
    WalkNames(Split(q), [], true);
    NamesAppend([""], Split(JoinWith(names)));
  }

  lemma {:induction false} RelOfPrefix(base: seq<string>, rest: seq<string>)
    ensures RelParts(base, base + rest) == Some(rest)
  {
    if base == [] {
      assert base + rest == rest;
      assert seq(|base|, _ => "..") + rest == rest;
      assert rest == [] || base == [];
    } else {
      assert (base + rest)[1..] == base[1..] + rest;
      RelOfPrefix(base[1..], rest);
    }
  }
}
