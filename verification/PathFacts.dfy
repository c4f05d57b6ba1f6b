/** The path functions determined from the end of a path: what one more element does to each of them. */
module PathFacts {
  import opened Options
  import opened Text
  import opened Paths
  import PathInfo

  // ---------------------------------------------------------------- cleaning

  /** What one more element does to the components of a path. */
  function Onto(stack: seq<string>, name: string, rooted: bool): seq<string> {
    if name == "" || name == "." then stack
    else if name == ".." && stack != [] && stack[|stack| - 1] != ".." then stack[..|stack| - 1]
    else if name == ".." && rooted then stack
    else stack + [name]
  }

  lemma WalkOne(name: string, stack: seq<string>, rooted: bool)
    ensures Walk([name], stack, rooted) == Onto(stack, name, rooted)
  {
    assert [name][1..] == [];
  }

  /**
   * Components from left to right: an empty element and "." change nothing, ".." takes away the last name or, at the
   * root, nothing, and stays where there is no name to take away; any other element is added.
   */
  lemma OneMoreElement(p: string, name: string)
    requires p != "" && Free('/', name)
    ensures var c, d := Components(p), Components(p + ("/" + name));
            && (name == "" || name == "." ==> d == c)
            && (name == ".." && c != [] && c[|c| - 1] != ".." ==> d == c[..|c| - 1])
            && (name == ".." && (c == [] || c[|c| - 1] == "..") ==> d == if p[0] == '/' then c else c + [".."])
            && (name != "" && name != "." && name != ".." ==> d == c + [name])
  {
    SplitSep(p, name);
    SplitFree(name);
    WalkAppend(Split(p), [name], [], Rooted(p));
    WalkOne(name, Components(p), Rooted(p));
    if Rooted(p) {
      ComponentsReal(p);
    }
  }

  /** The first element of a path, absolute or relative. */
  lemma FirstElement(name: string)
    requires Free('/', name)
    ensures Components("/" + name) == if name == "" || name == "." || name == ".." then [] else [name]
    ensures Components(name) == if name == "" || name == "." then [] else [name]
  {
    SplitFree(name);
    RootedSplit(name);
    WalkAppend([""], [name], [], true);
    WalkOne("", [], true);
    WalkOne(name, [], true);
    WalkOne(name, [], false);
  }

  /** A cleaned path is its components with slashes between them, behind a slash if the path was absolute. */
  lemma CleanSpelled(p: string, names: seq<string>, last: string)
    requires Components(p) == names + [last]
    ensures CleanPath(p) == (if p != "" && p[0] == '/' then "/" else "") + (if names == [] then last else JoinWith(names) + ("/" + last))
  {
    if names == [] {
      assert names + [last] == [last];
    } else {
      JoinWithAppend(names, [last]);
    }
    var nothing, joined := "", JoinWith(names + [last]);
    assert nothing + joined == joined;
  }

  lemma CleanNothing(p: string)
    requires Components(p) == []
    ensures CleanPath(p) == if p != "" && p[0] == '/' then "/" else "."
  {
    var slash, nothing := "/", "";
    assert slash + nothing == slash;
  }

  // ---------------------------------------------------------------- relative paths

  /** From one place to another: up as often as the first has names of its own, then down the second's. */
  lemma {:induction false} RelSpelled(common: seq<string>, a: seq<string>, b: seq<string>)
    requires a == [] || b == [] || a[0] != b[0]
    requires ".." !in a
    ensures RelParts(common + a, common + b).Some?
    ensures var parts := RelParts(common + a, common + b).value;
            |parts| == |a| + |b| && (forall i :: 0 <= i < |a| ==> parts[i] == "..") && parts[|a|..] == b
  {
    if common == [] {
      assert common + a == a && common + b == b;
    } else {
      assert (common + a)[1..] == common[1..] + a && (common + b)[1..] == common[1..] + b;
      RelSpelled(common[1..], a, b);
    }
  }

  // ---------------------------------------------------------------- the last element

  lemma LastOfAppend(parts: seq<string>, name: string)
    requires name != ""
    ensures LastName(parts + [name]) == name
  {
  }

  /** The base of a path is its last element, and slashes behind it do not count. */
  lemma BaseSpelled(dir: string, name: string)
    requires Free('/', name) && name != ""
    ensures Base(name) == name && Base(dir + ("/" + name)) == name
  {
    SplitFree(name);
    SplitSep(dir, name);
    LastOfAppend(Split(dir), name);
    LastOfAppend([], name);
    assert [] + [name] == [name];
  }

  lemma BaseOfSlash(p: string, slash: string, none: string)
    requires slash == "/" && none == ""
    ensures p != "" ==> Base(p + (slash + none)) == Base(p)
    ensures Base(slash) == slash && Base(none) == "."
  {
    SplitSep(p, none);
    var parts := Split(p) + [none];
    assert parts[..|parts| - 1] == Split(p);
    SplitSep(none, none);
    assert none + (slash + none) == slash;
    var two := [none] + [none];
    assert two[..1] == [none] && [none][..0] == [];
    assert LastName([none]) == "/";
    assert LastName(two) == "/";
  }

  lemma {:induction false} CutAtSlash(dir: string, name: string)
    requires Free('/', name)
    ensures UpToSlash(dir + ("/" + name)) == dir + "/"
  {
    var p := dir + ("/" + name);
    if name == "" {
      assert p == dir + "/";
    } else {
      assert p[..|p| - 1] == dir + ("/" + name[..|name| - 1]);
      assert p[|p| - 1] == name[|name| - 1];
      CutAtSlash(dir, name[..|name| - 1]);
    }
  }

  lemma {:induction false} NoSlash(name: string)
    requires Free('/', name)
    ensures UpToSlash(name) == ""
  {
    if name != "" {
      NoSlash(name[..|name| - 1]);
    }
  }

  /** The directory of a path is the cleaned path without its last element. */
  lemma DirSpelled(dir: string, name: string)
    requires Free('/', name)
    ensures dir != "" ==> Dir(dir + ("/" + name)) == CleanPath(dir)
    ensures Dir("/" + name) == "/" && Dir(name) == "."
  {
    CutAtSlash(dir, name);
    CutAtSlash("", name);
    NoSlash(name);
    var slash, none := "/", "";
    assert none + ("/" + name) == "/" + name && none + slash == slash;
    FirstElement(none);
    CleanNothing(none);
    assert slash + none == slash;
    CleanNothing(slash);
    if dir != "" {
      OneMoreElement(dir, none);
      assert slash + none == slash;
    }
  }

  // ---------------------------------------------------------------- extensions

  lemma {:induction false} NoDotNoExt(dir: string, name: string)
    requires Free('/', name) && Free('.', name)
    ensures Ext(dir + ("/" + name)) == "" && Ext(name) == ""
  {
    var p := dir + ("/" + name);
    if name == "" {
      assert p[|p| - 1] == '/';
    } else {
      assert p[..|p| - 1] == dir + ("/" + name[..|name| - 1]);
      assert p[|p| - 1] == name[|name| - 1];
      NoDotNoExt(dir, name[..|name| - 1]);
    }
  }

  /** The extension is what stands from the last dot of the last element on, and nothing if there is no dot. */
  lemma ExtSpelled(dir: string, stem: string, ext: string)
    requires Free('.', ext) && Free('/', ext)
    ensures Ext(stem + ("." + ext)) == "." + ext
    ensures Ext(dir + ("/" + ext)) == "" && Ext(ext) == ""
  {
    PathInfo.SuffixExt(stem, ext);
    NoDotNoExt(dir, ext);
  }

  lemma TrimSuffixSpelled(s: string, suffix: string)
    ensures TrimSuffix(s + suffix, suffix) == s
    ensures TrimSuffix(s, suffix) != s ==> s == TrimSuffix(s, suffix) + suffix
  {
    assert (s + suffix)[|s|..] == suffix;
  }
}
