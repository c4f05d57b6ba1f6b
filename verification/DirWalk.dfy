/** A directory tree, and the calls that filepath.WalkDir makes while the scanner walks it. */
module DirWalk {
  import opened Text
  import opened Paths

  /** `stat` tells whether the file can be examined; `readable` whether the directory could be listed. */
  datatype Node =
    | File(name: string, size: nat, stat: bool)
    | Folder(name: string, readable: bool, children: Forest)

  datatype Forest = Nil | Cons(head: Node, tail: Forest)

  /** What the root path leads to. */
  datatype Root = Missing | Present(node: Node)

  datatype Event = Visit(path: string, size: nat, stat: bool) | Trouble(path: string)

  /** filepath.Join of a clean path and an entry name. */
  function Child(path: string, name: string): (r: string)
    ensures HasPrefix(r, path)
  {
    if path != "" && path[|path| - 1] == '/' then path + name else path + ("/" + name)
  }

  /** The directories the scanner skips, with all they contain. */
  predicate Hidden(name: string) {
    name != "" && name[0] == '.' && name != "."
  }

  /** The calls for one node: files, and directories that could not be listed. */
  function Walk(path: string, node: Node): seq<Event>
    decreases node
  {
    match node
    case File(_, size, stat) => [Visit(path, size, stat)]
    case Folder(name, readable, children) =>
      if Hidden(name) then []
      else (if readable then [] else [Trouble(path)]) + WalkAll(path, children)
  }

  function WalkAll(path: string, nodes: Forest): seq<Event>
    decreases nodes
  {
    match nodes
    case Nil => []
    case Cons(head, tail) => Walk(Child(path, head.name), head) + WalkAll(path, tail)
  }

  function WalkRoot(path: string, root: Root): seq<Event> {
    match root
    case Missing => [Trouble(path)]
    case Present(node) => Walk(path, node)
  }

  // ---------------------------------------------------------------- paths of the walk

  /** `p` is `path` itself or lies below it. */
  predicate AtOrBelow(p: string, path: string) {
    p == path || HasPrefix(p, Child(path, ""))
  }

  lemma {:induction false} BelowTwice(p: string, path: string, name: string)
    requires AtOrBelow(p, Child(path, name)) && name != ""
    ensures HasPrefix(p, Child(path, name)) && HasPrefix(p, Child(path, ""))
    ensures AtOrBelow(p, path)
  {
    var c := Child(path, name);
    assert HasPrefix(c, Child(path, ""));
    assert HasPrefix(p, c);
    assert p[..|Child(path, "")|] == c[..|Child(path, "")|];
  }

  ghost predicate Named(node: Node)
    decreases node
  {
    Real(node.name) && (node.Folder? ==> NamedAll(node.children))
  }

  /** Entries of one directory have proper names, and no two have the same. */
  ghost predicate NamedAll(nodes: Forest)
    decreases nodes
  {
    nodes.Cons? ==> Named(nodes.head) && NamedAll(nodes.tail) && !Occurs(nodes.head.name, nodes.tail)
  }

  predicate Occurs(name: string, nodes: Forest) {
    nodes.Cons? && (nodes.head.name == name || Occurs(name, nodes.tail))
  }

  ghost predicate WellNamed(root: Root) {
    root.Present? && root.node.Folder? ==> NamedAll(root.node.children)
  }

  /** Everything the walk reports is at or below the node it started from. */
  lemma {:induction false} WalkStaysBelow(path: string, node: Node)
    requires node.Folder? ==> NamedAll(node.children)
    ensures forall i :: 0 <= i < |Walk(path, node)| ==> AtOrBelow(Walk(path, node)[i].path, path)
    decreases node
  {
    if node.Folder? {
      WalkAllStaysBelow(path, node.children);
    }
  }

  lemma {:induction false} WalkAllStaysBelow(path: string, nodes: Forest)
    requires NamedAll(nodes)
    ensures forall i :: 0 <= i < |WalkAll(path, nodes)| ==> HasPrefix(WalkAll(path, nodes)[i].path, Child(path, ""))
    decreases nodes
  {
    if nodes.Cons? {
      var c := Child(path, nodes.head.name);
      var first := Walk(c, nodes.head);
      WalkStaysBelow(c, nodes.head);
      forall i | 0 <= i < |first| ensures HasPrefix(first[i].path, Child(path, "")) {
        BelowTwice(first[i].path, path, nodes.head.name);
      }
      WalkAllStaysBelow(path, nodes.tail);
    }
  }

  /** No directory on the way down a path is hidden; the last name may be that of a hidden file. */
  predicate ThroughVisible(rest: string) {
    forall k :: 0 <= k < |Split(rest)| - 1 ==> !Hidden(Split(rest)[k])
  }

  predicate VisibleBelow(p: string, path: string) {
    var base := Child(path, "");
    HasPrefix(p, base) && ThroughVisible(p[|base|..])
  }

  /** Nothing inside a hidden directory below the start of the walk is reported. */
  lemma {:induction false} WalkSkipsHidden(path: string, nodes: Forest, i: nat)
    requires NamedAll(nodes) && i < |WalkAll(path, nodes)|
    ensures VisibleBelow(WalkAll(path, nodes)[i].path, path)
    decreases nodes
  {
    var c := Child(path, nodes.head.name);
    var first := Walk(c, nodes.head);
    if i >= |first| {
      WalkSkipsHidden(path, nodes.tail, i - |first|);
    } else {
      EntryVisible(path, nodes.head.name);
      FolderEntry(c, nodes.head, i);
      if first[i].path != c {
        WalkSkipsHidden(c, nodes.head.children, Inner(nodes.head, i));
        OneMoreFolder(path, nodes.head.name, first[i].path);
      }
    }
  }

  /** The place of a folder's call among those for its entries. */
  function Inner(folder: Node, i: nat): int
    requires folder.Folder?
  {
    if folder.readable then i else i - 1
  }

  lemma FolderEntry(path: string, node: Node, i: nat)
    requires i < |Walk(path, node)|
    ensures Walk(path, node)[i].path == path ||
            (node.Folder? && !Hidden(node.name) && 0 <= Inner(node, i) < |WalkAll(path, node.children)|
             && Walk(path, node)[i] == WalkAll(path, node.children)[Inner(node, i)])
  {
  }

  lemma EntryVisible(path: string, name: string)
    requires Real(name)
    ensures VisibleBelow(Child(path, name), path)
  {
    SplitFree(name);
    assert Child(path, name)[|Child(path, "")|..] == name;
  }

  lemma ChildOfChild(base: string, name: string)
    requires Real(name)
    ensures Child(base + name, "") == base + (name + "/")
  {
    var c := base + name;
    FreeAt('/', name, |name| - 1);
    assert c[|c| - 1] == name[|name| - 1];
  }

  lemma NameFirst(name: string, rest: string)
    requires Real(name) && !Hidden(name) && ThroughVisible(rest)
    ensures ThroughVisible(name + ("/" + rest))
  {
    SplitFree(name);
    SplitSep(name, rest);
  }

  lemma CutName(base: string, name: string, sep: string, p: string)
    requires HasPrefix(p, base + (name + sep))
    ensures HasPrefix(p, base) && p[|base|..] == name + (sep + p[|base + (name + sep)|..])
  {
    var front := base + (name + sep);
    assert p == front + p[|front|..];
    assert p[..|base|] == front[..|base|];
  }

  lemma OneMoreFolder(path: string, name: string, p: string)
    requires Real(name) && !Hidden(name) && VisibleBelow(p, Child(path, name))
    ensures VisibleBelow(p, path)
  {
    var base, inner, sep := Child(path, ""), Child(Child(path, name), ""), "/";
    assert inner == base + (name + sep) by {
      assert Child(path, name) == base + name;
      ChildOfChild(base, name);
    }
    var rest := p[|inner|..];
    CutName(base, name, sep, p);
    assert ThroughVisible(name + (sep + rest)) by {
      NameFirst(name, rest);
    }
  }

  /** No file is reported twice. */
  ghost predicate NoRepeats(events: seq<Event>) {
    forall i, j :: 0 <= i < j < |events| && events[i].Visit? && events[j].Visit? ==> events[i].path != events[j].path
  }

  lemma SiblingsApart(p: string, path: string, a: string, b: string)
    requires Real(a) && Real(b) && AtOrBelow(p, Child(path, a)) && AtOrBelow(p, Child(path, b))
    ensures a == b
  {
    var base := Child(path, "");
    assert Child(path, a) == base + a && Child(path, b) == base + b;
    var rest := p[|base|..];
    BelowTwice(p, path, a);
    BelowTwice(p, path, b);
    FirstName(p, base, a);
    FirstName(p, base, b);
    OneFirstName(rest, a, b);
  }

  /** `name` is what stands before the first slash. */
  predicate StartsWithName(rest: string, name: string) {
    rest == name || HasPrefix(rest, name + "/")
  }

  lemma FirstName(p: string, base: string, name: string)
    requires Real(name) && AtOrBelow(p, base + name) && HasPrefix(p, base)
    ensures StartsWithName(p[|base|..], name)
  {
    var full := base + name;
    assert name[|name| - 1] != '/' by {
      FreeAt('/', name, |name| - 1);
    }
    assert full[|full| - 1] == name[|name| - 1];
    if p != full {
      assert Child(full, "") == full + "/";
      assert p[|base|..][..|name| + 1] == (full + "/")[|base|..];
      assert (full + "/")[|base|..] == name + "/";
    } else {
      assert p[|base|..] == name;
    }
  }

  lemma FreeAt(c: char, s: string, i: nat)
    requires Free(c, s) && i < |s|
    ensures s[i] != c
  {
  }

  lemma OneFirstName(rest: string, a: string, b: string)
    requires Free('/', a) && Free('/', b) && StartsWithName(rest, a) && StartsWithName(rest, b)
    ensures a == b
  {
    assert HasPrefix(rest, a) && HasPrefix(rest, b);
    NotShorter(rest, a, b);
    NotShorter(rest, b, a);
  }

  lemma NotShorter(rest: string, a: string, b: string)
    requires Free('/', b) && StartsWithName(rest, a) && StartsWithName(rest, b)
    ensures |b| <= |a|
  {
    NoSlashInside(rest, b);
    assert rest != a ==> rest[|a|] == (a + "/")[|a|] == '/';
  }

  lemma NoSlashInside(rest: string, b: string)
    requires Free('/', b) && HasPrefix(rest, b)
    ensures forall k :: 0 <= k < |b| ==> rest[k] != '/'
  {
    forall k | 0 <= k < |b| ensures rest[k] != '/' {
      assert rest[k] == b[k];
    }
  }

  lemma {:induction false} WalkOnce(path: string, node: Node)
    requires node.Folder? ==> NamedAll(node.children)
    ensures NoRepeats(Walk(path, node))
    decreases node
  {
    if node.Folder? {
      WalkAllOnce(path, node.children);
    }
  }

  lemma {:induction false} WalkAllOnce(path: string, nodes: Forest)
    requires NamedAll(nodes)
    ensures NoRepeats(WalkAll(path, nodes))
    decreases nodes
  {
    if nodes.Cons? {
      var c := Child(path, nodes.head.name);
      WalkOnce(c, nodes.head);
      WalkAllOnce(path, nodes.tail);
      var first, rest := Walk(c, nodes.head), WalkAll(path, nodes.tail);
      forall i, j | 0 <= i < |first| && 0 <= j < |rest| ensures first[i].path != rest[j].path {
        WalkStaysBelow(c, nodes.head);
        NotInTail(path, nodes.head.name, nodes.tail, first[i].path, j);
      }
    }
  }

  lemma {:induction false} NotInTail(path: string, name: string, nodes: Forest, p: string, j: nat)
    requires NamedAll(nodes) && Real(name) && !Occurs(name, nodes)
    requires AtOrBelow(p, Child(path, name)) && j < |WalkAll(path, nodes)|
    ensures WalkAll(path, nodes)[j].path != p
    decreases nodes
  {
    var c := Child(path, nodes.head.name);
    var first := Walk(c, nodes.head);
    WalkStaysBelow(c, nodes.head);
    if j < |first| {
      if first[j].path == p {
        SiblingsApart(p, path, name, nodes.head.name);
      }
    } else {
      NotInTail(path, name, nodes.tail, p, j - |first|);
    }
  }
}
