/** The directory walk against the tree: exactly the files that are reached without a hidden directory. */
module DirTree {
  import opened Options
  import opened Text
  import opened Paths
  import opened DirWalk

  /** The node that a list of names leads to. */
  function Find(nodes: Forest, names: seq<string>): Option<Node>
    requires names != []
    decreases nodes
  {
    match nodes
    case Nil => None
    case Cons(head, tail) =>
      if head.name != names[0] then Find(tail, names)
      else if |names| == 1 then Some(head)
      else if head.Folder? then Find(head.children, names[1..])
      else None
  }

  /** The path with the names behind it. */
  function PathOf(path: string, names: seq<string>): string
    decreases |names|
  {
    if names == [] then path else PathOf(Child(path, names[0]), names[1..])
  }

  /** A name that starts with a dot; "." itself can only be the start of the walk. */
  predicate Dotted(name: string) {
    HasPrefix(name, ".") && name != "."
  }

  lemma HiddenIsDotted(name: string)
    ensures Hidden(name) <==> Dotted(name)
  {
    if name != "" {
      assert name[..1] == [name[0]];
    }
  }

  predicate NoneDotted(names: seq<string>) {
    forall i :: 0 <= i < |names| ==> !Dotted(names[i])
  }

  /** No directory on the way starts with a dot, and neither does the node if it is a directory. */
  predicate Reached(nodes: Forest, names: seq<string>, node: Node) {
    && names != [] && Find(nodes, names) == Some(node)
    && NoneDotted(names[..|names| - 1]) && (node.Folder? ==> !Dotted(node.name))
  }

  /** What the walk reports for a node it reaches at a path. */
  predicate Reports(node: Node, path: string, e: Event) {
    match node
    case File(_, size, stat) => e == Visit(path, size, stat)
    case Folder(_, readable, _) => !readable && e == Trouble(path)
  }

  /** The event is one for a node that is reached. */
  ghost predicate Justified(path: string, nodes: Forest, e: Event) {
    exists names, node :: Reached(nodes, names, node) && Reports(node, PathOf(path, names), e)
  }

  lemma JustifiedBy(path: string, nodes: Forest, e: Event, names: seq<string>, node: Node)
    requires Reached(nodes, names, node) && Reports(node, PathOf(path, names), e)
    ensures Justified(path, nodes, e)
  {
  }

  lemma {:induction false} NotThere(nodes: Forest, names: seq<string>)
    requires names != [] && !Occurs(names[0], nodes)
    ensures Find(nodes, names) == None
    decreases nodes
  {
    if nodes.Cons? {
      NotThere(nodes.tail, names);
    }
  }

  lemma JustifiedLater(path: string, nodes: Forest, e: Event)
    requires nodes.Cons? && NamedAll(nodes) && Justified(path, nodes.tail, e)
    ensures Justified(path, nodes, e)
  {
    var names, node :| Reached(nodes.tail, names, node) && Reports(node, PathOf(path, names), e);
    if names[0] == nodes.head.name {
      NotThere(nodes.tail, names);
    }
    JustifiedBy(path, nodes, e, names, node);
  }

  lemma JustifiedHere(path: string, nodes: Forest, e: Event)
    requires nodes.Cons? && Reports(nodes.head, Child(path, nodes.head.name), e)
    requires nodes.head.Folder? ==> !Dotted(nodes.head.name)
    ensures Justified(path, nodes, e)
  {
    var names := [nodes.head.name];
    assert names[1..] == [] && names[..0] == [];
    JustifiedBy(path, nodes, e, names, nodes.head);
  }

  lemma JustifiedInside(path: string, nodes: Forest, e: Event)
    requires nodes.Cons? && nodes.head.Folder? && !Dotted(nodes.head.name)
    requires Justified(Child(path, nodes.head.name), nodes.head.children, e)
    ensures Justified(path, nodes, e)
  {
    var head := nodes.head;
    var names, node :| Reached(head.children, names, node) && Reports(node, PathOf(Child(path, head.name), names), e);
    var all := [head.name] + names;
    assert all[1..] == names;
    assert all[..|all| - 1] == [head.name] + names[..|names| - 1];
    JustifiedBy(path, nodes, e, all, node);
  }

  /** Whatever the walk reports stands in the tree. */
  lemma {:induction false} ReportedIsThere(path: string, nodes: Forest, i: nat)
    requires NamedAll(nodes) && i < |WalkAll(path, nodes)|
    ensures Justified(path, nodes, WalkAll(path, nodes)[i])
    decreases nodes
  {
    var head := nodes.head;
    var c := Child(path, head.name);
    var first, e := DirWalk.Walk(c, head), WalkAll(path, nodes)[i];
    HiddenIsDotted(head.name);
    if i >= |first| {
      ReportedIsThere(path, nodes.tail, i - |first|);
      JustifiedLater(path, nodes, e);
    } else if head.File? || (!head.readable && i == 0) {
      JustifiedHere(path, nodes, e);
    } else {
      var j := Inner(head, i);
      assert e == WalkAll(c, head.children)[j];
      ReportedIsThere(c, head.children, j);
      JustifiedInside(path, nodes, e);
    }
  }

  /** Whatever is reached in the tree is reported. */
  lemma {:induction false} ReachedIsReported(path: string, nodes: Forest, names: seq<string>, node: Node, e: Event)
    requires Reached(nodes, names, node) && Reports(node, PathOf(path, names), e)
    ensures e in WalkAll(path, nodes)
    decreases nodes
  {
    var head := nodes.head;
    var c := Child(path, head.name);
    HiddenIsDotted(head.name);
    if head.name != names[0] {
      ReachedIsReported(path, nodes.tail, names, node, e);
    } else if |names| == 1 {
      assert names[1..] == [];
      assert PathOf(path, names) == c;
      assert DirWalk.Walk(c, head)[0] == e;
    } else {
      var front := names[..|names| - 1];
      assert front[0] == names[0];
      assert names[1..][..|names| - 2] == front[1..];
      ReachedIsReported(c, head.children, names[1..], node, e);
      assert e in DirWalk.Walk(c, head);
    }
  }

  /** The walk of a directory reports exactly what is reached in it. */
  lemma WalkIff(path: string, nodes: Forest, e: Event)
    requires NamedAll(nodes)
    ensures e in WalkAll(path, nodes) <==> Justified(path, nodes, e)
  {
    if e in WalkAll(path, nodes) {
      var i :| 0 <= i < |WalkAll(path, nodes)| && WalkAll(path, nodes)[i] == e;
      ReportedIsThere(path, nodes, i);
    }
    if Justified(path, nodes, e) {
      var names, node :| Reached(nodes, names, node) && Reports(node, PathOf(path, names), e);
      ReachedIsReported(path, nodes, names, node, e);
    }
  }

  /** Below a root without a slash at its end the path is the root, a slash and the names with slashes between them. */
  lemma {:induction false} PathIsJoined(path: string, names: seq<string>)
    requires names != [] && AllReal(names) && path != "" && path[|path| - 1] != '/'
    ensures PathOf(path, names) == path + ("/" + JoinWith(names))
    decreases |names|
  {
    var c, sep := Child(path, names[0]), "/";
    assert c == path + (sep + names[0]);
    if |names| == 1 {
      assert names[1..] == [];
      assert PathOf(path, names) == PathOf(c, []) == c;
    } else {
      assert Real(names[0]);
      assert c == (path + sep) + names[0];
      EndsInName(c, path + sep, names[0]);
      PathIsJoined(c, names[1..]);
      Rejoin(path, sep, names[0], JoinWith(names[1..]));
    }
  }

  lemma EndsInName(c: string, front: string, name: string)
    requires c == front + name && Real(name)
    ensures c != "" && c[|c| - 1] != '/'
  {
    FreeAt('/', name, |name| - 1);
    assert c[|c| - 1] == name[|name| - 1];
  }

  lemma Rejoin(path: string, sep: string, name: string, rest: string)
    ensures (path + (sep + name)) + (sep + rest) == path + (sep + (name + (sep + rest)))
  {
  }
}
