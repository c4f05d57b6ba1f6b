/** A disk as a map from paths to entries: copying a directory tree against renaming it. */
module DiskTree {
  import opened Streams

  datatype Entry = Dir | File(content: Bytes)

  type Disk = map<string, Entry>

  /** `p` is `a` or lies inside it. */
  predicate Below(p: string, a: string) {
    p == a || Inside(p, a)
  }

  predicate Inside(p: string, a: string) {
    |a| < |p| && p[..|a|] == a && p[|a|] == '/'
  }

  predicate Apart(a: string, b: string) {
    !Below(a, b) && !Below(b, a)
  }

  /** The path with the beginning `a` exchanged for `b`. */
  function Shift(p: string, a: string, b: string): string
    requires |a| <= |p|
  {
    b + p[|a|..]
  }

  lemma ShiftBelow(p: string, a: string, b: string)
    requires Below(p, a)
    ensures Below(Shift(p, a, b), b) && Shift(Shift(p, a, b), b, a) == p
    ensures Inside(p, a) <==> Inside(Shift(p, a, b), b)
  {
    var q := Shift(p, a, b);
    assert q[..|b|] == b && q[|b|..] == p[|a|..];
    if Inside(p, a) {
      assert q[|b|] == p[|a|];
    }
  }

  /** Inside a folder is what continues its path with a slash; exchanging the folder keeps the rest. */
  lemma InsideSpelled(p: string, a: string, b: string)
    ensures Inside(p, a) <==> exists rest: string :: p == a + ("/" + rest)
    ensures Inside(p, a) ==> exists rest: string :: p == a + ("/" + rest) && Shift(p, a, b) == b + ("/" + rest)
    ensures Shift(a, a, b) == b
  {
    if Inside(p, a) {
      var rest := p[|a| + 1..];
      assert p[|a|..] == "/" + rest;
      assert p == a + ("/" + rest);
    }
    if rest: string :| p == a + ("/" + rest) {
      assert p[..|a|] == a;
    }
  }

  /** `e` has at `p` what `d` has at `q`. */
  predicate Same(e: Disk, p: string, d: Disk, q: string) {
    (p in e <==> q in d) && (p in e ==> e[p] == d[q])
  }

  /** What a copy leaves of an entry: a file copied onto itself is emptied before it is read. */
  function Pasted(entry: Entry, same: bool): Entry {
    if same && entry.File? then File([]) else entry
  }

  /** At `p` in `dst`, `e` has what `src` of `d` has in that place, and otherwise what was there. */
  predicate MergedAt(d: Disk, e: Disk, src: string, dst: string, p: string)
    requires |dst| <= |p|
  {
    var q := Shift(p, dst, src);
    if q in d then p in e && e[p] == Pasted(d[q], src == dst) else Same(e, p, d, p)
  }

  /** `e` is `d` with the tree at `src` copied over what is at `dst`. */
  ghost predicate Merged(d: Disk, e: Disk, src: string, dst: string) {
    && (forall p :: Below(p, dst) ==> MergedAt(d, e, src, dst, p))
    && (forall p :: !Below(p, dst) ==> Same(e, p, d, p))
  }

  /** On a free target that is a copy of the whole tree. */
  lemma MergedIntoFree(d: Disk, e: Disk, src: string, dst: string, p: string)
    requires Apart(src, dst) && Vacant(d, dst) && Merged(d, e, src, dst) && Below(p, dst)
    ensures Same(e, p, d, Shift(p, dst, src))
  {
    assert MergedAt(d, e, src, dst, p);
    assert Below(src, src);
  }

  /** Somewhere a file would have to become a directory, or a directory a file. */
  ghost predicate Clash(d: Disk, src: string, dst: string) {
    exists p :: Below(p, dst) && ClashAt(d, src, dst, p)
  }

  predicate ClashAt(d: Disk, src: string, dst: string, p: string)
    requires |dst| <= |p|
  {
    var q := Shift(p, dst, src);
    p in d && q in d && d[p].Dir? != d[q].Dir?
  }

  /** `f` is `d` with the tree at `src` at `dst` instead: what a rename to a free path does. */
  ghost predicate Moved(d: Disk, f: Disk, src: string, dst: string) {
    && (forall p :: Below(p, dst) ==> Same(f, p, d, Shift(p, dst, src)))
    && (forall p :: Below(p, src) ==> p !in f)
    && (forall p :: !Below(p, dst) && !Below(p, src) ==> Same(f, p, d, p))
  }

  ghost predicate Vacant(d: Disk, dst: string) {
    forall p :: p in d ==> !Below(p, dst)
  }

  function Removed(d: Disk, src: string): Disk {
    map p | p in d && !Below(p, src) :: d[p]
  }

  /** The rename as a function; what stands at the target stays unless something is moved over it. */
  function Renamed(d: Disk, src: string, dst: string): Disk {
    var kept := Removed(d, src);
    kept + map q | q in Targets(d, src, dst) :: if |dst| <= |q| && Shift(q, dst, src) in d then d[Shift(q, dst, src)] else Dir
  }

  lemma BothBelow(p: string, a: string, b: string)
    requires Below(p, a) && Below(p, b)
    ensures !Apart(a, b)
  {
    if |a| < |b| {
      assert b == p[..|b|] && b[..|a|] == p[..|a|] == a;
      assert b[|a|] == p[|a|];
    } else if |b| < |a| {
      assert a == p[..|a|] && a[..|b|] == p[..|b|] == b;
      assert a[|b|] == p[|b|];
    } else {
      assert a == p[..|a|] == p[..|b|] == b;
    }
  }

  function Targets(d: Disk, src: string, dst: string): set<string> {
    set p | p in d && Below(p, src) :: Shift(p, src, dst)
  }

  lemma TargetsAt(d: Disk, src: string, dst: string, q: string)
    ensures q in Targets(d, src, dst) <==> Below(q, dst) && Shift(q, dst, src) in d
  {
    if q in Targets(d, src, dst) {
      var p :| p in d && Below(p, src) && Shift(p, src, dst) == q;
      ShiftBelow(p, src, dst);
    }
    if Below(q, dst) && Shift(q, dst, src) in d {
      ShiftBelow(q, dst, src);
      assert Shift(Shift(q, dst, src), src, dst) == q;
    }
  }

  /** One path after a rename. */
  lemma RenamedAt(d: Disk, src: string, dst: string, p: string)
    requires Apart(src, dst)
    ensures var f := Renamed(d, src, dst);
            && (Below(p, dst) ==> MergedAt(d, f, src, dst, p))
            && (Below(p, dst) && Vacant(d, dst) ==> Same(f, p, d, Shift(p, dst, src)))
            && (Below(p, src) ==> p !in f)
            && (!Below(p, dst) && !Below(p, src) ==> Same(f, p, d, p))
  {
    TargetsAt(d, src, dst, p);
    if Below(p, src) && Below(p, dst) {
      BothBelow(p, src, dst);
    }
    assert Below(src, src);
  }

  lemma RenamedIsMoved(d: Disk, src: string, dst: string)
    requires Apart(src, dst) && Vacant(d, dst)
    ensures Moved(d, Renamed(d, src, dst), src, dst)
  {
    forall p
      ensures Below(p, dst) ==> Same(Renamed(d, src, dst), p, d, Shift(p, dst, src))
      ensures Below(p, src) ==> p !in Renamed(d, src, dst)
      ensures !Below(p, dst) && !Below(p, src) ==> Same(Renamed(d, src, dst), p, d, p)
    {
      RenamedAt(d, src, dst, p);
    }
  }

  /** Copying a tree and removing the original leaves the disk a rename leaves. */
  lemma CopyThenRemoveIsRename(d: Disk, e: Disk, src: string, dst: string)
    requires Apart(src, dst) && Merged(d, e, src, dst)
    ensures Removed(e, src) == Renamed(d, src, dst)
  {
    var f := Removed(e, src);
    forall p ensures Same(f, p, Renamed(d, src, dst), p) {
      RenamedAt(d, src, dst, p);
      if Below(p, dst) {
        assert MergedAt(d, e, src, dst, p);
        if Below(p, src) {
          BothBelow(p, dst, src);
        }
      } else {
        assert Same(e, p, d, p);
      }
    }
    SameEverywhere(f, Renamed(d, src, dst));
  }

  /** Moving a tree away and back restores the disk. */
  lemma MoveBack(d: Disk, src: string, dst: string)
    requires Apart(src, dst) && Vacant(d, dst)
    ensures Renamed(Renamed(d, src, dst), dst, src) == d
  {
    var f := Renamed(d, src, dst);
    forall p | p in f ensures !Below(p, src) {
      RenamedAt(d, src, dst, p);
    }
    var g := Renamed(f, dst, src);
    forall p ensures Same(g, p, d, p) {
      RenamedAt(f, dst, src, p);
      RenamedAt(d, src, dst, p);
      if Below(p, src) {
        ShiftBelow(p, src, dst);
        RenamedAt(d, src, dst, Shift(p, src, dst));
      }
    }
    SameEverywhere(g, d);
  }

  lemma SameEverywhere(a: Disk, b: Disk)
    requires forall p :: Same(a, p, b, p)
    ensures a == b
  {
    forall p ensures p in a <==> p in b {
      assert Same(a, p, b, p);
    }
    forall p | p in a ensures a[p] == b[p] {
      assert Same(a, p, b, p);
    }
  }
}
