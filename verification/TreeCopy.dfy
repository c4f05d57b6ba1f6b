/** The recursive directory copy of the root folder migration. */
module TreeCopy {
  import opened Text
  import opened Streams
  import opened DiskTree

  function Child(path: string, name: string): string {
    path + ("/" + name)
  }

  /** What stands before the first slash. */
  function FirstName(rest: string): (n: string)
    ensures |n| <= |rest| && n == rest[..|n|] && Free('/', n)
    ensures |n| < |rest| ==> rest[|n|] == '/'
  {
    if rest == "" || rest[0] == '/' then "" else [rest[0]] + FirstName(rest[1..])
  }

  /** The part of a path inside a directory. */
  function Rest(p: string, dir: string): string
    requires Inside(p, dir)
  {
    p[|dir| + 1..]
  }

  /** The copy goes beside the original, or onto it. */
  predicate Placed(src: string, dst: string) {
    Apart(src, dst) || src == dst
  }

  /** The names os.ReadDir returns. */
  function Entries(d: Disk, dir: string): set<string> {
    set p | p in d && Inside(p, dir) && Free('/', Rest(p, dir)) :: Rest(p, dir)
  }

  /** Below `src`, every part of a path before a slash is a directory, and no name is empty. */
  ghost predicate TreeAt(d: Disk, src: string) {
    forall p, k :: p in d && Below(p, src) && |src| <= k < |p| && p[k] == '/' ==>
      p[..k] in d && d[p[..k]].Dir? && k + 1 < |p| && p[k + 1] != '/'
  }

  ghost function Inhabitants(d: Disk, src: string): set<string> {
    set p | p in d && Below(p, src)
  }

  // ---------------------------------------------------------------- names and paths

  predicate Leads(name: string, rest: string) {
    && |name| <= |rest| && rest[..|name|] == name && Free('/', name)
    && (|name| < |rest| ==> rest[|name|] == '/')
  }

  lemma NotLonger(rest: string, a: string, b: string)
    requires Leads(a, rest) && Leads(b, rest)
    ensures |b| <= |a|
  {
    forall k | 0 <= k < |b| ensures rest[k] != '/' {
      assert rest[k] == b[k];
    }
  }

  lemma OneFirstName(rest: string, a: string, b: string)
    requires Leads(a, rest) && Leads(b, rest)
    ensures a == b
  {
    NotLonger(rest, a, b);
    NotLonger(rest, b, a);
  }

  lemma InsideChild(p: string, dir: string, name: string)
    requires Inside(p, dir) && Free('/', name)
    ensures Below(p, Child(dir, name)) <==> FirstName(Rest(p, dir)) == name
  {
    var c := Child(dir, name);
    var rest := Rest(p, dir);
    var first := FirstName(rest);
    assert c[..|dir|] == dir && c[|dir|] == '/' && c[|dir| + 1..] == name;
    if Below(p, c) {
      assert p[..|c|] == c;
      forall i | 0 <= i < |name| ensures rest[i] == name[i] {
        assert rest[i] == p[..|c|][|dir| + 1 + i] == c[|dir| + 1 + i];
      }
      assert rest[..|name|] == name;
      assert |name| < |rest| ==> rest[|name|] == p[|c|];
      OneFirstName(rest, first, name);
    }
    if first == name {
      assert p[..|c|] == p[..|dir| + 1] + rest[..|name|];
      assert p[..|dir| + 1] == dir + "/";
      assert p[..|c|] == c;
      if |rest| > |name| {
        assert p[|c|] == rest[|name|];
      }
    }
  }

  lemma ChildBelow(p: string, dir: string, name: string)
    requires Below(p, Child(dir, name))
    ensures Inside(p, dir)
  {
    var c := Child(dir, name);
    assert p[..|c|] == c;
    assert c[..|dir|] == dir && c[|dir|] == '/';
    assert p[..|dir|] == c[..|dir|];
  }

  lemma ChildShift(p: string, src: string, dst: string, name: string)
    requires Below(p, Child(dst, name))
    ensures Inside(p, dst) && Shift(p, Child(dst, name), Child(src, name)) == Shift(p, dst, src)
  {
    ChildBelow(p, dst, name);
    var t, c := Child(dst, name), Child(src, name);
    assert p[..|t|] == t;
    assert p[|dst|..] == p[|dst|..|t|] + p[|t|..];
    assert p[|dst|..|t|] == t[|dst|..] == "/" + name;
  }

  lemma ChildrenPlaced(src: string, dst: string, name: string)
    requires Placed(src, dst)
    ensures Placed(Child(src, name), Child(dst, name)) && (Child(src, name) == Child(dst, name) <==> src == dst)
  {
    if src != dst {
      ChildrenApart(src, dst, name);
      assert Below(Child(src, name), Child(src, name));
    }
  }

  lemma ChildrenApart(src: string, dst: string, name: string)
    requires Apart(src, dst)
    ensures Apart(Child(src, name), Child(dst, name))
  {
    var c, t := Child(src, name), Child(dst, name);
    assert Below(c, c) && Below(t, t);
    ChildBelow(c, src, name);
    ChildBelow(t, dst, name);
    if Below(c, t) {
      ChildBelow(c, dst, name);
    }
    if Below(t, c) {
      ChildBelow(t, src, name);
    }
    if Below(t, src) {
      BothBelow(t, src, dst);
    }
  }

  /** Whatever lies inside a directory is reached through one of its entries. */
  lemma ReachedThroughEntry(d: Disk, src: string, p: string)
    requires TreeAt(d, src) && p in d && Inside(p, src)
    ensures FirstName(Rest(p, src)) in Entries(d, src)
  {
    var rest := Rest(p, src);
    var first := FirstName(rest);
    var c := p[..|src| + 1 + |first|];
    assert c[|src| + 1..] == first;
    assert c[..|src|] == src;
    assert p[|src|] == '/' ==> |src| + 1 < |p| && p[|src| + 1] != '/';
    assert rest[0] == p[|src| + 1];
    if |first| < |rest| {
      assert p[|c|] == '/';
      assert c in d;
    } else {
      assert c == p;
    }
    assert Inside(c, src) && Rest(c, src) == first;
  }

  // ---------------------------------------------------------------- one entry at a time

  /** Nothing changes but at and below `dst`. */
  ghost predicate KeptOutside(d: Disk, e: Disk, dst: string) {
    forall p :: !Below(p, dst) ==> Same(e, p, d, p)
  }

  ghost predicate KeptBelow(d: Disk, e: Disk, a: string) {
    forall p :: Below(p, a) ==> Same(e, p, d, p)
  }

  /** The copy of `src` over `dst` with the entries `done` in place and the others still to come. */
  ghost predicate Partly(d: Disk, e: Disk, src: string, dst: string, done: set<string>) {
    && dst in e && e[dst] == Dir && !(dst in d && d[dst].File?)
    && (forall p :: Inside(p, dst) ==>
          if FirstName(Rest(p, dst)) in done then MergedAt(d, e, src, dst, p) else Same(e, p, d, p))
    && KeptOutside(d, e, dst)
  }

  /** No entry that is done had to change its kind. */
  ghost predicate Smooth(d: Disk, src: string, dst: string, done: set<string>) {
    forall name :: name in done ==> !Clash(d, Child(src, name), Child(dst, name))
  }

  lemma StartCopy(d: Disk, e: Disk, src: string, dst: string)
    requires e == if dst in d then d else d[dst := Dir]
    requires dst in d ==> d[dst].Dir?
    ensures Partly(d, e, src, dst, {})
  {
  }

  /** The tree below an entry that is not done yet is as it was, at both ends. */
  lemma StillToCome(d: Disk, e: Disk, src: string, dst: string, done: set<string>, name: string)
    requires Placed(src, dst) && Partly(d, e, src, dst, done) && Free('/', name) && name !in done
    ensures KeptBelow(d, e, Child(src, name)) && KeptBelow(d, e, Child(dst, name))
  {
    forall p | Below(p, Child(dst, name)) ensures Same(e, p, d, p) {
      ChildBelow(p, dst, name);
      InsideChild(p, dst, name);
    }
    if src != dst {
      forall p | Below(p, Child(src, name)) ensures Same(e, p, d, p) {
        ChildBelow(p, src, name);
        if Below(p, dst) {
          BothBelow(p, src, dst);
        }
      }
    }
  }

  /** One path below the entry that was copied last. */
  lemma EntryAt(d: Disk, e: Disk, f: Disk, src: string, dst: string, name: string, p: string)
    requires Placed(src, dst) && Below(p, Child(dst, name))
    requires KeptBelow(d, e, Child(src, name)) && KeptBelow(d, e, Child(dst, name))
    requires MergedAt(e, f, Child(src, name), Child(dst, name), p)
    ensures Inside(p, dst) && MergedAt(d, f, src, dst, p)
  {
    ChildrenPlaced(src, dst, name);
    ChildShift(p, src, dst, name);
    ShiftBelow(p, Child(dst, name), Child(src, name));
    var q := Shift(p, dst, src);
    assert Same(e, q, d, q) && Same(e, p, d, p);
  }

  /** Copying one more entry. */
  lemma NextEntry(d: Disk, e: Disk, f: Disk, src: string, dst: string, done: set<string>, name: string)
    requires Placed(src, dst) && Partly(d, e, src, dst, done) && Free('/', name) && name !in done
    requires Merged(e, f, Child(src, name), Child(dst, name))
    ensures Partly(d, f, src, dst, done + {name})
  {
    var t := Child(dst, name);
    StillToCome(d, e, src, dst, done, name);
    forall p | Inside(p, dst)
      ensures if FirstName(Rest(p, dst)) in done + {name} then MergedAt(d, f, src, dst, p) else Same(f, p, d, p)
    {
      InsideChild(p, dst, name);
      if Below(p, t) {
        assert MergedAt(e, f, Child(src, name), t, p);
        EntryAt(d, e, f, src, dst, name, p);
      } else {
        assert Same(f, p, e, p);
      }
    }
    OutsideEntry(d, e, f, dst, name);
  }

  lemma OutsideEntry(d: Disk, e: Disk, f: Disk, dst: string, name: string)
    requires KeptOutside(d, e, dst) && KeptOutside(e, f, Child(dst, name))
    ensures KeptOutside(d, f, dst) && Same(f, dst, e, dst)
  {
    forall p | !Below(p, dst) ensures Same(f, p, d, p) {
      if Below(p, Child(dst, name)) {
        ChildBelow(p, dst, name);
      }
      assert Same(f, p, e, p) && Same(e, p, d, p);
    }
    assert !Below(dst, Child(dst, name)) by {
      if Below(dst, Child(dst, name)) {
        ChildBelow(dst, dst, name);
      }
    }
  }

  /** Whether an entry would have to change its kind is not affected by the entries before it. */
  lemma EntryClash(d: Disk, e: Disk, c: string, t: string)
    requires KeptBelow(d, e, c) && KeptBelow(d, e, t)
    ensures Clash(e, c, t) <==> Clash(d, c, t)
  {
    forall p | Below(p, t) ensures ClashAt(e, c, t, p) <==> ClashAt(d, c, t, p) {
      ShiftBelow(p, t, c);
      assert Same(e, p, d, p) && Same(e, Shift(p, t, c), d, Shift(p, t, c));
    }
  }

  /** A clash inside a directory is one inside one of its entries. */
  lemma ClashInEntry(d: Disk, src: string, dst: string, name: string)
    ensures Clash(d, Child(src, name), Child(dst, name)) ==> Clash(d, src, dst)
  {
    var c, t := Child(src, name), Child(dst, name);
    if p :| Below(p, t) && ClashAt(d, c, t, p) {
      ChildShift(p, src, dst, name);
      assert ClashAt(d, src, dst, p);
    }
  }

  lemma ClashHasEntry(d: Disk, src: string, dst: string, p: string) returns (name: string)
    requires TreeAt(d, src) && Inside(p, dst) && ClashAt(d, src, dst, p)
    ensures name in Entries(d, src) && Clash(d, Child(src, name), Child(dst, name))
  {
    var q := Shift(p, dst, src);
    ShiftBelow(p, dst, src);
    assert Rest(q, src) == Rest(p, dst);
    ReachedThroughEntry(d, src, q);
    name := FirstName(Rest(p, dst));
    InsideChild(p, dst, name);
    ChildShift(p, src, dst, name);
    assert ClashAt(d, Child(src, name), Child(dst, name), p);
  }

  lemma NoClashAtAll(d: Disk, src: string, dst: string)
    requires src in d && d[src].Dir? && TreeAt(d, src) && !(dst in d && d[dst].File?)
    requires Smooth(d, src, dst, Entries(d, src))
    ensures !Clash(d, src, dst)
  {
    assert Shift(dst, dst, src) == src;
    forall p | Below(p, dst) ensures !ClashAt(d, src, dst, p) {
      if Inside(p, dst) && ClashAt(d, src, dst, p) {
        var _ := ClashHasEntry(d, src, dst, p);
      }
    }
  }

  lemma FinishCopy(d: Disk, e: Disk, src: string, dst: string)
    requires src in d && d[src].Dir? && TreeAt(d, src) && Partly(d, e, src, dst, Entries(d, src))
    ensures Merged(d, e, src, dst)
  {
    forall p | Below(p, dst) ensures MergedAt(d, e, src, dst, p) {
      var q := Shift(p, dst, src);
      ShiftBelow(p, dst, src);
      if p == dst {
        assert q == src;
      } else {
        assert Rest(q, src) == Rest(p, dst);
        if q in d {
          ReachedThroughEntry(d, src, q);
        }
      }
    }
  }

  lemma TreeKept(d: Disk, e: Disk, a: string)
    requires TreeAt(d, a) && KeptBelow(d, e, a)
    ensures TreeAt(e, a) && Inhabitants(e, a) == Inhabitants(d, a)
  {
    forall p | Below(p, a) ensures p in e <==> p in d {
      assert Same(e, p, d, p);
    }
    forall p, k | p in e && Below(p, a) && |a| <= k < |p| && p[k] == '/'
      ensures p[..k] in e && e[p[..k]].Dir? && k + 1 < |p| && p[k + 1] != '/'
    {
      assert Same(e, p, d, p);
      assert p[..k][..|a|] == p[..|a|] == a;
      if k > |a| {
        assert p[..k][|a|] == p[|a|];
      }
      assert Same(e, p[..k], d, p[..k]);
    }
  }

  lemma TreeInside(d: Disk, src: string, name: string)
    requires TreeAt(d, src)
    ensures TreeAt(d, Child(src, name)) && Inhabitants(d, Child(src, name)) <= Inhabitants(d, src) - {src}
  {
    forall p | Below(p, Child(src, name)) ensures Inside(p, src) {
      ChildBelow(p, src, name);
    }
  }

  lemma NothingInsideFile(e: Disk, src: string, q: string)
    requires src in e && e[src].File? && TreeAt(e, src) && Inside(q, src)
    ensures q !in e
  {
    assert q[..|src|] == src;
  }

  /** Copying a file is copying the tree below it. */
  lemma FileIsTree(e: Disk, src: string, dst: string)
    requires src in e && e[src].File? && TreeAt(e, src)
    ensures Clash(e, src, dst) <==> dst in e && e[dst].Dir?
    ensures Merged(e, e[dst := Pasted(e[src], src == dst)], src, dst)
  {
    var f := e[dst := Pasted(e[src], src == dst)];
    forall p | Below(p, dst) ensures MergedAt(e, f, src, dst, p) && (p != dst ==> !ClashAt(e, src, dst, p)) {
      var q := Shift(p, dst, src);
      ShiftBelow(p, dst, src);
      if p != dst {
        NothingInsideFile(e, src, q);
      } else {
        assert q == src;
      }
    }
    assert Shift(dst, dst, src) == src;
    if dst in e && e[dst].Dir? {
      assert Below(dst, dst) && ClashAt(e, src, dst, dst);
    }
  }

  lemma EntryNames(d: Disk, src: string, name: string)
    requires name in Entries(d, src)
    ensures Free('/', name) && Child(src, name) in d
  {
    var p :| p in d && Inside(p, src) && Free('/', Rest(p, src)) && Rest(p, src) == name;
    assert p == p[..|src|] + (p[|src|..|src| + 1] + p[|src| + 1..]);
    assert p[|src|..|src| + 1] == "/";
    assert p == Child(src, name);
  }

  // ---------------------------------------------------------------- the file system

  /** How far the copy of one file comes. */
  datatype Copying = Whole | Unopened | Stopped(after: nat)

  /** Which directories can be made or listed, and how the copies of files go. */
  datatype Faults = Faults(makes: string -> bool, lists: string -> bool, copies: string -> Copying)

  ghost predicate Perfect(f: Faults) {
    forall p :: f.makes(p) && f.lists(p) && f.copies(p) == Whole
  }

  class FileSystem {
    var disk: Disk

    /** A directory whose parents exist. */
    method Mkdir(path: string, works: bool) returns (ok: bool)
      modifies this
      ensures disk == if ok && path !in old(disk) then old(disk)[path := Dir] else old(disk)
      ensures ok <==> works && (path in old(disk) ==> old(disk)[path].Dir?)
    {
      if !works || (path in disk && disk[path].File?) {
        return false;
      }
      if path !in disk {
        disk := disk[path := Dir];
      }
      ok := true;
    }

    /** The source is opened first; opening the destination empties it, and a copy that stops leaves a beginning. */
    method CopyFile(src: string, dst: string, c: Copying) returns (ok: bool)
      requires src in disk && disk[src].File?
      modifies this
      ensures ok <==> c.Whole? && !(dst in old(disk) && old(disk)[dst].Dir?)
      ensures ok ==> disk == old(disk)[dst := Pasted(old(disk)[src], src == dst)]
      ensures KeptOutside(old(disk), disk, dst)
    {
      var content := disk[src].content;
      if c.Unopened? || (dst in disk && disk[dst].Dir?) {
        return false;
      }
      disk := disk[dst := File([])];
      if src == dst {
        return c.Whole?;
      }
      if c.Stopped? {
        disk := disk[dst := File(if c.after < |content| then content[..c.after] else content)];
        return false;
      }
      disk := disk[dst := File(content)];
      ok := true;
    }

    /** One entry of a directory: the tree or the file. */
    method CopyEntry(src: string, dst: string, f: Faults) returns (ok: bool)
      requires src in disk && TreeAt(disk, src) && Placed(src, dst)
      modifies this
      ensures ok ==> Merged(old(disk), disk, src, dst) && !Clash(old(disk), src, dst)
      ensures KeptOutside(old(disk), disk, dst)
      ensures Perfect(f) && !Clash(old(disk), src, dst) ==> ok
      decreases Inhabitants(disk, src), 3
    {
      if disk[src].Dir? {
        ok := CopyDir(src, dst, f);
      } else {
        FileIsTree(disk, src, dst);
        ok := CopyFile(src, dst, f.copies(src));
      }
    }

    /** The entry `name` of the directory `src` of `d`, after the entries `done`. */
    method CopyNext(src: string, dst: string, f: Faults, name: string, ghost d: Disk, ghost done: set<string>)
      returns (ok: bool)
      requires src in d && TreeAt(d, src) && Placed(src, dst) && Partly(d, disk, src, dst, done)
      requires name in Entries(d, src) && name !in done
      modifies this
      ensures ok ==> Partly(d, disk, src, dst, done + {name}) && !Clash(d, Child(src, name), Child(dst, name))
      ensures KeptOutside(d, disk, dst)
      ensures Perfect(f) && !Clash(d, src, dst) ==> ok
      decreases Inhabitants(d, src), 0
    {
      ghost var e := disk;
      EntryIsReady(d, e, src, dst, done, name);
      ok := CopyEntry(Child(src, name), Child(dst, name), f);
      OutsideEntry(d, e, disk, dst, name);
      if ok {
        NextEntry(d, e, disk, src, dst, done, name);
      }
    }

    /**
     * Copies a directory with all it contains over what is at the target, in any order of its entries; the
     * first error ends it.
     */
    method CopyDir(src: string, dst: string, f: Faults) returns (ok: bool)
      requires src in disk && TreeAt(disk, src) && Placed(src, dst)
      modifies this
      ensures ok ==> Merged(old(disk), disk, src, dst) && !Clash(old(disk), src, dst) && old(disk)[src].Dir?
      ensures KeptOutside(old(disk), disk, dst)
      ensures Perfect(f) && old(disk)[src].Dir? && !Clash(old(disk), src, dst) ==> ok
      decreases Inhabitants(disk, src), 2
    {
      ghost var d := disk;
      TargetClash(d, src, dst);
      ok := Mkdir(dst, f.makes(dst));
      if !ok {
        return;
      }
      StartCopy(d, disk, src, dst);
      StillEntries(d, disk, src, dst);
      if disk[src].File? || !f.lists(src) {
        return false;
      }
      ok := CopyEntries(src, dst, f, d);
      if ok {
        FinishCopy(d, disk, src, dst);
        NoClashAtAll(d, src, dst);
      }
    }

    /** The loop over the entries. */
    method CopyEntries(src: string, dst: string, f: Faults, ghost d: Disk) returns (ok: bool)
      requires src in d && TreeAt(d, src) && Placed(src, dst) && Partly(d, disk, src, dst, {})
      requires Entries(disk, src) == Entries(d, src)
      modifies this
      ensures ok ==> Partly(d, disk, src, dst, Entries(d, src)) && Smooth(d, src, dst, Entries(d, src))
      ensures KeptOutside(d, disk, dst)
      ensures Perfect(f) && !Clash(d, src, dst) ==> ok
      decreases Inhabitants(d, src), 1
    {
      var names := Entries(disk, src);
      ghost var done: set<string> := {};
      ok := true;
      while names != {}
        invariant Split(Entries(d, src), names, done)
        invariant Partly(d, disk, src, dst, done) && Smooth(d, src, dst, done) && ok
        decreases |names|
      {
        var name :| name in names;
        NextSplit(Entries(d, src), names, done, name);
        ok := CopyNext(src, dst, f, name, d, done);
        if !ok {
          return;
        }
        done := done + {name};
        names := names - {name};
      }
      LastSplit(Entries(d, src), done);
    }
  }

  /** The names of the loop: those to come and those done. */
  ghost predicate Split(all: set<string>, names: set<string>, done: set<string>) {
    done == all - names && names <= all
  }

  lemma NextSplit(all: set<string>, names: set<string>, done: set<string>, name: string)
    requires Split(all, names, done) && name in names
    ensures name in all && name !in done && Split(all, names - {name}, done + {name})
  {
  }

  lemma LastSplit(all: set<string>, done: set<string>)
    requires Split(all, {}, done)
    ensures done == all
  {
  }

  lemma EntryIsReady(d: Disk, e: Disk, src: string, dst: string, done: set<string>, name: string)
    requires src in d && TreeAt(d, src) && Placed(src, dst) && Partly(d, e, src, dst, done)
    requires name in Entries(d, src) && name !in done
    ensures var c, t := Child(src, name), Child(dst, name);
            && Free('/', name) && c in e && TreeAt(e, c) && Placed(c, t)
            && Inhabitants(e, c) <= Inhabitants(d, src) - {src}
            && (Clash(e, c, t) <==> Clash(d, c, t)) && (Clash(d, c, t) ==> Clash(d, src, dst))
  {
    var c, t := Child(src, name), Child(dst, name);
    EntryNames(d, src, name);
    ChildrenPlaced(src, dst, name);
    StillToCome(d, e, src, dst, done, name);
    assert Same(e, c, d, c);
    TreeInside(d, src, name);
    TreeKept(d, e, c);
    EntryClash(d, e, c, t);
    ClashInEntry(d, src, dst, name);
  }

  /** A file where the target directory should be is a clash. */
  lemma TargetClash(d: Disk, src: string, dst: string)
    requires src in d
    ensures d[src].Dir? && dst in d && d[dst].File? ==> Clash(d, src, dst)
  {
    assert Shift(dst, dst, src) == src;
    assert Below(dst, dst) && (d[src].Dir? && dst in d && d[dst].File? ==> ClashAt(d, src, dst, dst));
  }

  lemma StillEntries(d: Disk, e: Disk, src: string, dst: string)
    requires Placed(src, dst) && src in d && (dst in d ==> d[dst].Dir?)
    requires e == if dst in d then d else d[dst := Dir]
    ensures Entries(e, src) == Entries(d, src) && src in e && e[src] == d[src]
  {
    assert Below(dst, dst);
    forall p | Inside(p, src) ensures p in e <==> p in d {
      if p == dst {
        assert Below(dst, src);
      }
    }
  }
}
