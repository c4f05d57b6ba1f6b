/** Moving a root folder: the folders of its authors on disk, and the paths in three tables. */
module RootFolder {
  import opened Text
  import opened Sql
  import opened DiskTree
  import opened TreeCopy
  import Paths

  datatype Id = Id(n: nat)

  /** A table of paths. */
  type PathTable = map<Id, string>

  // ---------------------------------------------------------------- rewriting paths

  /** SUBSTR(s, n + 1) */
  function Substr(s: string, n: nat): string {
    if n <= |s| then s[n..] else ""
  }

  /** `new || SUBSTR(path, length of old + 1)` */
  function SqlRewrite(path: string, was: string, now: string): string {
    now + Substr(path, |was|)
  }

  /** strings.Replace(path, old, new, 1) */
  function GoRewrite(path: string, was: string, now: string): string {
    if HasPrefix(path, was) then now + path[|was|..]
    else if path == "" then ""
    else [path[0]] + GoRewrite(path[1..], was, now)
  }

  function Rewritten(path: string, was: string, now: string): string {
    if Under(was, path) then SqlRewrite(path, was, now) else path
  }

  /** UPDATE ... SET path = ... WHERE path LIKE ... */
  function RewriteAll(rows: PathTable, was: string, now: string): PathTable {
    map id | id in rows :: Rewritten(rows[id], was, now)
  }

  /** On every path with the old prefix the folder and its row get the same new path. */
  lemma RewritesAgree(path: string, was: string, now: string)
    requires HasPrefix(path, was)
    ensures GoRewrite(path, was, now) == Rewritten(path, was, now) == Shift(path, was, now)
  {
    PrefixIsUnder(was, path);
  }

  lemma {:induction false} NothingToReplace(path: string, was: string, now: string)
    requires !Contains(path, was)
    ensures GoRewrite(path, was, now) == path
  {
    if path != "" {
      NothingToReplace(path[1..], was, now);
    }
  }

  /**
   * For a selected path that does not contain the old one: its folder stays, and its row says so exactly when
   * the row happens to be rewritten to itself.
   */
  lemma RewritesDiverge(path: string, was: string, now: string)
    requires Under(was, path) && !Contains(path, was)
    ensures GoRewrite(path, was, now) == path
    ensures Rewritten(path, was, now) == path <==>
            HasPrefix(path, now) && |now| == if |was| <= |path| then |was| else |path|
  {
    NothingToReplace(path, was, now);
    var r, tail := SqlRewrite(path, was, now), Substr(path, |was|);
    assert r == now + tail && r[..|now|] == now;
    if HasPrefix(path, now) && |now| == |path| - |tail| {
      assert path == path[..|now|] + path[|now|..];
    }
  }

  /** `was` stands in `path` behind its first `k` characters, and not before. */
  predicate FirstAt(path: string, was: string, k: nat) {
    k <= |path| && HasPrefix(path[k..], was) && forall j :: 0 <= j < k ==> !HasPrefix(path[j..], was)
  }

  lemma NextFirst(path: string, was: string, k: nat)
    requires FirstAt(path, was, k) && k > 0
    ensures !HasPrefix(path, was) && FirstAt(path[1..], was, k - 1)
  {
    assert path[0..] == path;
    forall j | 0 <= j < k ensures path[1..][j..] == path[j + 1..] {
    }
  }

  lemma FirstFits(path: string, was: string, k: nat)
    requires FirstAt(path, was, k)
    ensures k + |was| <= |path| && path[k..][|was|..] == path[k + |was|..]
  {
    assert |path[k..]| == |path| - k;
  }

  lemma ReplacedHere(path: string, was: string, now: string)
    requires HasPrefix(path[0..], was)
    ensures |was| <= |path| && GoRewrite(path, was, now) == path[..0] + (now + path[0 + |was|..])
  {
    assert path[0..] == path;
  }

  lemma {:induction false} ReplacedAt(path: string, was: string, now: string, k: nat)
    requires FirstAt(path, was, k)
    ensures k + |was| <= |path| && GoRewrite(path, was, now) == path[..k] + (now + path[k + |was|..])
  {
    FirstFits(path, was, k);
    if k == 0 {
      ReplacedHere(path, was, now);
    } else {
      NextFirst(path, was, k);
      ReplacedAt(path[1..], was, now, k - 1);
      OneFurther(path, was, now, k, k + |was|);
    }
  }

  lemma OneFurther(path: string, was: string, now: string, k: nat, l: nat)
    requires 0 < k <= l <= |path| && !HasPrefix(path, was)
    requires GoRewrite(path[1..], was, now) == path[1..][..k - 1] + (now + path[1..][l - 1..])
    ensures GoRewrite(path, was, now) == path[..k] + (now + path[l..])
  {
    BackInFront(path, now, k, l);
  }

  lemma BackInFront(path: string, now: string, k: nat, l: nat)
    requires 0 < k <= l <= |path|
    ensures [path[0]] + (path[1..][..k - 1] + (now + path[1..][l - 1..])) == path[..k] + (now + path[l..])
  {
    assert path[..k] == [path[0]] + path[1..][..k - 1];
    assert path[1..][l - 1..] == path[l..];
  }

  lemma ReplacedLater(pre: string, post: string, was: string, now: string)
    requires FirstAt(pre + (was + post), was, |pre|)
    ensures GoRewrite(pre + (was + post), was, now) == pre + (now + post)
  {
    var path := pre + (was + post);
    ReplacedAt(path, was, now, |pre|);
    assert path[..|pre|] == pre && path[|pre| + |was|..] == post;
  }

  /**
   * For a selected path that contains the old one, first behind `pre`: the folder and the row agree exactly
   * when `pre` can stand on either side. With nothing before it they always do.
   */
  lemma RewritesAgreeIff(pre: string, post: string, was: string, now: string)
    requires Under(was, pre + (was + post)) && FirstAt(pre + (was + post), was, |pre|)
    ensures var path := pre + (was + post);
            GoRewrite(path, was, now) == Rewritten(path, was, now) <==> pre + now == now + (pre + was)[|was|..]
  {
    ReplacedLater(pre, post, was, now);
    SplitAfter(pre, was, post);
    SameParts(pre, now, (pre + was)[|was|..], post);
  }

  lemma SplitAfter(pre: string, was: string, post: string)
    ensures |was| <= |pre + (was + post)| && (pre + (was + post))[|was|..] == (pre + was)[|was|..] + post
  {
    assert pre + (was + post) == (pre + was) + post;
  }

  lemma SameParts(pre: string, now: string, part: string, post: string)
    ensures pre + (now + post) == now + (part + post) <==> pre + now == now + part
  {
    assert pre + (now + post) == (pre + now) + post;
    assert now + (part + post) == (now + part) + post;
    SameEnd(pre + now, now + part, post);
  }

  lemma SameEnd(a: string, b: string, post: string)
    ensures a + post == b + post <==> a == b
  {
    if a + post == b + post {
      assert a == (a + post)[..|a|] && b == (b + post)[..|b|];
    }
  }

  lemma {:induction false} RewrittenToItself(path: string, was: string)
    ensures GoRewrite(path, was, was) == path
  {
    if HasPrefix(path, was) {
      assert path == was + path[|was|..];
    } else if path != "" {
      RewrittenToItself(path[1..], was);
    }
  }

  lemma RowBack(path: string, was: string, now: string)
    ensures Rewritten(Rewritten(path, was, now), now, was) == path <==>
            if Under(was, path) then HasPrefix(path, was) else !Under(now, path)
  {
    if Under(was, path) {
      var there := SqlRewrite(path, was, now);
      assert there[..|now|] == now && there[|now|..] == Substr(path, |was|);
      PrefixIsUnder(now, there);
      var back := SqlRewrite(there, now, was);
      assert back == was + Substr(path, |was|);
      assert back[..|was|] == was;
      if HasPrefix(path, was) {
        assert path == path[..|was|] + path[|was|..];
      }
    } else if Under(now, path) {
      var back := SqlRewrite(path, now, was);
      assert back[..|was|] == was;
      PrefixIsUnder(was, back);
    }
  }

  /**
   * Moving back restores a table exactly when every row the filter selects really has the old prefix, and no
   * other row is selected by the filter of the new path.
   */
  lemma MoveBackRestoresRows(rows: PathTable, was: string, now: string)
    ensures RewriteAll(RewriteAll(rows, was, now), now, was) == rows <==>
            forall id :: id in rows ==>
              if Under(was, rows[id]) then HasPrefix(rows[id], was) else !Under(now, rows[id])
  {
    var back := RewriteAll(RewriteAll(rows, was, now), now, was);
    forall id | id in rows
      ensures back[id] == rows[id] <==>
              if Under(was, rows[id]) then HasPrefix(rows[id], was) else !Under(now, rows[id])
    {
      RowBack(rows[id], was, now);
    }
    assert back.Keys == rows.Keys;
    if back == rows {
      forall id | id in rows ensures back[id] == rows[id] {
      }
    }
  }

  // ---------------------------------------------------------------- moving folders

  /** One author folder to move. */
  datatype Move = Move(src: string, dst: string)

  /** Which calls work; `removes` tells for each path whether removing the tree it is in gets to it. */
  datatype World = World(
    found: bool,
    makes: bool,
    queried: bool,
    renames: string -> bool,
    removes: string -> bool,
    faults: Faults,
    commits: bool,
    reread: bool)

  /**
   * A folder goes to a place beside it or stays where it is; no author folder lies in another one, and no
   * target in a folder or in another target.
   */
  ghost predicate Independent(moves: seq<Move>) {
    && (forall i :: 0 <= i < |moves| ==> Placed(moves[i].src, moves[i].dst))
    && (forall i, j :: 0 <= i < |moves| && 0 <= j < |moves| && i != j ==>
          && Apart(moves[i].src, moves[j].dst)
          && Apart(moves[i].src, moves[j].src) && Apart(moves[i].dst, moves[j].dst))
  }

  /** The folders are trees. */
  ghost predicate Ready(d: Disk, moves: seq<Move>) {
    forall i :: 0 <= i < |moves| ==> TreeAt(d, moves[i].src)
  }

  /** An entry of a directory that was copied onto itself, and then removed if the removal got to it. */
  predicate EmptiedAt(d: Disk, e: Disk, p: string, gone: bool) {
    if p in d && !gone then p in e && e[p] == Pasted(d[p], true) else p !in e
  }

  /**
   * What a move that ends well has done: the folder has arrived, merged with what was at the target, and has
   * left its old place unless its removal failed. A directory moved onto itself is emptied and removed.
   */
  ghost predicate Settled(d: Disk, e: Disk, m: Move, w: World)
    requires m.src in d
  {
    if m.src != m.dst then
      && (forall p :: Below(p, m.dst) ==> MergedAt(d, e, m.src, m.dst, p))
      && (forall p :: Below(p, m.src) && p in e ==> Same(e, p, d, p) && !w.removes(p))
    else if d[m.src].File? then KeptBelow(d, e, m.src)
    else forall p :: Below(p, m.src) ==> EmptiedAt(d, e, p, w.removes(p))
  }

  ghost predicate Untouched(d: Disk, e: Disk, m: Move) {
    KeptBelow(d, e, m.src) && KeptBelow(d, e, m.dst)
  }

  /** `p` is a directory above `path`, made between `d` and `e`. */
  predicate NewParent(d: Disk, e: Disk, path: string, p: string) {
    p !in d && p in e && e[p].Dir? && Inside(path, p)
  }

  /** `e` has at most some more directories that `path` lies in. */
  ghost predicate MoreParents(d: Disk, e: Disk, path: string) {
    forall p :: Same(e, p, d, p) || NewParent(d, e, path, p)
  }

  /** Nothing changes but below the two ends of a move, and in new directories above its target. */
  ghost predicate OnlyMoved(d: Disk, e: Disk, m: Move) {
    forall p :: !Below(p, m.src) && !Below(p, m.dst) ==> Same(e, p, d, p) || NewParent(d, e, m.dst, p)
  }

  /** A file stands where a directory above `path` should be. */
  ghost predicate Obstructed(d: Disk, path: string) {
    exists k :: 0 < k < |path| && path[k] == '/' && path[..k] in d && d[path[..k]].File?
  }

  /** A rename does not replace a directory, nor a file by a directory. */
  predicate RenameWorks(d: Disk, m: Move, w: World) {
    w.renames(m.src) && (m.dst in d ==> d[m.dst].File? && m.src in d && d[m.src].File?)
  }

  /** Nothing stands in the way of this move. */
  ghost predicate Movable(d: Disk, m: Move, w: World) {
    m.src in d ==>
      && !Obstructed(d, m.dst)
      && (RenameWorks(d, m, w) || (Perfect(w.faults) && d[m.src].Dir? && !Clash(d, m.src, m.dst)))
  }

  lemma BelowBelow(p: string, a: string, b: string)
    requires Below(p, a) && Below(a, b)
    ensures Below(p, b)
  {
    assert p[..|a|] == a && a[..|b|] == b;
    assert p[..|b|] == p[..|a|][..|b|];
    if |b| < |a| {
      assert p[|b|] == a[|b|];
    }
  }

  lemma OthersUntouched(d: Disk, e: Disk, m: Move, o: Move)
    requires OnlyMoved(d, e, m) && Apart(m.src, o.src) && Apart(m.src, o.dst) && Apart(m.dst, o.src) && Apart(m.dst, o.dst)
    ensures Untouched(d, e, o)
  {
    forall p | Below(p, o.src) ensures Same(e, p, d, p) {
      Elsewhere(p, o.src, m);
    }
    forall p | Below(p, o.dst) ensures Same(e, p, d, p) {
      Elsewhere(p, o.dst, m);
    }
  }

  lemma Elsewhere(p: string, a: string, m: Move)
    requires Below(p, a) && Apart(m.src, a) && Apart(m.dst, a)
    ensures !Below(p, m.src) && !Below(p, m.dst) && !Inside(m.dst, p)
  {
    if Below(p, m.src) {
      BothBelow(p, a, m.src);
    }
    if Below(p, m.dst) {
      BothBelow(p, a, m.dst);
    }
    if Inside(m.dst, p) {
      BelowBelow(m.dst, p, a);
    }
  }

  lemma StillUnobstructed(d: Disk, e: Disk, m: Move, o: string)
    requires OnlyMoved(d, e, m) && Apart(m.src, o) && Apart(m.dst, o) && !Obstructed(d, o)
    ensures !Obstructed(e, o)
  {
    forall k | 0 < k < |o| && o[k] == '/' && o[..k] in e ensures e[o[..k]].Dir? {
      var p := o[..k];
      assert Below(o, p);
      if Below(p, m.src) {
        BelowBelow(o, p, m.src);
      }
      if Below(p, m.dst) {
        BelowBelow(o, p, m.dst);
      }
      assert Same(e, p, d, p) || NewParent(d, e, m.dst, p);
    }
  }

  lemma ParentsUnobstructed(d: Disk, e: Disk, path: string, o: string)
    requires MoreParents(d, e, path) && !Obstructed(d, o)
    ensures !Obstructed(e, o)
  {
    forall k | 0 < k < |o| && o[k] == '/' && o[..k] in e ensures e[o[..k]].Dir? {
      assert Same(e, o[..k], d, o[..k]) || NewParent(d, e, path, o[..k]);
    }
  }

  lemma ParentsOutside(d: Disk, e: Disk, m: Move)
    requires Placed(m.src, m.dst) && MoreParents(d, e, m.dst)
    ensures OnlyMoved(d, e, m) && Untouched(d, e, m)
  {
    forall p | Below(p, m.src) ensures Same(e, p, d, p) {
      if Inside(m.dst, p) {
        BelowBelow(m.dst, p, m.src);
      }
    }
    forall p | Below(p, m.dst) ensures Same(e, p, d, p) {
      assert !Inside(m.dst, p);
    }
  }

  lemma StillMovable(d: Disk, e: Disk, m: Move, w: World)
    requires Untouched(d, e, m) && (!Obstructed(d, m.dst) ==> !Obstructed(e, m.dst))
    ensures Movable(d, m, w) ==> Movable(e, m, w)
  {
    assert Below(m.src, m.src) && Below(m.dst, m.dst);
    assert Same(e, m.src, d, m.src) && Same(e, m.dst, d, m.dst);
    EntryClash(d, e, m.src, m.dst);
  }

  lemma KeptTwice(d: Disk, e: Disk, f: Disk, a: string)
    requires KeptBelow(d, e, a) && KeptBelow(e, f, a)
    ensures KeptBelow(d, f, a)
  {
    forall p | Below(p, a) ensures Same(f, p, d, p) {
      assert Same(f, p, e, p) && Same(e, p, d, p);
    }
  }

  lemma SettledLater(d: Disk, e: Disk, f: Disk, m: Move, w: World)
    requires m.src in d && m.src in e && Untouched(d, e, m) && Settled(e, f, m, w)
    ensures Settled(d, f, m, w)
  {
    assert Below(m.src, m.src) && Same(e, m.src, d, m.src);
    forall p | Below(p, m.dst) ensures MergedAt(e, f, m.src, m.dst, p) ==> MergedAt(d, f, m.src, m.dst, p) {
      ShiftBelow(p, m.dst, m.src);
      assert Same(e, p, d, p) && Same(e, Shift(p, m.dst, m.src), d, Shift(p, m.dst, m.src));
    }
    forall p | Below(p, m.src) ensures Same(e, p, d, p) {
    }
  }

  lemma SettledStays(d: Disk, e: Disk, f: Disk, m: Move, w: World)
    requires m.src in d && Settled(d, e, m, w) && Untouched(e, f, m)
    ensures Settled(d, f, m, w)
  {
    forall p | Below(p, m.dst) ensures Same(f, p, e, p) {
    }
    forall p | Below(p, m.src) ensures Same(f, p, e, p) {
    }
  }

  /** Making parents, then moving. */
  lemma ParentsThenMove(d: Disk, e: Disk, f: Disk, m: Move)
    requires MoreParents(d, e, m.dst) && forall p :: !Below(p, m.src) && !Below(p, m.dst) ==> Same(f, p, e, p)
    ensures OnlyMoved(d, f, m)
  {
    forall p | !Below(p, m.src) && !Below(p, m.dst) ensures Same(f, p, d, p) || NewParent(d, f, m.dst, p) {
      assert Same(f, p, e, p);
      assert Same(e, p, d, p) || NewParent(d, e, m.dst, p);
    }
  }

  /** The folders moved so far have settled; the others are where they were. */
  ghost predicate Progress(d: Disk, e: Disk, moves: seq<Move>, i: nat, w: World) {
    && (forall k :: 0 <= k < i && k < |moves| && moves[k].src in d ==> Settled(d, e, moves[k], w))
    && (forall k :: i <= k < |moves| ==> Untouched(d, e, moves[k]))
  }

  lemma NextMove(d: Disk, e: Disk, f: Disk, moves: seq<Move>, i: nat, w: World)
    requires Independent(moves) && i < |moves| && Progress(d, e, moves, i, w)
    requires OnlyMoved(e, f, moves[i]) && (moves[i].src in d <==> moves[i].src in e)
    requires moves[i].src in d ==> Settled(e, f, moves[i], w)
    ensures Progress(d, f, moves, i + 1, w)
  {
    forall k | 0 <= k < |moves| && k != i ensures Untouched(e, f, moves[k]) {
      OthersUntouched(e, f, moves[i], moves[k]);
    }
    forall k | 0 <= k < i + 1 && moves[k].src in d ensures Settled(d, f, moves[k], w) {
      if k < i {
        SettledStays(d, e, f, moves[k], w);
      } else {
        SettledLater(d, e, f, moves[k], w);
      }
    }
    forall k | i + 1 <= k < |moves| ensures Untouched(d, f, moves[k]) {
      KeptTwice(d, e, f, moves[k].src);
      KeptTwice(d, e, f, moves[k].dst);
    }
  }

  // ---------------------------------------------------------------- the methods

  lemma OneMoreParent(d: Disk, e: Disk, path: string, parent: string)
    requires MoreParents(d, e, path) && Inside(path, parent)
    ensures parent !in e ==> MoreParents(d, e[parent := Dir], path)
  {
    if parent !in e {
      var f := e[parent := Dir];
      forall p ensures Same(f, p, d, p) || NewParent(d, f, path, p) {
        assert Same(e, p, d, p) || NewParent(d, e, path, p);
      }
    }
  }

  /** The directories above a target. */
  method MakeParents(fs: FileSystem, path: string, works: bool) returns (ok: bool)
    modifies fs
    ensures MoreParents(old(fs.disk), fs.disk, path)
    ensures works && !Obstructed(old(fs.disk), path) ==> ok
  {
    if !works {
      return false;
    }
    ghost var d := fs.disk;
    var k := 1;
    while k < |path|
      invariant 1 <= k
      invariant MoreParents(d, fs.disk, path)
    {
      if path[k] == '/' {
        var parent := path[..k];
        assert Inside(path, parent);
        assert Same(fs.disk, parent, d, parent) || NewParent(d, fs.disk, path, parent);
        OneMoreParent(d, fs.disk, path, parent);
        ok := fs.Mkdir(parent, true);
        if !ok {
          return;
        }
      }
      k := k + 1;
    }
    ok := true;
  }

  /** What removing the tree at `src` leaves. */
  function Pruned(d: Disk, src: string, removes: string -> bool): Disk {
    map p | p in d && !(Below(p, src) && removes(p)) :: d[p]
  }

  lemma RenamedSettles(d: Disk, m: Move, w: World)
    requires Apart(m.src, m.dst) && m.src in d
    ensures var f := Renamed(d, m.src, m.dst);
            && Settled(d, f, m, w)
            && forall p :: !Below(p, m.src) && !Below(p, m.dst) ==> Same(f, p, d, p)
  {
    var f := Renamed(d, m.src, m.dst);
    assert Below(m.src, m.src);
    forall p
      ensures Below(p, m.dst) ==> MergedAt(d, f, m.src, m.dst, p)
      ensures Below(p, m.src) ==> p !in f
      ensures !Below(p, m.dst) && !Below(p, m.src) ==> Same(f, p, d, p)
    {
      RenamedAt(d, m.src, m.dst, p);
    }
  }

  lemma CopiedSettles(d: Disk, e: Disk, m: Move, w: World)
    requires Placed(m.src, m.dst) && m.src in d && d[m.src].Dir? && Merged(d, e, m.src, m.dst)
    ensures var f := Pruned(e, m.src, w.removes);
            && Settled(d, f, m, w)
            && forall p :: !Below(p, m.src) && !Below(p, m.dst) ==> Same(f, p, d, p)
  {
    var f := Pruned(e, m.src, w.removes);
    forall p | !Below(p, m.src) && !Below(p, m.dst) ensures Same(f, p, d, p) {
      assert Same(e, p, d, p);
    }
    if m.src == m.dst {
      forall p | Below(p, m.src) ensures EmptiedAt(d, f, p, w.removes(p)) {
        assert MergedAt(d, e, m.src, m.dst, p);
        assert Shift(p, m.src, m.src) == p;
      }
    } else {
      CopiedBeside(d, e, f, m, w);
    }
  }

  lemma CopiedBeside(d: Disk, e: Disk, f: Disk, m: Move, w: World)
    requires Apart(m.src, m.dst) && Merged(d, e, m.src, m.dst) && f == Pruned(e, m.src, w.removes)
    ensures forall p :: Below(p, m.dst) ==> MergedAt(d, f, m.src, m.dst, p)
    ensures forall p :: Below(p, m.src) && p in f ==> Same(f, p, d, p) && !w.removes(p)
  {
    forall p | Below(p, m.dst) ensures MergedAt(d, f, m.src, m.dst, p) {
      assert MergedAt(d, e, m.src, m.dst, p);
      if Below(p, m.src) {
        BothBelow(p, m.src, m.dst);
      }
    }
    forall p | Below(p, m.src) && p in f ensures Same(f, p, d, p) && !w.removes(p) {
      if Below(p, m.dst) {
        BothBelow(p, m.src, m.dst);
      }
      assert Same(e, p, d, p);
    }
  }

  /** Up to new directories above the target, the disk a rename leaves. */
  ghost predicate LikeRename(d: Disk, f: Disk, m: Move) {
    exists e :: MoreParents(d, e, m.dst) && f == Renamed(e, m.src, m.dst)
  }

  lemma AllPruned(d: Disk, src: string, removes: string -> bool)
    requires forall p :: Below(p, src) ==> removes(p)
    ensures Pruned(d, src, removes) == Removed(d, src)
  {
  }

  /** The rename, or the copy and the removal; a removal that fails is ignored. */
  method Transfer(fs: FileSystem, m: Move, w: World) returns (ok: bool)
    requires m.src in fs.disk && Placed(m.src, m.dst) && TreeAt(fs.disk, m.src)
    modifies fs
    ensures forall p :: !Below(p, m.src) && !Below(p, m.dst) ==> Same(fs.disk, p, old(fs.disk), p)
    ensures ok ==> Settled(old(fs.disk), fs.disk, m, w)
    ensures ok && m.src != m.dst && (RenameWorks(old(fs.disk), m, w) || forall p :: Below(p, m.src) ==> w.removes(p)) ==>
              fs.disk == Renamed(old(fs.disk), m.src, m.dst)
    ensures RenameWorks(old(fs.disk), m, w) ==> ok
    ensures Perfect(w.faults) && old(fs.disk)[m.src].Dir? && !Clash(old(fs.disk), m.src, m.dst) ==> ok
  {
    ghost var d := fs.disk;
    if RenameWorks(fs.disk, m, w) {
      if m.src != m.dst {
        RenamedSettles(d, m, w);
        fs.disk := Renamed(fs.disk, m.src, m.dst);
      }
      return true;
    }
    ok := fs.CopyDir(m.src, m.dst, w.faults);
    if !ok {
      return;
    }
    ghost var e := fs.disk;
    CopiedSettles(d, e, m, w);
    if m.src != m.dst && forall p :: Below(p, m.src) ==> w.removes(p) {
      AllPruned(e, m.src, w.removes);
      CopyThenRemoveIsRename(d, e, m.src, m.dst);
    }
    fs.disk := Pruned(fs.disk, m.src, w.removes);
  }

  /** One folder. */
  method MoveFolder(fs: FileSystem, m: Move, w: World) returns (ok: bool)
    requires m.src in fs.disk && Placed(m.src, m.dst) && TreeAt(fs.disk, m.src)
    modifies fs
    ensures OnlyMoved(old(fs.disk), fs.disk, m)
    ensures ok ==> Settled(old(fs.disk), fs.disk, m, w)
    ensures ok && m.src != m.dst && (RenameWorks(old(fs.disk), m, w) || forall p :: Below(p, m.src) ==> w.removes(p)) ==>
              LikeRename(old(fs.disk), fs.disk, m)
    ensures w.makes && Movable(old(fs.disk), m, w) ==> ok
  {
    ghost var d := fs.disk;
    ok := MakeParents(fs, m.dst, w.makes);
    ghost var e := fs.disk;
    ParentsOutside(d, e, m);
    if !ok {
      return;
    }
    AfterParents(d, e, m, w);
    ok := Transfer(fs, m, w);
    ParentsThenMove(d, e, fs.disk, m);
    if ok {
      SettledLater(d, e, fs.disk, m, w);
    }
  }

  lemma AfterParents(d: Disk, e: Disk, m: Move, w: World)
    requires m.src in d && TreeAt(d, m.src) && Untouched(d, e, m) && MoreParents(d, e, m.dst)
    ensures m.src in e && TreeAt(e, m.src) && (RenameWorks(e, m, w) <==> RenameWorks(d, m, w))
    ensures Movable(d, m, w) ==> Movable(e, m, w)
  {
    assert Below(m.src, m.src) && Below(m.dst, m.dst);
    assert Same(e, m.src, d, m.src) && Same(e, m.dst, d, m.dst);
    TreeKept(d, e, m.src);
    if !Obstructed(d, m.dst) {
      ParentsUnobstructed(d, e, m.dst, m.dst);
    }
    StillMovable(d, e, m, w);
  }

  /** Nothing has come into the way of the moves that are to come. */
  ghost predicate WaysClear(d: Disk, e: Disk, moves: seq<Move>, i: nat) {
    forall k :: i <= k < |moves| && !Obstructed(d, moves[k].dst) ==> !Obstructed(e, moves[k].dst)
  }

  lemma WaysStayClear(d: Disk, e: Disk, f: Disk, moves: seq<Move>, i: nat)
    requires Independent(moves) && i < |moves| && WaysClear(d, e, moves, i) && OnlyMoved(e, f, moves[i])
    ensures WaysClear(d, f, moves, i + 1)
  {
    forall k | i + 1 <= k < |moves| && !Obstructed(d, moves[k].dst) ensures !Obstructed(f, moves[k].dst) {
      StillUnobstructed(e, f, moves[i], moves[k].dst);
    }
  }

  method MoveFolders(fs: FileSystem, moves: seq<Move>, w: World) returns (ok: bool)
    requires Independent(moves) && Ready(fs.disk, moves)
    modifies fs
    ensures ok ==> Progress(old(fs.disk), fs.disk, moves, |moves|, w)
    ensures w.makes && (forall k :: 0 <= k < |moves| ==> Movable(old(fs.disk), moves[k], w)) ==> ok
  {
    ghost var d := fs.disk;
    var i: nat := 0;
    while i < |moves|
      invariant i <= |moves| && Progress(d, fs.disk, moves, i, w) && WaysClear(d, fs.disk, moves, i)
    {
      var m := moves[i];
      ghost var e := fs.disk;
      NextIsReady(d, e, m, w);
      if m.src in fs.disk {
        ok := MoveFolder(fs, m, w);
        if !ok {
          return;
        }
      }
      NextMove(d, e, fs.disk, moves, i, w);
      WaysStayClear(d, e, fs.disk, moves, i);
      i := i + 1;
    }
    ok := true;
  }

  lemma NextIsReady(d: Disk, e: Disk, m: Move, w: World)
    requires Untouched(d, e, m) && TreeAt(d, m.src) && (!Obstructed(d, m.dst) ==> !Obstructed(e, m.dst))
    ensures TreeAt(e, m.src) && (m.src in e <==> m.src in d) && (Movable(d, m, w) ==> Movable(e, m, w))
  {
    assert Below(m.src, m.src) && Same(e, m.src, d, m.src);
    TreeKept(d, e, m.src);
    StillMovable(d, e, m, w);
  }

  /** A path without a slash at its end. */
  function Trimmed(path: string): string {
    Paths.TrimSuffix(path, "/")
  }

  /** The folders of the selected authors and where they go. */
  function Moves(authors: PathTable, order: seq<Id>, was: string, now: string): (r: seq<Move>)
    requires forall i :: 0 <= i < |order| ==> order[i] in authors
    ensures |r| == |order|
    ensures forall i :: 0 <= i < |r| ==> r[i] == Move(authors[order[i]], GoRewrite(authors[order[i]], was, now))
  {
    seq(|order|, i requires 0 <= i < |order| => Move(authors[order[i]], GoRewrite(authors[order[i]], was, now)))
  }

  /** One slash at the end goes; nothing else does. */
  lemma TrimmedSpelled(path: string)
    ensures Trimmed(path + "/") == path
    ensures path == "" || path[|path| - 1] != '/' ==> Trimmed(path) == path
  {
    var slash := "/";
    assert (path + slash)[|path|..] == slash;
    if HasSuffix(path, slash) {
      assert path[|path| - 1..][0] == slash[0];
    }
  }

  /** Rows below the old path get the new one in its place; of the others those the filter does not select stay. */
  lemma RowSpelled(rows: PathTable, id: Id, was: string, now: string, rest: string)
    requires id in rows
    ensures var after := RewriteAll(rows, was, now);
            && after.Keys == rows.Keys
            && (rows[id] == was + rest ==> after[id] == now + rest)
            && (!Under(was, rows[id]) ==> after[id] == rows[id])
  {
    var path := rows[id];
    if path == was + rest {
      assert path[..|was|] == was && path[|was|..] == rest;
      RewritesAgree(path, was, now);
    }
  }

  /** The folder of an author below the old path goes to the same place below the new one. */
  lemma MoveSpelled(authors: PathTable, order: seq<Id>, was: string, now: string, i: nat, rest: string)
    requires (forall k :: 0 <= k < |order| ==> order[k] in authors) && i < |order|
    requires authors[order[i]] == was + rest
    ensures Moves(authors, order, was, now)[i].src == was + rest && Moves(authors, order, was, now)[i].dst == now + rest
  {
    var path := was + rest;
    assert path[..|was|] == was && path[|was|..] == rest;
    RewritesAgree(path, was, now);
  }

  /** The new root is neither in a folder that moves nor in a target. */
  ghost predicate Clear(now: string, moves: seq<Move>) {
    forall i :: 0 <= i < |moves| ==> !Below(now, moves[i].src) && !Below(now, moves[i].dst)
  }

  /** The rows that the query returns, each once. */
  ghost predicate Lists(authors: PathTable, order: seq<Id>, was: string) {
    && (forall i, j :: 0 <= i < j < |order| ==> order[i] != order[j])
    && (forall id :: id in order <==> id in authors && Under(was, authors[id]))
  }

  lemma ClearStays(d: Disk, e: Disk, now: string, m: Move)
    requires MoreParents(d, e, Child(now, "")) && !Below(now, m.src) && !Below(now, m.dst)
    ensures Untouched(d, e, m)
  {
    forall p | Below(p, m.src) || Below(p, m.dst) ensures Same(e, p, d, p) {
      if NewParent(d, e, Child(now, ""), p) {
        NotBelowSlash(now, p);
        if Below(p, m.src) {
          BelowBelow(now, p, m.src);
        }
        if Below(p, m.dst) {
          BelowBelow(now, p, m.dst);
        }
      }
    }
  }

  /** What a path with a slash at its end lies in, the path without it lies in or is. */
  lemma NotBelowSlash(now: string, p: string)
    requires Below(Child(now, ""), p) && p != Child(now, "")
    ensures Below(now, p)
  {
    var c := Child(now, "");
    assert c[..|p|] == p && |p| <= |now|;
    assert c[..|p|] == now[..|p|];
    assert |p| < |now| ==> c[|p|] == now[|p|];
  }

  class RootFolders {
    const fs: FileSystem
    var authors: PathTable
    var files: PathTable
    var roots: PathTable

    constructor (fs: FileSystem, authors: PathTable, files: PathTable, roots: PathTable)
      ensures this.fs == fs && this.authors == authors && this.files == files && this.roots == roots
    {
      this.fs := fs;
      this.authors := authors;
      this.files := files;
      this.roots := roots;
    }

    /**
     * The move as a whole. `committed` tells whether the transaction took effect; an error leaves the tables
     * as they were exactly when it did not.
     */
    method MoveRootFolder(id: Id, newPath: string, order: seq<Id>, w: World) returns (ok: bool, ghost committed: bool)
      requires id in roots ==> Lists(authors, order, Trimmed(roots[id]))
      requires id in roots ==>
                 var moves := Moves(authors, order, Trimmed(roots[id]), Trimmed(newPath));
                 Independent(moves) && Ready(fs.disk, moves) && Clear(Trimmed(newPath), moves)
      modifies this, fs
      ensures committed ==> w.found && id in old(roots) && old(roots)[id] != newPath && w.commits
      ensures ok <==> if committed then w.reread else w.found && id in old(roots) && old(roots)[id] == newPath
      ensures !committed ==> authors == old(authors) && files == old(files) && roots == old(roots)
      ensures !committed && ok ==> fs.disk == old(fs.disk)
      ensures committed ==>
                var was, now := Trimmed(old(roots)[id]), Trimmed(newPath);
                && authors == RewriteAll(old(authors), was, now)
                && files == RewriteAll(old(files), was, now)
                && roots == old(roots)[id := now]
                && FoldersSettled(old(fs.disk), fs.disk, Moves(old(authors), order, was, now), w)
      ensures w.found && id in old(roots) && old(roots)[id] != newPath ==>
                var was, now := Trimmed(old(roots)[id]), Trimmed(newPath);
                NothingInTheWay(old(fs.disk), Moves(old(authors), order, was, now), now, w) ==> committed
    {
      committed := false;
      if !w.found || id !in roots {
        return false, false;
      }
      if roots[id] == newPath {
        return true, false;
      }
      var was, now := Trimmed(roots[id]), Trimmed(newPath);
      ghost var d := fs.disk;
      if now == "" {
        return false, false;
      }
      ok := MakeParents(fs, Child(now, ""), w.makes);
      if !ok || !w.queried {
        return false, false;
      }
      var moves := Moves(authors, order, was, now);
      ghost var e := fs.disk;
      StartMoves(d, e, moves, now);
      WayFree(d, e, moves, now, w);
      ok := MoveFolders(fs, moves, w);
      if !ok {
        return;
      }
      AllSettled(d, e, fs.disk, moves, now, w);
      if !w.commits {
        return false, false;
      }
      authors := RewriteAll(authors, was, now);
      files := RewriteAll(files, was, now);
      roots := roots[id := now];
      return w.reread, true;
    }
  }

  /** Every call works, no file stands where a directory is needed, and the new root has a name. */
  ghost predicate NothingInTheWay(d: Disk, moves: seq<Move>, now: string, w: World) {
    && w.makes && w.queried && w.commits && now != "" && !Obstructed(d, Child(now, ""))
    && forall k :: 0 <= k < |moves| ==> Movable(d, moves[k], w)
  }

  lemma WayFree(d: Disk, e: Disk, moves: seq<Move>, now: string, w: World)
    requires Clear(now, moves) && MoreParents(d, e, Child(now, ""))
    ensures NothingInTheWay(d, moves, now, w) ==> forall k :: 0 <= k < |moves| ==> Movable(e, moves[k], w)
  {
    if NothingInTheWay(d, moves, now, w) {
      forall k | 0 <= k < |moves| ensures Movable(e, moves[k], w) {
        ClearStays(d, e, now, moves[k]);
        assert Movable(d, moves[k], w);
        if !Obstructed(d, moves[k].dst) {
          ParentsUnobstructed(d, e, Child(now, ""), moves[k].dst);
        }
        StillMovable(d, e, moves[k], w);
      }
    }
  }

  ghost predicate FoldersSettled(d: Disk, e: Disk, moves: seq<Move>, w: World) {
    forall k :: 0 <= k < |moves| && moves[k].src in d ==> Settled(d, e, moves[k], w)
  }

  lemma StartMoves(d: Disk, e: Disk, moves: seq<Move>, now: string)
    requires Ready(d, moves) && Clear(now, moves) && MoreParents(d, e, Child(now, ""))
    ensures Ready(e, moves)
  {
    forall k | 0 <= k < |moves| ensures TreeAt(e, moves[k].src) {
      ClearStays(d, e, now, moves[k]);
      TreeKept(d, e, moves[k].src);
    }
  }

  lemma AllSettled(d: Disk, e: Disk, f: Disk, moves: seq<Move>, now: string, w: World)
    requires Clear(now, moves) && MoreParents(d, e, Child(now, "")) && Progress(e, f, moves, |moves|, w)
    ensures FoldersSettled(d, f, moves, w)
  {
    forall k | 0 <= k < |moves| && moves[k].src in d ensures Settled(d, f, moves[k], w) {
      ClearStays(d, e, now, moves[k]);
      assert Below(moves[k].src, moves[k].src) && Same(e, moves[k].src, d, moves[k].src);
      SettledLater(d, e, f, moves[k], w);
    }
  }

  // ---------------------------------------------------------------- where the files are afterwards

  lemma TailOfTail(path: string, folder: string, was: string)
    requires HasPrefix(folder, was) && Below(path, folder)
    ensures HasPrefix(path, was) && path[|was|..] == folder[|was|..] + path[|folder|..]
  {
    var rest := path[|folder|..];
    assert path[..|folder|] == folder;
    assert path == folder + rest;
    assert path[..|was|] == folder[..|was|];
    assert (folder + rest)[|was|..] == folder[|was|..] + rest;
  }

  lemma RewrittenInside(path: string, folder: string, was: string, now: string)
    requires HasPrefix(folder, was) && Below(path, folder)
    ensures Rewritten(path, was, now) == Shift(path, folder, Shift(folder, was, now))
  {
    TailOfTail(path, folder, was);
    RewritesAgree(path, was, now);
    var middle, rest := folder[|was|..], path[|folder|..];
    assert now + (middle + rest) == (now + middle) + rest;
  }

  /**
   * After a move, the row of every file inside a moved author folder points at the file's content, whether the
   * folder was renamed or copied, and whatever was at the target before.
   */
  lemma FileRowsFollow(d: Disk, e: Disk, authors: PathTable, order: seq<Id>, was: string, now: string, w: World,
                       k: nat, path: string)
    requires k < |order| && (forall i :: 0 <= i < |order| ==> order[i] in authors)
    requires FoldersSettled(d, e, Moves(authors, order, was, now), w) && was != now
    requires HasPrefix(authors[order[k]], was) && authors[order[k]] in d && Below(path, authors[order[k]]) && path in d
    ensures Rewritten(path, was, now) in e && e[Rewritten(path, was, now)] == d[path]
  {
    var folder := authors[order[k]];
    var m := Moves(authors, order, was, now)[k];
    RewritesAgree(folder, was, now);
    assert m.dst == Shift(folder, was, now);
    ShiftDiffers(folder, was, now);
    RewrittenInside(path, folder, was, now);
    ShiftBelow(path, folder, m.dst);
    assert Settled(d, e, m, w);
    assert MergedAt(d, e, m.src, m.dst, Shift(path, folder, m.dst));
  }

  lemma ShiftDiffers(folder: string, was: string, now: string)
    requires HasPrefix(folder, was)
    ensures Shift(folder, was, now) == folder <==> was == now
  {
    var r := Shift(folder, was, now);
    assert r[..|now|] == now;
    assert folder == was + folder[|was|..];
  }

  /**
   * Moving a root folder to its own path with a slash more or less moves every author folder onto itself: what
   * was in it is emptied, and gone wherever the removal gets to it.
   */
  lemma MoveOntoItselfLoses(d: Disk, e: Disk, authors: PathTable, order: seq<Id>, was: string, w: World, k: nat, path: string)
    requires k < |order| && (forall i :: 0 <= i < |order| ==> order[i] in authors)
    requires FoldersSettled(d, e, Moves(authors, order, was, was), w)
    requires authors[order[k]] in d && d[authors[order[k]]].Dir? && Below(path, authors[order[k]])
    ensures path in e <==> path in d && !w.removes(path)
    ensures path in e ==> e[path] == Pasted(d[path], true)
  {
    var m := Moves(authors, order, was, was)[k];
    RewrittenToItself(authors[order[k]], was);
    assert Settled(d, e, m, w);
    assert EmptiedAt(d, e, path, w.removes(path));
  }

  /** So a file row inside a moved author folder keeps its content exactly when the root really changes. */
  lemma RowsFollowIff(d: Disk, e: Disk, authors: PathTable, order: seq<Id>, was: string, now: string, w: World,
                      k: nat, path: string)
    requires k < |order| && (forall i :: 0 <= i < |order| ==> order[i] in authors)
    requires FoldersSettled(d, e, Moves(authors, order, was, now), w)
    requires HasPrefix(authors[order[k]], was) && authors[order[k]] in d && d[authors[order[k]]].Dir?
    requires Below(path, authors[order[k]]) && path in d && d[path].File? && d[path].content != []
    ensures Rewritten(path, was, now) in e && e[Rewritten(path, was, now)] == d[path] <==> was != now
  {
    if was != now {
      FileRowsFollow(d, e, authors, order, was, now, w, k, path);
    } else {
      MoveOntoItselfLoses(d, e, authors, order, was, w, k, path);
      var folder := authors[order[k]];
      RewrittenInside(path, folder, was, now);
      ShiftDiffers(folder, was, now);
      assert Shift(path, folder, folder) == path;
    }
  }
}
