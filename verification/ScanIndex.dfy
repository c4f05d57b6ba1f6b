/** What a scan without errors has indexed, file by file of the tree and with the formats spelled out. */
module ScanIndex {
  import opened Options
  import opened Text
  import opened DirWalk
  import opened DirTree
  import opened LibraryScan
  import Paths
  import PathInfo

  /** The text ends in `low`, each letter as in `low` or as in `high`. */
  ghost predicate EndsIn(path: string, low: string, high: string) {
    && |low| == |high| <= |path|
    && forall i :: 0 <= i < |low| ==> path[|path| - |low| + i] == low[i] || path[|path| - |low| + i] == high[i]
  }

  /** The five formats, in any letter case. */
  ghost predicate Ebook(path: string) {
    || EndsIn(path, ".epub", ".EPUB") || EndsIn(path, ".mobi", ".MOBI") || EndsIn(path, ".azw3", ".AZW3")
    || EndsIn(path, ".pdf", ".PDF") || EndsIn(path, ".cbz", ".CBZ")
  }

  /** A dot and a name without dots and slashes. */
  predicate IsExtension(ext: string) {
    ext != "" && ext[0] == '.' && Free('.', ext[1..]) && Free('/', ext[1..])
  }

  /** `high` holds the capitals of `low`. */
  ghost predicate Cases(low: string, high: string) {
    |low| == |high| && forall i, c :: 0 <= i < |low| ==> (LowerChar(c) == low[i] <==> c == low[i] || c == high[i])
  }

  lemma LoweredExtension(tail: string, low: string)
    requires |tail| == |low| && (forall i :: 0 <= i < |low| ==> LowerChar(tail[i]) == low[i]) && IsExtension(low)
    ensures IsExtension(tail)
  {
    assert LowerChar(tail[0]) == '.';
    forall i | 0 <= i < |tail[1..]| ensures tail[1..][i] != '.' && tail[1..][i] != '/' {
      assert low[1..][i] == LowerChar(tail[i + 1]);
    }
  }

  lemma ExtensionAtEnd(front: string, tail: string)
    requires IsExtension(tail)
    ensures Paths.Ext(front + tail) == tail
  {
    var dot := ".";
    assert tail == dot + tail[1..];
    PathInfo.SuffixExt(front, tail[1..]);
  }

  lemma LowerIs(s: string, low: string)
    requires |low| == |s| && forall i :: 0 <= i < |s| ==> low[i] == LowerChar(s[i])
    ensures low == Lower(s)
  {
  }

  lemma EndHasExtension(path: string, low: string, high: string)
    requires IsExtension(low) && Cases(low, high) && EndsIn(path, low, high)
    ensures Lower(Paths.Ext(path)) == low
  {
    var front, tail := path[..|path| - |low|], path[|path| - |low|..];
    assert forall i :: 0 <= i < |low| ==> LowerChar(tail[i]) == low[i];
    LoweredExtension(tail, low);
    ExtensionAtEnd(front, tail);
    assert path == front + tail;
    LowerIs(tail, low);
  }

  lemma ExtensionIsEnd(path: string, tail: string, low: string, high: string)
    requires HasSuffix(path, tail) && |tail| == |low| && Cases(low, high)
    requires forall i :: 0 <= i < |low| ==> LowerChar(tail[i]) == low[i]
    ensures EndsIn(path, low, high)
  {
    forall i | 0 <= i < |low|
      ensures path[|path| - |low| + i] == low[i] || path[|path| - |low| + i] == high[i]
    {
      assert tail[i] == path[|path| - |low| + i];
    }
  }

  /** An extension that is equal up to case is an end that is. */
  lemma ExtensionIff(path: string, low: string, high: string)
    requires IsExtension(low) && Cases(low, high)
    ensures Lower(Paths.Ext(path)) == low <==> EndsIn(path, low, high)
  {
    if EndsIn(path, low, high) {
      EndHasExtension(path, low, high);
    } else if Lower(Paths.Ext(path)) == low {
      ExtensionIsEnd(path, Paths.Ext(path), low, high);
    }
  }

  predicate OneOfFive(x: string) {
    x == ".epub" || x == ".mobi" || x == ".azw3" || x == ".pdf" || x == ".cbz"
  }

  lemma Spelled(x: string)
    ensures x in SUPPORTED_FORMATS <==> OneOfFive(x)
  {
  }

  /** The formats written with a dot in front, in small letters and in capitals. */
  lemma FormatIff(path: string, low: string, high: string)
    requires || (low == ".epub" && high == ".EPUB") || (low == ".mobi" && high == ".MOBI")
             || (low == ".azw3" && high == ".AZW3") || (low == ".pdf" && high == ".PDF")
             || (low == ".cbz" && high == ".CBZ")
    ensures Lower(Paths.Ext(path)) == low <==> EndsIn(path, low, high)
  {
    ExtensionIff(path, low, high);
  }

  lemma SupportedIffEbook(path: string)
    ensures Supported(path, SUPPORTED_FORMATS) <==> Ebook(path)
  {
    Spelled(Lower(Paths.Ext(path)));
    FormatIff(path, ".epub", ".EPUB");
    FormatIff(path, ".mobi", ".MOBI");
    FormatIff(path, ".azw3", ".AZW3");
    FormatIff(path, ".pdf", ".PDF");
    FormatIff(path, ".cbz", ".CBZ");
  }

  /**
   * After a scan without errors every visited ebook has a row with its size. With or without errors no other
   * path gains a row, and a selected row for anything else is gone unless its removal failed.
   */
  lemma EbooksAreIndexed(a: Index, c: Index, root: string, events: seq<Event>, w: World, r: ScanResult, e: Event)
    requires Walkable(root, events) && Scanned(a, c, root, events, w, r, SUPPORTED_FORMATS)
    ensures r.errors == 0 && e in events && e.Visit? && Ebook(e.path) ==> e.path in c.rows && c.rows[e.path].size == e.size
  {
    if r.errors == 0 && e in events && e.Visit? && Ebook(e.path) {
      SupportedIffEbook(e.path);
      SeesEvent(c.rows, events, SUPPORTED_FORMATS, e);
    }
  }

  lemma SeesEvent(rows: map<string, FileRow>, events: seq<Event>, fs: set<string>, e: Event)
    requires Indexed(rows, events, fs) && e in events && Counts(e, fs)
    ensures e.path in rows && rows[e.path].size == e.size
  {
    var i :| 0 <= i < |events| && events[i] == e;
    assert Counts(events[i], fs);
  }

  ghost predicate Visited(events: seq<Event>, p: string) {
    exists i :: 0 <= i < |events| && events[i].Visit? && events[i].path == p
  }

  lemma FoundIff(events: seq<Event>, p: string)
    ensures p in Found(events, SUPPORTED_FORMATS) <==> Visited(events, p) && Ebook(p)
  {
    SupportedIffEbook(p);
    if Visited(events, p) && Ebook(p) {
      var i :| 0 <= i < |events| && events[i].Visit? && events[i].path == p;
      assert Counts(events[i], SUPPORTED_FORMATS);
    }
  }

  /** A path gains a row only if it is that of a visited ebook. */
  lemma OnlyEbooksAreAdded(a: Index, c: Index, root: string, events: seq<Event>, w: World, r: ScanResult, p: string)
    requires Walkable(root, events) && Scanned(a, c, root, events, w, r, SUPPORTED_FORMATS)
    requires p in c.rows && p !in a.rows
    ensures Visited(events, p) && Ebook(p)
  {
    FoundIff(events, p);
  }

  /** A row below the root's text survives exactly when it is that of a visited ebook or cannot be removed. */
  lemma OthersAreRemoved(a: Index, c: Index, root: string, events: seq<Event>, w: World, r: ScanResult, p: string)
    requires Walkable(root, events) && Scanned(a, c, root, events, w, r, SUPPORTED_FORMATS)
    requires p in a.rows && HasPrefix(p, root)
    ensures p in c.rows <==> (Visited(events, p) && Ebook(p)) || !w.removes(p)
  {
    FoundIff(events, p);
    Sql.PrefixIsUnder(root, p);
  }

  /**
   * So every ebook of the tree that is reached without a directory whose name starts with a dot has a row with its
   * size on disk after a scan without errors.
   */
  lemma EveryEbookHasItsRow(a: Index, c: Index, root: string, tree: Root, w: World, r: ScanResult,
                            names: seq<string>, node: Node)
    requires WellNamed(tree) && tree.Present? && tree.node.Folder? && !Dotted(tree.node.name)
    requires Scanned(a, c, root, WalkRoot(root, tree), w, r, SUPPORTED_FORMATS) && r.errors == 0
    requires Reached(tree.node.children, names, node) && node.File? && Ebook(PathOf(root, names))
    ensures PathOf(root, names) in c.rows && c.rows[PathOf(root, names)].size == node.size
  {
    var e := Visit(PathOf(root, names), node.size, node.stat);
    HiddenIsDotted(tree.node.name);
    ReachedIsReported(root, tree.node.children, names, node, e);
    WalkIsWalkable(root, tree);
    InWalk(root, tree, e);
    EbooksAreIndexed(a, c, root, WalkRoot(root, tree), w, r, e);
  }

  lemma InWalk(root: string, tree: Root, e: Event)
    requires tree.Present? && tree.node.Folder? && !Hidden(tree.node.name) && e in WalkAll(root, tree.node.children)
    ensures e in WalkRoot(root, tree)
  {
    assert WalkRoot(root, tree) == (if tree.node.readable then [] else [Trouble(root)]) + WalkAll(root, tree.node.children);
  }
}
