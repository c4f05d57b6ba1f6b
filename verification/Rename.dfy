/** renameAll: the batch rename that keeps the disk and the book_files table together. */
module Rename {
  import opened Options
  import opened Template
  import opened TemplateFacts
  import opened Paths
  import opened Naming

  datatype FileRow = FileRow(bookId: int, path: string, relativePath: string)

  /** One line of the batch: the row, its root folder and its naming context, as read before the loop. */
  datatype FileInfo = FileInfo(id: int, bookId: int, path: string, rootPath: string, nc: Context)

  /** Files on disk and rows by id. */
  datatype Shelf<Content> = Shelf(disk: map<string, Content>, table: map<int, FileRow>)

  /** A row of the listing query, with empty texts for missing values. */
  datatype Found = Found(id: int, bookId: int, path: string, format: string, title: string, releaseDate: string,
                         author: string, sortAuthor: string, series: string, seriesPosition: string, rootPath: string)

  /** The batch line of a row: the year is the beginning of the date, and the quality is not filled in. */
  function BatchLine(row: Found): FileInfo {
    var year := if |row.releaseDate| >= 4 then row.releaseDate[..4] else "";
    FileInfo(row.id, row.bookId, row.path, row.rootPath,
             Context(row.author, row.sortAuthor, row.title, row.series, row.seriesPosition, year, row.format, "", Base(row.path)))
  }

  /** So in a batch `$Quality` disappears from every template, with all blocks that have it. */
  lemma BatchErasesQuality(row: Found, tmpl: string)
    requires Clean(tmpl) && TemplateSafe(ParseTemplate(tmpl)) && DollarFree(BatchLine(row).nc)
    ensures Expand(tmpl, BatchLine(row).nc) == Render(Erased(ParseTemplate(tmpl), Quality), BatchLine(row).nc)
  {
    EmptyVariableErased(tmpl, Quality, BatchLine(row).nc);
  }

  /** What the outside world lets succeed in one iteration. */
  datatype Outcome = Outcome(mkdir: bool, rename: bool, update: bool, renameBack: bool)

  datatype Verdict = Skipped | Renamed | MkdirFailed | RenameFailed | UpdateFailed

  datatype Move = Move(bookId: int, oldPath: string, newPath: string)

  datatype RenameResult = RenameResult(total: int, renamed: int, skipped: int, errors: seq<(int, Verdict)>, files: seq<Move>)

  /** Format, as a function of the batch line. */
  type Namer = FileInfo -> Result

  function NamedBy(s: Settings): Namer {
    (fi: FileInfo) => FormatPath(fi.rootPath, fi.nc, Some(s))
  }

  function Target(fi: FileInfo, dest: Namer): string {
    dest(fi).fullPath
  }

  /** os.Rename of a file; an existing target is overwritten. */
  function MoveFile<Content>(disk: map<string, Content>, from: string, to: string): map<string, Content>
    requires from in disk
  {
    (disk - {from})[to := disk[from]]
  }

  /** The UPDATE succeeds unless the world fails it or another row holds the path (path is UNIQUE). */
  predicate PathFree(table: map<int, FileRow>, id: int, path: string) {
    forall other :: other in table && other != id ==> table[other].path != path
  }

  function SetPath(table: map<int, FileRow>, fi: FileInfo, dest: Namer): map<int, FileRow> {
    if fi.id in table then
      table[fi.id := table[fi.id].(path := Target(fi, dest),
        relativePath := dest(fi).relativePath)]
    else table
  }

  /** One iteration of the real run. */
  function RenameOne<Content>(sh: Shelf<Content>, fi: FileInfo, dest: Namer, o: Outcome): (Shelf<Content>, Verdict) {
    if fi.path == Target(fi, dest) then (sh, Skipped)
    else if !o.mkdir then (sh, MkdirFailed)
    else if !o.rename || fi.path !in sh.disk then (sh, RenameFailed)
    else
      var moved := MoveFile(sh.disk, fi.path, Target(fi, dest));
      if o.update && PathFree(sh.table, fi.id, Target(fi, dest)) then (Shelf(moved, SetPath(sh.table, fi, dest)), Renamed)
      else (Shelf(if o.renameBack then MoveFile(moved, Target(fi, dest), fi.path) else moved, sh.table), UpdateFailed)
  }

  /** The iterations for a list of files, one after the other, with the verdict on each. */
  function RenameMany<Content>(sh: Shelf<Content>, files: seq<FileInfo>, dest: Namer, os: seq<Outcome>): (r: (Shelf<Content>, seq<Verdict>))
    requires |os| == |files|
    ensures |r.1| == |files|
  {
    if files == [] then (sh, [])
    else
      var n := |files| - 1;
      var before := RenameMany(sh, files[..n], dest, os[..n]);
      var last := RenameOne(before.0, files[n], dest, os[n]);
      (last.0, before.1 + [last.1])
  }

  /** The errors a run lists. */
  function Errors(files: seq<FileInfo>, verdicts: seq<Verdict>): seq<(int, Verdict)>
    requires |verdicts| == |files|
  {
    if files == [] then []
    else
      var n := |files| - 1;
      Errors(files[..n], verdicts[..n]) + (if IsError(verdicts[n]) then [(files[n].id, verdicts[n])] else [])
  }

  predicate IsError(v: Verdict) {
    v != Skipped && v != Renamed
  }

  /** The moves a run lists: one for every file that is not yet where it belongs. */
  function Moves(files: seq<FileInfo>, dest: Namer): seq<Move> {
    if files == [] then []
    else
      var n := |files| - 1;
      Moves(files[..n], dest) +
      (if files[n].path == Target(files[n], dest) then [] else [Move(files[n].bookId, files[n].path, Target(files[n], dest))])
  }

  class Library<Content(==)> {
    var disk: map<string, Content>
    var table: map<int, FileRow>

    ghost function View(): Shelf<Content>
      reads this
    {
      Shelf(disk, table)
    }

    constructor (disk: map<string, Content>, table: map<int, FileRow>)
      ensures this.disk == disk && this.table == table
    {
      this.disk, this.table := disk, table;
    }

    /** The body of the loop for one file that is not yet where it belongs. */
    method Relocate(fi: FileInfo, dest: Namer, o: Outcome) returns (v: Verdict)
      requires fi.path != Target(fi, dest)
      modifies this
      ensures (View(), v) == RenameOne(old(View()), fi, dest, o)
    {
      var named := dest(fi);
      if !o.mkdir {
        return MkdirFailed;
      }
      if !o.rename || fi.path !in disk {
        return RenameFailed;
      }
      disk := MoveFile(disk, fi.path, named.fullPath);
      if o.update && PathFree(table, fi.id, named.fullPath) {
        if fi.id in table {
          table := table[fi.id := table[fi.id].(path := named.fullPath, relativePath := named.relativePath)];
        }
        v := Renamed;
      } else {
        if o.renameBack {
          disk := MoveFile(disk, named.fullPath, fi.path);
        }
        v := UpdateFailed;
      }
    }

    /** renameAll with dryRun set: only the listing. */
    method PreviewRenameAll(files: seq<FileInfo>, dest: Namer) returns (result: RenameResult)
      ensures result.files == Moves(files, dest) && result.errors == []
      ensures result.total == |files| == result.renamed + result.skipped && result.renamed == |result.files|
    {
      result := RenameResult(|files|, 0, 0, [], []);
      assert files[..0] == [];
      for i := 0 to |files|
        invariant result.total == |files| && i == result.renamed + result.skipped
        invariant result.renamed == |result.files| && result.errors == []
        invariant result.files == Moves(files[..i], dest)
      {
        assert files[..i + 1][..i] == files[..i];
        if files[i].path == Target(files[i], dest) {
          result := result.(skipped := result.skipped + 1);
        } else {
          result := result.(files := result.files + [Move(files[i].bookId, files[i].path, Target(files[i], dest))]);
          result := result.(renamed := result.renamed + 1);
        }
      }
      assert files[..|files|] == files;
    }

    /** renameAll from the listed files on. */
    method RenameAll(files: seq<FileInfo>, dest: Namer, os: seq<Outcome>) returns (result: RenameResult)
      requires |os| == |files|
      modifies this
      ensures View() == RenameMany(old(View()), files, dest, os).0
      ensures result.errors == Errors(files, RenameMany(old(View()), files, dest, os).1)
      ensures result.files == Moves(files, dest)
      ensures result.total == |files| == result.renamed + result.skipped + |result.errors|
      ensures result.renamed + |result.errors| == |result.files|
    {
      result := RenameResult(|files|, 0, 0, [], []);
      ghost var start := View();
      ghost var verdicts: seq<Verdict> := [];
      for i := 0 to |files|
        invariant Partway(start, View(), verdicts, files, dest, os, result, i)
      {
        var fi := files[i];
        ghost var before, recorded := View(), result;
        var v := Skipped;
        if fi.path == Target(fi, dest) {
          result := result.(skipped := result.skipped + 1);
        } else {
          result := result.(files := result.files + [Move(fi.bookId, fi.path, Target(fi, dest))]);
          v := Relocate(fi, dest, os[i]);
          if v == Renamed {
            result := result.(renamed := result.renamed + 1);
          } else {
            result := result.(errors := result.errors + [(fi.id, v)]);
          }
        }
        NextRecord(start, before, View(), verdicts, files, dest, os, recorded, i, v);
        verdicts := verdicts + [v];
      }
      assert files[..|files|] == files && os[..|os|] == os;
    }
  }

  /** The result after one more file. */
  function Recorded(r: RenameResult, fi: FileInfo, dest: Namer, v: Verdict): RenameResult {
    if v == Skipped then r.(skipped := r.skipped + 1)
    else
      var listed := r.(files := r.files + [Move(fi.bookId, fi.path, Target(fi, dest))]);
      if v == Renamed then listed.(renamed := r.renamed + 1) else listed.(errors := r.errors + [(fi.id, v)])
  }

  /** Shelf, verdicts and result after `i` files. */
  ghost predicate Partway<Content>(start: Shelf<Content>, now: Shelf<Content>, verdicts: seq<Verdict>, files: seq<FileInfo>,
                                   dest: Namer, os: seq<Outcome>, r: RenameResult, i: nat)
    requires |os| == |files|
  {
    && i <= |files|
    && (now, verdicts) == RenameMany(start, files[..i], dest, os[..i])
    && r.errors == Errors(files[..i], verdicts) && r.files == Moves(files[..i], dest)
    && r.total == |files| && i == r.renamed + r.skipped + |r.errors| && r.renamed + |r.errors| == |r.files|
  }

  lemma NextRecord<Content>(start: Shelf<Content>, mid: Shelf<Content>, after: Shelf<Content>, verdicts: seq<Verdict>,
                            files: seq<FileInfo>, dest: Namer, os: seq<Outcome>, r: RenameResult, i: nat, v: Verdict)
    requires i < |files| == |os| && Partway(start, mid, verdicts, files, dest, os, r, i)
    requires (after, v) == RenameOne(mid, files[i], dest, os[i])
    ensures Partway(start, after, verdicts + [v], files, dest, os, Recorded(r, files[i], dest, v), i + 1)
  {
    assert files[..i + 1][..i] == files[..i] && os[..i + 1][..i] == os[..i];
    assert (verdicts + [v])[..i] == verdicts;
  }

  // ---------------------------------------------------------------- every row keeps its file

  /** Rows have different paths, as the UNIQUE constraint demands. */
  ghost predicate DistinctPaths(table: map<int, FileRow>) {
    forall a, b :: a in table && b in table && a != b ==> table[a].path != table[b].path
  }

  /** Each file is listed once, with its row's path; targets are distinct and none is another row's path. */
  ghost predicate Separate(table: map<int, FileRow>, files: seq<FileInfo>, dest: Namer) {
    && DistinctPaths(table)
    && (forall i :: 0 <= i < |files| ==> files[i].id in table && table[files[i].id].path == files[i].path)
    && (forall i, j :: 0 <= i < j < |files| ==> files[i].id != files[j].id && Target(files[i], dest) != Target(files[j], dest))
    && (forall i, a :: 0 <= i < |files| && a in table && a != files[i].id ==> table[a].path != Target(files[i], dest))
  }

  /** The file of row `a` is where the row says. */
  ghost predicate Held<Content>(before: Shelf<Content>, after: Shelf<Content>, a: int)
    requires a in before.table
  {
    a in after.table &&
    (before.table[a].path in before.disk ==>
      after.table[a].path in after.disk && after.disk[after.table[a].path] == before.disk[before.table[a].path])
  }

  /** Row `a` is untouched so far, or it is the listed file `i` and stands at its old path or at its target. */
  ghost predicate Placed<Content>(before: Shelf<Content>, after: Shelf<Content>, files: seq<FileInfo>, dest: Namer, a: int)
    requires a in before.table
  {
    a in after.table &&
    (after.table[a].path == before.table[a].path ||
     exists i :: 0 <= i < |files| && files[i].id == a && after.table[a].path == Target(files[i], dest))
  }

  /** After every iteration each row's path holds that file's original content, also when a table error is undone. */
  lemma {:induction false} RowsKeepTheirFiles<Content>(sh: Shelf<Content>, files: seq<FileInfo>, dest: Namer, os: seq<Outcome>)
    requires |os| == |files| && Separate(sh.table, files, dest)
    requires forall i :: 0 <= i < |files| ==> os[i].renameBack
    ensures var after := RenameMany(sh, files, dest, os).0;
            after.table.Keys == sh.table.Keys
            && forall a :: a in sh.table ==> Held(sh, after, a) && Placed(sh, after, files, dest, a)
  {
    if files == [] { return; }
    var n := |files| - 1;
    RowsKeepTheirFiles(sh, files[..n], dest, os[..n]);
    OneIterationKeeps(sh, RenameMany(sh, files[..n], dest, os[..n]).0, files, dest, os[n]);
  }

  lemma OneIterationKeeps<Content>(sh: Shelf<Content>, mid: Shelf<Content>, files: seq<FileInfo>, dest: Namer, o: Outcome)
    requires files != [] && Separate(sh.table, files, dest) && o.renameBack && mid.table.Keys == sh.table.Keys
    requires forall a :: a in sh.table ==> Held(sh, mid, a) && Placed(sh, mid, files[..|files| - 1], dest, a)
    ensures var after := RenameOne(mid, files[|files| - 1], dest, o).0;
            after.table.Keys == sh.table.Keys
            && forall a :: a in sh.table ==> Held(sh, after, a) && Placed(sh, after, files, dest, a)
  {
    var n := |files| - 1;
    var fi := files[n];
    var after := RenameOne(mid, fi, dest, o).0;
    assert mid.table[fi.id].path == fi.path;
    forall a | a in sh.table ensures Held(sh, after, a) && Placed(sh, after, files, dest, a) {
      assert Held(sh, mid, a) && Placed(sh, mid, files[..n], dest, a);
      if a != fi.id {
        assert mid.table[a].path != fi.path && mid.table[a].path != Target(fi, dest);
        assert after.table[a] == mid.table[a];
      }
    }
  }

  // ---------------------------------------------------------------- exactly when a row loses its file

  /** `fi` was read from a row of the table. */
  predicate Listed(table: map<int, FileRow>, fi: FileInfo) {
    fi.id in table && table[fi.id].path == fi.path
  }

  /**
   * The file is moved but its row is not: the move is not undone, or undoing it takes away the file of the
   * row that already had the target.
   */
  predicate Loses<Content>(sh: Shelf<Content>, fi: FileInfo, dest: Namer, o: Outcome) {
    var t := Target(fi, dest);
    && fi.path != t && o.mkdir && o.rename && fi.path in sh.disk
    && !(o.update && PathFree(sh.table, fi.id, t))
    && (!o.renameBack || (t in sh.disk && !PathFree(sh.table, fi.id, t)))
  }

  ghost predicate AllHeld<Content>(before: Shelf<Content>, after: Shelf<Content>) {
    forall a :: a in before.table ==> Held(before, after, a)
  }

  /** Held, and rows without a file have none afterwards. */
  ghost predicate AllSame<Content>(before: Shelf<Content>, after: Shelf<Content>) {
    forall a :: a in before.table ==>
      Held(before, after, a) && (after.table[a].path in after.disk ==> before.table[a].path in before.disk)
  }

  lemma OneIterationRows<Content>(sh: Shelf<Content>, fi: FileInfo, dest: Namer, o: Outcome)
    requires Listed(sh.table, fi) && DistinctPaths(sh.table)
    ensures var after := RenameOne(sh, fi, dest, o).0;
            && DistinctPaths(after.table) && after.table.Keys == sh.table.Keys
            && forall a :: a in sh.table && a != fi.id ==> after.table[a] == sh.table[a]
  {
  }

  lemma NoLossKeepsAll<Content>(sh: Shelf<Content>, fi: FileInfo, dest: Namer, o: Outcome)
    requires Listed(sh.table, fi) && DistinctPaths(sh.table) && !Loses(sh, fi, dest, o)
    ensures AllSame(sh, RenameOne(sh, fi, dest, o).0)
  {
  }

  lemma LossLosesOne<Content>(sh: Shelf<Content>, fi: FileInfo, dest: Namer, o: Outcome) returns (a: int)
    requires Listed(sh.table, fi) && DistinctPaths(sh.table) && Loses(sh, fi, dest, o)
    ensures a in sh.table && sh.table[a].path in sh.disk && !Held(sh, RenameOne(sh, fi, dest, o).0, a)
  {
    if !o.renameBack {
      a := fi.id;
    } else {
      a :| a in sh.table && a != fi.id && sh.table[a].path == Target(fi, dest);
    }
  }

  /** The exact condition for one iteration, whatever works and whoever has the target. */
  lemma IterationKeepsIff<Content>(sh: Shelf<Content>, fi: FileInfo, dest: Namer, o: Outcome)
    requires Listed(sh.table, fi) && DistinctPaths(sh.table)
    ensures AllHeld(sh, RenameOne(sh, fi, dest, o).0) <==> !Loses(sh, fi, dest, o)
  {
    if Loses(sh, fi, dest, o) {
      var _ := LossLosesOne(sh, fi, dest, o);
    } else {
      NoLossKeepsAll(sh, fi, dest, o);
    }
  }

  /** Each row is listed at most once. */
  ghost predicate ListedOnce(table: map<int, FileRow>, files: seq<FileInfo>) {
    && (forall i :: 0 <= i < |files| ==> Listed(table, files[i]))
    && (forall i, j :: 0 <= i < j < |files| ==> files[i].id != files[j].id)
  }

  /** The shelf after the first `k` iterations. */
  function After<Content>(sh: Shelf<Content>, files: seq<FileInfo>, dest: Namer, os: seq<Outcome>, k: nat): Shelf<Content>
    requires k <= |files| == |os|
  {
    RenameMany(sh, files[..k], dest, os[..k]).0
  }

  lemma AfterOneMore<Content>(sh: Shelf<Content>, files: seq<FileInfo>, dest: Namer, os: seq<Outcome>, k: nat)
    requires k < |files| == |os|
    ensures After(sh, files, dest, os, k + 1) == RenameOne(After(sh, files, dest, os, k), files[k], dest, os[k]).0
  {
    assert files[..k + 1][..k] == files[..k] && os[..k + 1][..k] == os[..k];
  }

  /** Until its own iteration a row is as it was listed. */
  lemma {:induction false} RowsBefore<Content>(sh: Shelf<Content>, files: seq<FileInfo>, dest: Namer, os: seq<Outcome>, k: nat)
    requires k <= |files| == |os| && ListedOnce(sh.table, files) && DistinctPaths(sh.table)
    ensures var mid := After(sh, files, dest, os, k);
            && DistinctPaths(mid.table) && mid.table.Keys == sh.table.Keys
            && forall i :: k <= i < |files| ==> Listed(mid.table, files[i])
  {
    if k > 0 {
      RowsBefore(sh, files, dest, os, k - 1);
      AfterOneMore(sh, files, dest, os, k - 1);
      OneIterationRows(After(sh, files, dest, os, k - 1), files[k - 1], dest, os[k - 1]);
    }
  }

  ghost predicate NoLoss<Content>(sh: Shelf<Content>, files: seq<FileInfo>, dest: Namer, os: seq<Outcome>, n: nat)
    requires n <= |files| == |os|
  {
    forall k :: 0 <= k < n ==> !Loses(After(sh, files, dest, os, k), files[k], dest, os[k])
  }

  lemma {:induction false} KeptSoFar<Content>(sh: Shelf<Content>, files: seq<FileInfo>, dest: Namer, os: seq<Outcome>, k: nat)
    requires k <= |files| == |os| && ListedOnce(sh.table, files) && DistinctPaths(sh.table)
    requires NoLoss(sh, files, dest, os, k)
    ensures AllSame(sh, After(sh, files, dest, os, k))
  {
    if k > 0 {
      var mid := After(sh, files, dest, os, k - 1);
      KeptSoFar(sh, files, dest, os, k - 1);
      RowsBefore(sh, files, dest, os, k - 1);
      NoLossKeepsAll(mid, files[k - 1], dest, os[k - 1]);
      AfterOneMore(sh, files, dest, os, k - 1);
      SameTwice(sh, mid, After(sh, files, dest, os, k));
    }
  }

  lemma SameTwice<Content>(a: Shelf<Content>, b: Shelf<Content>, c: Shelf<Content>)
    requires AllSame(a, b) && AllSame(b, c)
    ensures AllSame(a, c)
  {
    forall x | x in a.table ensures Held(a, c, x) && (c.table[x].path in c.disk ==> a.table[x].path in a.disk) {
      assert Held(a, b, x) && Held(b, c, x);
    }
  }

  lemma {:induction false} FirstLoss<Content>(sh: Shelf<Content>, files: seq<FileInfo>, dest: Namer, os: seq<Outcome>, n: nat)
    returns (k: nat)
    requires n <= |files| == |os| && !NoLoss(sh, files, dest, os, n)
    ensures k < n && NoLoss(sh, files, dest, os, k) && Loses(After(sh, files, dest, os, k), files[k], dest, os[k])
  {
    if NoLoss(sh, files, dest, os, n - 1) {
      k := n - 1;
    } else {
      k := FirstLoss(sh, files, dest, os, n - 1);
    }
  }

  /**
   * The exact condition for a batch: every row keeps its file after every iteration precisely when no
   * iteration loses one in the state it starts from.
   */
  lemma BatchKeepsIff<Content>(sh: Shelf<Content>, files: seq<FileInfo>, dest: Namer, os: seq<Outcome>)
    requires |os| == |files| && ListedOnce(sh.table, files) && DistinctPaths(sh.table)
    ensures (forall k :: 0 <= k <= |files| ==> AllHeld(sh, After(sh, files, dest, os, k))) <==>
            NoLoss(sh, files, dest, os, |files|)
  {
    if NoLoss(sh, files, dest, os, |files|) {
      forall k | 0 <= k <= |files| ensures AllHeld(sh, After(sh, files, dest, os, k)) {
        KeptSoFar(sh, files, dest, os, k);
      }
    } else {
      var k := FirstLoss(sh, files, dest, os, |files|);
      var mid := After(sh, files, dest, os, k);
      KeptSoFar(sh, files, dest, os, k);
      RowsBefore(sh, files, dest, os, k);
      AfterOneMore(sh, files, dest, os, k);
      var a := LossLosesOne(mid, files[k], dest, os[k]);
      LossShows(sh, mid, After(sh, files, dest, os, k + 1), a);
    }
  }

  lemma LossShows<Content>(sh: Shelf<Content>, mid: Shelf<Content>, after: Shelf<Content>, a: int)
    requires AllSame(sh, mid) && mid.table.Keys == sh.table.Keys
    requires a in mid.table && mid.table[a].path in mid.disk && !Held(mid, after, a)
    ensures !AllHeld(sh, after)
  {
    assert a in sh.table && Held(sh, mid, a);
    assert !Held(sh, after, a);
  }

  // ---------------------------------------------------------------- the same, read off the start of a batch

  predicate Works(o: Outcome) {
    o.mkdir && o.rename && o.update && o.renameBack
  }

  /** The row's file is on disk. */
  predicate Filed<Content>(sh: Shelf<Content>, a: int) {
    a in sh.table && sh.table[a].path in sh.disk
  }

  /** A row whose file is missing has the target; the table refuses the move, and nothing is lost. */
  predicate Blocked<Content>(sh: Shelf<Content>, fi: FileInfo, dest: Namer) {
    exists a :: a in sh.table && a != fi.id && !Filed(sh, a) && sh.table[a].path == Target(fi, dest)
  }

  /** Where a listed row stands after its iteration. */
  function Place<Content>(sh: Shelf<Content>, fi: FileInfo, dest: Namer): string {
    if fi.path in sh.disk && !Blocked(sh, fi, dest) then Target(fi, dest) else fi.path
  }

  /** The row is among the first `k` listed. */
  predicate ListedBefore(files: seq<FileInfo>, k: nat, a: int)
    requires k <= |files|
  {
    exists j :: 0 <= j < k && files[j].id == a
  }

  /**
   * The target of file `k` is taken: a file listed earlier stands there by now, or a row that is not listed
   * earlier has its file there.
   */
  predicate Taken<Content>(sh: Shelf<Content>, files: seq<FileInfo>, dest: Namer, k: nat)
    requires k < |files|
  {
    var t := Target(files[k], dest);
    || (exists j :: 0 <= j < k && files[j].path in sh.disk && Place(sh, files[j], dest) == t)
    || (exists a :: a in sh.table && a != files[k].id && !ListedBefore(files, k, a) && Filed(sh, a) && sh.table[a].path == t)
  }

  predicate Collides<Content>(sh: Shelf<Content>, files: seq<FileInfo>, dest: Namer, k: nat)
    requires k < |files|
  {
    files[k].path in sh.disk && files[k].path != Target(files[k], dest) && Taken(sh, files, dest, k)
  }

  /** Rows listed earlier are at their places, the others where they were. */
  ghost predicate Positions<Content>(sh: Shelf<Content>, mid: Shelf<Content>, files: seq<FileInfo>, dest: Namer, k: nat)
    requires k <= |files| && mid.table.Keys == sh.table.Keys
  {
    && (forall j :: 0 <= j < k && files[j].id in sh.table ==> mid.table[files[j].id].path == Place(sh, files[j], dest))
    && (forall a :: a in sh.table && !ListedBefore(files, k, a) ==> mid.table[a].path == sh.table[a].path)
  }

  /** A row without a file never moves. */
  lemma FilelessStays<Content>(sh: Shelf<Content>, mid: Shelf<Content>, files: seq<FileInfo>, dest: Namer, k: nat, a: int)
    requires k <= |files| && mid.table.Keys == sh.table.Keys && Positions(sh, mid, files, dest, k)
    requires ListedOnce(sh.table, files) && a in sh.table && !Filed(sh, a)
    ensures mid.table[a].path == sh.table[a].path
  {
    if ListedBefore(files, k, a) {
      var j :| 0 <= j < k && files[j].id == a;
      assert Listed(sh.table, files[j]);
    }
  }

  /** What is known when an iteration starts, as long as nothing was lost. */
  ghost predicate InOrder<Content>(sh: Shelf<Content>, mid: Shelf<Content>, files: seq<FileInfo>, dest: Namer, k: nat)
    requires k <= |files|
  {
    && ListedOnce(sh.table, files) && DistinctPaths(sh.table)
    && mid.table.Keys == sh.table.Keys && AllSame(sh, mid) && Positions(sh, mid, files, dest, k)
  }

  lemma TakenIsHeld<Content>(sh: Shelf<Content>, mid: Shelf<Content>, files: seq<FileInfo>, dest: Namer, k: nat)
    requires k < |files| && InOrder(sh, mid, files, dest, k) && Taken(sh, files, dest, k)
    ensures var t := Target(files[k], dest); t in mid.disk && !PathFree(mid.table, files[k].id, t)
  {
    var t := Target(files[k], dest);
    if j :| 0 <= j < k && files[j].path in sh.disk && Place(sh, files[j], dest) == t {
      var a := files[j].id;
      assert Listed(sh.table, files[j]) && Held(sh, mid, a);
      assert mid.table[a].path == t;
    } else {
      var a :| a in sh.table && a != files[k].id && !ListedBefore(files, k, a) && Filed(sh, a) && sh.table[a].path == t;
      assert Held(sh, mid, a) && mid.table[a].path == t;
    }
  }

  lemma HeldIsTaken<Content>(sh: Shelf<Content>, mid: Shelf<Content>, files: seq<FileInfo>, dest: Namer, k: nat)
    requires k < |files| && InOrder(sh, mid, files, dest, k)
    requires var t := Target(files[k], dest); t in mid.disk && !PathFree(mid.table, files[k].id, t)
    ensures Taken(sh, files, dest, k)
  {
    var t := Target(files[k], dest);
    var a :| a in mid.table && a != files[k].id && mid.table[a].path == t;
    assert Filed(sh, a) && Held(sh, mid, a);
    if ListedBefore(files, k, a) {
      var j :| 0 <= j < k && files[j].id == a;
      assert Listed(sh.table, files[j]);
    }
  }

  lemma LosesIffCollides<Content>(sh: Shelf<Content>, mid: Shelf<Content>, files: seq<FileInfo>, dest: Namer, k: nat, o: Outcome)
    requires k < |files| && InOrder(sh, mid, files, dest, k) && Listed(mid.table, files[k]) && Works(o)
    ensures Loses(mid, files[k], dest, o) <==> Collides(sh, files, dest, k)
  {
    var fi := files[k];
    assert Listed(sh.table, fi) && Held(sh, mid, fi.id);
    if Taken(sh, files, dest, k) {
      TakenIsHeld(sh, mid, files, dest, k);
    }
    if Target(fi, dest) in mid.disk && !PathFree(mid.table, fi.id, Target(fi, dest)) {
      HeldIsTaken(sh, mid, files, dest, k);
    }
  }

  /** A target that is free in the table is not blocked, and one that is not free and holds nothing is. */
  lemma BlockedIff<Content>(sh: Shelf<Content>, mid: Shelf<Content>, files: seq<FileInfo>, dest: Namer, k: nat, o: Outcome)
    requires k < |files| && InOrder(sh, mid, files, dest, k) && Listed(mid.table, files[k]) && Works(o)
    requires files[k].path in mid.disk && files[k].path != Target(files[k], dest) && !Loses(mid, files[k], dest, o)
    ensures PathFree(mid.table, files[k].id, Target(files[k], dest)) <==> !Blocked(sh, files[k], dest)
  {
    var fi := files[k];
    if Blocked(sh, fi, dest) {
      var a :| a in sh.table && a != fi.id && !Filed(sh, a) && sh.table[a].path == Target(fi, dest);
      FilelessStays(sh, mid, files, dest, k, a);
    }
    if !PathFree(mid.table, fi.id, Target(fi, dest)) {
      var a :| a in mid.table && a != fi.id && mid.table[a].path == Target(fi, dest);
      assert Held(sh, mid, a) && !Filed(sh, a);
      FilelessStays(sh, mid, files, dest, k, a);
    }
  }

  lemma OneMorePlace<Content>(sh: Shelf<Content>, mid: Shelf<Content>, files: seq<FileInfo>, dest: Namer, k: nat, o: Outcome)
    requires k < |files| && InOrder(sh, mid, files, dest, k) && Listed(mid.table, files[k]) && Works(o)
    requires !Loses(mid, files[k], dest, o)
    ensures RenameOne(mid, files[k], dest, o).0.table[files[k].id].path == Place(sh, files[k], dest)
  {
    var fi := files[k];
    assert Listed(sh.table, fi) && Held(sh, mid, fi.id);
    if fi.path != Target(fi, dest) && fi.path in mid.disk {
      BlockedIff(sh, mid, files, dest, k, o);
    }
  }

  lemma NextPositions<Content>(sh: Shelf<Content>, mid: Shelf<Content>, files: seq<FileInfo>, dest: Namer, k: nat, o: Outcome)
    requires k < |files| && InOrder(sh, mid, files, dest, k) && Listed(mid.table, files[k]) && DistinctPaths(mid.table)
    requires Works(o) && !Loses(mid, files[k], dest, o)
    ensures var after := RenameOne(mid, files[k], dest, o).0;
            after.table.Keys == sh.table.Keys && Positions(sh, after, files, dest, k + 1)
  {
    var after := RenameOne(mid, files[k], dest, o).0;
    OneIterationRows(mid, files[k], dest, o);
    OneMorePlace(sh, mid, files, dest, k, o);
    forall a | a in sh.table && !ListedBefore(files, k + 1, a) ensures after.table[a].path == sh.table[a].path {
      assert files[k].id != a;
      assert forall j :: 0 <= j < k ==> files[j].id != a;
    }
  }

  lemma {:induction false} OrderSoFar<Content>(sh: Shelf<Content>, files: seq<FileInfo>, dest: Namer, os: seq<Outcome>, k: nat)
    requires k <= |files| == |os| && ListedOnce(sh.table, files) && DistinctPaths(sh.table)
    requires (forall i :: 0 <= i < |os| ==> Works(os[i])) && NoLoss(sh, files, dest, os, k)
    ensures InOrder(sh, After(sh, files, dest, os, k), files, dest, k)
  {
    KeptSoFar(sh, files, dest, os, k);
    RowsBefore(sh, files, dest, os, k);
    if k > 0 {
      OrderSoFar(sh, files, dest, os, k - 1);
      RowsBefore(sh, files, dest, os, k - 1);
      NextPositions(sh, After(sh, files, dest, os, k - 1), files, dest, k - 1, os[k - 1]);
      AfterOneMore(sh, files, dest, os, k - 1);
    }
  }

  lemma {:induction false} NoLossIffNoCollision<Content>(sh: Shelf<Content>, files: seq<FileInfo>, dest: Namer, os: seq<Outcome>, n: nat)
    requires n <= |files| == |os| && ListedOnce(sh.table, files) && DistinctPaths(sh.table)
    requires forall i :: 0 <= i < |os| ==> Works(os[i])
    ensures NoLoss(sh, files, dest, os, n) <==> forall k :: 0 <= k < n ==> !Collides(sh, files, dest, k)
  {
    if n > 0 {
      NoLossIffNoCollision(sh, files, dest, os, n - 1);
      if NoLoss(sh, files, dest, os, n - 1) {
        OrderSoFar(sh, files, dest, os, n - 1);
        RowsBefore(sh, files, dest, os, n - 1);
        LosesIffCollides(sh, After(sh, files, dest, os, n - 1), files, dest, n - 1, os[n - 1]);
      }
    }
  }

  /**
   * For a batch in which every call works the condition can be read off the starting table, the disk and the
   * targets: no file that has to move finds its target taken.
   */
  lemma WorkingBatchKeepsIff<Content>(sh: Shelf<Content>, files: seq<FileInfo>, dest: Namer, os: seq<Outcome>)
    requires |os| == |files| && ListedOnce(sh.table, files) && DistinctPaths(sh.table)
    requires forall i :: 0 <= i < |os| ==> Works(os[i])
    ensures (forall k :: 0 <= k <= |files| ==> AllHeld(sh, After(sh, files, dest, os, k))) <==>
            forall k :: 0 <= k < |files| ==> !Collides(sh, files, dest, k)
  {
    BatchKeepsIff(sh, files, dest, os);
    NoLossIffNoCollision(sh, files, dest, os, |files|);
  }

  // ---------------------------------------------------------------- a second run

  /** A file listed again after the run: the row's new path, and the name that goes with it. */
  function Relisted(fi: FileInfo, table: map<int, FileRow>): FileInfo
    requires fi.id in table
  {
    fi.(path := table[fi.id].path, nc := fi.nc.(originalName := Base(table[fi.id].path)))
  }

  /** The row of a file that has arrived: untouched if it stood there already, with both new paths otherwise. */
  predicate ArrivedRow(before: FileRow, after: FileRow, fi: FileInfo, dest: Namer) {
    && after.path == Target(fi, dest) && after.bookId == before.bookId
    && after.relativePath == if fi.path == Target(fi, dest) then before.relativePath else dest(fi).relativePath
  }

  /** The listed files stand at their targets, and rows that are not listed are untouched. */
  ghost predicate Arrived(before: map<int, FileRow>, after: map<int, FileRow>, files: seq<FileInfo>, dest: Namer) {
    && after.Keys == before.Keys
    && (forall i :: 0 <= i < |files| ==>
          files[i].id in before && ArrivedRow(before[files[i].id], after[files[i].id], files[i], dest))
    && (forall a :: a in before && (forall i :: 0 <= i < |files| ==> files[i].id != a) ==> after[a] == before[a])
  }

  lemma OneMoreArrives<Content>(sh: Shelf<Content>, mid: Shelf<Content>, files: seq<FileInfo>, dest: Namer, o: Outcome)
    requires files != [] && Separate(sh.table, files, dest)
    requires Arrived(sh.table, mid.table, files[..|files| - 1], dest)
    requires !IsError(RenameOne(mid, files[|files| - 1], dest, o).1)
    ensures Arrived(sh.table, RenameOne(mid, files[|files| - 1], dest, o).0.table, files, dest)
  {
    var n := |files| - 1;
    var fi := files[n];
    assert mid.table[fi.id] == sh.table[fi.id];
    var after := RenameOne(mid, fi, dest, o).0.table;
    forall i | 0 <= i < |files| ensures ArrivedRow(sh.table[files[i].id], after[files[i].id], files[i], dest) {
      if i < n {
        assert files[..n][i] == files[i];
      }
    }
    forall a | a in sh.table && (forall i :: 0 <= i < |files| ==> files[i].id != a) ensures after[a] == sh.table[a] {
      assert a != files[n].id;
      assert forall i :: 0 <= i < n ==> files[..n][i].id != a;
    }
  }

  /** With no error every listed file stands at its target. */
  lemma {:induction false} ErrorFreeRunArrives<Content>(sh: Shelf<Content>, files: seq<FileInfo>, dest: Namer, os: seq<Outcome>)
    requires |os| == |files| && Separate(sh.table, files, dest)
    requires Errors(files, RenameMany(sh, files, dest, os).1) == []
    ensures Arrived(sh.table, RenameMany(sh, files, dest, os).0.table, files, dest)
  {
    if files != [] {
      var n := |files| - 1;
      var before := RenameMany(sh, files[..n], dest, os[..n]);
      assert RenameMany(sh, files, dest, os).1[..n] == before.1;
      ErrorFreeRunArrives(sh, files[..n], dest, os[..n]);
      OneMoreArrives(sh, before.0, files, dest, os[n]);
    }
  }

  /** After an error-free run a second one skips everything, if the templates do not use $OriginalName. */
  lemma SecondRunSkips<Content>(sh: Shelf<Content>, files: seq<FileInfo>, s: Settings, os: seq<Outcome>, again: seq<FileInfo>)
    requires |os| == |files| && Separate(sh.table, files, NamedBy(s))
    requires Errors(files, RenameMany(sh, files, NamedBy(s), os).1) == []
    requires IgnoresOriginalName(s) && forall i :: 0 <= i < |files| ==> DollarFree(files[i].nc.(originalName := ""))
    requires |again| == |files|
    requires var after := RenameMany(sh, files, NamedBy(s), os).0;
             forall i :: 0 <= i < |files| ==> files[i].id in after.table && again[i] == Relisted(files[i], after.table)
    ensures Moves(again, NamedBy(s)) == []
  {
    ErrorFreeRunArrives(sh, files, NamedBy(s), os);
    forall i | 0 <= i < |files| ensures again[i].path == Target(again[i], NamedBy(s)) {
      DestinationIgnoresOriginalName(files[i].rootPath, files[i].nc, s, Base(again[i].path));
    }
    NothingToMove(again, NamedBy(s));
  }

  lemma {:induction false} NothingToMove(files: seq<FileInfo>, dest: Namer)
    requires forall i :: 0 <= i < |files| ==> files[i].path == Target(files[i], dest)
    ensures Moves(files, dest) == []
  {
    if files != [] {
      NothingToMove(files[..|files| - 1], dest);
    }
  }

  // ---------------------------------------------------------------- two files with one target

  lemma TwoIterations<Content>(sh: Shelf<Content>, a: FileInfo, b: FileInfo, dest: Namer, o: Outcome)
    ensures RenameMany(sh, [a, b], dest, [o, o]).0 == RenameOne(RenameOne(sh, a, dest, o).0, b, dest, o).0
  {
    assert [a, b][..1] == [a] && [o, o][..1] == [o] && [a][..0] == [] && [o][..0] == [];
    assert RenameMany(sh, [a], dest, [o]).0 == RenameOne(sh, a, dest, o).0;
  }

  /**
   * Two files with the same target, both on disk, and a world in which every call succeeds: the
   * second rename overwrites the first file, its table update is refused, and renaming back leaves
   * the first row without a file.
   */
  lemma SharedTargetLosesFile<Content>(sh: Shelf<Content>, a: FileInfo, b: FileInfo, dest: Namer, ok: Outcome)
    requires ok == Outcome(true, true, true, true) && DistinctPaths(sh.table)
    requires a.id in sh.table && sh.table[a.id].path == a.path && b.id in sh.table && sh.table[b.id].path == b.path && a.id != b.id
    requires Target(a, dest) == Target(b, dest) && a.path != Target(a, dest) && b.path != Target(b, dest)
    requires PathFree(sh.table, a.id, Target(a, dest)) && a.path in sh.disk && b.path in sh.disk
    ensures var after := RenameMany(sh, [a, b], dest, [ok, ok]).0;
            && a.id in after.table && after.table[a.id].path == Target(a, dest)
            && Target(a, dest) !in after.disk && a.path !in after.disk
            && b.id in after.table && after.table[b.id] == sh.table[b.id]
            && b.path in after.disk && after.disk[b.path] == sh.disk[b.path]
  {
    var t := Target(a, dest);
    var first := RenameOne(sh, a, dest, ok).0;
    TwoIterations(sh, a, b, dest, ok);
    assert first.table[a.id].path == t && first.disk == MoveFile(sh.disk, a.path, t);
    assert !PathFree(first.table, b.id, t);
  }
}
