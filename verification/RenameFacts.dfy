/** The batch rename against the naming engine: what a row, the listing and the errors say. */
module RenameFacts {
  import opened Options
  import opened Text
  import opened Template
  import opened Paths
  import opened Naming
  import opened Rename
  import PathFacts

  // ---------------------------------------------------------------- one file

  /** The table with a row's path and relative path replaced. */
  ghost predicate OnlyRowMoved(before: map<int, FileRow>, after: map<int, FileRow>, id: int, path: string, relativePath: string) {
    && after.Keys == before.Keys
    && (id in before ==>
          && after[id].bookId == before[id].bookId && after[id].path == path && after[id].relativePath == relativePath)
    && (forall other :: other in before && other != id ==> after[other] == before[other])
  }

  /** The disk with a file at a new place. */
  ghost predicate OnlyFileMoved<Content>(before: map<string, Content>, after: map<string, Content>, from: string, to: string) {
    && from in before && to in after && after[to] == before[from]
    && (from != to ==> from !in after)
    && (forall p :: p != from && p != to ==> (p in after <==> p in before) && (p in before ==> after[p] == before[p]))
  }

  /** The row of `id` can take the path. */
  ghost predicate NoOtherRowAt(table: map<int, FileRow>, id: int, path: string) {
    forall other :: other in table && table[other].path == path ==> other == id
  }

  /**
   * One file of a batch: it is skipped exactly when it stands where the naming engine puts it. Otherwise the folder is
   * made, the file moved and the row changed, in this order, and the verdict names the first that fails; nothing has
   * changed then, except that a file whose row could not be changed stays at its new place if it is not moved back.
   */
  lemma RenameOneSpelled<Content>(sh: Shelf<Content>, fi: FileInfo, dest: Namer, o: Outcome)
    ensures var r := dest(fi);
            var (after, v) := RenameOne(sh, fi, dest, o);
            && (v == Skipped <==> fi.path == r.fullPath)
            && (v == MkdirFailed <==> fi.path != r.fullPath && !o.mkdir)
            && (v == RenameFailed <==> fi.path != r.fullPath && o.mkdir && !(o.rename && fi.path in sh.disk))
            && (v == Renamed <==>
                  && fi.path != r.fullPath && o.mkdir && o.rename && fi.path in sh.disk
                  && o.update && NoOtherRowAt(sh.table, fi.id, r.fullPath))
            && (v == Renamed ==>
                  && OnlyFileMoved(sh.disk, after.disk, fi.path, r.fullPath)
                  && OnlyRowMoved(sh.table, after.table, fi.id, r.fullPath, r.relativePath))
            && (v == Skipped || v == MkdirFailed || v == RenameFailed ==> after == sh)
            && (v == UpdateFailed ==> after.table == sh.table)
            && (v == UpdateFailed && !o.renameBack ==> OnlyFileMoved(sh.disk, after.disk, fi.path, r.fullPath))
            && (v == UpdateFailed && o.renameBack && r.fullPath !in sh.disk ==> after.disk == sh.disk)
  {
  }

  /** In a batch the paths come from the naming engine, with the row's root folder and context. */
  lemma BatchIsNamed(fi: FileInfo, s: Settings)
    ensures NamedBy(s)(fi) == FormatPath(fi.rootPath, fi.nc, Some(s))
  {
  }

  // ---------------------------------------------------------------- the listing and the errors

  /** The file is listed as a move from its row's path to where it belongs. */
  predicate ListedAs(fi: FileInfo, dest: Namer, m: Move) {
    m.bookId == fi.bookId && m.oldPath == fi.path && m.newPath == dest(fi).fullPath
  }

  /** The file is not where it belongs. */
  predicate Astray(fi: FileInfo, dest: Namer) {
    fi.path != dest(fi).fullPath
  }

  /** The files that are not where they belong. */
  ghost function Misplaced(files: seq<FileInfo>, dest: Namer): set<nat> {
    set i: nat | i < |files| && Astray(files[i], dest)
  }

  /** The listing: as many moves as there are misplaced files, and the n-th of them is that of the n-th file. */
  lemma {:induction false} MovesSpelled(files: seq<FileInfo>, dest: Namer, i: nat)
    requires i < |files| && Astray(files[i], dest)
    ensures |Misplaced(files[..i], dest)| < |Moves(files, dest)| == |Misplaced(files, dest)|
    ensures ListedAs(files[i], dest, Moves(files, dest)[|Misplaced(files[..i], dest)|])
  {
    var last: nat := |files| - 1;
    var front := files[..last];
    NextMisplaced(files, dest);
    MovesCounted(front, dest);
    if i < last {
      MovesSpelled(front, dest, i);
      assert front[..i] == files[..i];
    }
  }

  lemma {:induction false} MovesCounted(files: seq<FileInfo>, dest: Namer)
    ensures |Moves(files, dest)| == |Misplaced(files, dest)|
  {
    if files == [] {
      assert Misplaced(files, dest) == {};
    } else {
      MovesCounted(files[..|files| - 1], dest);
      NextMisplaced(files, dest);
    }
  }

  lemma NextMisplaced(files: seq<FileInfo>, dest: Namer)
    requires files != []
    ensures var last: nat := |files| - 1;
            |Misplaced(files, dest)| == |Misplaced(files[..last], dest)| + if Astray(files[last], dest) then 1 else 0
  {
    var last: nat := |files| - 1;
    var front := files[..last];
    assert Misplaced(files, dest) == Misplaced(front, dest) + if Astray(files[last], dest) then {last} else {};
    assert last !in Misplaced(front, dest);
  }

  /** The errors are those of the files whose verdict is neither "skipped" nor "renamed", with their ids. */
  lemma {:induction false} ErrorsSpelled(files: seq<FileInfo>, verdicts: seq<Verdict>, id: int, v: Verdict)
    requires |verdicts| == |files|
    ensures (id, v) in Errors(files, verdicts) <==>
            v != Skipped && v != Renamed && exists i :: 0 <= i < |files| && files[i].id == id && verdicts[i] == v
  {
    if files != [] {
      var n := |files| - 1;
      ErrorsSpelled(files[..n], verdicts[..n], id, v);
      assert forall i :: 0 <= i < n ==> files[..n][i] == files[i] && verdicts[..n][i] == verdicts[i];
    }
  }

  // ---------------------------------------------------------------- a run without errors

  /** After a run without errors every listed row has the full and the relative path of the naming engine. */
  lemma RowsAreNamed<Content>(sh: Shelf<Content>, files: seq<FileInfo>, s: Settings, os: seq<Outcome>, i: nat)
    requires |os| == |files| && Separate(sh.table, files, NamedBy(s)) && i < |files|
    requires Errors(files, RenameMany(sh, files, NamedBy(s), os).1) == []
    ensures var r, after := FormatPath(files[i].rootPath, files[i].nc, Some(s)), RenameMany(sh, files, NamedBy(s), os).0.table;
            && files[i].id in sh.table && files[i].id in after
            && after[files[i].id].bookId == sh.table[files[i].id].bookId
            && after[files[i].id].path == r.fullPath
            && after[files[i].id].relativePath ==
               if files[i].path == r.fullPath then sh.table[files[i].id].relativePath else r.relativePath
  {
    ErrorFreeRunArrives(sh, files, NamedBy(s), os);
  }

  // ---------------------------------------------------------------- what the templates are given

  /** The context of a batch line: the query's columns, four characters of year, no quality and the file's name. */
  lemma BatchLineSpelled(row: Found, dir: string, name: string)
    requires row.path == dir + ("/" + name) && name != "" && Free('/', name)
    ensures var fi := BatchLine(row);
            && fi.id == row.id && fi.bookId == row.bookId && fi.path == row.path && fi.rootPath == row.rootPath
            && fi.nc.author == row.author && fi.nc.sortAuthor == row.sortAuthor && fi.nc.title == row.title
            && fi.nc.series == row.series && fi.nc.seriesPosition == row.seriesPosition && fi.nc.format == row.format
            && fi.nc.quality == "" && fi.nc.originalName == name
            && (|row.releaseDate| < 4 ==> fi.nc.year == "")
            && (|row.releaseDate| >= 4 ==> |fi.nc.year| == 4 && fi.nc.year <= row.releaseDate)
  {
    PathFacts.BaseSpelled(dir, name);
  }
}
