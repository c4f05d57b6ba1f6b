/** What one import keeps at every exit, and what it has done when it succeeds. */
module ImportSafety {
  import opened Streams
  import opened Import

  predicate Holds(disk: Disk, path: string, content: Bytes) {
    path in disk && disk[path] == content
  }

  /** At every exit the downloaded bytes are still at the source or are complete at the destination. */
  lemma BytesSurvive(lib: Library, q: QueueId, source: string, paths: Paths, w: World)
    requires paths.local(source) in lib.disk && q in lib.queue
    ensures var content := lib.disk[paths.local(source)];
            var after := Imported(lib, q, source, paths, w).0;
            || Holds(after.disk, paths.local(source), content)
            || Holds(after.disk, Destination(lib.queue[q], source, paths), content)
  {
  }

  // ---------------------------------------------------------------- one row per book

  ghost predicate HasRow(files: FileTable, book: BookId) {
    exists p :: p in files && files[p].book == book
  }

  ghost predicate AtMostOne(files: FileTable, book: BookId) {
    forall p, r :: p in files && r in files && files[p].book == book && files[r].book == book ==> p == r
  }

  ghost predicate OnePerBook(files: FileTable) {
    forall p, r :: p in files && r in files && files[p].book == files[r].book ==> p == r
  }

  /** The lookups and the creation of the folder work, so that the import gets to the files. */
  predicate Prepared(lib: Library, q: QueueId, w: World) {
    w.queueRead && q in lib.queue && w.bookFound && w.rootFound && w.dirMade
  }

  /** The copy gets to the point where the destination is emptied. */
  predicate CopyBegins(lib: Library, src: string, dst: string, w: World) {
    src != dst && w.sourceOpens && src in lib.disk && w.destOpens
  }

  /** The whole file is at the destination: copied, or in place from the start. */
  predicate CopyEnds(lib: Library, src: string, dst: string, w: World) {
    if src == dst then dst in lib.disk else CopyBegins(lib, src, dst, w) && w.copied >= |lib.disk[src]|
  }

  /** The import inserts a row for the destination. */
  predicate Inserts(lib: Library, q: QueueId, source: string, paths: Paths, w: World) {
    && Prepared(lib, q, w)
    && var dst := Destination(lib.queue[q], source, paths);
    && CopyEnds(lib, paths.local(source), dst, w)
    && w.statted && w.inserted && dst !in DropExisting(lib.files, lib.queue[q].book, w)
  }

  /** Only an import that inserts a row succeeds, and all that can go wrong afterwards is the queue's update. */
  lemma ResultIff(lib: Library, q: QueueId, source: string, paths: Paths, w: World)
    ensures var r := Imported(lib, q, source, paths, w).1;
            && (r.Done? <==> Inserts(lib, q, source, paths, w) && w.updated)
            && (r == Err(UpdateQueue) <==> Inserts(lib, q, source, paths, w) && !w.updated)
  {
  }

  /** Where an import that fails has stopped, over the inputs. */
  lemma StoppedIff(lib: Library, q: QueueId, source: string, paths: Paths, w: World)
    ensures var r := Imported(lib, q, source, paths, w).1;
            && (r == Err(QueueItem) <==> !w.queueRead || q !in lib.queue)
            && (r == Err(BookInfo) <==> w.queueRead && q in lib.queue && !w.bookFound)
            && (r == Err(RootFolder) <==> w.queueRead && q in lib.queue && w.bookFound && !w.rootFound)
            && (r == Err(Directory) <==> w.queueRead && q in lib.queue && w.bookFound && w.rootFound && !w.dirMade)
    ensures Prepared(lib, q, w) ==>
              var r := Imported(lib, q, source, paths, w).1;
              var src, dst := paths.local(source), paths.dest(lib.queue[q].book, lib.queue[q].format, paths.local(source));
              && (r == Err(Copy) <==> src != dst && !CopyEnds(lib, src, dst, w))
              && (r == Err(StatFile) <==> if src == dst then dst !in lib.disk || !w.statted else CopyEnds(lib, src, dst, w) && !w.statted)
              && (r == Err(InsertRow) <==>
                    CopyEnds(lib, src, dst, w) && w.statted &&
                    (!w.inserted || dst in DropExisting(lib.files, lib.queue[q].book, w)))
  {
  }

  /**
   * What success leaves: under the path that the naming engine gives for the book, the format and the local path of
   * the download there is a row with the number of its bytes and the result of the content check.
   */
  lemma DoneSpelled(lib: Library, q: QueueId, source: string, paths: Paths, w: World)
    requires Imported(lib, q, source, paths, w).1.Done?
    ensures q in lib.queue && paths.local(source) in lib.disk
    ensures var (after, r) := Imported(lib, q, source, paths, w);
            var dst := paths.dest(lib.queue[q].book, lib.queue[q].format, paths.local(source));
            && dst in after.files && after.files[dst].book == lib.queue[q].book
            && after.files[dst].size == |lib.disk[paths.local(source)]|
            && after.files[dst].mismatch == r.mismatch == w.mismatch
  {
  }

  /** The file table after an import: the old row may be gone, and a row at the destination may be new. */
  lemma FilesAfter(lib: Library, q: QueueId, source: string, paths: Paths, w: World)
    requires q in lib.queue
    ensures var row := lib.queue[q];
            var after := Imported(lib, q, source, paths, w).0;
            var dropped := DropExisting(lib.files, row.book, w);
            var dst := Destination(row, source, paths);
            if Inserts(lib, q, source, paths, w)
            then dst !in dropped &&
                 (exists size: nat :: after.files == dropped[dst := FileRow(row.book, size, w.mismatch)])
            else after.files == if Prepared(lib, q, w) then dropped else lib.files
  {
    var row := lib.queue[q];
    var (after, r) := Imported(lib, q, source, paths, w);
    var dropped := DropExisting(lib.files, row.book, w);
    var dst := Destination(row, source, paths);
    if Inserts(lib, q, source, paths, w) {
      assert after.files == dropped[dst := FileRow(row.book, after.files[dst].size, w.mismatch)];
    }
  }

  /** No book gains a second row as long as the query for the old row and its deletion work. */
  lemma StaysOnePerBook(lib: Library, q: QueueId, source: string, paths: Paths, w: World)
    requires OnePerBook(lib.files) && (q in lib.queue ==> Honest(lib.files, lib.queue[q].book, w))
    requires w.filesRead && w.deleted
    ensures OnePerBook(Imported(lib, q, source, paths, w).0.files)
  {
    if q in lib.queue {
      FilesAfter(lib, q, source, paths, w);
      DroppedHasNone(lib.files, lib.queue[q].book, w);
    }
  }

  lemma DroppedHasNone(files: FileTable, book: BookId, w: World)
    requires OnePerBook(files) && Honest(files, book, w) && w.filesRead && w.deleted
    ensures !HasRow(DropExisting(files, book, w), book)
  {
  }

  /** Exactly when an import leaves its book with two rows: a failed clean-up is ignored, and a new path is inserted. */
  lemma SecondRowIff(lib: Library, q: QueueId, source: string, paths: Paths, w: World)
    requires q in lib.queue && OnePerBook(lib.files) && Honest(lib.files, lib.queue[q].book, w)
    ensures AtMostOne(Imported(lib, q, source, paths, w).0.files, lib.queue[q].book) <==>
            !(&& Inserts(lib, q, source, paths, w)
              && HasRow(lib.files, lib.queue[q].book)
              && !(w.filesRead && w.deleted))
  {
    var book := lib.queue[q].book;
    var after := Imported(lib, q, source, paths, w).0;
    FilesAfter(lib, q, source, paths, w);
    if Inserts(lib, q, source, paths, w) {
      var dst := Destination(lib.queue[q], source, paths);
      assert dst in after.files && after.files[dst].book == book;
      if w.filesRead && w.deleted {
        DroppedHasNone(lib.files, book, w);
      } else if HasRow(lib.files, book) {
        var p :| p in lib.files && lib.files[p].book == book;
        assert p in after.files && p != dst;
      }
    }
  }

  // ---------------------------------------------------------------- success

  /** After a successful import the book has exactly one row, and its path holds the bytes of the download. */
  lemma SuccessMeansImported(lib: Library, q: QueueId, source: string, paths: Paths, w: World)
    requires q in lib.queue && OnePerBook(lib.files) && Honest(lib.files, lib.queue[q].book, w)
    requires w.filesRead && w.deleted
    requires Imported(lib, q, source, paths, w).1.Done?
    ensures var row := lib.queue[q];
            var after := Imported(lib, q, source, paths, w).0;
            var src, dst := paths.local(source), Destination(row, source, paths);
            && dst in after.files && after.files[dst].book == row.book
            && (forall p :: p in after.files && after.files[p].book == row.book ==> p == dst)
            && src in lib.disk && Holds(after.disk, dst, lib.disk[src])
            && after.files[dst].size == |lib.disk[src]|
            && after.queue == lib.queue[q := row.(status := Completed)]
            && (src != dst && w.removed ==> src !in after.disk)
  {
    FilesAfter(lib, q, source, paths, w);
    DroppedHasNone(lib.files, lib.queue[q].book, w);
  }

  /** Only source and destination can change on disk. */
  lemma FilesElsewhere(lib: Library, q: QueueId, source: string, paths: Paths, w: World, p: string)
    requires q in lib.queue && p != paths.local(source) && p != Destination(lib.queue[q], source, paths)
    ensures var after := Imported(lib, q, source, paths, w).0;
            (p in after.disk <==> p in lib.disk) && (p in lib.disk ==> after.disk[p] == lib.disk[p])
  {
  }

  /** At every exit, rows of other books are as they were, and so are their files unless a path is shared. */
  lemma OthersUntouched(lib: Library, q: QueueId, source: string, paths: Paths, w: World, p: string)
    requires q in lib.queue && p in lib.files && lib.files[p].book != lib.queue[q].book
    ensures var after := Imported(lib, q, source, paths, w).0;
            p in after.files && after.files[p] == lib.files[p]
    ensures var after := Imported(lib, q, source, paths, w).0;
            p != paths.local(source) && p != Destination(lib.queue[q], source, paths) ==>
              ((p in after.disk <==> p in lib.disk) && (p in lib.disk ==> after.disk[p] == lib.disk[p]))
  {
    FilesAfter(lib, q, source, paths, w);
    if p != paths.local(source) && p != Destination(lib.queue[q], source, paths) {
      FilesElsewhere(lib, q, source, paths, w, p);
    }
  }

  /**
   * Exactly when a file on disk keeps its bytes through an import: it is lost when a copy onto it begins
   * whose bytes differ, or when it is the source of an import that succeeds.
   */
  lemma BytesKeptIff(lib: Library, q: QueueId, source: string, paths: Paths, w: World, p: string)
    requires q in lib.queue && p in lib.disk
    ensures var src, dst := paths.local(source), Destination(lib.queue[q], source, paths);
            Holds(Imported(lib, q, source, paths, w).0.disk, p, lib.disk[p]) <==>
            && !(Prepared(lib, q, w) && p == dst && CopyBegins(lib, src, dst, w) && Prefix(lib.disk[src], w.copied) != lib.disk[p])
            && !(Inserts(lib, q, source, paths, w) && w.updated && src != dst && w.removed && p == src)
  {
  }

  /** What a copy that writes at most `n` bytes leaves at the destination. */
  function Prefix(content: Bytes, n: nat): Bytes {
    if n < |content| then content[..n] else content
  }

  /**
   * When the destination is another book's file, a copy that begins replaces that file's bytes before the
   * table refuses the row: the import fails, and the other book's row now shows bytes of the download.
   */
  lemma SharedDestinationOverwrites(lib: Library, q: QueueId, source: string, paths: Paths, w: World)
    requires Prepared(lib, q, w) && CopyBegins(lib, paths.local(source), Destination(lib.queue[q], source, paths), w)
    requires var dst := Destination(lib.queue[q], source, paths);
             dst in lib.files && lib.files[dst].book != lib.queue[q].book
    ensures var src, dst := paths.local(source), Destination(lib.queue[q], source, paths);
            var (after, r) := Imported(lib, q, source, paths, w);
            && r.Err?
            && dst in after.files && after.files[dst] == lib.files[dst]
            && Holds(after.disk, dst, Prefix(lib.disk[src], w.copied))
  {
  }

  /**
   * Exactly when the book has a row after an import: the old row is deleted before the copy, so an import
   * that fails later leaves the book without one.
   */
  lemma HasRowIff(lib: Library, q: QueueId, source: string, paths: Paths, w: World)
    requires q in lib.queue && OnePerBook(lib.files) && Honest(lib.files, lib.queue[q].book, w)
    ensures var book := lib.queue[q].book;
            HasRow(Imported(lib, q, source, paths, w).0.files, book) <==>
            || Inserts(lib, q, source, paths, w)
            || (HasRow(lib.files, book) && !(Prepared(lib, q, w) && w.filesRead && w.deleted))
  {
    var book := lib.queue[q].book;
    FilesAfter(lib, q, source, paths, w);
    if Inserts(lib, q, source, paths, w) {
      var after, dst := Imported(lib, q, source, paths, w).0, Destination(lib.queue[q], source, paths);
      assert dst in after.files && after.files[dst].book == book;
    } else if w.filesRead && w.deleted {
      DroppedHasNone(lib.files, book, w);
    }
  }

  /** Apart from the status of its own row, an import does not touch the queue. */
  lemma QueueAfter(lib: Library, q: QueueId, source: string, paths: Paths, w: World)
    ensures var (after, r) := Imported(lib, q, source, paths, w);
            if r.Done? then q in lib.queue && after.queue == lib.queue[q := lib.queue[q].(status := Completed)]
            else after.queue == lib.queue
  {
  }
}
