/** Importing a finished download into the library: the queue, the file table and the disk move together. */
module Import {
  import opened Streams

  datatype BookId = Book(n: nat)

  datatype QueueId = Row(n: nat)

  datatype ClientId = Client(n: nat)

  datatype QueueStatus = Queued | Downloading | Paused | Sent | Completed | Failed

  /** A row of the download queue; embedded downloads have no client. */
  datatype QueueRow = QueueRow(
    book: BookId, client: Owner, external: string, format: string, status: QueueStatus, savePath: string)

  datatype Owner = Embedded | Configured(id: ClientId)

  /** A row of the file table; the table is unique by path, so rows are kept under their paths. */
  datatype FileRow = FileRow(book: BookId, size: nat, mismatch: bool)

  type FileTable = map<string, FileRow>

  type Disk = map<string, Bytes>

  datatype Library = Library(queue: map<QueueId, QueueRow>, files: FileTable, disk: Disk)

  /** Remote path mapping, and the naming engine for a book, a format and the local path of the download. */
  datatype Paths = Paths(local: string -> string, dest: (BookId, string, string) -> string)

  /**
   * What the outside decides during one import: which steps fail, which row of the book the file query
   * returns, how many bytes are copied before the copy stops, and whether the content looks wrong.
   */
  datatype World = World(
    queueRead: bool, bookFound: bool, rootFound: bool, dirMade: bool,
    filesRead: bool, existing: string, deleted: bool,
    sourceOpens: bool, destOpens: bool, copied: nat,
    statted: bool, mismatch: bool, inserted: bool, updated: bool, removed: bool)

  datatype Stage = QueueItem | BookInfo | RootFolder | Directory | Copy | StatFile | InsertRow | UpdateQueue

  datatype Result = Done(mismatch: bool) | Err(stage: Stage)

  // ---------------------------------------------------------------- the stages

  /** The row of `book` the query returned, removed if the deletion works; its error is ignored. */
  function DropExisting(files: FileTable, book: BookId, w: World): FileTable {
    if w.filesRead && w.existing in files && files[w.existing].book == book && w.deleted
    then files - {w.existing} else files
  }

  /** The query returns a row of the book if there is one. */
  ghost predicate Honest(files: FileTable, book: BookId, w: World) {
    (exists p :: p in files && files[p].book == book) ==> w.existing in files && files[w.existing].book == book
  }

  /** Opening the source comes first; creating the destination empties it; a copy that stops leaves a prefix. */
  function Copied(disk: Disk, src: string, dst: string, w: World): (Disk, bool) {
    if !w.sourceOpens || src !in disk || !w.destOpens then (disk, false)
    else if w.copied < |disk[src]| then (disk[dst := disk[src][..w.copied]], false)
    else (disk[dst := disk[src]], true)
  }

  /** From the copied file to the finished queue row. */
  function Register(lib: Library, q: QueueId, src: string, dst: string, w: World): (Library, Result)
    requires q in lib.queue
  {
    if !w.statted || dst !in lib.disk then (lib, Err(StatFile))
    else if !w.inserted || dst in lib.files then (lib, Err(InsertRow))
    else
      var files := lib.files[dst := FileRow(lib.queue[q].book, |lib.disk[dst]|, w.mismatch)];
      if !w.updated then (lib.(files := files), Err(UpdateQueue))
      else
        var queue := lib.queue[q := lib.queue[q].(status := Completed)];
        var disk := if src != dst && w.removed then lib.disk - {src} else lib.disk;
        (Library(queue, files, disk), Done(w.mismatch))
  }

  function Replace(lib: Library, q: QueueId, src: string, dst: string, w: World): (Library, Result)
    requires q in lib.queue
  {
    var files := DropExisting(lib.files, lib.queue[q].book, w);
    var (disk, copied) := if src == dst then (lib.disk, true) else Copied(lib.disk, src, dst, w);
    var next := Library(lib.queue, files, disk);
    if copied then Register(next, q, src, dst, w) else (next, Err(Copy))
  }

  function Destination(row: QueueRow, source: string, paths: Paths): string {
    paths.dest(row.book, row.format, paths.local(source))
  }

  function Imported(lib: Library, q: QueueId, source: string, paths: Paths, w: World): (Library, Result) {
    if !w.queueRead || q !in lib.queue then (lib, Err(QueueItem))
    else if !w.bookFound then (lib, Err(BookInfo))
    else if !w.rootFound then (lib, Err(RootFolder))
    else if !w.dirMade then (lib, Err(Directory))
    else Replace(lib, q, paths.local(source), Destination(lib.queue[q], source, paths), w)
  }

  // ---------------------------------------------------------------- the service

  class Service {
    var queue: map<QueueId, QueueRow>
    var files: FileTable
    var disk: Disk

    ghost function View(): Library
      reads this
    {
      Library(queue, files, disk)
    }

    method CopyFile(src: string, dst: string, w: World) returns (ok: bool)
      modifies this`disk
      ensures (disk, ok) == Copied(old(disk), src, dst, w)
    {
      if !w.sourceOpens || src !in disk {
        return false;
      }
      if !w.destOpens {
        return false;
      }
      var content := disk[src];
      if w.copied < |content| {
        disk := disk[dst := content[..w.copied]];
        return false;
      }
      disk := disk[dst := content];
      ok := true;
    }

    method UpdateQueueItemStatus(q: QueueId, status: QueueStatus, works: bool) returns (ok: bool)
      modifies this`queue
      ensures ok == works
      ensures queue == if works && q in old(queue) then old(queue)[q := old(queue)[q].(status := status)] else old(queue)
    {
      if works && q in queue {
        queue := queue[q := queue[q].(status := status)];
      }
      ok := works;
    }

    /** The second half: the row for the copied file, the queue, and the source that is no longer needed. */
    method RegisterFile(q: QueueId, src: string, dst: string, w: World) returns (r: Result)
      requires q in queue
      modifies this
      ensures (View(), r) == Register(old(View()), q, src, dst, w)
    {
      if !w.statted || dst !in disk {
        return Err(StatFile);
      }
      if !w.inserted || dst in files {
        return Err(InsertRow);
      }
      files := files[dst := FileRow(queue[q].book, |disk[dst]|, w.mismatch)];
      var ok := UpdateQueueItemStatus(q, Completed, w.updated);
      if !ok {
        return Err(UpdateQueue);
      }
      if src != dst && w.removed {
        disk := disk - {src};
      }
      r := Done(w.mismatch);
    }

    /** The first half: the old row goes, then the file is copied unless it is in place already. */
    method ReplaceFile(q: QueueId, src: string, dst: string, w: World) returns (r: Result)
      requires q in queue
      modifies this
      ensures (View(), r) == Replace(old(View()), q, src, dst, w)
    {
      var book := queue[q].book;
      if w.filesRead && w.existing in files && files[w.existing].book == book {
        if w.deleted {
          files := files - {w.existing};
        }
      }
      var sameFile := src == dst;
      if !sameFile {
        var ok := CopyFile(src, dst, w);
        if !ok {
          return Err(Copy);
        }
      }
      r := RegisterFile(q, src, dst, w);
    }

    method ImportCompletedDownload(q: QueueId, source: string, paths: Paths, w: World) returns (r: Result)
      modifies this
      ensures (View(), r) == Imported(old(View()), q, source, paths, w)
    {
      var src := paths.local(source);
      if !w.queueRead || q !in queue {
        return Err(QueueItem);
      }
      if !w.bookFound {
        return Err(BookInfo);
      }
      if !w.rootFound {
        return Err(RootFolder);
      }
      var dst := paths.dest(queue[q].book, queue[q].format, src);
      if !w.dirMade {
        return Err(Directory);
      }
      r := ReplaceFile(q, src, dst, w);
    }
  }
}
