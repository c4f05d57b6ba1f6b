/** The library scanner: the file table as an index of what a directory walk finds. */
module LibraryScan {
  import opened Options
  import opened Text
  import opened Sql
  import opened DirWalk
  import Paths
  import PathInfo

  datatype AuthorId = Author(n: nat)

  datatype BookId = Book(n: nat)

  datatype AuthorRow = AuthorRow(name: string, path: string)

  datatype BookRow = BookRow(author: AuthorId, title: string, sortTitle: string)

  datatype FileRow = FileRow(book: BookId, size: nat)

  /** The tables; file rows are kept under their paths, which are unique. */
  datatype Index = Index(
    rows: map<string, FileRow>,
    authors: map<AuthorId, AuthorRow>,
    books: map<BookId, BookRow>)

  /** Title and first author read from the file itself; empty where there is none. */
  datatype Metadata = Metadata(title: string, author: string)

  /** Which statements work for a path, and what its metadata says. */
  datatype World = World(
    matches: string -> bool,
    author: string -> bool,
    book: string -> bool,
    inserts: string -> bool,
    updates: string -> bool,
    removes: string -> bool,
    metadata: string -> Metadata)

  datatype ScanResult = ScanResult(total: nat, added: nat, updated: nat, removed: nat, errors: nat)

  const SUPPORTED_FORMATS: set<string> := {".epub", ".mobi", ".azw3", ".pdf", ".cbz"}

  predicate Supported(path: string, fs: set<string>) {
    Lower(Paths.Ext(path)) in fs
  }

  // ---------------------------------------------------------------- the catalogue

  /** Two names that the catalogue takes for one. */
  predicate SameName(a: string, b: string) {
    Lower(a) == Lower(b)
  }

  predicate SameBook(a: BookRow, b: BookRow) {
    a.author == b.author && SameName(a.title, b.title)
  }

  ghost predicate DistinctAuthors(authors: map<AuthorId, AuthorRow>) {
    forall a, b :: a in authors && b in authors && SameName(authors[a].name, authors[b].name) ==> a == b
  }

  ghost predicate DistinctBooks(books: map<BookId, BookRow>) {
    forall a, b :: a in books && b in books && SameBook(books[a], books[b]) ==> a == b
  }

  /** Names are distinct up to case, books have their authors, and file rows their books. */
  ghost predicate Consistent(ix: Index) {
    && DistinctAuthors(ix.authors)
    && DistinctBooks(ix.books)
    && (forall b :: b in ix.books ==> ix.books[b].author in ix.authors)
    && (forall p :: p in ix.rows ==> ix.rows[p].book in ix.books)
  }

  /** Authors and books are only added. */
  ghost predicate Grows(a: Index, b: Index) {
    && (forall x :: x in a.authors ==> x in b.authors && b.authors[x] == a.authors[x])
    && (forall x :: x in a.books ==> x in b.books && b.books[x] == a.books[x])
  }

  // ---------------------------------------------------------------- finding and creating

  predicate HasAuthor(ix: Index, name: string) {
    exists a :: a in ix.authors && SameName(ix.authors[a].name, name)
  }

  /** The book query: an author's book by title or by sort title. */
  predicate IsBook(row: BookRow, author: AuthorId, title: string) {
    row.author == author && (SameName(row.title, title) || SameName(row.sortTitle, title))
  }

  predicate HasBook(ix: Index, author: AuthorId, title: string) {
    exists b :: b in ix.books && IsBook(ix.books[b], author, title)
  }

  /** An author of that name; if there was none, exactly one is new. */
  ghost predicate AuthorFound(a: Index, c: Index, name: string, root: string, id: AuthorId) {
    && c.rows == a.rows && c.books == a.books
    && id in c.authors && SameName(c.authors[id].name, name)
    && (if HasAuthor(a, name) then c.authors == a.authors
        else id !in a.authors && c.authors == a.authors[id := AuthorRow(name, Paths.Join(root, name))])
  }

  /** A book of that title; if there was none, exactly one is new. */
  ghost predicate BookFound(a: Index, c: Index, author: AuthorId, title: string, id: BookId) {
    && c.rows == a.rows && c.authors == a.authors
    && id in c.books && IsBook(c.books[id], author, title)
    && (if HasBook(a, author, title) then c.books == a.books
        else id !in a.books && c.books == a.books[id := BookRow(author, title, title)])
  }

  /** A book with this title in the folder of its author. */
  predicate InFolder(ix: Index, b: BookId, title: string, folder: string) {
    && b in ix.books && (ix.books[b].title == title || ix.books[b].sortTitle == title)
    && ix.books[b].author in ix.authors && ix.authors[ix.books[b].author].path == folder
  }

  function Stem(path: string): string {
    Paths.TrimSuffix(Paths.Base(path), Paths.Ext(Paths.Base(path)))
  }

  /** A book of the first title and folder, or of the second ones when no book has the first. */
  predicate FirstOrSecond(ix: Index, b: BookId, title: string, folder: string, title2: string, folder2: string) {
    || InFolder(ix, b, title, folder)
    || (InFolder(ix, b, title2, folder2) && forall c :: c in ix.books ==> !InFolder(ix, c, title, folder))
  }

  /** The file lies in the author's folder and is named like the book, or in a folder there that is named like it. */
  predicate Matches(ix: Index, b: BookId, path: string) {
    var dir := Paths.Dir(path);
    FirstOrSecond(ix, b, Stem(path), dir, Paths.Base(dir), Paths.Dir(dir))
  }

  const UNKNOWN_AUTHOR := "Unknown Author"
  const EPUB := ".epub"

  /** Only EPUB files are opened for their metadata. */
  predicate HasMetadata(path: string) {
    Lower(Paths.Ext(path)) == EPUB
  }

  /** Author and title of a new file: from the metadata of an EPUB file, then from the path, then the defaults. */
  function Guess(root: string, path: string, meta: Metadata): (string, string) {
    var (author, title) := PathInfo.ParsePath(root, path);
    var a := if HasMetadata(path) && meta.author != "" then meta.author else author;
    var t := if HasMetadata(path) && meta.title != "" then meta.title else title;
    (if a == "" then UNKNOWN_AUTHOR else a,
     if t == "" then Paths.TrimSuffix(Paths.Base(path), Paths.Ext(path)) else t)
  }

  /** The book stands for that author and that title. */
  ghost predicate Stands(ix: Index, b: BookId, names: (string, string)) {
    && b in ix.books && ix.books[b].author in ix.authors
    && SameName(ix.authors[ix.books[b].author].name, names.0)
    && IsBook(ix.books[b], ix.books[b].author, names.1)
  }

  lemma AuthorGrows(a: Index, b: Index, name: string, root: string, id: AuthorId)
    requires AuthorFound(a, b, name, root, id)
    ensures Grows(a, b)
  {
  }

  lemma BookGrows(a: Index, b: Index, c: Index, name: string, root: string, author: AuthorId, title: string, id: BookId)
    requires AuthorFound(a, b, name, root, author) && BookFound(b, c, author, title, id) && Grows(a, b)
    ensures Grows(a, c) && Stands(c, id, (name, title))
  {
  }

  /** The book of a new file: it matched before, or it stands for what the file seems to be. */
  ghost predicate Fits(before: Index, after: Index, id: BookId, root: string, path: string, w: World) {
    (w.matches(path) && Matches(before, id, path)) || Stands(after, id, Guess(root, path, w.metadata(path)))
  }

  /** One row is new. */
  predicate RowAdded(before: map<string, FileRow>, after: map<string, FileRow>, path: string, size: nat) {
    path !in before && path in after && after[path].size == size && after == before[path := after[path]]
  }

  lemma StillFits(before: Index, a: Index, b: Index, id: BookId, root: string, path: string, w: World)
    requires Fits(before, a, id, root, path, w) && b.authors == a.authors && b.books == a.books
    ensures Fits(before, b, id, root, path, w)
  {
  }

  lemma NewAuthor(ix: Index, id: AuthorId, row: AuthorRow)
    requires Consistent(ix) && id !in ix.authors
    requires forall a :: a in ix.authors ==> !SameName(ix.authors[a].name, row.name)
    ensures Consistent(ix.(authors := ix.authors[id := row]))
  {
    forall a | a in ix.authors ensures !SameName(row.name, ix.authors[a].name) {
      assert !SameName(ix.authors[a].name, row.name);
    }
  }

  lemma NewBook(ix: Index, id: BookId, row: BookRow)
    requires Consistent(ix) && id !in ix.books && row.author in ix.authors
    requires forall b :: b in ix.books ==> !SameBook(ix.books[b], row)
    ensures Consistent(ix.(books := ix.books[id := row]))
  {
    forall b | b in ix.books ensures !SameBook(row, ix.books[b]) {
      assert !SameBook(ix.books[b], row);
    }
  }

  // ---------------------------------------------------------------- what a scan is about

  predicate Counts(e: Event, fs: set<string>) {
    e.Visit? && Supported(e.path, fs)
  }

  /** The supported files among the events. */
  function Found(events: seq<Event>, fs: set<string>): set<string> {
    set i | 0 <= i < |events| && Counts(events[i], fs) :: events[i].path
  }

  /** The rows the scanner takes for its own. */
  function Selected(root: string, rows: map<string, FileRow>): set<string> {
    set p | p in rows && Under(root, p)
  }

  /** Rows outside `touched` are as they were. */
  ghost predicate OthersKept(a: map<string, FileRow>, b: map<string, FileRow>, touched: set<string>) {
    forall p :: p !in touched ==> (p in b <==> p in a) && (p in a ==> b[p] == a[p])
  }

  /** The files are indexed with the sizes the walk saw. */
  ghost predicate Indexed(rows: map<string, FileRow>, events: seq<Event>, fs: set<string>) {
    forall i :: 0 <= i < |events| && Counts(events[i], fs) ==>
      events[i].path in rows && rows[events[i].path].size == events[i].size
  }

  /** Rows that stay keep their books. */
  ghost predicate BooksKept(a: map<string, FileRow>, b: map<string, FileRow>) {
    forall p :: p in a && p in b ==> b[p].book == a[p].book
  }

  /** The first phase, after the events so far: files are added or updated, nothing is removed. */
  ghost predicate Walked(a: Index, b: Index, existing: set<string>, events: seq<Event>, r: ScanResult, fs: set<string>) {
    var found := Found(events, fs);
    && Grows(a, b)
    && OthersKept(a.rows, b.rows, found)
    && BooksKept(a.rows, b.rows)
    && a.rows.Keys <= b.rows.Keys
    && r.total == |found| && r.removed == 0
    && (r.errors == 0 ==> Indexed(b.rows, events, fs) && r.added == |found - existing| && r.updated == |found * existing|)
    && (found <= existing ==> b.authors == a.authors && b.books == a.books && r.added == 0 && b.rows.Keys == a.rows.Keys)
  }

  /** The second phase: of the selected rows exactly those not found are removed, as far as that works. */
  ghost predicate Pruned(b: map<string, FileRow>, c: map<string, FileRow>, gone: set<string>, w: World) {
    && (forall p :: p in c <==> p in b && !(p in gone && w.removes(p)))
    && (forall p :: p in c ==> c[p] == b[p])
  }

  function Removable(gone: set<string>, w: World): set<string> {
    set p | p in gone && w.removes(p)
  }

  lemma RemovableAdd(done: set<string>, p: string, w: World)
    ensures Removable(done + {p}, w) == Removable(done, w) + if w.removes(p) then {p} else {}
  {
  }

  lemma PrunedAdd(a: map<string, FileRow>, b: map<string, FileRow>, c: map<string, FileRow>, done: set<string>,
                  p: string, w: World)
    requires Pruned(a, b, done, w) && c == if w.removes(p) then b - {p} else b
    ensures Pruned(a, c, done + {p}, w)
  {
  }

  lemma PrunedConsistent(b: Index, c: Index, gone: set<string>, w: World)
    requires Consistent(b) && Pruned(b.rows, c.rows, gone, w) && c.authors == b.authors && c.books == b.books
    ensures Consistent(c)
  {
  }

  /** The counters after the removals. */
  ghost predicate PrunedCount(r0: ScanResult, r: ScanResult, gone: set<string>, w: World) {
    && r == r0.(removed := r.removed, errors := r.errors)
    && r.removed == r0.removed + |Removable(gone, w)|
    && r.errors >= r0.errors
    && (r.errors == r0.errors <==> Removable(gone, w) == gone)
  }

  /** The paths of the removal loop: `left` are to come, and `done` are those not found before them. */
  ghost predicate Partway(existing: set<string>, found: set<string>, left: set<string>, done: set<string>) {
    done == (existing - found) - left && left <= existing
  }

  lemma NextPartway(existing: set<string>, found: set<string>, left: set<string>, done: set<string>, p: string)
    requires Partway(existing, found, left, done) && p in left
    ensures p !in done
    ensures Partway(existing, found, left - {p}, if p in found then done else done + {p})
  {
  }

  lemma AllParts(existing: set<string>, found: set<string>, done: set<string>)
    requires Partway(existing, found, {}, done)
    ensures done == existing - found
  {
  }

  lemma NothingPruned(a: map<string, FileRow>, r0: ScanResult, w: World)
    ensures Pruned(a, a, {}, w) && PrunedCount(r0, r0, {}, w)
  {
    assert Removable({}, w) == {};
  }

  lemma CountAdd(r0: ScanResult, r: ScanResult, r2: ScanResult, done: set<string>, p: string, w: World)
    requires PrunedCount(r0, r, done, w) && p !in done
    requires r2 == if w.removes(p) then r.(removed := r.removed + 1) else r.(errors := r.errors + 1)
    ensures PrunedCount(r0, r2, done + {p}, w)
  {
    RemovableAdd(done, p, w);
  }

  /** The events of a walk: no file twice, and every file passes the filter of the root. */
  ghost predicate Walkable(root: string, events: seq<Event>) {
    NoRepeats(events) && forall i :: 0 <= i < |events| && events[i].Visit? ==> Under(root, events[i].path)
  }

  lemma WalkIsWalkable(root: string, tree: Root)
    requires WellNamed(tree)
    ensures Walkable(root, WalkRoot(root, tree))
  {
    if tree.Present? {
      var events := Walk(root, tree.node);
      WalkOnce(root, tree.node);
      WalkStaysBelow(root, tree.node);
      forall i | 0 <= i < |events| ensures Under(root, events[i].path) {
        AtOrBelowIsUnder(events[i].path, root);
      }
    }
  }

  lemma AtOrBelowIsUnder(p: string, root: string)
    requires AtOrBelow(p, root)
    ensures Under(root, p)
  {
    var base := Child(root, "");
    if p != root {
      assert p[..|root|] == base[..|root|];
    }
    PrefixIsUnder(root, p);
  }

  /** What a whole scan does, with or without errors. */
  ghost predicate Scanned(a: Index, c: Index, root: string, events: seq<Event>, w: World, r: ScanResult, fs: set<string>) {
    var found, existing := Found(events, fs), Selected(root, a.rows);
    && Grows(a, c) && BooksKept(a.rows, c.rows)
    && (forall p :: !Under(root, p) ==> (p in c.rows <==> p in a.rows) && (p in a.rows ==> c.rows[p] == a.rows[p]))
    && (forall p :: Under(root, p) && p !in found ==> (p in c.rows <==> p in a.rows && !w.removes(p)))
    && (forall p :: p in existing && p in found ==> p in c.rows)
    && r.total == |found|
    && r.removed == |Removable(existing - found, w)|
    && (r.errors == 0 ==>
          && Indexed(c.rows, events, fs)
          && r.added == |found - existing| && r.updated == |found * existing|
          && Removable(existing - found, w) == existing - found)
    && (found <= existing ==> c.authors == a.authors && c.books == a.books && r.added == 0)
  }

  lemma NothingWalked(a: Index, existing: set<string>, fs: set<string>)
    ensures Walked(a, a, existing, [], ScanResult(0, 0, 0, 0, 0), fs)
  {
  }

  lemma SelectedOrNew(root: string, rows: map<string, FileRow>, e: Event, existing: set<string>, events: seq<Event>, i: nat)
    requires Walkable(root, events) && i < |events| && e == events[i] && existing == Selected(root, rows)
    ensures e.Visit? ==> e.path in existing || e.path !in rows
  {
  }

  ghost predicate IsPrefix(seen: seq<Event>, events: seq<Event>, i: nat) {
    i <= |events| && seen == events[..i]
  }

  lemma NextPrefix(seen: seq<Event>, events: seq<Event>, i: nat, fs: set<string>)
    requires NoRepeats(events) && i < |events| && IsPrefix(seen, events, i)
    ensures IsPrefix(seen + [events[i]], events, i + 1)
    ensures events[i].Visit? ==> events[i].path !in Found(seen, fs)
  {
  }

  lemma WholePrefix(seen: seq<Event>, events: seq<Event>)
    requires IsPrefix(seen, events, |events|)
    ensures seen == events
  {
  }

  lemma IndexedSkip(rows: map<string, FileRow>, events: seq<Event>, e: Event, fs: set<string>)
    requires !Counts(e, fs) && Indexed(rows, events, fs)
    ensures Indexed(rows, events + [e], fs)
  {
  }

  lemma WalkedSkip(a: Index, b: Index, existing: set<string>, events: seq<Event>, e: Event, r: ScanResult, r2: ScanResult, fs: set<string>)
    requires Walked(a, b, existing, events, r, fs) && !Counts(e, fs)
    requires r2 == r.(errors := r2.errors) && r.errors <= r2.errors
    ensures Walked(a, b, existing, events + [e], r2, fs)
  {
    FoundSnoc(events, e, fs);
    assert Found(events + [e], fs) == Found(events, fs);
    if r.errors == 0 {
      IndexedSkip(b.rows, events, e, fs);
    }
  }

  lemma FoundSnoc(events: seq<Event>, e: Event, fs: set<string>)
    ensures Found(events + [e], fs) == Found(events, fs) + if Counts(e, fs) then {e.path} else {}
  {
    var more := events + [e];
    forall p | p in Found(events, fs) ensures p in Found(more, fs) {
      var i :| 0 <= i < |events| && Counts(events[i], fs) && events[i].path == p;
      assert more[i] == events[i];
    }
    if Counts(e, fs) {
      assert more[|events|] == e;
    }
  }

  lemma Sizes(found: set<string>, existing: set<string>, p: string)
    requires p !in found
    ensures |found + {p}| == |found| + 1
    ensures |(found + {p}) - existing| == |found - existing| + if p in existing then 0 else 1
    ensures |(found + {p}) * existing| == |found * existing| + if p in existing then 1 else 0
  {
    if p in existing {
      assert (found + {p}) - existing == found - existing;
      assert (found + {p}) * existing == found * existing + {p};
    } else {
      assert (found + {p}) - existing == found - existing + {p};
      assert (found + {p}) * existing == found * existing;
    }
  }

  lemma IndexedSnoc(b: map<string, FileRow>, c: map<string, FileRow>, events: seq<Event>, e: Event, fs: set<string>)
    requires Indexed(b, events, fs) && OthersKept(b, c, {e.path})
    requires Counts(e, fs) && e.path in c && c[e.path].size == e.size && e.path !in Found(events, fs)
    ensures Indexed(c, events + [e], fs)
  {
    forall i | 0 <= i < |events| && Counts(events[i], fs)
      ensures events[i].path in c && c[events[i].path].size == events[i].size
    {
      assert events[i].path in Found(events, fs);
    }
  }

  /** Nothing can go wrong with this file. */
  predicate Fine(e: Event, w: World)
    requires e.Visit?
  {
    e.stat && w.author(e.path) && w.book(e.path) && w.inserts(e.path) && w.updates(e.path)
  }

  predicate Faultless(e: Event, w: World, fs: set<string>) {
    e.Visit? && (Supported(e.path, fs) ==> Fine(e, w))
  }

  ghost predicate AllFaultless(events: seq<Event>, w: World, fs: set<string>) {
    forall i :: 0 <= i < |events| ==> Faultless(events[i], w, fs)
  }

  /** When nothing can go wrong there is no error. */
  ghost predicate NoFalseErrors(events: seq<Event>, w: World, r: ScanResult, fs: set<string>) {
    AllFaultless(events, w, fs) ==> r.errors == 0
  }

  /** Every row can be removed. */
  ghost predicate Removing(rows: map<string, FileRow>, w: World) {
    forall p :: p in rows ==> w.removes(p)
  }

  /** Without a fault in the walk or in a removal the scan reports no error. */
  ghost predicate NoErrors(rows: map<string, FileRow>, events: seq<Event>, w: World, r: ScanResult, fs: set<string>) {
    AllFaultless(events, w, fs) && Removing(rows, w) ==> r.errors == 0
  }

  lemma NoErrorAtAll(rows: map<string, FileRow>, root: string, events: seq<Event>, w: World, r0: ScanResult, r: ScanResult,
                     fs: set<string>)
    requires NoFalseErrors(events, w, r0, fs) && PrunedCount(r0, r, Selected(root, rows) - Found(events, fs), w)
    ensures NoErrors(rows, events, w, r, fs)
  {
    var gone := Selected(root, rows) - Found(events, fs);
    if Removing(rows, w) {
      assert Removable(gone, w) == gone;
    }
  }

  lemma NoFalseErrorsSnoc(events: seq<Event>, e: Event, w: World, r: ScanResult, r2: ScanResult, fs: set<string>)
    requires NoFalseErrors(events, w, r, fs) && (Faultless(e, w, fs) ==> r2.errors == r.errors)
    ensures NoFalseErrors(events + [e], w, r2, fs)
  {
    var more := events + [e];
    if AllFaultless(more, w, fs) {
      assert more[|events|] == e;
      assert forall i :: 0 <= i < |events| ==> more[i] == events[i];
    }
  }

  /** What the handling of one file does to the tables. */
  ghost predicate Touched(b: Index, c: Index, e: Event, w: World, known: bool, ok: bool)
    requires e.Visit?
  {
    && (Fine(e, w) && (known || e.path !in b.rows) ==> ok)
    && Grows(b, c)
    && OthersKept(b.rows, c.rows, {e.path})
    && BooksKept(b.rows, c.rows)
    && b.rows.Keys <= c.rows.Keys
    && (ok ==> e.path in c.rows && c.rows[e.path].size == e.size)
    && (known ==> c.authors == b.authors && c.books == b.books && c.rows.Keys == b.rows.Keys)
  }

  lemma TouchedByRow(b: Index, c: Index, e: Event, w: World, known: bool, ok: bool, row: FileRow)
    requires e.Visit? && Grows(b, c)
    requires c.rows == b.rows || c.rows == b.rows[e.path := row]
    requires e.path in b.rows ==> row.book == b.rows[e.path].book
    requires ok ==> c.rows == b.rows[e.path := row] && row.size == e.size
    requires known ==> e.path in b.rows && c.authors == b.authors && c.books == b.books
    requires Fine(e, w) && (known || e.path !in b.rows) ==> ok
    ensures Touched(b, c, e, w, known, ok)
  {
  }

  /** The counters after one more file. */
  function Counted(r: ScanResult, known: bool, ok: bool): ScanResult {
    var t := r.(total := r.total + 1);
    if !ok then t.(errors := t.errors + 1)
    else if known then t.(updated := t.updated + 1)
    else t.(added := t.added + 1)
  }

  lemma KeptTwice(a: map<string, FileRow>, b: map<string, FileRow>, c: map<string, FileRow>, s: set<string>, p: string)
    requires OthersKept(a, b, s) && OthersKept(b, c, {p}) && BooksKept(a, b) && BooksKept(b, c)
    requires a.Keys <= b.Keys <= c.Keys
    ensures OthersKept(a, c, s + {p}) && BooksKept(a, c)
  {
  }

  lemma WalkedSnoc(a: Index, b: Index, c: Index, existing: set<string>, events: seq<Event>, e: Event,
                   w: World, r: ScanResult, ok: bool, fs: set<string>)
    requires Counts(e, fs) && Walked(a, b, existing, events, r, fs) && e.path !in Found(events, fs)
    requires Touched(b, c, e, w, e.path in existing, ok)
    ensures Walked(a, c, existing, events + [e], Counted(r, e.path in existing, ok), fs)
  {
    var found := Found(events, fs);
    FoundSnoc(events, e, fs);
    Sizes(found, existing, e.path);
    KeptTwice(a.rows, b.rows, c.rows, found, e.path);
    if ok && r.errors == 0 {
      IndexedSnoc(b.rows, c.rows, events, e, fs);
    }
  }

  class Scanner {
    const formats: set<string>
    var rows: map<string, FileRow>
    var authors: map<AuthorId, AuthorRow>
    var books: map<BookId, BookRow>
    var nextAuthor: nat
    var nextBook: nat

    constructor ()
      ensures Valid() && View() == Index(map[], map[], map[]) && formats == SUPPORTED_FORMATS
    {
      formats := SUPPORTED_FORMATS;
      rows, authors, books := map[], map[], map[];
      nextAuthor, nextBook := 0, 0;
    }

    ghost function View(): Index
      reads this
    {
      Index(rows, authors, books)
    }

    ghost predicate Valid()
      reads this
    {
      && Consistent(View())
      && (forall a :: a in authors ==> a.n < nextAuthor)
      && (forall b :: b in books ==> b.n < nextBook)
    }

    method FindOrCreateAuthor(name: string, root: string, works: bool) returns (id: Option<AuthorId>)
      requires Valid()
      modifies this`authors, this`nextAuthor
      ensures Valid()
      ensures if works then id.Some? && AuthorFound(old(View()), View(), name, root, id.value)
              else id.None? && View() == old(View())
    {
      if !works {
        return None;
      }
      if a :| a in authors && SameName(authors[a].name, name) {
        return Some(a);
      }
      var added := Author(nextAuthor);
      var row := AuthorRow(name, Paths.Join(root, name));
      NewAuthor(View(), added, row);
      authors := authors[added := row];
      nextAuthor := nextAuthor + 1;
      id := Some(added);
    }

    method FindOrCreateBook(author: AuthorId, title: string, works: bool) returns (id: Option<BookId>)
      requires Valid() && author in authors
      modifies this`books, this`nextBook
      ensures Valid()
      ensures if works then id.Some? && BookFound(old(View()), View(), author, title, id.value)
              else id.None? && View() == old(View())
    {
      if !works {
        return None;
      }
      if b :| b in books && IsBook(books[b], author, title) {
        return Some(b);
      }
      var added := Book(nextBook);
      var row := BookRow(author, title, title);
      NewBook(View(), added, row);
      books := books[added := row];
      nextBook := nextBook + 1;
      id := Some(added);
    }

    /** By file name in the author's folder, then by folder name in the folder above; any match will do. */
    method MatchFileToBook(path: string, works: bool) returns (id: Option<BookId>)
      ensures id.Some? ==> works && Matches(View(), id.value, path)
      ensures id.None? && works ==> forall b :: b in books ==> !Matches(View(), b, path)
    {
      if !works {
        return None;
      }
      var dir := Paths.Dir(path);
      id := FindInFolders(Stem(path), dir, Paths.Base(dir), Paths.Dir(dir));
    }

    method FindInFolders(title: string, folder: string, title2: string, folder2: string) returns (id: Option<BookId>)
      ensures id.Some? ==> FirstOrSecond(View(), id.value, title, folder, title2, folder2)
      ensures id.None? ==> forall b :: b in books ==> !FirstOrSecond(View(), b, title, folder, title2, folder2)
    {
      id := FindInFolder(title, folder);
      if id.None? {
        id := FindInFolder(title2, folder2);
      }
    }

    /** One of the two queries. */
    method FindInFolder(title: string, folder: string) returns (id: Option<BookId>)
      ensures id.Some? ==> InFolder(View(), id.value, title, folder)
      ensures id.None? ==> forall b :: b in books ==> !InFolder(View(), b, title, folder)
    {
      if b :| b in books && InFolder(Index(rows, authors, books), b, title, folder) {
        return Some(b);
      }
      id := None;
    }

    /** A book for a file that matches none. */
    method DiscoverBookFromFile(root: string, path: string, w: World) returns (id: Option<BookId>)
      requires Valid()
      modifies this`authors, this`books, this`nextAuthor, this`nextBook
      ensures Valid() && Grows(old(View()), View())
      ensures id.Some? ==> Stands(View(), id.value, Guess(root, path, w.metadata(path)))
      ensures id.Some? <==> w.author(path) && w.book(path)
    {
      var (author, title) := PathInfo.ParsePath(root, path);
      var meta := w.metadata(path);
      if HasMetadata(path) {
        if meta.title != "" {
          title := meta.title;
        }
        if meta.author != "" {
          author := meta.author;
        }
      }
      if author == "" {
        author := UNKNOWN_AUTHOR;
      }
      if title == "" {
        title := Paths.TrimSuffix(Paths.Base(path), Paths.Ext(path));
      }
      assert (author, title) == Guess(root, path, meta);
      id := BookFor(author, title, root, w.author(path), w.book(path));
    }

    method BookFor(author: string, title: string, root: string, findsAuthor: bool, findsBook: bool)
      returns (id: Option<BookId>)
      requires Valid()
      modifies this`authors, this`books, this`nextAuthor, this`nextBook
      ensures Valid() && Grows(old(View()), View())
      ensures id.Some? ==> Stands(View(), id.value, (author, title))
      ensures id.Some? <==> findsAuthor && findsBook
    {
      ghost var before := View();
      var a := FindOrCreateAuthor(author, root, findsAuthor);
      if a.None? {
        return None;
      }
      ghost var between := View();
      AuthorGrows(before, between, author, root, a.value);
      id := FindOrCreateBook(a.value, title, findsBook);
      if id.Some? {
        BookGrows(before, between, View(), author, root, a.value, title, id.value);
      }
    }

    /** The book of a new file: one that matches, or else the one it seems to be. */
    method BookOfFile(root: string, path: string, w: World) returns (id: Option<BookId>)
      requires Valid()
      modifies this`authors, this`books, this`nextAuthor, this`nextBook
      ensures Valid() && Grows(old(View()), View())
      ensures id.Some? ==> id.value in books && Fits(old(View()), View(), id.value, root, path, w)
      ensures w.author(path) && w.book(path) ==> id.Some?
    {
      id := MatchFileToBook(path, w.matches(path));
      if id.None? {
        id := DiscoverBookFromFile(root, path, w);
      }
    }

    method AddNewFile(root: string, path: string, size: nat, stat: bool, w: World) returns (ok: bool)
      requires Valid()
      modifies this
      ensures Valid() && Grows(old(View()), View())
      ensures ok ==> RowAdded(old(rows), rows, path, size)
      ensures ok ==> Fits(old(View()), View(), rows[path].book, root, path, w)
      ensures !ok ==> rows == old(rows)
      ensures stat && w.author(path) && w.book(path) && w.inserts(path) && path !in old(rows) ==> ok
    {
      if !stat {
        return false;
      }
      var book := BookOfFile(root, path, w);
      if book.None? {
        return false;
      }
      ghost var found := View();
      ok := InsertRow(path, FileRow(book.value, size), w.inserts(path));
      StillFits(old(View()), found, View(), book.value, root, path, w);
    }

    /** The table takes one row for each path. */
    method InsertRow(path: string, row: FileRow, works: bool) returns (ok: bool)
      requires Valid() && row.book in books
      modifies this`rows
      ensures Valid()
      ensures ok <==> works && path !in old(rows)
      ensures if ok then RowAdded(old(rows), rows, path, row.size) && rows[path] == row else rows == old(rows)
    {
      if !works || path in rows {
        return false;
      }
      rows := rows[path := row];
      ok := true;
    }

    method UpdateFileIfChanged(path: string, size: nat, stat: bool, w: World) returns (ok: bool)
      requires Valid() && path in rows
      modifies this`rows
      ensures Valid()
      ensures rows == old(rows)[path := FileRow(old(rows)[path].book, if ok then size else old(rows)[path].size)]
      ensures ok <==> stat && (old(rows)[path].size == size || w.updates(path))
    {
      if !stat {
        return false;
      }
      if rows[path].size == size {
        return true;
      }
      if !w.updates(path) {
        return false;
      }
      rows := rows[path := rows[path].(size := size)];
      ok := true;
    }

    method RemoveFile(path: string, works: bool) returns (ok: bool)
      modifies this`rows
      ensures ok == works
      ensures rows == if works then old(rows) - {path} else old(rows)
    {
      if works {
        rows := rows - {path};
      }
      ok := works;
    }

    /** One file of the walk. */
    method ScanFile(root: string, e: Event, known: bool, w: World) returns (ok: bool)
      requires Valid() && e.Visit? && (known ==> e.path in rows)
      modifies this
      ensures Valid() && Touched(old(View()), View(), e, w, known, ok)
    {
      ghost var before := View();
      ghost var row;
      if known {
        ok := UpdateFileIfChanged(e.path, e.size, e.stat, w);
        row := FileRow(before.rows[e.path].book, if ok then e.size else before.rows[e.path].size);
      } else {
        ok := AddNewFile(root, e.path, e.size, e.stat, w);
        row := if e.path in rows then rows[e.path] else FileRow(Book(0), e.size);
      }
      TouchedByRow(before, View(), e, w, known, ok, row);
    }

    /** The callback of the walk for one event. */
    method Visit(root: string, e: Event, existing: set<string>, w: World, r0: ScanResult,
                 ghost a: Index, ghost before: seq<Event>)
      returns (r: ScanResult)
      requires Valid() && Walked(a, View(), existing, before, r0, formats) && NoFalseErrors(before, w, r0, formats)
      requires e.Visit? ==> e.path !in Found(before, formats) && (e.path in existing || e.path !in a.rows)
      requires existing <= a.rows.Keys
      modifies this
      ensures Valid() && Walked(a, View(), existing, before + [e], r, formats)
      ensures NoFalseErrors(before + [e], w, r, formats)
    {
      ghost var b := View();
      r := r0;
      if e.Trouble? {
        r := r.(errors := r.errors + 1);
        WalkedSkip(a, b, existing, before, e, r0, r, formats);
      } else if !Supported(e.path, formats) {
        WalkedSkip(a, b, existing, before, e, r0, r, formats);
      } else {
        var known := e.path in existing;
        var ok := ScanFile(root, e, known, w);
        r := Counted(r, known, ok);
        WalkedSnoc(a, b, View(), existing, before, e, w, r0, ok, formats);
      }
      NoFalseErrorsSnoc(before, e, w, r0, r, formats);
    }

    method WalkFiles(root: string, events: seq<Event>, existing: set<string>, w: World) returns (r: ScanResult)
      requires Valid() && existing == Selected(root, rows) && Walkable(root, events)
      modifies this
      ensures Valid() && Walked(old(View()), View(), existing, events, r, formats)
      ensures NoFalseErrors(events, w, r, formats)
    {
      ghost var a := View();
      ghost var seen: seq<Event> := [];
      r := ScanResult(0, 0, 0, 0, 0);
      NothingWalked(a, existing, formats);
      var i: nat := 0;
      while i < |events|
        invariant i <= |events| && IsPrefix(seen, events, i)
        invariant Valid() && Walked(a, View(), existing, seen, r, formats) && NoFalseErrors(seen, w, r, formats)
      {
        NextPrefix(seen, events, i, formats);
        SelectedOrNew(root, a.rows, events[i], existing, events, i);
        r := Visit(root, events[i], existing, w, r, a, seen);
        seen := seen + [events[i]];
        i := i + 1;
      }
      WholePrefix(seen, events);
    }

    method RemoveOne(p: string, w: World, r: ScanResult, ghost a: map<string, FileRow>, ghost r0: ScanResult,
                     ghost done: set<string>)
      returns (r2: ScanResult)
      requires Pruned(a, rows, done, w) && PrunedCount(r0, r, done, w) && p !in done
      modifies this`rows
      ensures Pruned(a, rows, done + {p}, w) && PrunedCount(r0, r2, done + {p}, w)
    {
      ghost var b := rows;
      var ok := RemoveFile(p, w.removes(p));
      r2 := if ok then r.(removed := r.removed + 1) else r.(errors := r.errors + 1);
      PrunedAdd(a, b, rows, done, p, w);
      CountAdd(r0, r, r2, done, p, w);
    }

    /** The removal of rows whose files were not found, in any order. */
    method RemoveMissing(existing: set<string>, found: set<string>, w: World, r0: ScanResult) returns (r: ScanResult)
      modifies this`rows
      ensures Pruned(old(rows), rows, existing - found, w)
      ensures PrunedCount(r0, r, existing - found, w)
    {
      r := r0;
      var left := existing;
      ghost var done: set<string> := {};
      NothingPruned(rows, r0, w);
      while left != {}
        invariant Partway(existing, found, left, done)
        invariant Pruned(old(rows), rows, done, w) && PrunedCount(r0, r, done, w)
        decreases |left|
      {
        var p :| p in left;
        NextPartway(existing, found, left, done, p);
        left := left - {p};
        if p !in found {
          r := RemoveOne(p, w, r, old(rows), r0, done);
          done := done + {p};
        }
      }
      AllParts(existing, found, done);
    }

    /** The second half of a scan. */
    method FinishScan(root: string, events: seq<Event>, w: World, counters: ScanResult, existing: set<string>,
                      ghost a: Index)
      returns (r: ScanResult)
      requires Valid() && Walkable(root, events)
      requires existing == Selected(root, a.rows) && Walked(a, View(), existing, events, counters, formats)
      requires NoFalseErrors(events, w, counters, formats)
      modifies this`rows
      ensures Consistent(View()) && Scanned(a, View(), root, events, w, r, formats)
      ensures NoErrors(a.rows, events, w, r, formats)
    {
      ghost var b := View();
      r := RemoveMissing(existing, Found(events, formats), w, counters);
      AfterBothPhases(a, b, View(), root, events, w, counters, r, formats);
    }

    method ScanEvents(root: string, events: seq<Event>, w: World) returns (r: ScanResult)
      requires Valid() && Walkable(root, events)
      modifies this
      ensures Valid() && Scanned(old(View()), View(), root, events, w, r, formats)
      ensures NoErrors(old(rows), events, w, r, formats)
    {
      ghost var a := View();
      var existing := Selected(root, rows);
      var counters := WalkFiles(root, events, existing, w);
      r := FinishScan(root, events, w, counters, existing, a);
    }

    /** A scan: the query for existing rows, the walk, and the removals. */
    method ScanPath(root: string, tree: Root, queried: bool, w: World) returns (r: Option<ScanResult>)
      requires Valid() && WellNamed(tree)
      modifies this
      ensures Valid()
      ensures r.None? <==> !queried
      ensures r.None? ==> View() == old(View())
      ensures r.Some? ==> Scanned(old(View()), View(), root, WalkRoot(root, tree), w, r.value, formats)
      ensures r.Some? ==> NoErrors(old(rows), WalkRoot(root, tree), w, r.value, formats)
    {
      if !queried {
        return None;
      }
      var events := WalkRoot(root, tree);
      WalkIsWalkable(root, tree);
      var result := ScanEvents(root, events, w);
      r := Some(result);
    }
  }

  // ---------------------------------------------------------------- whole scans

  lemma AfterBothPhases(a: Index, b: Index, c: Index, root: string, events: seq<Event>, w: World,
                        r0: ScanResult, r: ScanResult, fs: set<string>)
    requires Walkable(root, events) && Walked(a, b, Selected(root, a.rows), events, r0, fs)
    requires NoFalseErrors(events, w, r0, fs) && Consistent(b)
    requires var gone := Selected(root, a.rows) - Found(events, fs);
             && Pruned(b.rows, c.rows, gone, w) && c.authors == b.authors && c.books == b.books
             && PrunedCount(r0, r, gone, w)
    ensures Scanned(a, c, root, events, w, r, fs) && Consistent(c)
    ensures NoErrors(a.rows, events, w, r, fs)
  {
    TwoPhases(a, b, c, root, events, w, r0, r, fs);
    NoErrorAtAll(a.rows, root, events, w, r0, r, fs);
    PrunedConsistent(b, c, Selected(root, a.rows) - Found(events, fs), w);
  }

  lemma TwoPhases(a: Index, b: Index, c: Index, root: string, events: seq<Event>, w: World,
                  r0: ScanResult, r: ScanResult, fs: set<string>)
    requires Walkable(root, events) && Walked(a, b, Selected(root, a.rows), events, r0, fs)
    requires var gone := Selected(root, a.rows) - Found(events, fs);
             && Pruned(b.rows, c.rows, gone, w) && c.authors == b.authors && c.books == b.books
             && PrunedCount(r0, r, gone, w)
    ensures Scanned(a, c, root, events, w, r, fs)
  {
    var gone := Selected(root, a.rows) - Found(events, fs);
    assert forall p :: p in Found(events, fs) ==> Under(root, p);
  }

  /**
   * After a scan without errors the rows of the filter are exactly the supported files the walk reached, with
   * their sizes on disk; the counters add up, and rows outside the filter are untouched.
   */
  lemma CleanScanIsIndex(a: Index, c: Index, root: string, events: seq<Event>, w: World, r: ScanResult, fs: set<string>)
    requires Walkable(root, events) && Scanned(a, c, root, events, w, r, fs) && r.errors == 0
    ensures Selected(root, c.rows) == Found(events, fs)
    ensures forall i :: 0 <= i < |events| && Counts(events[i], fs) ==> c.rows[events[i].path].size == events[i].size
    ensures r.total == r.added + r.updated == |Found(events, fs)|
    ensures r.removed == |Selected(root, a.rows) - Found(events, fs)|
    ensures forall p :: !Under(root, p) ==> (p in c.rows <==> p in a.rows) && (p in a.rows ==> c.rows[p] == a.rows[p])
  {
    RowsAreFound(a, c, root, events, w, r, fs);
    SplitCount(Found(events, fs), Selected(root, a.rows));
  }

  lemma AllRemovable(gone: set<string>, w: World)
    requires Removable(gone, w) == gone
    ensures forall p :: p in gone ==> w.removes(p)
  {
    forall p | p in gone ensures w.removes(p) {
      assert p in Removable(gone, w);
    }
  }

  lemma SplitCount(found: set<string>, existing: set<string>)
    ensures |found| == |found - existing| + |found * existing|
  {
    assert found == (found - existing) + (found * existing);
  }

  lemma FoundAreIndexed(rows: map<string, FileRow>, events: seq<Event>, fs: set<string>, p: string)
    requires Indexed(rows, events, fs) && p in Found(events, fs)
    ensures p in rows
  {
  }

  lemma FoundAreUnder(root: string, events: seq<Event>, fs: set<string>, p: string)
    requires Walkable(root, events) && p in Found(events, fs)
    ensures Under(root, p)
  {
  }

  lemma FoundAreSelected(rows: map<string, FileRow>, root: string, events: seq<Event>, fs: set<string>)
    requires Walkable(root, events) && Indexed(rows, events, fs)
    ensures Found(events, fs) <= Selected(root, rows)
  {
    forall p | p in Found(events, fs) ensures p in Selected(root, rows) {
      FoundAreIndexed(rows, events, fs, p);
      FoundAreUnder(root, events, fs, p);
    }
  }

  lemma RowsAreFound(a: Index, c: Index, root: string, events: seq<Event>, w: World, r: ScanResult, fs: set<string>)
    requires Walkable(root, events) && Scanned(a, c, root, events, w, r, fs) && r.errors == 0
    ensures Selected(root, c.rows) == Found(events, fs)
  {
    var found, existing := Found(events, fs), Selected(root, a.rows);
    FoundAreSelected(c.rows, root, events, fs);
    AllRemovable(existing - found, w);
    forall p | p in Selected(root, c.rows) ensures p in found {
      assert p !in existing - found;
    }
  }

  /** A second scan of an unchanged tree adds and removes nothing, and creates no author and no book. */
  lemma RescanIsQuiet(a: Index, b: Index, c: Index, root: string, events: seq<Event>, w1: World, w2: World,
                      r1: ScanResult, r2: ScanResult, fs: set<string>)
    requires Walkable(root, events)
    requires Scanned(a, b, root, events, w1, r1, fs) && r1.errors == 0
    requires Scanned(b, c, root, events, w2, r2, fs)
    ensures r2.added == 0 && r2.removed == 0 && r2.total == r1.total
    ensures c.rows.Keys == b.rows.Keys && c.authors == b.authors && c.books == b.books
    ensures r2.errors == 0 ==> c == b && r2.updated == r2.total
  {
    RowsAreFound(a, b, root, events, w1, r1, fs);
    var found := Found(events, fs);
    SameKeys(b, c, root, events, w2, r2, fs);
    if r2.errors == 0 {
      SameSizes(b, c, root, events, fs);
      SplitCount(found, found);
      assert found - found == {};
    }
  }

  lemma SameKeys(b: Index, c: Index, root: string, events: seq<Event>, w: World, r: ScanResult, fs: set<string>)
    requires Scanned(b, c, root, events, w, r, fs) && Selected(root, b.rows) == Found(events, fs)
    ensures c.rows.Keys == b.rows.Keys && r.removed == 0
  {
    var found := Found(events, fs);
    assert Removable(found - found, w) == {};
    forall p ensures p in c.rows <==> p in b.rows {
      if Under(root, p) {
        assert p in b.rows <==> p in found;
      }
    }
  }

  lemma SameSizes(b: Index, c: Index, root: string, events: seq<Event>, fs: set<string>)
    requires c.rows.Keys == b.rows.Keys && BooksKept(b.rows, c.rows)
    requires Indexed(b.rows, events, fs) && Indexed(c.rows, events, fs)
    requires Selected(root, b.rows) == Found(events, fs)
    requires forall p :: p in b.rows && !Under(root, p) ==> c.rows[p] == b.rows[p]
    ensures c.rows == b.rows
  {
    forall p | p in b.rows ensures c.rows[p] == b.rows[p] {
      if Under(root, p) {
        assert p in Selected(root, b.rows);
        var i :| 0 <= i < |events| && Counts(events[i], fs) && events[i].path == p;
        assert c.rows[p].size == b.rows[p].size;
      }
    }
  }

  // ---------------------------------------------------------------- where the filter reaches too far

  /** Everything a scan finds is at or below its root. */
  lemma FoundIsBelow(root: string, tree: Root, fs: set<string>, p: string)
    requires WellNamed(tree) && p in Found(WalkRoot(root, tree), fs)
    ensures AtOrBelow(p, root)
  {
    if tree.Present? {
      WalkStaysBelow(root, tree.node);
    }
  }

  /**
   * Exactly which rows outside the root a scan of the root leaves alone: those that the text filter does not
   * select, and those whose removal fails.
   */
  lemma OutsideRowsKeptIff(a: Index, c: Index, root: string, tree: Root, w: World, r: ScanResult, fs: set<string>, p: string)
    requires WellNamed(tree) && Scanned(a, c, root, WalkRoot(root, tree), w, r, fs)
    requires p in a.rows && !AtOrBelow(p, root)
    ensures p in c.rows <==> !(Under(root, p) && w.removes(p))
  {
    if p in Found(WalkRoot(root, tree), fs) {
      FoundIsBelow(root, tree, fs, p);
    }
  }

  /** So rows whose path merely continues the root's name, such as those of a sibling root, are removed. */
  lemma SiblingRowsRemoved(a: Index, c: Index, root: string, tree: Root, w: World, r: ScanResult, fs: set<string>, p: string)
    requires WellNamed(tree) && Scanned(a, c, root, WalkRoot(root, tree), w, r, fs)
    requires p in a.rows && HasPrefix(p, root) && !AtOrBelow(p, root)
    ensures p in c.rows <==> !w.removes(p)
  {
    PrefixIsUnder(root, p);
    OutsideRowsKeptIff(a, c, root, tree, w, r, fs, p);
  }

  /** A root that cannot be reached is an error, but all its rows are removed all the same. */
  lemma MissingRootEmptiesIndex(a: Index, c: Index, root: string, w: World, r: ScanResult, fs: set<string>)
    requires Scanned(a, c, root, WalkRoot(root, Missing), w, r, fs)
    ensures Selected(root, c.rows) == Selected(root, a.rows) - Removable(Selected(root, a.rows), w)
    ensures r.total == 0
  {
    var events := WalkRoot(root, Missing);
    assert Found(events, fs) == {};
    assert Selected(root, a.rows) - Found(events, fs) == Selected(root, a.rows);
  }
}
