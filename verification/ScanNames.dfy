/** Which book a new file of a scan is given: the names that are compared, and the names that are guessed. */
module ScanNames {
  import opened Options
  import opened Text
  import opened LibraryScan
  import Paths
  import PathFacts
  import PathInfo
  import ScanIndex
  import Sql

  /** The same text up to the case of its letters. */
  predicate SameUpToCase(a: string, b: string) {
    |a| == |b| && forall i :: 0 <= i < |a| ==> Sql.SameLetter(a[i], b[i])
  }

  lemma SameNameSpelled(a: string, b: string)
    ensures SameName(a, b) <==> SameUpToCase(a, b)
  {
    forall i | 0 <= i < |a| && i < |b| ensures Lower(a)[i] == Lower(b)[i] <==> Sql.SameLetter(a[i], b[i]) {
      Sql.LowerIsSame(a[i], b[i]);
    }
    if SameUpToCase(a, b) {
      assert forall i :: 0 <= i < |a| ==> Lower(a)[i] == Lower(b)[i];
    }
  }

  /** The names guessed for a new file; `a` and `t` are author and title as its path has them. */
  lemma GuessSpelled(root: string, path: string, meta: Metadata, a: string, t: string, epub: bool)
    requires (a, t) == PathInfo.ParsePath(root, path) && epub == ScanIndex.EndsIn(path, ".epub", ".EPUB")
    ensures var (author, title) := Guess(root, path, meta);
            && (epub && meta.author != "" ==> author == meta.author)
            && (!(epub && meta.author != "") && a != "" ==> author == a)
            && (!(epub && meta.author != "") && a == "" ==> author == "Unknown Author")
            && (epub && meta.title != "" ==> title == meta.title)
            && (!(epub && meta.title != "") && t != "" ==> title == t)
            && (!(epub && meta.title != "") && t == "" ==> title == Paths.TrimSuffix(Paths.Base(path), Paths.Ext(path)))
  {
    ScanIndex.FormatIff(path, ".epub", ".EPUB");
  }

  /** The name of a file in a folder without its extension. */
  lemma StemSpelled(folder: string, stem: string, ext: string)
    requires Free('/', stem) && Free('/', ext) && Free('.', ext)
    ensures Stem(folder + ("/" + (stem + ("." + ext)))) == stem
  {
    var name := stem + ("." + ext);
    PathFacts.BaseSpelled(folder, name);
    PathFacts.ExtSpelled(folder, stem, ext);
    PathFacts.TrimSuffixSpelled(stem, "." + ext);
  }

  /** A book of the author whose folder it is, with that title or sort title, letter by letter. */
  predicate BookIn(ix: Index, b: BookId, title: string, folder: string) {
    && b in ix.books && ix.books[b].author in ix.authors && ix.authors[ix.books[b].author].path == folder
    && (ix.books[b].title == title || ix.books[b].sortTitle == title)
  }

  /**
   * A file `stem.ext` in the folder `parent/name` belongs to a book called `stem` of the author with that folder; if
   * there is none, to a book called `name` of the author with the folder `parent`.
   */
  lemma MatchesSpelled(ix: Index, b: BookId, parent: string, name: string, stem: string, ext: string, folder: string)
    requires folder == parent + ("/" + name) && Paths.CleanPath(folder) == folder && Paths.CleanPath(parent) == parent
    requires parent != "" && name != "" && Free('/', name) && Free('/', stem) && Free('/', ext) && Free('.', ext)
    ensures Matches(ix, b, folder + ("/" + (stem + ("." + ext)))) <==>
            || BookIn(ix, b, stem, folder)
            || (BookIn(ix, b, name, parent) && forall c :: c in ix.books ==> !BookIn(ix, c, stem, folder))
  {
    StemSpelled(folder, stem, ext);
    PathFacts.DirSpelled(folder, stem + ("." + ext));
    PathFacts.DirSpelled(parent, name);
    PathFacts.BaseSpelled(parent, name);
    forall c | c in ix.books ensures InFolder(ix, c, stem, folder) <==> BookIn(ix, c, stem, folder) {}
  }
}
