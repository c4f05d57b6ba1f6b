/** parsePathForBookInfo, and its relation to the paths the naming engine prints. */
module PathInfo {
  import opened Options
  import opened Text
  import opened Template
  import opened TemplateFacts
  import opened TemplateValues
  import opened Paths
  import opened Naming

  /** strings.Index: the first place where `p` stands, or -1. */
  function Index(s: string, p: string): (r: int)
    ensures -1 <= r <= |s|
    ensures r >= 0 ==> HasPrefix(s[r..], p)
    ensures forall k :: 0 <= k < (if r < 0 then |s| + 1 else r) ==> !HasPrefix(s[k..], p)
  {
    assert s[0..] == s;
    assert forall k :: 1 <= k <= |s| ==> s[k..] == s[1..][k - 1..];
    if HasPrefix(s, p) then 0
    else if s == "" then -1
    else var r := Index(s[1..], p); if r < 0 then -1 else r + 1
  }

  /** Author and title as read from a file's path below the root. */
  function ParsePath(root: string, file: string): (string, string) {
    match Rel(root, file)
    case None => ("", "")
    case Some(rel) =>
      var parts := Split(rel);
      var fileName := parts[|parts| - 1];
      var baseName := TrimSuffix(fileName, Ext(fileName));
      if |parts| == 1 then
        var idx := Index(baseName, " - ");
        if idx > 0 then (baseName[..idx], baseName[idx + 3..]) else ("", baseName)
      else if |parts| == 2 then (parts[0], baseName)
      else (parts[0], parts[1])
  }

  // ---------------------------------------------------------------- lemmas

  lemma ExtStep(p: string, c: char)
    requires c != '/' && c != '.' && Ext(p) != ""
    ensures Ext(p + [c]) == Ext(p) + [c]
  {
    assert (p + [c])[..|p + [c]| - 1] == p;
  }

  lemma ExtDot(p: string)
    ensures Ext(p + ".") == "."
  {
  }

  lemma ExtAndOne(dotted: string, front: string, c: char)
    requires c != '/' && c != '.' && Ext(dotted) != "" && Ext(dotted + front) == Ext(dotted) + front
    ensures Ext(dotted + (front + [c])) == Ext(dotted) + (front + [c])
  {
    ExtStep(dotted + front, c);
    Regroup(dotted, front, [c]);
    Regroup(Ext(dotted), front, [c]);
  }

  lemma FrontFree(ext: string, c: char)
    requires Free(c, ext) && ext != ""
    ensures Free(c, ext[..|ext| - 1]) && ext[|ext| - 1] != c
  {
  }

  /** An extension grows with what is appended to it. */
  lemma {:induction false} ExtGrows(dotted: string, ext: string)
    requires Ext(dotted) != "" && Free('.', ext) && Free('/', ext)
    ensures Ext(dotted + ext) == Ext(dotted) + ext
    decreases |ext|
  {
    if ext == "" {
      Unchanged(dotted);
      Unchanged(Ext(dotted));
    } else {
      FrontFree(ext, '.');
      FrontFree(ext, '/');
      var front, c := ext[..|ext| - 1], ext[|ext| - 1];
      ExtGrows(dotted, front);
      ExtAndOne(dotted, front, c);
      Rejoin(ext, front, c);
    }
  }

  lemma Rejoin(ext: string, front: string, c: char)
    requires ext != "" && front == ext[..|ext| - 1] && c == ext[|ext| - 1]
    ensures ext == front + [c]
  {
  }

  lemma SuffixExt(front: string, ext: string)
    requires Free('.', ext) && Free('/', ext)
    ensures Ext(front + ("." + ext)) == "." + ext
    ensures TrimSuffix(front + ("." + ext), "." + ext) == front
  {
    ExtDot(front);
    ExtGrows(front + ".", ext);
    Regroup(front, ".", ext);
    var s, tail := front + ("." + ext), "." + ext;
    assert s[|s| - |tail|..] == tail && s[..|s| - |tail|] == front;
  }

  /** A file name without its extension is the stem, or the stem without the extension it already had. */
  lemma StemOfFile(stem: string, ext: string)
    requires ext != "" && Free('.', ext) && Free('/', ext)
    ensures var name := WithExtension(stem, ext);
            TrimSuffix(name, Ext(name)) == TrimSuffix(stem, "." + ext)
  {
    if HasSuffix(stem, "." + ext) {
      var front := stem[..|stem| - |"." + ext|];
      SuffixExt(front, ext);
      assert stem == front + ("." + ext);
    } else {
      SuffixExt(stem, ext);
    }
  }

  lemma RelNames(root: string, full: string, names: seq<string>)
    requires Rooted(root) && Rooted(full) && names != []
    requires Components(full) == Components(root) + names
    ensures Rel(root, full) == Some(JoinWith(names))
    ensures Split(JoinWith(names)) == names
  {
    ComponentsReal(full);
    forall i | 0 <= i < |names| ensures Real(names[i]) {
      assert Components(full)[|Components(root)| + i] == names[i];
    }
    RelOfPrefix(Components(root), names);
    SplitJoin(names);
  }

  /** What is read back from a path printed with any settings: the names of the printed path. */
  lemma ReadBack(root: string, nc: Context, s: Settings)
    requires Rooted(root) && Real(FileName(nc, s))
    ensures var r := FormatPath(root, nc, Some(s));
            var names := Names(Split(FolderName(nc, s))) + [FileName(nc, s)];
            Rel(root, r.fullPath) == Some(JoinWith(names)) && Split(JoinWith(names)) == names
  {
    var folder, file := FolderName(nc, s), FileName(nc, s);
    FolderNoDouble(nc, s);
    RelativeNames(folder, file);
    JoinBelow(root, Join(folder, file));
    RootedJoin(root, Join(folder, file));
    RelNames(root, FormatPath(root, nc, Some(s)).fullPath, Names(Split(folder)) + [file]);
  }

  lemma FolderNoDouble(nc: Context, s: Settings)
    ensures NoDouble(FolderName(nc, s), '.')
  {
    var text := Expand(s.authorFolderFormat, nc);
    NormaliseNoDouble(text, s);
    SanitizePathShape(Normalise(text, s));
  }

  lemma RootedJoin(root: string, rel: string)
    requires Rooted(root) && ".." !in Split(rel)
    ensures Rooted(Join(root, rel))
  {
    JoinBelow(root, rel);
  }

  /** How the parser reads a file that stands directly in the root. */
  lemma ParseOneName(root: string, full: string, file: string)
    requires Rel(root, full) == Some(JoinWith([file])) && Split(JoinWith([file])) == [file]
    ensures var baseName := TrimSuffix(file, Ext(file));
            var idx := Index(baseName, " - ");
            ParsePath(root, full) == if idx > 0 then (baseName[..idx], baseName[idx + 3..]) else ("", baseName)
  {
  }

  /**
   * The file stem that a printed book title comes back as: sanitized, and without the extension
   * if it ended in it.
   */
  function PrintedStem(text: string, nc: Context, s: Settings): string {
    TrimSuffix(SanitizeFilename(Normalise(text, s)), "." + Lower(nc.format))
  }

  function PrintedFolder(text: string, s: Settings): string {
    SanitizePath(Normalise(text, s))
  }

  lemma FileNameStem(nc: Context, s: Settings)
    requires nc.format != "" && Free('.', nc.format) && Free('/', nc.format)
    ensures TrimSuffix(FileName(nc, s), Ext(FileName(nc, s))) == PrintedStem(Expand(s.bookFileFormat, nc), nc, s)
  {
    LowerFree(nc.format, '.');
    LowerFree(nc.format, '/');
    StemOfFile(SanitizeFilename(ApplyTemplate(s.bookFileFormat, nc, s)), Lower(nc.format));
  }

  lemma AuthorAndTitle(nc: Context, s: Settings)
    requires nc.format != "" && Free('.', nc.format) && Free('/', nc.format)
    requires DollarFree(nc) && s.authorFolderFormat == Token(Author) && s.bookFileFormat == Token(Title)
    ensures FolderName(nc, s) == PrintedFolder(nc.author, s) && Real(FileName(nc, s))
    ensures TrimSuffix(FileName(nc, s), Ext(FileName(nc, s))) == PrintedStem(nc.title, nc, s)
  {
    SingleVariable(Author, nc);
    SingleVariable(Title, nc);
    FileNameStem(nc, s);
    DestinationNames(nc, s);
  }

  /** How the parser reads the names of a path and the stem of its file. */
  function ReadNames(folders: seq<string>, stem: string): (string, string) {
    if folders == [] then
      var idx := Index(stem, " - ");
      if idx > 0 then (stem[..idx], stem[idx + 3..]) else ("", stem)
    else if |folders| == 1 then (folders[0], stem)
    else (folders[0], folders[1])
  }

  lemma ParseNames(root: string, full: string, folders: seq<string>, file: string)
    requires Rel(root, full) == Some(JoinWith(folders + [file])) && Split(JoinWith(folders + [file])) == folders + [file]
    ensures ParsePath(root, full) == ReadNames(folders, TrimSuffix(file, Ext(file)))
  {
    var parts := folders + [file];
    assert parts[|parts| - 1] == file;
    if folders != [] {
      assert parts[0] == folders[0];
      if |folders| > 1 {
        assert parts[1] == folders[1];
      }
    }
  }

  /** Folder `$Author`, file `$Title`: what the parser returns for every author and title. */
  lemma FolderLayoutReadBack(root: string, nc: Context, s: Settings)
    requires Rooted(root) && nc.format != "" && Free('.', nc.format) && Free('/', nc.format)
    requires DollarFree(nc) && s.authorFolderFormat == Token(Author) && s.bookFileFormat == Token(Title)
    ensures ParsePath(root, FormatPath(root, nc, Some(s)).fullPath)
            == ReadNames(Names(Split(PrintedFolder(nc.author, s))), PrintedStem(nc.title, nc, s))
  {
    AuthorAndTitle(nc, s);
    ReadBack(root, nc, s);
    ParseNames(root, FormatPath(root, nc, Some(s)).fullPath, Names(Split(FolderName(nc, s))), FileName(nc, s));
  }

  // ---------------------------------------------------------------- what the printing steps cannot do

  lemma {:induction false} ReplaceFree(s: string, tok: string, val: string, c: char)
    requires |tok| == 1 && Free(c, val) && (tok[0] == c || Free(c, s))
    ensures Free(c, ReplaceAll(s, tok, val))
  {
    if s != "" {
      ReplaceFree(s[1..], tok, val, c);
      assert tok == [tok[0]];
    }
  }

  lemma {:induction false} ReplaceAbsent(s: string, tok: string, val: string)
    requires |tok| == 1 && Free(tok[0], s)
    ensures ReplaceAll(s, tok, val) == s
  {
    if s != "" {
      ReplaceAbsent(s[1..], tok, val);
      assert s[..1][0] == s[0];
    }
  }

  lemma {:induction false} ReplaceOneByOne(s: string, tok: string, val: string)
    requires |tok| == 1 && |val| == 1
    ensures |ReplaceAll(s, tok, val)| == |s|
  {
    if s != "" {
      ReplaceOneByOne(s[1..], tok, val);
    }
  }

  lemma {:induction false} CollapseShrinks(s: string, ch: char, prev: bool, c: char)
    ensures |Collapse(s, ch, prev)| <= |s|
    ensures Free(c, s) ==> Free(c, Collapse(s, ch, prev))
  {
    if s != "" {
      CollapseShrinks(s[1..], ch, s[0] == ch, c);
      if Free(c, s) {
        assert s[0] != c && Free(c, s[1..]);
      }
    }
  }

  lemma TrimShrinks(s: string, cut: char -> bool, c: char)
    ensures |Trim(s, cut)| <= |s|
    ensures Free(c, s) ==> Free(c, Trim(s, cut))
  {
    var _, _ := TrimPart(s, cut);
  }

  function ColonText(mode: string): (r: string)
    ensures Free(':', r) && Free('/', r)
  {
    if mode == "space" then " " else if mode == "delete" then "" else " -"
  }

  /** Normalising leaves no colon, adds no slash, and makes nothing longer that has no colon. */
  lemma NormaliseShrinks(text: string, s: Settings)
    ensures Free(':', Normalise(text, s))
    ensures Free('/', text) ==> Free('/', Normalise(text, s))
    ensures Free(':', text) ==> |Normalise(text, s)| <= |text|
  {
    var colon: string, space: string, dot: string := ":", " ", ".";
    var a := ReplaceAll(text, colon, ColonText(s.colonReplacement));
    assert a == ReplaceColons(text, s.colonReplacement);
    ReplaceFree(text, colon, ColonText(s.colonReplacement), ':');
    if Free('/', text) {
      ReplaceFree(text, colon, ColonText(s.colonReplacement), '/');
    }
    if Free(':', text) {
      ReplaceAbsent(text, colon, ColonText(s.colonReplacement));
    }
    AfterColons(a, s, space, dot);
  }

  lemma AfterColons(a: string, s: Settings, space: string, dot: string)
    requires space == " " && dot == "." && Free(':', a)
    ensures var b := if s.replaceSpaces then ReplaceAll(a, space, dot) else a;
            var r := Trim(Collapse(Collapse(b, ' ', false), '.', false), IsSpace);
            Free(':', r) && (Free('/', a) ==> Free('/', r)) && |r| <= |a|
  {
    var b := if s.replaceSpaces then ReplaceAll(a, space, dot) else a;
    ReplaceFree(a, space, dot, ':');
    if Free('/', a) {
      ReplaceFree(a, space, dot, '/');
    }
    ReplaceOneByOne(a, space, dot);
    var c1 := Collapse(b, ' ', false);
    var c2 := Collapse(c1, '.', false);
    CollapseShrinks(b, ' ', false, ':');
    CollapseShrinks(b, ' ', false, '/');
    CollapseShrinks(c1, '.', false, ':');
    CollapseShrinks(c1, '.', false, '/');
    TrimShrinks(c2, IsSpace, ':');
    TrimShrinks(c2, IsSpace, '/');
  }

  /** The printed title, before the extension. */
  function PrintedTitle(title: string, s: Settings): string {
    SanitizeFilename(Normalise(title, s))
  }

  lemma SanitizeShrinks(name: string, c: char)
    requires c != '_'
    ensures |SanitizeFilename(name)| <= |name| && (Free(c, name) ==> Free(c, SanitizeFilename(name)))
    ensures |SanitizePath(name)| <= |name| && (Free(c, name) ==> Free(c, SanitizePath(name)))
  {
    var u, v := Underscore(name, BAD_IN_FILE), Underscore(name, BAD_IN_FOLDER);
    TrimShrinks(u, IsSpace, c);
    TrimShrinks(Trim(u, IsSpace), IsDot, c);
    TrimShrinks(v, IsSpace, c);
  }

  lemma PrintedShrinks(title: string, s: Settings)
    ensures Free(':', PrintedTitle(title, s))
    ensures Free(':', title) ==> |PrintedTitle(title, s)| <= |title|
  {
    NormaliseShrinks(title, s);
    SanitizeShrinks(Normalise(title, s), ':');
  }

  lemma FolderShrinks(author: string, s: Settings)
    ensures Free('/', author) ==> Free('/', PrintedFolder(author, s))
  {
    NormaliseShrinks(author, s);
    SanitizeShrinks(Normalise(author, s), '/');
  }

  /** A title is not read back from a proper part of what it prints as. */
  lemma PartIsShort(title: string, s: Settings, i: nat, j: nat)
    requires i <= j <= |PrintedTitle(title, s)|
    ensures title == PrintedTitle(title, s)[i..j] ==> i == 0 && j == |PrintedTitle(title, s)|
  {
    PrintedShrinks(title, s);
    var t := PrintedTitle(title, s);
    if title == t[i..j] {
      forall k | 0 <= k < |title| ensures title[k] != ':' {
        assert title[k] == t[i + k];
      }
    }
  }

  /** The title comes back as the stem exactly when no step changes it and it does not end in the extension. */
  lemma StemIsTitle(nc: Context, s: Settings)
    ensures PrintedStem(nc.title, nc, s) == nc.title <==>
            PrintedTitle(nc.title, s) == nc.title && !HasSuffix(nc.title, "." + Lower(nc.format))
  {
    var t, tail := PrintedTitle(nc.title, s), "." + Lower(nc.format);
    if PrintedStem(nc.title, nc, s) == nc.title {
      var j := if HasSuffix(t, tail) then |t| - |tail| else |t|;
      assert t[..j] == t[0..j] && t[0..|t|] == t;
      PartIsShort(nc.title, s, 0, j);
    }
  }

  /** What follows a dash in the stem is never the whole title. */
  lemma SplitStemLoses(nc: Context, s: Settings)
    ensures var stem := PrintedStem(nc.title, nc, s);
            var idx := Index(stem, " - ");
            idx > 0 ==> stem[idx + 3..] != nc.title
  {
    var stem, t := PrintedStem(nc.title, nc, s), PrintedTitle(nc.title, s);
    var idx := Index(stem, " - ");
    assert stem == t[..|stem|];
    if idx > 0 {
      assert stem[idx + 3..] == t[idx + 3..|stem|];
      PartIsShort(nc.title, s, idx + 3, |stem|);
    }
  }

  /** An author without a slash prints as one folder name, as "." or as nothing. */
  lemma OneFolderAtMost(author: string, s: Settings)
    requires Free('/', author)
    ensures var folder := PrintedFolder(author, s);
            Names(Split(folder)) == if folder == "" || folder == "." then [] else [folder]
  {
    FolderShrinks(author, s);
    SplitFree(PrintedFolder(author, s));
  }

  /** The author comes back as the first folder exactly when it is one folder name that no step changes. */
  lemma FolderIsAuthor(author: string, s: Settings)
    requires author != "" && Names(Split(PrintedFolder(author, s))) != []
    ensures Names(Split(PrintedFolder(author, s)))[0] == author <==> Real(author) && PrintedFolder(author, s) == author
  {
    var folder := PrintedFolder(author, s);
    var names := Names(Split(folder));
    if names[0] == author {
      FolderNamesReal(author, s);
      OneFolderAtMost(author, s);
    }
    if Real(author) && folder == author {
      OneFolderAtMost(author, s);
    }
  }

  lemma FolderNamesReal(author: string, s: Settings)
    ensures AllReal(Names(Split(PrintedFolder(author, s))))
  {
    var folder := PrintedFolder(author, s);
    NormaliseNoDouble(author, s);
    SanitizePathShape(Normalise(author, s));
    NoDotDotComponent(folder);
    SplitSlashFree(folder);
    NamesReal(Split(folder));
  }

  /**
   * The printer and the parser undo each other for the folder layout exactly on the authors that are one
   * folder name and the titles without the file's extension at their end, if no step changes either; and on
   * books without an author whose title has no " - " behind its first character.
   */
  lemma FolderLayoutRoundTrip(root: string, nc: Context, s: Settings)
    requires Rooted(root) && nc.format != "" && Free('.', nc.format) && Free('/', nc.format)
    requires DollarFree(nc) && s.authorFolderFormat == Token(Author) && s.bookFileFormat == Token(Title)
    ensures ParsePath(root, FormatPath(root, nc, Some(s)).fullPath) == (nc.author, nc.title) <==>
            && (if nc.author == "" then Index(nc.title, " - ") <= 0
                else Real(nc.author) && SanitizePath(Normalise(nc.author, s)) == nc.author)
            && SanitizeFilename(Normalise(nc.title, s)) == nc.title
            && !HasSuffix(nc.title, "." + Lower(nc.format))
  {
    FolderLayoutReadBack(root, nc, s);
    NamesGiveBack(nc, s, Names(Split(PrintedFolder(nc.author, s))), PrintedStem(nc.title, nc, s));
  }

  lemma NamesGiveBack(nc: Context, s: Settings, folders: seq<string>, stem: string)
    requires folders == Names(Split(PrintedFolder(nc.author, s))) && stem == PrintedStem(nc.title, nc, s)
    ensures ReadNames(folders, stem) == (nc.author, nc.title) <==>
            && (if nc.author == "" then Index(nc.title, " - ") <= 0
                else Real(nc.author) && PrintedFolder(nc.author, s) == nc.author)
            && PrintedTitle(nc.title, s) == nc.title
            && !HasSuffix(nc.title, "." + Lower(nc.format))
  {
    StemIsTitle(nc, s);
    if nc.author == "" {
      NoAuthorNoFolder(nc.author, s);
    } else {
      WithAuthor(nc, s, folders, stem);
    }
  }

  lemma NoAuthorNoFolder(author: string, s: Settings)
    requires author == ""
    ensures Names(Split(PrintedFolder(author, s))) == []
  {
    NormaliseShrinks(author, s);
    assert Normalise(author, s) == "";
    SanitizeShrinks("", '/');
    assert PrintedFolder(author, s) == "";
    OneFolderAtMost(author, s);
  }

  lemma WithAuthor(nc: Context, s: Settings, folders: seq<string>, stem: string)
    requires nc.author != "" && folders == Names(Split(PrintedFolder(nc.author, s))) && stem == PrintedStem(nc.title, nc, s)
    ensures ReadNames(folders, stem) == (nc.author, nc.title) <==>
            Real(nc.author) && PrintedFolder(nc.author, s) == nc.author && stem == nc.title
  {
    if folders == [] {
      SplitStemLoses(nc, s);
      if Real(nc.author) && PrintedFolder(nc.author, s) == nc.author {
        OneFolderAtMost(nc.author, s);
      }
    } else {
      FolderIsAuthor(nc.author, s);
      if folders[0] == nc.author {
        OneFolderAtMost(nc.author, s);
      }
    }
  }

  // ---------------------------------------------------------------- authors and titles that do not come back

  /** An author with a slash is read back as author and title, whatever the title was. */
  lemma SlashAuthorSplits(root: string, nc: Context, s: Settings, a: string, b: string)
    requires Rooted(root) && nc.format != "" && Free('.', nc.format) && Free('/', nc.format)
    requires DollarFree(nc) && s.authorFolderFormat == Token(Author) && s.bookFileFormat == Token(Title)
    requires Real(a) && Real(b) && nc.author == a + ("/" + b) && PrintedFolder(nc.author, s) == nc.author
    ensures ParsePath(root, FormatPath(root, nc, Some(s)).fullPath) == (a, b)
  {
    FolderLayoutReadBack(root, nc, s);
    SplitSep(a, b);
    SplitFree(a);
    SplitFree(b);
    NamesAppend([a], [b]);
  }

  /** A title that ends in the file's own extension loses it. */
  lemma ExtensionTitleShortens(root: string, nc: Context, s: Settings)
    requires Rooted(root) && nc.format != "" && Free('.', nc.format) && Free('/', nc.format)
    requires DollarFree(nc) && s.authorFolderFormat == Token(Author) && s.bookFileFormat == Token(Title)
    requires Real(nc.author) && PrintedFolder(nc.author, s) == nc.author
    requires PrintedTitle(nc.title, s) == nc.title && HasSuffix(nc.title, "." + Lower(nc.format))
    ensures ParsePath(root, FormatPath(root, nc, Some(s)).fullPath)
            == (nc.author, nc.title[..|nc.title| - |"." + Lower(nc.format)|])
  {
    FolderLayoutReadBack(root, nc, s);
    OneFolderAtMost(nc.author, s);
  }

  // ---------------------------------------------------------------- files directly in the root

  ghost function DashFollowedBy(parsed: seq<Piece>): seq<Piece> {
    [Plain(Lit(' '))] + ([Plain(Lit('-'))] + ([Plain(Lit(' '))] + parsed))
  }

  ghost function DashPieces(): seq<Piece> {
    [Plain(Tok(Author))] + DashFollowedBy([Plain(Tok(Title))])
  }

  lemma VarHead(v: Var, rest: string)
    requires !InSeriesGroup(v)
    ensures Head(Token(v) + rest) == (Plain(Tok(v)), |Token(v)|)
  {
    var t := Token(v) + rest;
    assert t[..|Token(v)|] == Token(v);
    forall w: Var | HasPrefix(t, Token(w)) ensures w == v {
      TokenClash(t, v, w);
    }
    NoBraces(v);
    assert HasPrefix(t, Token(v)) && t[0] == Token(v)[0];
  }

  lemma LitPiece(c: char, rest: string)
    requires c != '$' && c != '{'
    ensures ParseTemplate([c] + rest) == [Plain(Lit(c))] + ParseTemplate(rest)
  {
    NoVarAt([c] + rest);
    assert ([c] + rest)[1..] == rest;
  }

  lemma VarPiece(v: Var, rest: string)
    requires !InSeriesGroup(v)
    ensures ParseTemplate(Token(v) + rest) == [Plain(Tok(v))] + ParseTemplate(rest)
  {
    VarHead(v, rest);
    TokenShape(v);
    assert (Token(v) + rest)[|Token(v)|..] == rest;
  }

  lemma LitClean(c: char, rest: string)
    requires c != '$' && Clean(rest)
    ensures Clean([c] + rest)
  {
    var s := [c] + rest;
    forall i | 0 <= i < |s| && s[i] == '$' ensures exists v: Var :: HasPrefix(s[i..], Token(v)) {
      assert s[i..] == rest[i - 1..];
    }
  }

  lemma VarClean(v: Var, rest: string)
    requires Clean(rest)
    ensures Clean(Token(v) + rest)
  {
    var s := Token(v) + rest;
    TokenShape(v);
    assert s[..|Token(v)|] == Token(v) && s[0..] == s;
    assert forall i :: 0 < i < |Token(v)| ==> s[i] == Token(v)[1..][i - 1];
    forall i | 0 <= i < |s| && s[i] == '$' ensures exists w: Var :: HasPrefix(s[i..], Token(w)) {
      if i == 0 {
        assert HasPrefix(s[i..], Token(v));
      } else {
        assert s[i..] == rest[i - |Token(v)|..];
      }
    }
  }

  ghost function Dashed(rest: string): string {
    [' '] + (['-'] + ([' '] + rest))
  }

  lemma DashTail(rest: string, parsed: seq<Piece>)
    requires ParseTemplate(rest) == parsed
    ensures ParseTemplate(Dashed(rest)) == DashFollowedBy(parsed)
  {
    LitPiece(' ', rest);
    LitPiece('-', [' '] + rest);
    LitPiece(' ', ['-'] + ([' '] + rest));
  }

  lemma DashTailClean(rest: string)
    requires Clean(rest)
    ensures Clean(Dashed(rest))
  {
    LitClean(' ', rest);
    LitClean('-', [' '] + rest);
    LitClean(' ', ['-'] + ([' '] + rest));
  }

  lemma DashText(rest: string)
    ensures Dashed(rest) == " - " + rest
  {
  }

  lemma VarAlone(v: Var)
    requires !InSeriesGroup(v)
    ensures ParseTemplate(Token(v)) == [Plain(Tok(v))]
  {
    VarPiece(v, "");
    Unchanged(Token(v));
  }

  lemma DashBetween(v: Var, rest: string, w: Var)
    requires !InSeriesGroup(v) && ParseTemplate(rest) == [Plain(Tok(w))]
    ensures ParseTemplate(Token(v) + Dashed(rest)) == [Plain(Tok(v))] + DashFollowedBy([Plain(Tok(w))])
  {
    DashTail(rest, [Plain(Tok(w))]);
    VarPiece(v, Dashed(rest));
  }

  /** The template `$Author - $Title`, piece by piece. */
  lemma DashTemplateParsed()
    ensures ParseTemplate(Token(Author) + Dashed(Token(Title))) == DashPieces()
  {
    VarAlone(Title);
    DashBetween(Author, Token(Title), Title);
  }

  lemma DashTemplateClean()
    ensures Clean(Token(Author) + Dashed(Token(Title)))
  {
    VarClean(Title, "");
    Unchanged(Token(Title));
    DashTailClean(Token(Title));
    VarClean(Author, Dashed(Token(Title)));
  }

  lemma DashRender(nc: Context)
    ensures Render(DashPieces(), nc) == nc.author + (" - " + nc.title)
  {
    var p := DashPieces();
    TokOut(Author, nc);
    TokOut(Title, nc);
    LitOut(' ', nc);
    LitOut('-', nc);
    assert Render(p[5..], nc) == "";
    assert p[4..][1..] == p[5..] && p[3..][1..] == p[4..] && p[2..][1..] == p[3..] && p[1..][1..] == p[2..];
    assert Render(p[4..], nc) == nc.title;
    assert Render(p[3..], nc) == " " + nc.title;
    assert Render(p[2..], nc) == "-" + (" " + nc.title);
    assert Render(p[1..], nc) == " " + ("-" + (" " + nc.title));
    assert " " + ("-" + (" " + nc.title)) == " - " + nc.title;
  }

  lemma DashSafe()
    ensures TemplateSafe(DashPieces())
  {
    var p := DashPieces();
    assert SeriesSafe(p[5..]);
    assert p[4..][1..] == p[5..] && p[3..][1..] == p[4..] && p[2..][1..] == p[3..] && p[1..][1..] == p[2..];
  }

  lemma DashExpand(nc: Context)
    requires DollarFree(nc)
    ensures Expand(Token(Author) + Dashed(Token(Title)), nc) == nc.author + (" - " + nc.title)
  {
    DashTemplateParsed();
    DashTemplateClean();
    DashRender(nc);
    DashSafe();
    SafeTemplateRenders(Token(Author) + Dashed(Token(Title)), nc);
  }

  /**
   * No author folder and the file template `$Author - $Title`: author and title come back exactly when no
   * step changes the printed name and its first " - " is the template's own; for a book without an author, when
   * the steps happen to leave the bare title, with no " - " behind its first character.
   */
  lemma RootLayoutRoundTrip(root: string, nc: Context, s: Settings)
    requires Rooted(root) && nc.format != "" && Free('.', nc.format) && Free('/', nc.format)
    requires DollarFree(nc) && s.authorFolderFormat == "" && s.bookFileFormat == Token(Author) + (" - " + Token(Title))
    ensures var printed := nc.author + (" - " + nc.title);
            ParsePath(root, FormatPath(root, nc, Some(s)).fullPath) == (nc.author, nc.title) <==>
            if nc.author == "" then PrintedStem(printed, nc, s) == nc.title && Index(nc.title, " - ") <= 0
            else PrintedStem(printed, nc, s) == printed && Index(printed, " - ") == |nc.author|
  {
    var file, printed := FileName(nc, s), nc.author + (" - " + nc.title);
    DashText(Token(Title));
    DashExpand(nc);
    FileNameStem(nc, s);
    EmptyFolder(nc, s);
    DestinationNames(nc, s);
    ReadBack(root, nc, s);
    assert [] + [file] == [file];
    ParseOneName(root, FormatPath(root, nc, Some(s)).fullPath, file);
    DashSplit(PrintedStem(printed, nc, s), nc.author, nc.title, " - ");
  }

  /** Splitting at the first separator gives two parts back exactly from the text they make. */
  lemma DashSplit(stem: string, author: string, title: string, sep: string)
    requires |sep| == 3
    ensures var idx := Index(stem, sep);
            (if idx > 0 then (stem[..idx], stem[idx + |sep|..]) else ("", stem)) == (author, title) <==>
            if author == "" then stem == title && idx <= 0
            else stem == author + (sep + title) && Index(author + (sep + title), sep) == |author|
  {
    var idx := Index(stem, sep);
    var whole := author + (sep + title);
    if idx > 0 && stem[..idx] == author && stem[idx + |sep|..] == title {
      assert stem[idx..][..|sep|] == sep;
      assert stem == stem[..idx] + (stem[idx..][..|sep|] + stem[idx + |sep|..]);
    }
    if stem == whole && Index(whole, sep) == |author| {
      assert whole[..|author|] == author && whole[|author| + |sep|..] == title;
    }
  }

  // ---------------------------------------------------------------- the dash of the template stays

  ghost function Dashes(s: string): nat {
    multiset(s)['-']
  }

  lemma DashesJoin(a: string, b: string)
    ensures Dashes(a + b) == Dashes(a) + Dashes(b)
  {
    assert multiset(a + b) == multiset(a) + multiset(b);
  }

  lemma DashesCut(s: string, i: nat)
    requires i <= |s|
    ensures Dashes(s) == Dashes(s[..i]) + Dashes(s[i..])
  {
    DashesJoin(s[..i], s[i..]);
    assert s == s[..i] + s[i..];
  }

  lemma {:induction false} CollapseDashes(s: string, ch: char, prev: bool)
    requires ch != '-'
    ensures Dashes(Collapse(s, ch, prev)) == Dashes(s)
  {
    if s != "" {
      var rest := Collapse(s[1..], ch, s[0] == ch);
      CollapseDashes(s[1..], ch, s[0] == ch);
      DashesCut(s, 1);
      assert s[..1] == [s[0]];
      DashesJoin([s[0]], rest);
      assert "" + rest == rest;
    }
  }

  lemma {:induction false} ReplaceDashes(s: string, tok: string, val: string)
    requires |tok| == 1 == |val| && tok[0] != '-' && val[0] != '-'
    ensures Dashes(ReplaceAll(s, tok, val)) == Dashes(s)
  {
    if s != "" {
      var rest := ReplaceAll(s[1..], tok, val);
      ReplaceDashes(s[1..], tok, val);
      DashesCut(s, 1);
      DashesJoin([s[0]], rest);
      DashesJoin(val, rest);
      assert s[..1] == [s[0]] && val == [val[0]];
    }
  }

  lemma {:induction false} LeftDashes(s: string, cut: char -> bool)
    requires !cut('-')
    ensures Dashes(TrimLeft(s, cut)) == Dashes(s)
  {
    if s != "" {
      LeftDashes(s[1..], cut);
      DashesCut(s, 1);
    }
  }

  lemma {:induction false} RightDashes(s: string, cut: char -> bool)
    requires !cut('-')
    ensures Dashes(TrimRight(s, cut)) == Dashes(s)
  {
    if s != "" {
      RightDashes(s[..|s| - 1], cut);
      DashesCut(s, |s| - 1);
    }
  }

  lemma TrimDashes(s: string, cut: char -> bool)
    requires !cut('-')
    ensures Dashes(Trim(s, cut)) == Dashes(s)
  {
    LeftDashes(s, cut);
    RightDashes(TrimLeft(s, cut), cut);
  }

  lemma {:induction false} SameDashes(s: string, t: string)
    requires |t| == |s| && forall i :: 0 <= i < |s| ==> (t[i] == '-' <==> s[i] == '-')
    ensures Dashes(t) == Dashes(s)
  {
    if s != "" {
      SameDashes(s[1..], t[1..]);
      DashesCut(s, 1);
      DashesCut(t, 1);
      assert s[..1] == [s[0]] && t[..1] == [t[0]];
    }
  }

  lemma UnderscoreDashes(s: string, bad: string)
    requires '-' !in bad
    ensures Dashes(Underscore(s, bad)) == Dashes(s)
  {
    SameDashes(s, Underscore(s, bad));
  }

  lemma NormaliseDashes(text: string, s: Settings)
    requires Free(':', text)
    ensures Dashes(Normalise(text, s)) == Dashes(text)
  {
    var colon: string, space: string, dot: string := ":", " ", ".";
    ReplaceAbsent(text, colon, ColonText(s.colonReplacement));
    ReplaceDashes(text, space, dot);
    var b := if s.replaceSpaces then ReplaceAll(text, space, dot) else text;
    CollapseDashes(b, ' ', false);
    CollapseDashes(Collapse(b, ' ', false), '.', false);
    TrimDashes(Collapse(Collapse(b, ' ', false), '.', false), IsSpace);
  }

  lemma SuffixDashes(s: string, tail: string)
    requires Free('-', tail)
    ensures Dashes(TrimSuffix(s, tail)) == Dashes(s)
  {
    if HasSuffix(s, tail) {
      DashesCut(s, |s| - |tail|);
      assert s[|s| - |tail|..] == tail;
    }
  }

  /** No step after the substitution takes a dash away or adds one, if there is no colon. */
  lemma StemDashes(text: string, nc: Context, s: Settings)
    requires Free(':', text) && Free('-', nc.format)
    ensures Dashes(PrintedStem(text, nc, s)) == Dashes(text)
  {
    NormaliseDashes(text, s);
    SanitizeDashes(Normalise(text, s), BAD_IN_FILE);
    SuffixDashes(SanitizeFilename(Normalise(text, s)), "." + Lower(nc.format));
  }

  lemma SanitizeDashes(name: string, bad: string)
    requires bad == BAD_IN_FILE
    ensures Dashes(SanitizeFilename(name)) == Dashes(name)
  {
    UnderscoreDashes(name, bad);
    TrimDashes(Underscore(name, bad), IsSpace);
    TrimDashes(Trim(Underscore(name, bad), IsSpace), IsDot);
  }

  /** With a format that has no dash a book without an author does not come back. */
  lemma RootLayoutNeedsAuthor(root: string, nc: Context, s: Settings)
    requires Rooted(root) && nc.format != "" && Free('.', nc.format) && Free('/', nc.format) && Free('-', nc.format)
    requires DollarFree(nc) && s.authorFolderFormat == "" && s.bookFileFormat == Token(Author) + (" - " + Token(Title))
    requires nc.author == ""
    ensures ParsePath(root, FormatPath(root, nc, Some(s)).fullPath) != ("", nc.title)
  {
    RootLayoutRoundTrip(root, nc, s);
    NotTheBareTitle(nc, s, " - ");
  }

  lemma NotTheBareTitle(nc: Context, s: Settings, sep: string)
    requires Free('-', nc.format) && sep == " - "
    ensures PrintedStem("" + (sep + nc.title), nc, s) != nc.title
  {
    var printed := "" + (sep + nc.title);
    StemColonFree(printed, nc, s);
    if Free(':', nc.title) {
      StemDashes(printed, nc, s);
      DashesJoin(sep, nc.title);
      assert printed == sep + nc.title;
    }
  }

  lemma StemColonFree(text: string, nc: Context, s: Settings)
    ensures Free(':', PrintedStem(text, nc, s))
  {
    PrintedShrinks(text, s);
  }

  lemma EmptyFolder(nc: Context, s: Settings)
    requires s.authorFolderFormat == ""
    ensures FolderName(nc, s) == "" && Names(Split("")) == []
  {
    LiteralPasses("", 0, nc);
    assert Expand("", nc) == "";
    assert ReplaceAll("", ":", if s.colonReplacement == "space" then " " else if s.colonReplacement == "delete" then "" else " -") == "";
    assert ReplaceAll("", " ", ".") == "";
    assert Normalise("", s) == "";
  }
}
