/** From a template to a path: normalising, sanitizing, joining. */
module Naming {
  import opened Options
  import opened Text
  import opened Template
  import opened Paths
  import opened TemplateFacts
  import opened TemplateFields

  datatype Settings = Settings(
    enabled: bool, authorFolderFormat: string, bookFileFormat: string,
    replaceSpaces: bool, colonReplacement: string)

  const DEFAULT_SETTINGS := Settings(true, "$Author", "$Author - $Title", false, "dash")

  datatype Result = Result(authorFolder: string, filename: string, relativePath: string, fullPath: string)

  // ---------------------------------------------------------------- runs of one character

  /** Drops every `ch` that follows another one; `prev` says whether one stands before `s`. */
  function Collapse(s: string, ch: char, prev: bool): string {
    if s == "" then ""
    else if s[0] == ch then (if prev then "" else [ch]) + Collapse(s[1..], ch, true)
    else [s[0]] + Collapse(s[1..], ch, false)
  }

  method CollapseRepeated(s: string, ch: char) returns (buf: string)
    ensures buf == Collapse(s, ch, false)
  {
    buf := "";
    var prev := false;
    assert s[0..] == s;
    for i := 0 to |s|
      invariant buf + Collapse(s[i..], ch, prev) == Collapse(s, ch, false)
    {
      assert s[i..][1..] == s[i + 1..];
      if s[i] == ch {
        if !prev {
          buf := buf + [ch];
        }
        prev := true;
      } else {
        buf := buf + [s[i]];
        prev := false;
      }
    }
  }

  // ---------------------------------------------------------------- normalising and sanitizing

  function ReplaceColons(s: string, mode: string): string {
    ReplaceAll(s, ":", if mode == "space" then " " else if mode == "delete" then "" else " -")
  }

  predicate IsSpace(c: char) {
    c == ' ' || c == '\t' || c == '\n' || c == '\r' || c as int == 11 || c as int == 12
  }

  predicate IsDot(c: char) {
    c == '.'
  }

  function TrimLeft(s: string, cut: char -> bool): string {
    if s != "" && cut(s[0]) then TrimLeft(s[1..], cut) else s
  }

  function TrimRight(s: string, cut: char -> bool): string {
    if s != "" && cut(s[|s| - 1]) then TrimRight(s[..|s| - 1], cut) else s
  }

  function Trim(s: string, cut: char -> bool): string {
    TrimRight(TrimLeft(s, cut), cut)
  }

  /** The part of applyTemplate that follows the two substitution stages. */
  function Normalise(text: string, s: Settings): string {
    var a := ReplaceColons(text, s.colonReplacement);
    var b := if s.replaceSpaces then ReplaceAll(a, " ", ".") else a;
    Trim(Collapse(Collapse(b, ' ', false), '.', false), IsSpace)
  }

  function ApplyTemplate(tmpl: string, nc: Context, s: Settings): string {
    Normalise(Expand(tmpl, nc), s)
  }

  const BAD_IN_FOLDER := "\\*?\"<>|"
  const BAD_IN_FILE := "/\\*?\"<>|"

  /** strings.NewReplacer with "_" for every listed character */
  function Underscore(s: string, bad: string): (r: string)
    ensures |r| == |s|
    ensures forall i :: 0 <= i < |s| ==> r[i] == if s[i] in bad then '_' else s[i]
  {
    if s == "" then "" else [if s[0] in bad then '_' else s[0]] + Underscore(s[1..], bad)
  }

  function SanitizePath(name: string): string {
    Trim(Underscore(name, BAD_IN_FOLDER), IsSpace)
  }

  function SanitizeFilename(name: string): string {
    Trim(Trim(Underscore(name, BAD_IN_FILE), IsSpace), IsDot)
  }

  function FolderName(nc: Context, s: Settings): string {
    SanitizePath(ApplyTemplate(s.authorFolderFormat, nc, s))
  }

  function FileName(nc: Context, s: Settings): string {
    WithExtension(SanitizeFilename(ApplyTemplate(s.bookFileFormat, nc, s)), Lower(nc.format))
  }

  function WithExtension(name: string, ext: string): string {
    if ext != "" && !HasSuffix(name, "." + ext) then name + ("." + ext) else name
  }

  /** Format: the full destination of a book file. None stands for nil settings. */
  function FormatPath(root: string, nc: Context, given: Option<Settings>): Result {
    var s := if given.Some? then given.value else DEFAULT_SETTINGS;
    var relative := Join(FolderName(nc, s), FileName(nc, s));
    Result(FolderName(nc, s), FileName(nc, s), relative, Join(root, relative))
  }

  // ---------------------------------------------------------------- no ".." can arise

  /** No two neighbouring `ch`. */
  ghost predicate NoDouble(s: string, ch: char) {
    forall i :: 0 <= i < |s| - 1 ==> s[i] != ch || s[i + 1] != ch
  }

  lemma {:induction false} CollapseNoDouble(s: string, ch: char, prev: bool)
    ensures NoDouble(Collapse(s, ch, prev), ch)
    ensures prev && Collapse(s, ch, prev) != "" ==> Collapse(s, ch, prev)[0] != ch
  {
    if s != "" {
      CollapseNoDouble(s[1..], ch, s[0] == ch);
    }
  }

  lemma {:induction false} TrimLeftPart(s: string, cut: char -> bool) returns (k: nat)
    ensures k <= |s| && TrimLeft(s, cut) == s[k..] && (forall i :: 0 <= i < k ==> cut(s[i]))
    ensures k < |s| ==> !cut(s[k])
  {
    if s != "" && cut(s[0]) {
      var j := TrimLeftPart(s[1..], cut);
      k := j + 1;
      assert s[1..][j..] == s[k..];
      forall i | 0 <= i < k ensures cut(s[i]) {
        assert i > 0 ==> s[i] == s[1..][i - 1];
      }
    } else {
      k := 0;
      assert s[0..] == s;
    }
  }

  lemma {:induction false} TrimRightPart(s: string, cut: char -> bool) returns (k: nat)
    ensures k <= |s| && TrimRight(s, cut) == s[..k] && (forall i :: k <= i < |s| ==> cut(s[i]))
    ensures k > 0 ==> !cut(s[k - 1])
  {
    if s != "" && cut(s[|s| - 1]) {
      k := TrimRightPart(s[..|s| - 1], cut);
      assert s[..|s| - 1][..k] == s[..k];
      forall i | k <= i < |s| ensures cut(s[i]) {
        assert i < |s| - 1 ==> s[i] == s[..|s| - 1][i];
      }
    } else {
      k := |s|;
      assert s[..k] == s;
    }
  }

  /** Trimming takes the longest runs of cut characters from both ends, and nothing from between. */
  lemma TrimPart(s: string, cut: char -> bool) returns (i: nat, j: nat)
    ensures i <= j <= |s| && Trim(s, cut) == s[i..j]
    ensures (forall k :: 0 <= k < i ==> cut(s[k])) && (forall k :: j <= k < |s| ==> cut(s[k]))
    ensures i < j ==> !cut(s[i]) && !cut(s[j - 1])
  {
    i := TrimLeftPart(s, cut);
    var k := TrimRightPart(s[i..], cut);
    j := i + k;
    assert s[i..][..k] == s[i..j];
    forall n | j <= n < |s| ensures cut(s[n]) {
      assert s[n] == s[i..][n - i];
    }
  }

  lemma NormaliseNoDouble(text: string, s: Settings)
    ensures NoDouble(Normalise(text, s), '.')
  {
    var a := ReplaceColons(text, s.colonReplacement);
    var b := Collapse(if s.replaceSpaces then ReplaceAll(a, " ", ".") else a, ' ', false);
    CollapseNoDouble(b, '.', false);
    var _, _ := TrimPart(Collapse(b, '.', false), IsSpace);
  }

  lemma SanitizePathShape(name: string)
    requires NoDouble(name, '.')
    ensures NoDouble(SanitizePath(name), '.')
  {
    var u := Underscore(name, BAD_IN_FOLDER);
    assert forall i :: 0 <= i < |u| ==> u[i] == '.' ==> name[i] == '.';
    assert NoDouble(u, '.');
    var _, _ := TrimPart(u, IsSpace);
  }

  lemma UnderscoreShape(name: string)
    requires NoDouble(name, '.')
    ensures NoDouble(Underscore(name, BAD_IN_FILE), '.') && Free('/', Underscore(name, BAD_IN_FILE))
  {
    var u := Underscore(name, BAD_IN_FILE);
    assert '/' == BAD_IN_FILE[0];
    assert forall i :: 0 <= i < |u| ==> u[i] == '.' ==> name[i] == '.';
  }

  lemma TrimKeeps(s: string, cut: char -> bool)
    requires NoDouble(s, '.') && Free('/', s)
    ensures NoDouble(Trim(s, cut), '.') && Free('/', Trim(s, cut))
    ensures Trim(s, cut) != "" ==> !cut(Trim(s, cut)[0]) && !cut(Trim(s, cut)[|Trim(s, cut)| - 1])
  {
    var _, _ := TrimPart(s, cut);
  }

  lemma SanitizeFilenameShape(name: string)
    requires NoDouble(name, '.')
    ensures var stem := SanitizeFilename(name);
            NoDouble(stem, '.') && Free('/', stem) && (stem != "" ==> stem[0] != '.' && stem[|stem| - 1] != '.')
  {
    UnderscoreShape(name);
    var u := Underscore(name, BAD_IN_FILE);
    TrimKeeps(u, IsSpace);
    TrimKeeps(Trim(u, IsSpace), IsDot);
  }

  lemma NoDoubleNoDots(s: string)
    requires NoDouble(s, '.')
    ensures !Contains(s, "..")
  {
    if Contains(s, "..") {
      var k := ContainsWitness(s, "..");
      TwoAt(s, k);
    }
  }

  lemma TwoAt(s: string, k: nat)
    requires k <= |s| && HasPrefix(s[k..], "..")
    ensures k + 1 < |s| && s[k] == '.' && s[k + 1] == '.'
  {
    var p := s[k..][..2];
    assert p[0] == s[k] && p[1] == s[k + 1];
  }

  lemma {:induction false} ComponentsNoDouble(s: string)
    requires NoDouble(s, '.')
    ensures forall i :: 0 <= i < |Split(s)| ==> NoDouble(Split(s)[i], '.')
    ensures s != "" ==> if s[0] == '/' then Split(s)[0] == "" else Split(s)[0] != "" && Split(s)[0][0] == s[0]
    ensures s == "" ==> Split(s)[0] == ""
  {
    if s != "" {
      ComponentsNoDouble(s[1..]);
      var parts := Split(s[1..]);
      if s[0] != '/' {
        assert NoDouble([s[0]] + parts[0], '.');
      }
    }
  }

  lemma NotDots(part: string)
    requires NoDouble(part, '.')
    ensures part != ".."
  {
    var dots := "..";
    assert dots[0] == '.' && dots[1] == '.';
  }

  lemma NoDotDotComponent(s: string)
    requires NoDouble(s, '.')
    ensures ".." !in Split(s)
  {
    ComponentsNoDouble(s);
    forall part | part in Split(s) ensures part != ".." {
      NotDots(part);
    }
  }

  lemma ExtensionShape(stem: string, ext: string)
    requires NoDouble(stem, '.') && Free('/', stem) && (stem != "" ==> stem[|stem| - 1] != '.')
    requires ext != "" && Free('.', ext) && Free('/', ext)
    ensures var name := WithExtension(stem, ext);
            NoDouble(name, '.') && Real(name) && HasSuffix(name, "." + ext)
  {
    var name, tail := WithExtension(stem, ext), "." + ext;
    if !HasSuffix(stem, tail) {
      assert name[|name| - |tail|..] == tail;
    }
    assert name[|name| - |tail|..][0] == '.' && name[|name| - |tail|..][1] == ext[0];
  }

  lemma LowerFree(s: string, c: char)
    requires Free(c, s) && (c == '.' || c == '/')
    ensures Free(c, Lower(s))
  {
  }

  /** Two joined names: the cleaned relative path keeps the folder's names and ends in the file. */
  lemma RelativeNames(folder: string, file: string)
    requires NoDouble(folder, '.') && Real(file)
    ensures ".." !in Split(Join(folder, file))
    ensures Names(Split(Join(folder, file))) == Names(Split(folder)) + [file]
  {
    SplitFree(file);
    NoDotDotComponent(folder);
    if folder == "" {
      NamesOfClean(file);
      assert Names(Split(folder)) == [] && Names([file]) == [file];
      assert [] + [file] == [file];
    } else {
      SplitSep(folder, file);
      NamesOfClean(folder + ("/" + file));
      NamesAppend(Split(folder), [file]);
      assert Names([file]) == [file];
    }
  }

  /**
   * Where a file goes: folder and file name hold no "..", the file name is one component that
   * ends in the lowercased extension, and the full path lies below the cleaned root.
   */
  lemma DestinationBelowRoot(root: string, nc: Context, given: Option<Settings>)
    requires Rooted(root)
    requires nc.format != "" && Free('.', nc.format) && Free('/', nc.format)
    ensures var r := FormatPath(root, nc, given);
            && !Contains(r.authorFolder, "..") && !Contains(r.filename, "..")
            && Real(r.filename) && HasSuffix(r.filename, "." + Lower(nc.format))
            && Components(r.fullPath) == Components(root) + (Names(Split(r.authorFolder)) + [r.filename])
            && r.fullPath == "/" + JoinWith(Components(root) + (Names(Split(r.authorFolder)) + [r.filename]))
  {
    var s := if given.Some? then given.value else DEFAULT_SETTINGS;
    var folder, file := FolderName(nc, s), FileName(nc, s);
    DestinationNames(nc, s);
    NoDoubleNoDots(folder);
    NoDoubleNoDots(file);
    RelativeNames(folder, file);
    JoinBelow(root, Join(folder, file));
  }

  lemma DestinationNames(nc: Context, s: Settings)
    requires nc.format != "" && Free('.', nc.format) && Free('/', nc.format)
    ensures NoDouble(FolderName(nc, s), '.') && NoDouble(FileName(nc, s), '.')
    ensures Real(FileName(nc, s)) && HasSuffix(FileName(nc, s), "." + Lower(nc.format))
  {
    var folder, file := Expand(s.authorFolderFormat, nc), Expand(s.bookFileFormat, nc);
    NormaliseNoDouble(folder, s);
    SanitizePathShape(Normalise(folder, s));
    NormaliseNoDouble(file, s);
    SanitizeFilenameShape(Normalise(file, s));
    LowerFree(nc.format, '.');
    LowerFree(nc.format, '/');
    ExtensionShape(SanitizeFilename(Normalise(file, s)), Lower(nc.format));
  }

  // ---------------------------------------------------------------- the destination of a renamed file

  /** Templates of known variables that do not mention $OriginalName. */
  ghost predicate IgnoresOriginalName(s: Settings) {
    && Clean(s.authorFolderFormat) && !Contains(s.authorFolderFormat, Token(OriginalName))
    && Clean(s.bookFileFormat) && !Contains(s.bookFileFormat, Token(OriginalName))
  }

  /** With such templates the file's present name has no say in its destination. */
  lemma DestinationIgnoresOriginalName(root: string, nc: Context, s: Settings, name: string)
    requires IgnoresOriginalName(s) && DollarFree(nc.(originalName := ""))
    ensures FormatPath(root, nc, Some(s)) == FormatPath(root, nc.(originalName := name), Some(s))
  {
    var bare := nc.(originalName := "");
    assert nc == bare.(originalName := nc.originalName) && nc.(originalName := name) == bare.(originalName := name);
    ExpandIgnoresOriginalName(s.authorFolderFormat, bare, name);
    ExpandIgnoresOriginalName(s.authorFolderFormat, bare, nc.originalName);
    ExpandIgnoresOriginalName(s.bookFileFormat, bare, name);
    ExpandIgnoresOriginalName(s.bookFileFormat, bare, nc.originalName);
  }
}
