/** What a printed name looks like, character by character, and where the default settings put a book. */
module NamingFacts {
  import opened Options
  import opened Text
  import opened Template
  import opened Paths
  import opened Naming
  import opened TemplateFacts
  import opened TemplateValues
  import PathInfo

  // ---------------------------------------------------------------- colons and spaces

  lemma {:induction false} ReplaceAt(a: string, c: char, b: string, val: string)
    ensures ReplaceAll(a + ([c] + b), [c], val) == ReplaceAll(a, [c], val) + (val + ReplaceAll(b, [c], val))
  {
    var s := a + ([c] + b);
    if a == "" {
      assert s == [c] + b && s[1..] == b;
    } else {
      assert s[1..] == a[1..] + ([c] + b);
      assert s[..1] == a[..1];
      ReplaceAt(a[1..], c, b, val);
    }
  }

  lemma ColonAt(a: string, b: string, mode: string, colon: string, val: string)
    requires colon == ":" && val == if mode == "space" then " " else if mode == "delete" then "" else " -"
    ensures ReplaceColons(a + (colon + b), mode) == ReplaceColons(a, mode) + (val + ReplaceColons(b, mode))
  {
    ReplaceAt(a, ':', b, val);
  }

  /** A colon becomes a space, nothing or, in every other mode, a space and a dash; other characters stay. */
  lemma ColonSpelled(a: string, b: string, mode: string)
    ensures mode == "space" ==> ReplaceColons(a + (":" + b), mode) == ReplaceColons(a, mode) + (" " + ReplaceColons(b, mode))
    ensures mode == "delete" ==> ReplaceColons(a + (":" + b), mode) == ReplaceColons(a, mode) + ReplaceColons(b, mode)
    ensures mode != "space" && mode != "delete" ==>
              ReplaceColons(a + (":" + b), mode) == ReplaceColons(a, mode) + (" -" + ReplaceColons(b, mode))
    ensures Free(':', a) ==> ReplaceColons(a, mode) == a
  {
    var colon, val := ":", if mode == "space" then " " else if mode == "delete" then "" else " -";
    ColonAt(a, b, mode, colon, val);
    if mode == "delete" {
      assert "" + ReplaceColons(b, mode) == ReplaceColons(b, mode);
    }
    if Free(':', a) {
      PathInfo.ReplaceAbsent(a, colon, val);
    }
  }

  /** Replacing one character by another, place by place. */
  lemma {:induction false} ReplaceEach(s: string, c: char, d: char)
    ensures var r := ReplaceAll(s, [c], [d]);
            |r| == |s| && forall i :: 0 <= i < |s| ==> r[i] == if s[i] == c then d else s[i]
  {
    if s != "" {
      ReplaceEach(s[1..], c, d);
      assert s[..1] == [s[0]];
    }
  }

  // ---------------------------------------------------------------- collapsing

  /** A text without neighbouring `ch` is left alone. */
  lemma {:induction false} CollapseNothing(s: string, ch: char, prev: bool)
    requires NoDouble(s, ch) && !(prev && s != "" && s[0] == ch)
    ensures Collapse(s, ch, prev) == s
  {
    if s != "" {
      assert NoDouble(s[1..], ch) && (|s| > 1 ==> s[1..][0] == s[1]);
      CollapseNothing(s[1..], ch, s[0] == ch);
    }
  }

  /** One of two neighbouring `ch` goes, wherever they stand. */
  lemma {:induction false} CollapsePair(a: string, ch: char, b: string, prev: bool)
    ensures Collapse(a + ([ch] + ([ch] + b)), ch, prev) == Collapse(a + ([ch] + b), ch, prev)
  {
    var two, one := a + ([ch] + ([ch] + b)), a + ([ch] + b);
    if a == "" {
      assert two == [ch] + ([ch] + b) && one == [ch] + b;
      assert two[1..] == one && one[1..] == b;
    } else {
      CollapsePair(a[1..], ch, b, a[0] == ch);
      assert two[1..] == a[1..] + ([ch] + ([ch] + b)) && one[1..] == a[1..] + ([ch] + b);
    }
  }

  /** The blanks that are trimmed: the ASCII codes 9 to 13 and 32. */
  lemma SpaceCodes(c: char)
    ensures IsSpace(c) <==> 9 <= c as int <= 13 || c as int == 32
    ensures IsDot(c) <==> c as int == 46
  {
  }

  // ---------------------------------------------------------------- the characters that are replaced

  predicate BadInFolder(c: char) {
    c == '\\' || c == '*' || c == '?' || c == '"' || c == '<' || c == '>' || c == '|'
  }

  lemma BadSpelled(c: char)
    ensures c in BAD_IN_FOLDER <==> BadInFolder(c)
    ensures c in BAD_IN_FILE <==> BadInFolder(c) || c == '/'
  {
    var folder, file := BAD_IN_FOLDER, BAD_IN_FILE;
    assert folder[0] == '\\' && folder[1] == '*' && folder[2] == '?' && folder[3] == '"' && folder[4] == '<';
    assert folder[5] == '>' && folder[6] == '|';
    assert file[0] == '/' && file[1] == '\\' && file[2] == '*' && file[3] == '?' && file[4] == '"' && file[5] == '<';
    assert file[6] == '>' && file[7] == '|';
  }

  /** A folder keeps its slashes, a file does not; the other bad characters become underscores in both. */
  lemma UnderscoreSpelled(name: string, i: nat)
    requires i < |name|
    ensures |Underscore(name, BAD_IN_FOLDER)| == |name| == |Underscore(name, BAD_IN_FILE)|
    ensures Underscore(name, BAD_IN_FOLDER)[i] == if BadInFolder(name[i]) then '_' else name[i]
    ensures Underscore(name, BAD_IN_FILE)[i] == if BadInFolder(name[i]) || name[i] == '/' then '_' else name[i]
  {
    BadSpelled(name[i]);
  }

  // ---------------------------------------------------------------- plain names stay as they are

  /** A name without colons, slashes and characters to replace, without runs, blanks or dots where they are cut. */
  ghost predicate PlainName(s: string) {
    && s != ""
    && (forall i :: 0 <= i < |s| ==> s[i] != ':' && s[i] != '/' && !BadInFolder(s[i]))
    && NoDouble(s, ' ') && NoDouble(s, '.')
    && !IsSpace(s[0]) && !IsSpace(s[|s| - 1]) && !IsDot(s[0]) && !IsDot(s[|s| - 1])
  }

  lemma TrimNothing(s: string, cut: char -> bool)
    requires s != "" && !cut(s[0]) && !cut(s[|s| - 1])
    ensures Trim(s, cut) == s
  {
  }

  lemma UnderscoreNothing(s: string, bad: string)
    requires forall i :: 0 <= i < |s| ==> s[i] !in bad
    ensures Underscore(s, bad) == s
  {
  }

  lemma PlainCharacters(s: string)
    requires PlainName(s)
    ensures Free(':', s) && Underscore(s, BAD_IN_FOLDER) == s && Underscore(s, BAD_IN_FILE) == s
  {
    forall i | 0 <= i < |s| ensures s[i] !in BAD_IN_FOLDER && s[i] !in BAD_IN_FILE {
      BadSpelled(s[i]);
    }
    UnderscoreNothing(s, BAD_IN_FOLDER);
    UnderscoreNothing(s, BAD_IN_FILE);
  }

  /** Without the replacement of spaces no step changes a plain name. */
  lemma PlainStays(s: string, given: Settings)
    requires PlainName(s) && !given.replaceSpaces
    ensures Normalise(s, given) == s && SanitizePath(s) == s && SanitizeFilename(s) == s
  {
    PlainCharacters(s);
    ColonSpelled(s, "", given.colonReplacement);
    CollapseNothing(s, ' ', false);
    CollapseNothing(s, '.', false);
    TrimNothing(s, IsSpace);
    TrimNothing(s, IsDot);
  }

  /** With the replacement of spaces a plain name without neighbouring blanks and dots gets dots for its spaces. */
  lemma SpacesBecomeDots(s: string, given: Settings)
    requires PlainName(s) && given.replaceSpaces
    requires forall i :: 0 <= i < |s| - 1 ==> (s[i] != ' ' && s[i] != '.') || (s[i + 1] != ' ' && s[i + 1] != '.')
    ensures var r := Normalise(s, given);
            |r| == |s| && forall i :: 0 <= i < |s| ==> r[i] == if s[i] == ' ' then '.' else s[i]
  {
    PlainCharacters(s);
    ColonSpelled(s, "", given.colonReplacement);
    ReplaceEach(s, ' ', '.');
    var r := ReplaceAll(s, [' '], ['.']);
    assert r[0] == s[0] && r[|r| - 1] == s[|s| - 1];
    CollapseNothing(r, ' ', false);
    CollapseNothing(r, '.', false);
    TrimNothing(r, IsSpace);
    SpaceAndDot(s, given, r);
  }

  lemma SpaceAndDot(s: string, given: Settings, r: string)
    requires given.replaceSpaces && ReplaceColons(s, given.colonReplacement) == s && r == ReplaceAll(s, [' '], ['.'])
    ensures Normalise(s, given) == Trim(Collapse(Collapse(r, ' ', false), '.', false), IsSpace)
  {
    var space, dot := " ", ".";
    assert space == [' '] && dot == ['.'];
  }

  lemma DashedIsPlain(author: string, title: string, dash: string)
    requires PlainName(author) && PlainName(title) && dash == " - "
    ensures PlainName(author + (dash + title))
  {
    var s := author + (dash + title);
    assert s == author + dash + title;
    forall i | 0 <= i < |s| - 1
      ensures (s[i] != ' ' || s[i + 1] != ' ') && (s[i] != '.' || s[i + 1] != '.')
    {
      if i + 1 >= |author| + 3 {
        assert i >= |author| + 3 ==> s[i] == title[i - |author| - 3] && s[i + 1] == title[i + 1 - |author| - 3];
      }
    }
  }

  /** Lower-casing moves the letters A to Z by 32 and leaves every other character. */
  lemma LowerSpelled(s: string, i: nat)
    requires i < |s| == |Lower(s)|
    ensures 'A' <= s[i] <= 'Z' ==> Lower(s)[i] as int == s[i] as int + 32
    ensures !('A' <= s[i] <= 'Z') ==> Lower(s)[i] == s[i]
  {
  }

  /** The text and the lowercased format behind it, unless it is there already. */
  lemma ExtensionOnce(stem: string, ext: string)
    ensures ext == "" ==> WithExtension(stem, ext) == stem
    ensures ext != "" && !HasSuffix(stem, "." + ext) ==> WithExtension(stem, ext) == stem + ("." + ext)
    ensures WithExtension(WithExtension(stem, ext), ext) == WithExtension(stem, ext)
  {
    var tail, name := "." + ext, stem + ("." + ext);
    assert name[|name| - |tail|..] == tail;
  }

  lemma DefaultTemplates()
    ensures DEFAULT_SETTINGS.authorFolderFormat == Token(Author) && !DEFAULT_SETTINGS.replaceSpaces
    ensures DEFAULT_SETTINGS.bookFileFormat == Token(Author) + PathInfo.Dashed(Token(Title))
  {
  }

  lemma DefaultTexts(nc: Context, given: Settings)
    requires PlainFields(nc) && given.authorFolderFormat == Token(Author)
    requires given.bookFileFormat == Token(Author) + PathInfo.Dashed(Token(Title))
    ensures Expand(given.authorFolderFormat, nc) == nc.author
    ensures Expand(given.bookFileFormat, nc) == nc.author + (" - " + nc.title)
  {
    SingleVariable(Author, nc);
    PathInfo.DashExpand(nc);
  }

  /** The names of a book whose templates print as plain names. */
  lemma PlainNames(nc: Context, given: Settings, folder: string, stem: string)
    requires Expand(given.authorFolderFormat, nc) == folder && Expand(given.bookFileFormat, nc) == stem
    requires PlainName(folder) && PlainName(stem) && !given.replaceSpaces
    requires nc.format != "" && !HasSuffix(stem, "." + Lower(nc.format))
    ensures FolderName(nc, given) == folder && FileName(nc, given) == stem + ("." + Lower(nc.format))
  {
    PlainStays(folder, given);
    PlainStays(stem, given);
  }

  lemma OneName(folder: string)
    requires PlainName(folder)
    ensures Names(Split(folder)) == [folder]
  {
    SplitFree(folder);
  }

  /**
   * The default settings: a book with plain names goes below its author's folder, as "author - title" with the
   * lowercased format.
   */
  lemma DefaultDestination(root: string, nc: Context, dash: string)
    requires dash == " - " && Rooted(root) && PlainFields(nc) && PlainName(nc.author) && PlainName(nc.title)
    requires nc.format != "" && Free('.', nc.format) && Free('/', nc.format)
    requires !HasSuffix(nc.author + (dash + nc.title), "." + Lower(nc.format))
    ensures var r, file := FormatPath(root, nc, None), nc.author + (dash + nc.title) + ("." + Lower(nc.format));
            && r.authorFolder == nc.author && r.filename == file
            && Components(r.fullPath) == Components(root) + ([nc.author] + [file])
  {
    DefaultTemplates();
    DefaultTexts(nc, DEFAULT_SETTINGS);
    DashedIsPlain(nc.author, nc.title, dash);
    PlainNames(nc, DEFAULT_SETTINGS, nc.author, nc.author + (dash + nc.title));
    DestinationBelowRoot(root, nc, None);
    OneName(nc.author);
  }
}
