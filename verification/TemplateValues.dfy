/** What each variable prints, spelled out: tokens as text, values as fields. */
module TemplateValues {
  import opened Text
  import opened Template
  import opened TemplateFacts

  /** No field carries a `$`. */
  predicate PlainFields(nc: Context) {
    && Free('$', nc.author) && Free('$', nc.sortAuthor) && Free('$', nc.title) && Free('$', nc.series)
    && Free('$', nc.seriesPosition) && Free('$', nc.year) && Free('$', nc.format) && Free('$', nc.quality)
    && Free('$', nc.originalName)
  }

  // ---------------------------------------------------------------- one variable between literals

  /** The token of `v`, with `q` behind it, is not mistaken for another one before its own pass. */
  ghost predicate Own(v: Var, q: string) {
    forall w: Var :: w != v && HasPrefix(Token(v) + q, Token(w)) ==> Rank(w) > Rank(v)
  }

  lemma AloneIsOwn(v: Var)
    ensures Own(v, "")
  {
    var t := Token(v);
    Unchanged(t);
    assert t[..|t|] == t;
    forall w: Var | w != v && HasPrefix(t, Token(w)) ensures Rank(w) > Rank(v) {
      TokenClash(t, v, w);
    }
  }

  lemma OtherIsOwn(v: Var, q: string)
    requires !InSeriesGroup(v)
    ensures Own(v, q)
  {
    var t := Token(v) + q;
    assert t[..|Token(v)|] == Token(v);
    forall w: Var | w != v ensures !HasPrefix(t, Token(w)) {
      if HasPrefix(t, Token(w)) {
        TokenClash(t, v, w);
      }
    }
  }

  lemma PassMisses(p: string, v: Var, q: string, w: Var, val: string)
    requires Free('$', p) && Free('$', q) && !HasPrefix(Token(v) + q, Token(w))
    ensures ReplaceAll(p + (Token(v) + q), Token(w), val) == p + (Token(v) + q)
  {
    TokenShape(v);
    TokenShape(w);
    SkipFree(p, Token(v) + q, Token(w), val);
    ReplaceSkip(Token(v), q, Token(w), val);
    SkipFree(q, "", Token(w), val);
    Unchanged(q);
  }

  lemma PassHits(p: string, v: Var, q: string, val: string)
    requires Free('$', p) && Free('$', q)
    ensures ReplaceAll(p + (Token(v) + q), Token(v), val) == p + (val + q)
  {
    TokenShape(v);
    SkipFree(p, Token(v) + q, Token(v), val);
    ReplaceHead(q, Token(v), val);
    SkipFree(q, "", Token(v), val);
    Unchanged(q);
  }

  lemma EarlierMisses(v: Var, q: string, k: nat)
    requires Own(v, q) && k < Rank(v)
    ensures !HasPrefix(Token(v) + q, Token(ORDER[k]))
  {
    assert Rank(ORDER[k]) == k;
  }

  lemma {:induction false} PassesUpTo(p: string, v: Var, q: string, nc: Context, k: nat)
    requires Free('$', p) && Free('$', q) && Own(v, q) && k <= Rank(v)
    ensures Passes(p + (Token(v) + q), k, nc) == Passes(p + (Token(v) + q), Rank(v), nc)
    decreases Rank(v) - k
  {
    if k < Rank(v) {
      EarlierMisses(v, q, k);
      PassMisses(p, v, q, ORDER[k], Value(ORDER[k], nc));
      PassesUpTo(p, v, q, nc, k + 1);
    }
  }

  lemma FreeAround(p: string, val: string, q: string)
    requires Free('$', p) && Free('$', val) && Free('$', q)
    ensures Free('$', p + (val + q))
  {
  }

  /** The token's own pass writes the value, which may itself be a token for a later pass. */
  lemma OwnPass(p: string, v: Var, q: string, nc: Context)
    requires Free('$', p) && Free('$', q) && Own(v, q)
    ensures SubstituteVars(p + (Token(v) + q), nc) == Passes(p + (Value(v, nc) + q), Rank(v) + 1, nc)
  {
    PassesUpTo(p, v, q, nc, 0);
    PassHits(p, v, q, Value(v, nc));
  }

  lemma Substituted(p: string, v: Var, q: string, nc: Context)
    requires Free('$', p) && Free('$', q) && Own(v, q) && Free('$', Value(v, nc))
    ensures SubstituteVars(p + (Token(v) + q), nc) == p + (Value(v, nc) + q)
  {
    OwnPass(p, v, q, nc);
    FreeAround(p, Value(v, nc), q);
    LiteralPasses(p + (Value(v, nc) + q), Rank(v) + 1, nc);
  }

  lemma NoBlocks(s: string, nc: Context)
    requires Free('{', s)
    ensures Conditionals(s, nc) == s
  {
    SkipBraceFree(s, "", nc);
    Unchanged(s);
  }

  /** A template that is one variable prints that variable's value. */
  lemma SingleVariable(v: Var, nc: Context)
    requires Free('$', Value(v, nc))
    ensures Expand(Token(v), nc) == Value(v, nc)
  {
    NoBraces(v);
    NoBlocks(Token(v), nc);
    AloneIsOwn(v);
    Substituted("", v, "", nc);
    Bare(Token(v));
    Bare(Value(v, nc));
  }

  lemma Bare(s: string)
    ensures "" + (s + "") == s
  {
  }

  lemma PrintsAuthor(nc: Context)
    requires PlainFields(nc)
    ensures Expand("$Author", nc) == nc.author
  {
    SingleVariable(Author, nc);
  }

  lemma PrintsSortAuthor(nc: Context)
    requires PlainFields(nc)
    ensures Expand("$SortAuthor", nc) == nc.sortAuthor
  {
    SingleVariable(SortAuthor, nc);
  }

  lemma PrintsTitle(nc: Context)
    requires PlainFields(nc)
    ensures Expand("$Title", nc) == nc.title
  {
    SingleVariable(Title, nc);
  }

  lemma PrintsSeries(nc: Context)
    requires PlainFields(nc)
    ensures Expand("$Series", nc) == nc.series
  {
    SingleVariable(Series, nc);
  }

  lemma PrintsSeriesName(nc: Context)
    requires PlainFields(nc)
    ensures Expand("$SeriesName", nc) == nc.series
  {
    SingleVariable(SeriesName, nc);
  }

  lemma PrintsSeriesPosition(nc: Context)
    requires PlainFields(nc)
    ensures Expand("$SeriesPosition", nc) == nc.seriesPosition
  {
    SingleVariable(SeriesPosition, nc);
  }

  lemma PrintsYear(nc: Context)
    requires PlainFields(nc)
    ensures Expand("$Year", nc) == nc.year
  {
    SingleVariable(Year, nc);
  }

  lemma PrintsFormat(nc: Context)
    requires PlainFields(nc)
    ensures Expand("$Format", nc) == nc.format
  {
    SingleVariable(Format, nc);
  }

  lemma PrintsQuality(nc: Context)
    requires PlainFields(nc)
    ensures Expand("$Quality", nc) == nc.quality
  {
    SingleVariable(Quality, nc);
  }

  lemma PrintsOriginalName(nc: Context)
    requires PlainFields(nc)
    ensures Expand("$OriginalName", nc) == nc.originalName
  {
    SingleVariable(OriginalName, nc);
  }

  // ---------------------------------------------------------------- a block behind a variable

  lemma {:induction false} ContainsBehind(p: string, z: string, tok: string)
    requires Free('$', p) && tok != "" && tok[0] == '$'
    ensures Contains(p + z, tok) <==> Contains(z, tok)
  {
    if p == "" {
      assert p + z == z;
    } else {
      assert (p + z)[1..] == p[1..] + z && (p + z)[0] == p[0];
      ContainsBehind(p[1..], z, tok);
    }
  }

  lemma {:induction false} ContainsNothing(q: string, tok: string)
    requires Free('$', q) && tok != "" && tok[0] == '$'
    ensures !Contains(q, tok)
  {
    if q != "" {
      ContainsNothing(q[1..], tok);
    }
  }

  lemma OnlyDollar(p: string, z: string, tok: string)
    requires Free('$', p) && z != "" && Free('$', z[1..]) && tok != "" && tok[0] == '$'
    ensures Contains(p + z, tok) <==> HasPrefix(z, tok)
  {
    ContainsBehind(p, z, tok);
    ContainsNothing(z[1..], tok);
  }

  lemma TailFree(tok: string, q: string)
    requires tok != "" && Free('$', tok[1..]) && Free('$', q)
    ensures Free('$', (tok + q)[1..])
  {
    assert (tok + q)[1..] == tok[1..] + q;
  }

  lemma ContainsOne(p: string, v: Var, q: string, w: Var)
    requires Free('$', p) && Free('$', q)
    ensures Contains(p + (Token(v) + q), Token(w)) <==> HasPrefix(Token(v) + q, Token(w))
  {
    TokenShape(v);
    TokenShape(w);
    TailFree(Token(v), q);
    OnlyDollar(p, Token(v) + q, Token(w));
  }

  lemma OneBlock(p: string, v: Var, q: string, nc: Context)
    requires Free('$', p) && Free('$', q) && !InSeriesGroup(v) && Free('$', Value(v, nc))
    ensures BlockOutput(p + (Token(v) + q), nc) == if Value(v, nc) == "" then "" else p + (Value(v, nc) + q)
  {
    var z := Token(v) + q;
    assert z[..|Token(v)|] == Token(v);
    forall w: Var ensures Contains(p + z, Token(w)) <==> w == v {
      ContainsOne(p, v, q, w);
      if HasPrefix(z, Token(w)) {
        TokenClash(z, v, w);
      }
    }
    OtherIsOwn(v, q);
    Substituted(p, v, q, nc);
  }

  lemma BracedOutput(body: string, nc: Context)
    requires Free('}', body)
    ensures Conditionals(Braced(body), nc) == BlockOutput(body, nc)
  {
    var s := Braced(body);
    BracedEnd(body);
    assert s[|body| + 2..] == "";
    Unchanged(BlockOutput(body, nc));
  }

  /** A variable and a block with another one: the block goes when its variable has no value. */
  lemma VariableAndBlock(u: Var, p: string, v: Var, q: string, nc: Context)
    requires !InSeriesGroup(u) && !InSeriesGroup(v) && PlainFields(nc)
    requires Free('$', p) && Free('$', q) && Free('}', p) && Free('}', q)
    ensures Expand(Token(u) + Braced(p + (Token(v) + q)), nc)
            == Value(u, nc) + if Value(v, nc) == "" then "" else p + (Value(v, nc) + q)
  {
    var body := p + (Token(v) + q);
    var shown := if Value(v, nc) == "" then "" else p + (Value(v, nc) + q);
    NoBraces(u);
    NoBraces(v);
    SkipBraceFree(Token(u), Braced(body), nc);
    BracedOutput(body, nc);
    OneBlock(p, v, q, nc);
    FreeAround(p, Value(v, nc), q);
    OtherIsOwn(u, shown);
    Substituted("", u, shown, nc);
    assert "" + (Token(u) + shown) == Token(u) + shown && "" + (Value(u, nc) + shown) == Value(u, nc) + shown;
  }

  /** The year in brackets behind the title, or nothing. */
  lemma TitleAndYear(nc: Context)
    requires PlainFields(nc)
    ensures Expand("$Title{ ($Year)}", nc) == nc.title + if nc.year == "" then "" else " (" + (nc.year + ")")
  {
    var p, q := " (", ")";
    TitleAndYearText(p, q);
    VariableAndBlock(Title, p, Year, q, nc);
  }

  lemma TitleAndYearText(p: string, q: string)
    requires p == " (" && q == ")"
    ensures "$Title{ ($Year)}" == Token(Title) + Braced(p + (Token(Year) + q))
  {
  }

  /** An opening brace without a closing one is a character like any other. */
  lemma UnclosedBrace(tmpl: string, nc: Context)
    requires tmpl != "" && Free('}', tmpl)
    ensures Conditionals(tmpl, nc) == tmpl
    decreases |tmpl|
  {
    var end := IndexByte(tmpl, '}');
    if |tmpl| > 1 {
      UnclosedBrace(tmpl[1..], nc);
    } else {
      assert tmpl[1..] == "";
    }
  }

  // ---------------------------------------------------------------- the order of the passes

  /** A value that is the next token in the order is read again. */
  lemma ReadAgain(k: nat, nc: Context)
    requires k + 1 < |ORDER| && Value(ORDER[k], nc) == Token(ORDER[k + 1]) && Free('$', Value(ORDER[k + 1], nc))
    ensures Expand(Token(ORDER[k]), nc) == Value(ORDER[k + 1], nc)
  {
    var v, w := ORDER[k], ORDER[k + 1];
    assert Rank(v) == k && Rank(w) == k + 1;
    NoBraces(v);
    NoBlocks(Token(v), nc);
    AloneIsOwn(v);
    OwnPass("", v, "", nc);
    Bare(Token(v));
    Bare(Token(w));
    PassHits("", w, "", Value(w, nc));
    Bare(Value(w, nc));
    LiteralPasses(Value(w, nc), k + 2, nc);
  }

  /**
   * The order of the passes, pair by pair: a field that holds the next variable's token is replaced once more.
   */
  lemma SeriesPositionBeforeSeriesName(nc: Context)
    requires nc.seriesPosition == "$SeriesName" && Free('$', nc.series)
    ensures Expand("$SeriesPosition", nc) == nc.series
  {
    ReadAgain(0, nc);
  }

  lemma SeriesNameBeforeSortAuthor(nc: Context)
    requires nc.series == "$SortAuthor" && Free('$', nc.sortAuthor)
    ensures Expand("$SeriesName", nc) == nc.sortAuthor
  {
    ReadAgain(1, nc);
  }

  lemma SortAuthorBeforeOriginalName(nc: Context)
    requires nc.sortAuthor == "$OriginalName" && Free('$', nc.originalName)
    ensures Expand("$SortAuthor", nc) == nc.originalName
  {
    ReadAgain(2, nc);
  }

  lemma OriginalNameBeforeAuthor(nc: Context)
    requires nc.originalName == "$Author" && Free('$', nc.author)
    ensures Expand("$OriginalName", nc) == nc.author
  {
    ReadAgain(3, nc);
  }

  lemma AuthorBeforeSeries(nc: Context)
    requires nc.author == "$Series" && Free('$', nc.series)
    ensures Expand("$Author", nc) == nc.series
  {
    ReadAgain(4, nc);
  }

  lemma SeriesBeforeTitle(nc: Context)
    requires nc.series == "$Title" && Free('$', nc.title)
    ensures Expand("$Series", nc) == nc.title
  {
    ReadAgain(5, nc);
  }

  lemma TitleBeforeYear(nc: Context)
    requires nc.title == "$Year" && Free('$', nc.year)
    ensures Expand("$Title", nc) == nc.year
  {
    ReadAgain(6, nc);
  }

  lemma YearBeforeFormat(nc: Context)
    requires nc.year == "$Format" && Free('$', nc.format)
    ensures Expand("$Year", nc) == nc.format
  {
    ReadAgain(7, nc);
  }

  lemma FormatBeforeQuality(nc: Context)
    requires nc.format == "$Quality" && Free('$', nc.quality)
    ensures Expand("$Format", nc) == nc.quality
  {
    ReadAgain(8, nc);
  }
}
