/** Consequences of the rendering theorem that can be read off a template. */
module TemplateFacts {
  import opened Text
  import opened Template

  // --------------------------------------------------- templates that are always safe

  /** The pieces cannot begin with the text `p` for any values, by a check on the template alone. */
  ghost predicate CannotSpell(pieces: seq<Piece>, p: string, v: Var) {
    p != "" &&
    (pieces == [] ||
     match pieces[0]
     case Plain(Lit(c)) => c != p[0] || CannotSpell(pieces[1..], p[1..], v)
     case Plain(Tok(w)) => w != SeriesPosition || v == SeriesPosition
     case Block(_) => false)
  }

  /** No `$Series` is followed by a beginning of "Name" or "Position" and then by a block or `$SeriesPosition`. */
  ghost predicate SeriesSafe(pieces: seq<Piece>) {
    pieces == [] ||
    ((pieces[0] == Plain(Tok(Series)) ==>
        CannotSpell(pieces[1..], "Position", SeriesPosition) && CannotSpell(pieces[1..], "Name", SeriesName))
     && SeriesSafe(pieces[1..]))
  }

  ghost function AsPieces(body: seq<Seg>): (r: seq<Piece>)
    ensures |r| == |body| && forall i :: 0 <= i < |r| ==> r[i] == Plain(body[i])
  {
    if body == [] then [] else [Plain(body[0])] + AsPieces(body[1..])
  }

  /** The check for the whole template: outside its blocks and inside each of them. */
  ghost predicate TemplateSafe(pieces: seq<Piece>) {
    SeriesSafe(pieces) && forall p :: p in pieces && p.Block? ==> SeriesSafe(AsPieces(p.body))
  }

  lemma {:induction false} CannotSpellLayout(pieces: seq<Piece>, p: string, nc: Context)
    requires CannotSpell(pieces, p, SeriesPosition)
    ensures !StartsWith(Layout(pieces, nc), p)
    decreases |p|
  {
    if pieces != [] && pieces[0].Plain? && pieces[0].seg == Lit(p[0]) {
      CannotSpellLayout(pieces[1..], p[1..], nc);
      assert Layout(pieces, nc)[1..] == Layout(pieces[1..], nc);
    }
  }

  lemma {:induction false} SmoothAfterLits(t: string, rest: seq<Seg>, v: Var)
    requires Smooth(rest, v)
    ensures Smooth(Lits(t) + rest, v)
  {
    if t == "" {
      assert Lits(t) + rest == rest;
    } else {
      assert (Lits(t) + rest)[1..] == Lits(t[1..]) + rest;
      SmoothAfterLits(t[1..], rest, v);
    }
  }

  lemma {:induction false} PassAfterLits(t: string, rest: seq<Seg>, v: Var, nc: Context)
    ensures Pass(Lits(t) + rest, v, nc) == Lits(t) + Pass(rest, v, nc)
  {
    if t == "" {
      assert Lits(t) + rest == rest;
    } else {
      assert (Lits(t) + rest)[1..] == Lits(t[1..]) + rest;
      PassAfterLits(t[1..], rest, v, nc);
      assert Lits(t) == [Lit(t[0])] + Lits(t[1..]);
    }
  }

  lemma {:induction false} SafeIsSmooth(pieces: seq<Piece>, nc: Context)
    requires SeriesSafe(pieces)
    ensures Smooth(Layout(pieces, nc), SeriesPosition)
  {
    if pieces == [] { return; }
    SafeIsSmooth(pieces[1..], nc);
    var rest := Layout(pieces[1..], nc);
    match pieces[0]
    case Plain(seg) =>
      assert Layout(pieces, nc)[1..] == rest;
      if seg == Tok(Series) {
        CannotSpellLayout(pieces[1..], "Position", nc);
      }
    case Block(body) =>
      if Kept(body, nc) {
        SmoothAfterLits(SubstituteVars(Flatten(body), nc), rest, SeriesPosition);
      } else {
        assert Layout(pieces, nc) == rest;
      }
  }

  lemma {:induction false} CannotSpellAfterPass(pieces: seq<Piece>, p: string, nc: Context)
    requires CannotSpell(pieces, p, SeriesName) && Smooth(Layout(pieces, nc), SeriesPosition)
    ensures !StartsWith(Pass(Layout(pieces, nc), SeriesPosition, nc), p)
    decreases |p|
  {
    if pieces != [] && pieces[0].Plain? {
      assert Layout(pieces, nc)[1..] == Layout(pieces[1..], nc);
      if pieces[0].seg == Lit(p[0]) {
        CannotSpellAfterPass(pieces[1..], p[1..], nc);
      }
    }
  }

  lemma {:induction false} SafeIsSmoothAfterPass(pieces: seq<Piece>, nc: Context)
    requires SeriesSafe(pieces)
    ensures Smooth(Pass(Layout(pieces, nc), SeriesPosition, nc), SeriesName)
  {
    if pieces == [] { return; }
    SafeIsSmoothAfterPass(pieces[1..], nc);
    SafeIsSmooth(pieces, nc);
    SafeIsSmooth(pieces[1..], nc);
    var rest := Layout(pieces[1..], nc);
    var passed := Pass(rest, SeriesPosition, nc);
    match pieces[0]
    case Plain(seg) =>
      assert Layout(pieces, nc)[1..] == rest;
      if seg == Tok(SeriesPosition) {
        SmoothAfterLits(nc.seriesPosition, passed, SeriesName);
      } else {
        assert Pass(Layout(pieces, nc), SeriesPosition, nc) == [seg] + passed;
        if seg == Tok(Series) {
          CannotSpellAfterPass(pieces[1..], "Name", nc);
        }
      }
    case Block(body) =>
      if Kept(body, nc) {
        var text := SubstituteVars(Flatten(body), nc);
        PassAfterLits(text, rest, SeriesPosition, nc);
        SmoothAfterLits(text, passed, SeriesName);
      } else {
        assert Layout(pieces, nc) == rest;
      }
  }

  lemma {:induction false} LayoutPlain(body: seq<Seg>, nc: Context)
    ensures Layout(AsPieces(body), nc) == body
  {
    if body != [] {
      assert AsPieces(body)[1..] == AsPieces(body[1..]);
      LayoutPlain(body[1..], nc);
    }
  }

  lemma {:induction false} SafeBlocks(pieces: seq<Piece>, nc: Context)
    requires forall p :: p in pieces && p.Block? ==> SeriesSafe(AsPieces(p.body))
    ensures BlocksSeamless(pieces, nc)
  {
    if pieces == [] { return; }
    SafeBlocks(pieces[1..], nc);
    if pieces[0].Block? {
      var body := pieces[0].body;
      LayoutPlain(body, nc);
      SafeIsSmooth(AsPieces(body), nc);
      SafeIsSmoothAfterPass(AsPieces(body), nc);
    }
  }

  /** A template that passes the check renders as parsed for every choice of `$`-free values. */
  lemma SafeTemplateRenders(tmpl: string, nc: Context)
    requires Clean(tmpl) && DollarFree(nc) && TemplateSafe(ParseTemplate(tmpl))
    ensures Expand(tmpl, nc) == Render(ParseTemplate(tmpl), nc)
  {
    SafeBlocks(ParseTemplate(tmpl), nc);
    SafeIsSmooth(ParseTemplate(tmpl), nc);
    SafeIsSmoothAfterPass(ParseTemplate(tmpl), nc);
    ExpandIsRender(tmpl, nc);
  }

  // --------------------------------------------------- a family of templates that fail

  lemma NoVarAt(s: string)
    requires s != "" && s[0] != '$' && s[0] != '{'
    ensures Head(s) == (Plain(Lit(s[0])), 1)
  {
    if v: Var :| HasPrefix(s, Token(v)) {
      TokenShape(v);
    }
  }

  lemma {:induction false} LiteralBody(t: string)
    requires Free('$', t)
    ensures ParseText(t) == Lits(t)
  {
    if t != "" {
      if v: Var :| HasPrefix(t, Token(v)) {
        TokenShape(v);
      }
      LiteralBody(t[1..]);
    }
  }

  lemma {:induction false} LiteralPasses(t: string, k: nat, nc: Context)
    requires Free('$', t) && k <= |ORDER|
    ensures Passes(t, k, nc) == t
    decreases |ORDER| - k
  {
    if k < |ORDER| {
      TokenShape(ORDER[k]);
      SkipFree(t, "", Token(ORDER[k]), Value(ORDER[k], nc));
      assert t + "" == t;
      LiteralPasses(t, k + 1, nc);
    }
  }

  ghost function Braced(q: string): string {
    ['{'] + (q + ['}'])
  }

  lemma {:induction false} IndexAt(s: string, c: char, k: nat)
    requires k < |s| && s[k] == c && Free(c, s[..k])
    ensures IndexByte(s, c) == k
  {
    if k > 0 {
      assert s[..k][0] == s[0];
      assert s[1..][..k - 1] == s[..k][1..];
      IndexAt(s[1..], c, k - 1);
    }
  }

  lemma BracedEnd(q: string)
    requires Free('}', q)
    ensures IndexByte(Braced(q), '}') == |q| + 1 && Braced(q)[1..|q| + 1] == q
  {
    var s := Braced(q);
    assert s[..|q| + 1] == ['{'] + q;
    IndexAt(s, '}', |q| + 1);
  }

  lemma BlockHead(q: string)
    requires Free('}', q)
    ensures Head(Braced(q)) == (Block(ParseText(q)), |q| + 2)
  {
    BracedEnd(q);
    var end := |q| + 1;
    assert Braced(q)[0] == '{';
    assert Head(Braced(q)) == (Block(ParseText(Braced(q)[1..end])), end + 1);
  }

  /** A block of plain text contributes that text. */
  lemma BracedLayout(q: string, nc: Context)
    requires Free('$', q) && Free('}', q)
    ensures Layout(ParseTemplate(Braced(q)), nc) == Lits(q)
  {
    BlockHead(q);
    LiteralBody(q);
    LiteralPasses(q, 0, nc);
    LitsText(q, nc);
    assert Braced(q)[|q| + 2..] == "";
    assert ParseTemplate(Braced(q)) == [Block(Lits(q))];
    assert Kept(Lits(q), nc);
  }

  lemma {:induction false} SplitLayout(p: string, q: string, nc: Context)
    requires Free('$', p) && Free('{', p) && Free('$', q) && Free('}', q)
    ensures Layout(ParseTemplate(p + Braced(q)), nc) == Lits(p + q)
  {
    if p == "" {
      assert p + Braced(q) == Braced(q) && p + q == q;
      BracedLayout(q, nc);
    } else {
      var s := p + Braced(q);
      assert s[1..] == p[1..] + Braced(q) && (p + q)[1..] == p[1..] + q;
      NoVarAt(s);
      SplitLayout(p[1..], q, nc);
      assert ParseTemplate(s)[1..] == ParseTemplate(s[1..]);
    }
  }

  lemma NoTokenAcross(p: string, q: string, v: Var, w: Var)
    requires v == SeriesPosition || v == SeriesName
    requires p + q == Suffix(v) && q != "" && w != Series
    ensures !HasPrefix(Token(Series) + (p + Braced(q)), Token(w))
  {
    var t := Token(Series) + (p + Braced(q));
    assert t[..|Token(Series)|] == Token(Series);
    assert t[|Token(Series)| + |p|] == '{';
    assert p != "" ==> t[|Token(Series)|] == p[0] == Suffix(v)[0];
    NoBraces(w);
    if HasPrefix(t, Token(w)) {
      TokenClash(t, Series, w);
    }
  }

  lemma SplitHead(p: string, q: string, v: Var)
    requires v == SeriesPosition || v == SeriesName
    requires p + q == Suffix(v) && q != ""
    ensures Head(Token(Series) + (p + Braced(q))) == (Plain(Tok(Series)), |Token(Series)|)
  {
    var t := Token(Series) + (p + Braced(q));
    assert t[..|Token(Series)|] == Token(Series);
    forall w: Var | w != Series ensures !HasPrefix(t, Token(w)) {
      NoTokenAcross(p, q, v, w);
    }
  }

  lemma SplitClean(p: string, q: string, v: Var)
    requires v == SeriesPosition || v == SeriesName
    requires p + q == Suffix(v)
    ensures Free('$', p) && Free('{', p) && Free('$', q) && Free('}', q)
    ensures Clean(Token(Series) + (p + Braced(q)))
  {
    var t := Token(Series) + (p + Braced(q));
    assert forall i :: 0 <= i < |p| ==> p[i] == Suffix(v)[i];
    assert forall i :: 0 <= i < |q| ==> q[i] == Suffix(v)[|p| + i];
    TokenShape(Series);
    assert t[0..] == t && HasPrefix(t, Token(Series));
  }

  lemma BracedRender(q: string, nc: Context)
    requires Free('$', q) && Free('}', q)
    ensures Render(ParseTemplate(Braced(q)), nc) == q
  {
    BlockHead(q);
    LiteralBody(q);
    LitsText(q, nc);
    assert Braced(q)[|q| + 2..] == "";
    assert ParseTemplate(Braced(q)) == [Block(Lits(q))] + [];
    assert [Block(Lits(q))][1..] == [];
    Unchanged(q);
  }

  lemma Unchanged(s: string)
    ensures s + "" == s
  {
  }

  lemma LitOut(c: char, nc: Context)
    ensures Out([Lit(c)], nc) == [c]
  {
    assert [Lit(c)][1..] == [];
    Unchanged([c]);
  }

  lemma TokOut(v: Var, nc: Context)
    ensures Out([Tok(v)], nc) == Value(v, nc)
  {
    assert [Tok(v)][1..] == [];
    Unchanged(Value(v, nc));
  }

  lemma FrontRender(piece: Piece, pieces: seq<Piece>, nc: Context)
    ensures Render([piece] + pieces, nc) == RenderPiece(piece, nc) + Render(pieces, nc)
  {
    assert ([piece] + pieces)[1..] == pieces;
  }

  lemma LiteralFront(c: char, rest: string, nc: Context)
    requires c != '$' && c != '{'
    ensures Render(ParseTemplate([c] + rest), nc) == [c] + Render(ParseTemplate(rest), nc)
  {
    NoVarAt([c] + rest);
    assert ([c] + rest)[1..] == rest;
    FrontRender(Plain(Lit(c)), ParseTemplate(rest), nc);
    LitOut(c, nc);
  }

  lemma {:induction false} SplitRender(p: string, q: string, nc: Context)
    requires Free('$', p) && Free('{', p) && Free('$', q) && Free('}', q)
    ensures Render(ParseTemplate(p + Braced(q)), nc) == p + q
  {
    if p == "" {
      assert p + Braced(q) == Braced(q) && p + q == q;
      BracedRender(q, nc);
    } else {
      var tail := p[1..];
      SplitRender(tail, q, nc);
      LiteralFront(p[0], tail + Braced(q), nc);
      Regroup([p[0]], tail, Braced(q));
      Regroup([p[0]], tail, q);
      assert p == [p[0]] + tail;
    }
  }

  /** The reading of a template that goes on after `$Series`. */
  lemma SeriesFront(t: string, rest: string, nc: Context)
    requires t == Token(Series) + rest && Head(t) == (Plain(Tok(Series)), |Token(Series)|)
    ensures Render(ParseTemplate(t), nc) == nc.series + Render(ParseTemplate(rest), nc)
    ensures Layout(ParseTemplate(t), nc) == [Tok(Series)] + Layout(ParseTemplate(rest), nc)
  {
    assert t[|Token(Series)|..] == rest;
    FrontRender(Plain(Tok(Series)), ParseTemplate(rest), nc);
    TokOut(Series, nc);
    assert ([Plain(Tok(Series))] + ParseTemplate(rest))[1..] == ParseTemplate(rest);
  }

  /** With the rest of "Name" in a block the engine writes the series and nothing behind it. */
  lemma SplitNameExpands(segs: seq<Seg>, nc: Context)
    requires DollarFree(nc) && segs == [Tok(Series)] + Lits(Suffix(SeriesName))
    ensures SubstituteVars(Flatten(segs), nc) == nc.series
  {
    var rest := Lits(Suffix(SeriesName));
    LitsStart(Suffix(SeriesName));
    PassAfterLits(Suffix(SeriesName), [], SeriesPosition, nc);
    assert rest + [] == rest && segs[1..] == rest;
    assert Pass(segs, SeriesPosition, nc) == segs;
    assert segs[1 + |Suffix(SeriesName)|..] == [];
    assert Pass(segs, SeriesName, nc) == Lits(nc.series) + [] == Lits(nc.series);
    ReadyLits(Suffix(SeriesName), 0);
    PassesText(segs, nc);
    FirstTwoPasses(segs, nc);
    LaterPassesOut(Lits(nc.series), 2, nc);
    LitsText(nc.series, nc);
  }

  /**
   * Cutting "Position" or "Name" in two, the first half after `$Series` and the rest in a block,
   * makes the engine read a variable that the template does not contain.
   */
  lemma SplitTemplateMisread(p: string, q: string, v: Var, nc: Context)
    requires v == SeriesPosition || v == SeriesName
    requires p + q == Suffix(v) && q != ""
    requires DollarFree(nc) && (v == SeriesPosition ==> ShortPosition(nc))
    ensures Clean(Token(Series) + (p + Braced(q)))
    ensures Expand(Token(Series) + (p + Braced(q)), nc) != Render(ParseTemplate(Token(Series) + (p + Braced(q))), nc)
  {
    var t := Token(Series) + (p + Braced(q));
    SplitClean(p, q, v);
    SplitHead(p, q, v);
    SplitLayout(p, q, nc);
    SeriesFront(t, p + Braced(q), nc);
    if v == SeriesName {
      SplitNameMisread(p, q, t, nc);
    } else {
      LitsStart(Suffix(v));
      assert ([Tok(Series)] + Lits(Suffix(v)))[1..] == Lits(Suffix(v));
      ExpandIsRender(t, nc);
    }
  }

  lemma SplitNameMisread(p: string, q: string, t: string, nc: Context)
    requires p + q == Suffix(SeriesName) && DollarFree(nc) && t == Token(Series) + (p + Braced(q)) && Clean(t)
    requires Free('$', p) && Free('{', p) && Free('$', q) && Free('}', q)
    requires Render(ParseTemplate(t), nc) == nc.series + Render(ParseTemplate(p + Braced(q)), nc)
    requires Layout(ParseTemplate(t), nc) == [Tok(Series)] + Lits(p + q)
    ensures Expand(t, nc) != Render(ParseTemplate(t), nc)
  {
    ConditionalsLayout(t, nc);
    SplitNameExpands([Tok(Series)] + Lits(p + q), nc);
    SplitRender(p, q, nc);
  }

  lemma {:induction false} LitsStart(p: string)
    ensures StartsWith(Lits(p), p)
  {
    if p != "" {
      assert Lits(p)[1..] == Lits(p[1..]);
      LitsStart(p[1..]);
    }
  }

  // --------------------------------------------------- variables without a value

  ghost predicate Mentions(piece: Piece, v: Var) {
    match piece
    case Plain(seg) => seg == Tok(v)
    case Block(body) => Tok(v) in body
  }

  /** The template without a variable, and without the blocks that have it. */
  ghost function Erased(pieces: seq<Piece>, v: Var): seq<Piece> {
    if pieces == [] then []
    else (if Mentions(pieces[0], v) then [] else [pieces[0]]) + Erased(pieces[1..], v)
  }

  lemma {:induction false} RenderErased(pieces: seq<Piece>, v: Var, nc: Context)
    requires Value(v, nc) == ""
    ensures Render(pieces, nc) == Render(Erased(pieces, v), nc)
  {
    if pieces != [] {
      RenderErased(pieces[1..], v, nc);
      if Mentions(pieces[0], v) {
        MentionRendersNothing(pieces[0], v, nc);
        assert [] + Erased(pieces[1..], v) == Erased(pieces[1..], v);
      } else {
        FrontRender(pieces[0], Erased(pieces[1..], v), nc);
      }
    }
  }

  lemma MentionRendersNothing(piece: Piece, v: Var, nc: Context)
    requires Value(v, nc) == "" && Mentions(piece, v)
    ensures RenderPiece(piece, nc) == ""
  {
    if piece.Plain? {
      TokOut(v, nc);
    }
  }

  /** A variable without a value takes every block that has it with it. */
  lemma EmptyVariableErased(tmpl: string, v: Var, nc: Context)
    requires Clean(tmpl) && DollarFree(nc) && TemplateSafe(ParseTemplate(tmpl)) && Value(v, nc) == ""
    ensures Expand(tmpl, nc) == Render(Erased(ParseTemplate(tmpl), v), nc)
  {
    SafeTemplateRenders(tmpl, nc);
    RenderErased(ParseTemplate(tmpl), v, nc);
  }
}
