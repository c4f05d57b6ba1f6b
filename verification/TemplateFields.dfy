/** Which fields of a context a template depends on. */
module TemplateFields {
  import opened Text
  import opened Template
  import opened TemplateFacts

  // ---------------------------------------------------------------- contexts that a template cannot tell apart

  /** Both contexts give `v` the same value; `$Series` may turn into `$SeriesPosition`. */
  ghost predicate Alike(v: Var, a: Context, b: Context) {
    Value(v, a) == Value(v, b) && (v == Series ==> a.seriesPosition == b.seriesPosition)
  }

  ghost predicate AlikeSegs(segs: seq<Seg>, a: Context, b: Context) {
    forall i :: 0 <= i < |segs| && segs[i].Tok? ==> Alike(segs[i].v, a, b)
  }

  ghost predicate AlikePiece(piece: Piece, a: Context, b: Context) {
    match piece
    case Plain(seg) => seg.Tok? ==> Alike(seg.v, a, b)
    case Block(body) => AlikeSegs(body, a, b)
  }

  ghost predicate AlikePieces(pieces: seq<Piece>, a: Context, b: Context) {
    forall i :: 0 <= i < |pieces| ==> AlikePiece(pieces[i], a, b)
  }

  /** The contexts agree on every variable whose token stands in the text. */
  ghost predicate AlikeIn(s: string, a: Context, b: Context) {
    forall v: Var :: Contains(s, Token(v)) ==> Alike(v, a, b)
  }

  lemma GluedAlike(segs: seq<Seg>, v: Var, a: Context, b: Context)
    requires AlikeSegs(segs, a, b) && segs != [] && (segs[0] == Tok(v) || Glued(segs, v))
    ensures Value(v, a) == Value(v, b)
  {
  }

  lemma {:induction false} PassAlike(segs: seq<Seg>, v: Var, a: Context, b: Context)
    requires AlikeSegs(segs, a, b)
    ensures Pass(segs, v, a) == Pass(segs, v, b) && AlikeSegs(Pass(segs, v, a), a, b)
    decreases |segs|
  {
    if segs != [] {
      var n := Consumed(segs, v);
      PassAlike(segs[n..], v, a, b);
      if segs[0] == Tok(v) || Glued(segs, v) {
        GluedAlike(segs, v, a, b);
      }
    }
  }

  lemma PassesStep(segs: seq<Seg>, k: nat, nc: Context)
    requires k < |ORDER| && Ready(segs, k)
    ensures Passes(Flatten(segs), k, nc) == Passes(Flatten(Pass(segs, ORDER[k], nc)), k + 1, nc)
  {
    PassText(segs, ORDER[k], nc);
  }

  /** The passes do not see what the text does not use. */
  lemma {:induction false} PassesAlike(segs: seq<Seg>, k: nat, a: Context, b: Context)
    requires k <= |ORDER| && Ready(segs, k) && DollarFree(a) && AlikeSegs(segs, a, b)
    ensures Passes(Flatten(segs), k, a) == Passes(Flatten(segs), k, b)
    decreases |ORDER| - k
  {
    if k < |ORDER| {
      PassAlike(segs, ORDER[k], a, b);
      PassesStep(segs, k, a);
      PassesStep(segs, k, b);
      PassReady(segs, k, a);
      PassesAlike(Pass(segs, ORDER[k], a), k + 1, a, b);
    }
  }

  lemma {:induction false} LayoutAlike(pieces: seq<Piece>, a: Context, b: Context)
    requires AlikePieces(pieces, a, b)
    ensures AlikeSegs(Layout(pieces, a), a, b)
  {
    if pieces != [] {
      assert AlikePiece(pieces[0], a, b);
      LayoutAlike(pieces[1..], a, b);
    }
  }

  lemma {:induction false} ContainsPart(s: string, from: nat, upTo: nat, p: string)
    requires from <= upTo <= |s|
    ensures Contains(s[from..upTo], p) ==> Contains(s, p)
  {
    if Contains(s[from..upTo], p) {
      var k := ContainsWitness(s[from..upTo], p);
      assert s[from..upTo][k..][..|p|] == s[from + k..][..|p|];
      ContainsAt(s, p, from + k);
    }
  }

  lemma AlikePart(s: string, from: nat, upTo: nat, a: Context, b: Context)
    requires from <= upTo <= |s| && AlikeIn(s, a, b)
    ensures AlikeIn(s[from..upTo], a, b)
  {
    forall v: Var | Contains(s[from..upTo], Token(v)) ensures Alike(v, a, b) {
      ContainsPart(s, from, upTo, Token(v));
    }
  }

  lemma AlikeRest(s: string, n: nat, a: Context, b: Context)
    requires n <= |s| && AlikeIn(s, a, b)
    ensures AlikeIn(s[n..], a, b)
  {
    AlikePart(s, n, |s|, a, b);
    assert s[n..|s|] == s[n..];
  }

  lemma BodyAlike(block: string, a: Context, b: Context)
    requires AlikeIn(block, a, b)
    ensures AlikeSegs(ParseText(block), a, b)
  {
    var body := ParseText(block);
    forall i | 0 <= i < |body| && body[i].Tok? ensures Alike(body[i].v, a, b) {
      ContainsIsParsed(block, body[i].v);
    }
  }

  lemma HeadAlike(tmpl: string, a: Context, b: Context)
    requires tmpl != "" && AlikeIn(tmpl, a, b)
    ensures AlikePiece(Head(tmpl).0, a, b)
  {
    match Head(tmpl).0
    case Block(body) =>
      var end := IndexByte(tmpl, '}');
      AlikePart(tmpl, 1, end, a, b);
      BodyAlike(tmpl[1..end], a, b);
    case Plain(seg) =>
      if seg.Tok? {
        assert HasPrefix(tmpl, Token(seg.v));
        assert Contains(tmpl, Token(seg.v));
      }
  }

  lemma {:induction false} TemplateAlike(tmpl: string, a: Context, b: Context)
    requires AlikeIn(tmpl, a, b)
    ensures AlikePieces(ParseTemplate(tmpl), a, b)
    decreases |tmpl|
  {
    if tmpl != "" {
      var rest := tmpl[Head(tmpl).1..];
      AlikeRest(tmpl, Head(tmpl).1, a, b);
      TemplateAlike(rest, a, b);
      HeadAlike(tmpl, a, b);
      assert ParseTemplate(tmpl) == [Head(tmpl).0] + ParseTemplate(rest);
    }
  }

  /** A block is kept or dropped, and filled in, alike. */
  lemma BlockAlike(block: string, a: Context, b: Context)
    requires Clean(block) && DollarFree(a) && AlikeIn(block, a, b)
    ensures BlockOutput(block, a) == BlockOutput(block, b)
  {
    ParseTextFaithful(block);
    BodyAlike(block, a, b);
    PassesAlike(ParseText(block), 0, a, b);
    assert AllVarsPresent(block, a) == AllVarsPresent(block, b);
  }

  lemma {:induction false} ConditionalsAlike(tmpl: string, a: Context, b: Context)
    requires Clean(tmpl) && DollarFree(a) && AlikeIn(tmpl, a, b)
    ensures Conditionals(tmpl, a) == Conditionals(tmpl, b)
    decreases |tmpl|
  {
    if tmpl == "" { return; }
    var end := if tmpl[0] == '{' then IndexByte(tmpl, '}') else -1;
    var n := if end == -1 then 1 else end + 1;
    CleanDrop(tmpl, n);
    AlikeRest(tmpl, n, a, b);
    ConditionalsAlike(tmpl[n..], a, b);
    if end != -1 {
      CleanBlock(tmpl, end);
      AlikePart(tmpl, 1, end, a, b);
      BlockAlike(tmpl[1..end], a, b);
    }
  }

  /** A template prints the same in two contexts that agree on the variables it has. */
  lemma ExpandAlike(tmpl: string, a: Context, b: Context)
    requires Clean(tmpl) && DollarFree(a) && AlikeIn(tmpl, a, b)
    ensures Expand(tmpl, a) == Expand(tmpl, b)
  {
    var pieces := ParseTemplate(tmpl);
    ConditionalsAlike(tmpl, a, b);
    TemplateAlike(tmpl, a, b);
    ParsedBodiesReady(tmpl);
    ConditionalsLayout(tmpl, a);
    LayoutAlike(pieces, a, b);
    PassesAlike(Layout(pieces, a), 0, a, b);
  }

  // ---------------------------------------------------------------- field by field

  lemma IgnoresOne(tmpl: string, v: Var, a: Context, b: Context)
    requires Clean(tmpl) && DollarFree(a) && !Contains(tmpl, Token(v)) && forall w: Var :: w != v ==> Alike(w, a, b)
    ensures Expand(tmpl, a) == Expand(tmpl, b)
  {
    ExpandAlike(tmpl, a, b);
  }

  /** Without its token a template does not depend on a field. */
  lemma ExpandIgnoresOriginalName(tmpl: string, nc: Context, name: string)
    requires Clean(tmpl) && DollarFree(nc) && !Contains(tmpl, "$OriginalName")
    ensures Expand(tmpl, nc) == Expand(tmpl, nc.(originalName := name))
  {
    IgnoresOne(tmpl, OriginalName, nc, nc.(originalName := name));
  }

  lemma ExpandIgnoresAuthor(tmpl: string, nc: Context, name: string)
    requires Clean(tmpl) && DollarFree(nc) && !Contains(tmpl, "$Author")
    ensures Expand(tmpl, nc) == Expand(tmpl, nc.(author := name))
  {
    IgnoresOne(tmpl, Author, nc, nc.(author := name));
  }

  lemma ExpandIgnoresSortAuthor(tmpl: string, nc: Context, name: string)
    requires Clean(tmpl) && DollarFree(nc) && !Contains(tmpl, "$SortAuthor")
    ensures Expand(tmpl, nc) == Expand(tmpl, nc.(sortAuthor := name))
  {
    IgnoresOne(tmpl, SortAuthor, nc, nc.(sortAuthor := name));
  }

  lemma ExpandIgnoresTitle(tmpl: string, nc: Context, title: string)
    requires Clean(tmpl) && DollarFree(nc) && !Contains(tmpl, "$Title")
    ensures Expand(tmpl, nc) == Expand(tmpl, nc.(title := title))
  {
    IgnoresOne(tmpl, Title, nc, nc.(title := title));
  }

  lemma ExpandIgnoresYear(tmpl: string, nc: Context, year: string)
    requires Clean(tmpl) && DollarFree(nc) && !Contains(tmpl, "$Year")
    ensures Expand(tmpl, nc) == Expand(tmpl, nc.(year := year))
  {
    IgnoresOne(tmpl, Year, nc, nc.(year := year));
  }

  lemma ExpandIgnoresFormat(tmpl: string, nc: Context, format: string)
    requires Clean(tmpl) && DollarFree(nc) && !Contains(tmpl, "$Format")
    ensures Expand(tmpl, nc) == Expand(tmpl, nc.(format := format))
  {
    IgnoresOne(tmpl, Format, nc, nc.(format := format));
  }

  lemma ExpandIgnoresQuality(tmpl: string, nc: Context, quality: string)
    requires Clean(tmpl) && DollarFree(nc) && !Contains(tmpl, "$Quality")
    ensures Expand(tmpl, nc) == Expand(tmpl, nc.(quality := quality))
  {
    IgnoresOne(tmpl, Quality, nc, nc.(quality := quality));
  }

  lemma {:induction false} ContainsBeginning(s: string, p: string, q: string)
    requires HasPrefix(p, q)
    ensures Contains(s, p) ==> Contains(s, q)
  {
    if HasPrefix(s, p) {
      assert s[..|q|] == p[..|q|];
    } else if s != "" {
      ContainsBeginning(s[1..], p, q);
    }
  }

  lemma NoSeriesGroup(tmpl: string, w: Var)
    requires InSeriesGroup(w) && Contains(tmpl, Token(w))
    ensures Contains(tmpl, Token(Series))
  {
    ContainsBeginning(tmpl, Token(w), Token(Series));
  }

  lemma IgnoresGroup(tmpl: string, a: Context, b: Context)
    requires Clean(tmpl) && DollarFree(a) && !Contains(tmpl, Token(Series))
    requires forall w: Var :: !InSeriesGroup(w) ==> Alike(w, a, b)
    ensures Expand(tmpl, a) == Expand(tmpl, b)
  {
    forall w: Var | Contains(tmpl, Token(w)) ensures Alike(w, a, b) {
      if InSeriesGroup(w) {
        NoSeriesGroup(tmpl, w);
      }
    }
    ExpandAlike(tmpl, a, b);
  }

  /** The series is printed by `$Series` and `$SeriesName`; `$SeriesPosition` does not show without it. */
  lemma ExpandIgnoresSeries(tmpl: string, nc: Context, series: string)
    requires Clean(tmpl) && DollarFree(nc) && !Contains(tmpl, "$Series")
    ensures Expand(tmpl, nc) == Expand(tmpl, nc.(series := series))
  {
    IgnoresGroup(tmpl, nc, nc.(series := series));
  }

  // ---------------------------------------------------------------- the position in the series

  lemma {:induction false} ReplaceNone(s: string, tok: string, val: string)
    requires tok != "" && !Contains(s, tok)
    ensures ReplaceAll(s, tok, val) == s
  {
    if s != "" {
      ReplaceNone(s[1..], tok, val);
    }
  }

  /** After its own pass the position is not looked at any more. */
  lemma {:induction false} LaterPassesIgnorePosition(s: string, k: nat, nc: Context, position: string)
    requires 0 < k <= |ORDER|
    ensures Passes(s, k, nc) == Passes(s, k, nc.(seriesPosition := position))
    decreases |ORDER| - k
  {
    if k < |ORDER| {
      assert ORDER[k] != SeriesPosition;
      LaterPassesIgnorePosition(ReplaceAll(s, Token(ORDER[k]), Value(ORDER[k], nc)), k + 1, nc, position);
    }
  }

  lemma SubstituteIgnoresPosition(s: string, tok: string, nc: Context, position: string)
    requires tok == Token(SeriesPosition) && !Contains(s, tok)
    ensures SubstituteVars(s, nc) == SubstituteVars(s, nc.(seriesPosition := position))
  {
    assert ORDER[0] == SeriesPosition;
    ReplaceNone(s, tok, nc.seriesPosition);
    ReplaceNone(s, tok, position);
    LaterPassesIgnorePosition(s, 1, nc, position);
  }

  lemma BlockIgnoresPosition(block: string, tok: string, nc: Context, position: string)
    requires tok == Token(SeriesPosition) && !Contains(block, tok)
    ensures BlockOutput(block, nc) == BlockOutput(block, nc.(seriesPosition := position))
  {
    SubstituteIgnoresPosition(block, tok, nc, position);
    forall v: Var | Contains(block, Token(v)) ensures Value(v, nc) == Value(v, nc.(seriesPosition := position)) {
      assert v != SeriesPosition;
    }
  }

  lemma RestNotContained(tmpl: string, n: nat, p: string)
    requires n <= |tmpl| && !Contains(tmpl, p)
    ensures !Contains(tmpl[n..], p)
  {
    assert tmpl[n..|tmpl|] == tmpl[n..];
    ContainsPart(tmpl, n, |tmpl|, p);
  }

  lemma {:induction false} ConditionalsIgnorePosition(tmpl: string, tok: string, nc: Context, position: string)
    requires tok == Token(SeriesPosition) && !Contains(tmpl, tok)
    ensures Conditionals(tmpl, nc) == Conditionals(tmpl, nc.(seriesPosition := position))
    decreases |tmpl|
  {
    if tmpl == "" { return; }
    var end := if tmpl[0] == '{' then IndexByte(tmpl, '}') else -1;
    var n := if end == -1 then 1 else end + 1;
    RestNotContained(tmpl, n, tok);
    ConditionalsIgnorePosition(tmpl[n..], tok, nc, position);
    if end != -1 {
      ContainsPart(tmpl, 1, end, tok);
      BlockIgnoresPosition(tmpl[1..end], tok, nc, position);
    }
  }

  ghost function Marks(s: string): nat {
    multiset(s)['#']
  }

  lemma MarksJoin(a: string, b: string)
    ensures Marks(a + b) == Marks(a) + Marks(b)
  {
    assert multiset(a + b) == multiset(a) + multiset(b);
  }

  /** A pass takes no mark away. */
  lemma {:induction false} ReplaceKeepsMarks(s: string, tok: string, val: string)
    requires tok != "" && Free('#', tok)
    ensures Marks(ReplaceAll(s, tok, val)) >= Marks(s)
    ensures Contains(s, tok) ==> Marks(ReplaceAll(s, tok, val)) >= Marks(s) + Marks(val)
    decreases |s|
  {
    if s != "" {
      var n := if HasPrefix(s, tok) then |tok| else 1;
      var front := if HasPrefix(s, tok) then val else [s[0]];
      ReplaceKeepsMarks(s[n..], tok, val);
      MarksJoin(front, ReplaceAll(s[n..], tok, val));
      MarksJoin(s[..n], s[n..]);
      assert s == s[..n] + s[n..];
      if HasPrefix(s, tok) {
        assert s[..n] == tok;
        assert Marks(tok) == 0;
      } else {
        assert s[..1] == [s[0]];
      }
    }
  }

  lemma NoMarks(v: Var)
    ensures Free('#', Token(v)) && Token(v) != ""
  {
  }

  lemma {:induction false} PassesKeepMarks(s: string, k: nat, nc: Context)
    requires k <= |ORDER|
    ensures Marks(Passes(s, k, nc)) >= Marks(s)
    decreases |ORDER| - k
  {
    if k < |ORDER| {
      NoMarks(ORDER[k]);
      ReplaceKeepsMarks(s, Token(ORDER[k]), Value(ORDER[k], nc));
      PassesKeepMarks(ReplaceAll(s, Token(ORDER[k]), Value(ORDER[k], nc)), k + 1, nc);
    }
  }

  function Repeated(n: nat): (r: string)
    ensures |r| == n && forall i :: 0 <= i < n ==> r[i] == '#'
  {
    seq(n, _ => '#')
  }

  lemma {:induction false} MarksRepeated(s: string)
    requires forall i :: 0 <= i < |s| ==> s[i] == '#'
    ensures Marks(s) == |s|
  {
    if s != "" {
      MarksRepeated(s[1..]);
      MarksJoin([s[0]], s[1..]);
      assert s == [s[0]] + s[1..];
    }
  }

  lemma PositionShows(s: string, tok: string, nc: Context)
    requires tok == Token(SeriesPosition) && Contains(s, tok)
    ensures Marks(SubstituteVars(s, nc)) >= Marks(nc.seriesPosition)
  {
    NoMarks(SeriesPosition);
    assert ORDER[0] == SeriesPosition;
    ReplaceKeepsMarks(s, tok, nc.seriesPosition);
    PassesKeepMarks(ReplaceAll(s, tok, nc.seriesPosition), 1, nc);
  }

  ghost predicate PositionHidden(tmpl: string, nc: Context, position: string) {
    Expand(tmpl, nc) == Expand(tmpl, nc.(seriesPosition := position))
  }

  /**
   * For the position the token's absence is not enough: `$SeriesPos{ition}` spells it once its block is filled in.
   * A template without `$SeriesPosition` is independent of the position exactly when the text after the block
   * pass does not have it either.
   */
  lemma IgnoresPositionIff(tmpl: string, nc: Context)
    requires !Contains(tmpl, "$SeriesPosition")
    ensures (forall position :: PositionHidden(tmpl, nc, position)) <==> !Contains(Conditionals(tmpl, nc), "$SeriesPosition")
  {
    var text, tok := Conditionals(tmpl, nc), "$SeriesPosition";
    if Contains(text, "$SeriesPosition") {
      var position := Repeated(Marks(Expand(tmpl, nc)) + 1);
      ConditionalsIgnorePosition(tmpl, tok, nc, position);
      MarksRepeated(position);
      PositionShows(text, tok, nc.(seriesPosition := position));
      assert !PositionHidden(tmpl, nc, position);
    } else {
      forall position ensures PositionHidden(tmpl, nc, position) {
        ConditionalsIgnorePosition(tmpl, tok, nc, position);
        SubstituteIgnoresPosition(text, tok, nc, position);
      }
    }
  }
}
