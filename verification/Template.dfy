/** The naming template language: conditional blocks and ordered textual substitution. */
module Template {
  import opened Options
  import opened Text

  datatype Context = Context(
    author: string, sortAuthor: string, title: string, series: string, seriesPosition: string,
    year: string, format: string, quality: string, originalName: string)

  datatype Var = SeriesPosition | SeriesName | SortAuthor | OriginalName | Author
               | Series | Title | Year | Format | Quality

  function Token(v: Var): string {
    match v
    case SeriesPosition => "$SeriesPosition"
    case SeriesName => "$SeriesName"
    case SortAuthor => "$SortAuthor"
    case OriginalName => "$OriginalName"
    case Author => "$Author"
    case Series => "$Series"
    case Title => "$Title"
    case Year => "$Year"
    case Format => "$Format"
    case Quality => "$Quality"
  }

  function Value(v: Var, nc: Context): string {
    match v
    case SeriesPosition => nc.seriesPosition
    case SeriesName => nc.series
    case SortAuthor => nc.sortAuthor
    case OriginalName => nc.originalName
    case Author => nc.author
    case Series => nc.series
    case Title => nc.title
    case Year => nc.year
    case Format => nc.format
    case Quality => nc.quality
  }

  /** The order in which substituteVars makes its passes. */
  const ORDER: seq<Var> :=
    [SeriesPosition, SeriesName, SortAuthor, OriginalName, Author, Series, Title, Year, Format, Quality]

  function Rank(v: Var): (k: nat)
    ensures k < |ORDER| && ORDER[k] == v
  {
    match v
    case SeriesPosition => 0
    case SeriesName => 1
    case SortAuthor => 2
    case OriginalName => 3
    case Author => 4
    case Series => 5
    case Title => 6
    case Year => 7
    case Format => 8
    case Quality => 9
  }

  // ---------------------------------------------------------------- the engine

  /** The passes for ORDER[k..], one after the other. */
  function Passes(s: string, k: nat, nc: Context): string
    requires k <= |ORDER|
    decreases |ORDER| - k
  {
    if k == |ORDER| then s
    else Passes(ReplaceAll(s, Token(ORDER[k]), Value(ORDER[k], nc)), k + 1, nc)
  }

  function SubstituteVars(s: string, nc: Context): string {
    Passes(s, 0, nc)
  }

  /** A block is kept unless its text contains the token of an empty variable. */
  predicate AllVarsPresent(block: string, nc: Context) {
    forall v: Var :: Contains(block, Token(v)) ==> Value(v, nc) != ""
  }

  /** strings.IndexByte, with None for -1. */
  function IndexByte(s: string, c: char): (r: int)
    ensures -1 <= r < |s|
    ensures r >= 0 ==> s[r] == c
  {
    if s == "" then -1
    else if s[0] == c then 0
    else var r := IndexByte(s[1..], c); if r == -1 then -1 else r + 1
  }

  lemma {:induction false} IndexByteFirst(s: string, c: char)
    ensures IndexByte(s, c) >= 0 ==> Free(c, s[..IndexByte(s, c)])
    ensures IndexByte(s, c) == -1 ==> Free(c, s)
  {
    if s != "" && s[0] != c {
      IndexByteFirst(s[1..], c);
      var r := IndexByte(s[1..], c);
      if r >= 0 {
        assert s[..r + 1] == [s[0]] + s[1..][..r];
      }
    }
  }

  /** What the block pass writes for a block. */
  function BlockOutput(block: string, nc: Context): string {
    if AllVarsPresent(block, nc) then SubstituteVars(block, nc) else ""
  }

  function Conditionals(tmpl: string, nc: Context): string
    decreases |tmpl|
  {
    if tmpl == "" then ""
    else
      var end := if tmpl[0] == '{' then IndexByte(tmpl, '}') else -1;
      if end == -1 then [tmpl[0]] + Conditionals(tmpl[1..], nc)
      else
        var block := tmpl[1..end];
        BlockOutput(block, nc) + Conditionals(tmpl[end + 1..], nc)
  }

  /** The two substitution stages of applyTemplate. */
  function Expand(tmpl: string, nc: Context): string {
    SubstituteVars(Conditionals(tmpl, nc), nc)
  }

  // ------------------------------------------------- the one-pass reading of a template

  datatype Seg = Lit(c: char) | Tok(v: Var)
  datatype Piece = Plain(seg: Seg) | Block(body: seq<Seg>)
  predicate InSeriesGroup(v: Var) {
    v == Series || v == SeriesName || v == SeriesPosition
  }

  /** Two tokens can start the same text only when one of them is `$Series`. */
  lemma TokenClash(s: string, v: Var, w: Var)
    requires HasPrefix(s, Token(v)) && HasPrefix(s, Token(w))
    ensures v == w || (InSeriesGroup(v) && InSeriesGroup(w) && (v == Series || w == Series))
  {
    assert s[1] == Token(v)[1] == Token(w)[1] && s[2] == Token(v)[2] == Token(w)[2];
    if |Token(v)| > 7 && |Token(w)| > 7 {
      assert s[7] == Token(v)[7] == Token(w)[7];
    }
  }

  ghost predicate Longest(s: string, v: Var) {
    HasPrefix(s, Token(v)) && forall w: Var :: HasPrefix(s, Token(w)) ==> |Token(w)| <= |Token(v)|
  }

  lemma LongestExists(s: string, v: Var)
    requires HasPrefix(s, Token(v))
    ensures exists w: Var :: Longest(s, w)
  {
    forall w: Var | HasPrefix(s, Token(w))
      ensures v == w || (InSeriesGroup(v) && InSeriesGroup(w) && (v == Series || w == Series))
    {
      TokenClash(s, v, w);
    }
    var best := if HasPrefix(s, Token(SeriesPosition)) then SeriesPosition
                else if HasPrefix(s, Token(SeriesName)) then SeriesName else v;
    assert Longest(s, best) by {
      forall w: Var | HasPrefix(s, Token(w)) ensures |Token(w)| <= |Token(best)| {
        TokenClash(s, best, w);
      }
    }
  }

  /** The variable with the longest token that starts `s`. */
  ghost function LongestVar(s: string): (r: Option<Var>)
    ensures r.Some? ==> Longest(s, r.value)
    ensures r.None? ==> forall v: Var :: !HasPrefix(s, Token(v))
  {
    if v: Var :| HasPrefix(s, Token(v)) then
      LongestExists(s, v);
      var w: Var :| Longest(s, w);
      Some(w)
    else None
  }

  ghost function ParseText(s: string): seq<Seg>
    decreases |s|
  {
    if s == "" then []
    else match LongestVar(s)
      case Some(v) => [Tok(v)] + ParseText(s[|Token(v)|..])
      case None => [Lit(s[0])] + ParseText(s[1..])
  }

  /** The first piece of a template and the length of its text. */
  ghost function Head(tmpl: string): (r: (Piece, nat))
    requires tmpl != ""
    ensures 0 < r.1 <= |tmpl|
  {
    var end := if tmpl[0] == '{' then IndexByte(tmpl, '}') else -1;
    if end >= 0 then (Block(ParseText(tmpl[1..end])), end + 1)
    else match LongestVar(tmpl)
      case Some(v) => (Plain(Tok(v)), |Token(v)|)
      case None => (Plain(Lit(tmpl[0])), 1)
  }

  ghost function ParseTemplate(tmpl: string): seq<Piece>
    decreases |tmpl|
  {
    if tmpl == "" then [] else [Head(tmpl).0] + ParseTemplate(tmpl[Head(tmpl).1..])
  }

  /** What a parsed text stands for: every variable replaced by its value, once. */
  ghost function Out(segs: seq<Seg>, nc: Context): string {
    if segs == [] then ""
    else (match segs[0] case Lit(c) => [c] case Tok(v) => Value(v, nc)) + Out(segs[1..], nc)
  }

  /** A block is kept when its variables have values, and $SeriesPosition also needs a series. */
  ghost predicate Kept(body: seq<Seg>, nc: Context) {
    forall v: Var :: Tok(v) in body ==> Value(v, nc) != "" && (v == SeriesPosition ==> nc.series != "")
  }

  /** What one piece renders to. */
  ghost function RenderPiece(piece: Piece, nc: Context): string {
    match piece
    case Plain(seg) => Out([seg], nc)
    case Block(body) => if Kept(body, nc) then Out(body, nc) else ""
  }

  ghost function Render(pieces: seq<Piece>, nc: Context): string {
    if pieces == [] then ""
    else RenderPiece(pieces[0], nc) + Render(pieces[1..], nc)
  }

  /** Every `$` starts a known variable. */
  ghost predicate Clean(s: string) {
    forall i :: 0 <= i < |s| && s[i] == '$' ==> exists v: Var :: HasPrefix(s[i..], Token(v))
  }

  ghost predicate DollarFree(nc: Context) {
    forall v: Var :: Free('$', Value(v, nc))
  }

  // --------------------------------------------------- one pass, read on segments

  ghost function Flatten(segs: seq<Seg>): string {
    if segs == [] then "" else (match segs[0] case Lit(c) => [c] case Tok(v) => Token(v)) + Flatten(segs[1..])
  }

  ghost function Lits(s: string): (r: seq<Seg>)
    ensures |r| == |s| && forall i :: 0 <= i < |s| ==> r[i] == Lit(s[i])
  {
    if s == "" then [] else [Lit(s[0])] + Lits(s[1..])
  }

  /** What turns `$Series` into the token of `v`. */
  ghost function Suffix(v: Var): string {
    match v case SeriesPosition => "Position" case SeriesName => "Name" case _ => ""
  }

  ghost predicate StartsWith(segs: seq<Seg>, p: string)
    ensures StartsWith(segs, p) ==> |p| <= |segs|
  {
    p == "" || (segs != [] && segs[0] == Lit(p[0]) && StartsWith(segs[1..], p[1..]))
  }

  /** `segs[0]` is a `$Series` that the literals after it complete to the token of `v`. */
  ghost predicate Glued(segs: seq<Seg>, v: Var) {
    (v == SeriesPosition || v == SeriesName) && segs != [] && segs[0] == Tok(Series)
    && StartsWith(segs[1..], Suffix(v))
  }

  /** The effect of the pass for `v`, accidents included. */
  ghost function Pass(segs: seq<Seg>, v: Var, nc: Context): seq<Seg>
    decreases |segs|
  {
    if segs == [] then []
    else if segs[0] == Tok(v) then Lits(Value(v, nc)) + Pass(segs[1..], v, nc)
    else if Glued(segs, v) then Lits(Value(v, nc)) + Pass(segs[1 + |Suffix(v)|..], v, nc)
    else [segs[0]] + Pass(segs[1..], v, nc)
  }

  /** Literals carry no `$`, and the variables of earlier passes are gone. */
  ghost predicate Ready(segs: seq<Seg>, k: nat) {
    forall i :: 0 <= i < |segs| ==>
      (match segs[i] case Lit(c) => c != '$' case Tok(v) => Rank(v) >= k)
  }

  lemma {:induction false} FlattenAppend(a: seq<Seg>, b: seq<Seg>)
    ensures Flatten(a + b) == Flatten(a) + Flatten(b)
  {
    if a == [] {
      assert a + b == b;
    } else {
      assert (a + b)[1..] == a[1..] + b;
      FlattenAppend(a[1..], b);
    }
  }

  lemma {:induction false} OutAppend(a: seq<Seg>, b: seq<Seg>, nc: Context)
    ensures Out(a + b, nc) == Out(a, nc) + Out(b, nc)
  {
    if a == [] {
      assert a + b == b;
    } else {
      assert (a + b)[1..] == a[1..] + b;
      OutAppend(a[1..], b, nc);
    }
  }

  lemma {:induction false} LitsText(s: string, nc: Context)
    ensures Flatten(Lits(s)) == s && Out(Lits(s), nc) == s
  {
    if s != "" {
      assert Lits(s)[1..] == Lits(s[1..]);
      LitsText(s[1..], nc);
    }
  }

  ghost predicate Shaped(tok: string) {
    |tok| > 1 && tok[0] == '$' && Free('$', tok[1..])
  }

  lemma LongTokenShape(v: Var)
    requires v == SeriesPosition || v == OriginalName
    ensures Shaped(Token(v))
  {
    if v == SeriesPosition {
      assert Token(v)[1..] == "SeriesPosition";
    } else {
      assert Token(v)[1..] == "OriginalName";
    }
  }

  lemma PairTokenShape(v: Var)
    requires v == SeriesName || v == SortAuthor
    ensures Shaped(Token(v))
  {
    if v == SeriesName {
      assert Token(v)[1..] == "SeriesName";
    } else {
      assert Token(v)[1..] == "SortAuthor";
    }
  }

  lemma ShortTokenShape(v: Var)
    requires v == Author || v == Series || v == Title || v == Year || v == Format || v == Quality
    ensures Shaped(Token(v))
  {
    if v == Author {
      assert Token(v)[1..] == "Author";
    } else if v == Series {
      assert Token(v)[1..] == "Series";
    } else if v == Title {
      assert Token(v)[1..] == "Title";
    } else if v == Year {
      assert Token(v)[1..] == "Year";
    } else if v == Format {
      assert Token(v)[1..] == "Format";
    } else {
      assert Token(v)[1..] == "Quality";
    }
  }

  /** A token is a `$` and a name without one. */
  lemma TokenShape(v: Var)
    ensures |Token(v)| > 1 && Token(v)[0] == '$' && Free('$', Token(v)[1..])
  {
    if v == SeriesPosition || v == OriginalName {
      LongTokenShape(v);
    } else if v == SeriesName || v == SortAuthor {
      PairTokenShape(v);
    } else {
      ShortTokenShape(v);
    }
  }

  /** A pass walks over `$`-free text. */
  lemma {:induction false} SkipFree(t: string, rest: string, tok: string, val: string)
    requires tok != "" && tok[0] == '$' && Free('$', t)
    ensures ReplaceAll(t + rest, tok, val) == t + ReplaceAll(rest, tok, val)
  {
    if t == "" {
      assert t + rest == rest;
    } else {
      assert (t + rest)[1..] == t[1..] + rest;
      SkipFree(t[1..], rest, tok, val);
    }
  }

  lemma ReplaceHead(rest: string, tok: string, val: string)
    requires tok != ""
    ensures ReplaceAll(tok + rest, tok, val) == val + ReplaceAll(rest, tok, val)
  {
    assert (tok + rest)[..|tok|] == tok && (tok + rest)[|tok|..] == rest;
  }

  /** A pass walks over the token of another variable. */
  lemma ReplaceSkip(other: string, rest: string, tok: string, val: string)
    requires tok != "" && tok[0] == '$' && other != "" && Free('$', other[1..])
    requires !HasPrefix(other + rest, tok)
    ensures ReplaceAll(other + rest, tok, val) == other + ReplaceAll(rest, tok, val)
  {
    assert (other + rest)[1..] == other[1..] + rest;
    SkipFree(other[1..], rest, tok, val);
    assert other == [other[0]] + other[1..];
  }

  lemma {:induction false} StartsWithSplit(segs: seq<Seg>, p: string)
    requires StartsWith(segs, p)
    ensures segs == Lits(p) + segs[|p|..]
  {
    if p != "" {
      StartsWithSplit(segs[1..], p[1..]);
      assert segs[1..][|p| - 1..] == segs[|p|..];
    }
  }

  lemma PrefixStep(s: string, p: string)
    requires p != ""
    ensures HasPrefix(s, p) <==> s != "" && s[0] == p[0] && HasPrefix(s[1..], p[1..])
  {
    if s != "" && s[0] == p[0] && HasPrefix(s[1..], p[1..]) {
      assert s[..|p|] == [s[0]] + s[1..][..|p| - 1] == [p[0]] + p[1..] == p;
    }
    if HasPrefix(s, p) {
      assert s[1..][..|p| - 1] == s[..|p|][1..];
    }
  }

  /** `$`-free text found at the front of a flattened list is there as literals. */
  lemma {:induction false} PrefixIsLits(segs: seq<Seg>, p: string)
    requires Free('$', p)
    ensures HasPrefix(Flatten(segs), p) <==> StartsWith(segs, p)
    decreases |p|
  {
    if p != "" && segs != [] {
      PrefixStep(Flatten(segs), p);
      if segs[0].Lit? {
        assert Flatten(segs)[1..] == Flatten(segs[1..]);
        PrefixIsLits(segs[1..], p[1..]);
      }
    }
  }

  lemma PrefixAppend(a: string, b: string, p: string)
    ensures HasPrefix(a + b, a + p) <==> HasPrefix(b, p)
  {
    if |p| <= |b| {
      assert (a + b)[..|a + p|] == a + b[..|p|];
      assert (a + b[..|p|])[|a|..] == b[..|p|] && (a + p)[|a|..] == p;
    }
  }

  /** Of two different variables, only `$Series` can have its token completed to the other's. */
  lemma OtherToken(w: Var, rest: string, v: Var)
    requires v != w && HasPrefix(Token(w) + rest, Token(v)) && Rank(w) >= Rank(v)
    ensures w == Series && (v == SeriesPosition || v == SeriesName)
  {
    assert (Token(w) + rest)[..|Token(w)|] == Token(w);
    TokenClash(Token(w) + rest, v, w);
  }

  /** Where the pass for `v` fires: at its own token, and at a `$Series` that the text completes. */
  lemma FiringPoint(segs: seq<Seg>, v: Var)
    requires segs != [] && Ready(segs, Rank(v)) && segs[0].Tok?
    ensures HasPrefix(Flatten(segs), Token(v)) <==> segs[0] == Tok(v) || Glued(segs, v)
  {
    var w, rest := segs[0].v, Flatten(segs[1..]);
    if v == w {
      assert (Token(v) + rest)[..|Token(v)|] == Token(v);
    } else if w == Series && (v == SeriesPosition || v == SeriesName) {
      FiringAtSeries(segs, v);
    } else if HasPrefix(Token(w) + rest, Token(v)) {
      OtherToken(w, rest, v);
    }
  }

  lemma FiringAtSeries(segs: seq<Seg>, v: Var)
    requires segs != [] && segs[0] == Tok(Series) && (v == SeriesPosition || v == SeriesName)
    ensures HasPrefix(Flatten(segs), Token(v)) <==> Glued(segs, v)
  {
    SuffixShape(v);
    PrefixIsLits(segs[1..], Suffix(v));
    PrefixAppend(Token(Series), Flatten(segs[1..]), Suffix(v));
  }

  lemma SuffixShape(v: Var)
    requires v == SeriesPosition || v == SeriesName
    ensures Token(v) == Token(Series) + Suffix(v) && Free('$', Suffix(v)) && Suffix(v) != ""
  {
  }

  lemma GluedSplit(segs: seq<Seg>, v: Var)
    requires Glued(segs, v)
    ensures segs == [Tok(Series)] + (Lits(Suffix(v)) + segs[1 + |Suffix(v)|..])
  {
    var p, tail := Suffix(v), segs[1..];
    StartsWithSplit(tail, p);
    assert tail[|p|..] == segs[1 + |p|..];
    assert segs == [segs[0]] + tail;
  }

  lemma Regroup(a: string, b: string, c: string)
    ensures a + (b + c) == (a + b) + c
  {
  }

  lemma GluedText(segs: seq<Seg>, v: Var, nc: Context)
    requires Glued(segs, v)
    ensures Flatten(segs) == Token(v) + Flatten(segs[1 + |Suffix(v)|..])
  {
    var p, rest := Suffix(v), segs[1 + |Suffix(v)|..];
    GluedSplit(segs, v);
    SuffixShape(v);
    FlattenAppend(Lits(p), rest);
    LitsText(p, nc);
    assert segs[1..] == Lits(p) + rest;
    Regroup(Token(Series), p, Flatten(rest));
  }

  lemma GluedOut(segs: seq<Seg>, v: Var, nc: Context)
    requires Glued(segs, v)
    ensures Out(segs, nc) == nc.series + Suffix(v) + Out(segs[1 + |Suffix(v)|..], nc)
  {
    var p, rest := Suffix(v), segs[1 + |Suffix(v)|..];
    GluedSplit(segs, v);
    OutAppend(Lits(p), rest, nc);
    LitsText(p, nc);
    assert segs[1..] == Lits(p) + rest;
  }

  /** How many segments the pass for `v` consumes when it fires at the front. */
  ghost function Consumed(segs: seq<Seg>, v: Var): nat {
    if segs != [] && segs[0] != Tok(v) && Glued(segs, v) then 1 + |Suffix(v)| else 1
  }

  lemma PassFires(segs: seq<Seg>, v: Var, nc: Context)
    requires segs != [] && (segs[0] == Tok(v) || Glued(segs, v))
    ensures Consumed(segs, v) <= |segs|
    ensures Flatten(segs) == Token(v) + Flatten(segs[Consumed(segs, v)..])
    ensures Flatten(Pass(segs, v, nc)) == Value(v, nc) + Flatten(Pass(segs[Consumed(segs, v)..], v, nc))
  {
    LitsText(Value(v, nc), nc);
    FlattenAppend(Lits(Value(v, nc)), Pass(segs[Consumed(segs, v)..], v, nc));
    if segs[0] != Tok(v) {
      GluedText(segs, v, nc);
    }
  }

  /** The textual pass is the pass on segments. */
  lemma {:induction false} PassText(segs: seq<Seg>, v: Var, nc: Context)
    requires Ready(segs, Rank(v))
    ensures ReplaceAll(Flatten(segs), Token(v), Value(v, nc)) == Flatten(Pass(segs, v, nc))
    decreases |segs|
  {
    if segs == [] { return; }
    TokenShape(v);
    if segs[0] == Tok(v) || Glued(segs, v) {
      PassFires(segs, v, nc);
      var rest := segs[Consumed(segs, v)..];
      PassText(rest, v, nc);
      ReplaceHead(Flatten(rest), Token(v), Value(v, nc));
    } else {
      PassText(segs[1..], v, nc);
      PassPasses(segs, v, nc);
    }
  }

  lemma PassPasses(segs: seq<Seg>, v: Var, nc: Context)
    requires segs != [] && segs[0] != Tok(v) && !Glued(segs, v) && Ready(segs, Rank(v))
    requires ReplaceAll(Flatten(segs[1..]), Token(v), Value(v, nc)) == Flatten(Pass(segs[1..], v, nc))
    ensures ReplaceAll(Flatten(segs), Token(v), Value(v, nc)) == Flatten(Pass(segs, v, nc))
  {
    TokenShape(v);
    var rest := Flatten(segs[1..]);
    if segs[0].Tok? {
      FiringPoint(segs, v);
      TokenShape(segs[0].v);
      ReplaceSkip(Token(segs[0].v), rest, Token(v), Value(v, nc));
    } else {
      SkipFree([segs[0].c], rest, Token(v), Value(v, nc));
    }
  }

  lemma ReadyLits(s: string, k: nat)
    requires Free('$', s)
    ensures Ready(Lits(s), k)
  {
  }

  /** Once the pass for ORDER[k] is done, its variable is gone. */
  lemma {:induction false} PassReady(segs: seq<Seg>, k: nat, nc: Context)
    requires k < |ORDER| && Ready(segs, k) && DollarFree(nc)
    ensures Ready(Pass(segs, ORDER[k], nc), k + 1)
    decreases |segs|
  {
    if segs == [] { return; }
    var v := ORDER[k];
    ReadyLits(Value(v, nc), k + 1);
    if segs[0] == Tok(v) || Glued(segs, v) {
      PassReady(segs[Consumed(segs, v)..], k, nc);
    } else {
      if segs[0].Tok? {
        RankUnique(segs[0], k);
      }
      PassReady(segs[1..], k, nc);
    }
  }

  lemma RankUnique(seg: Seg, k: nat)
    requires k < |ORDER| && seg != Tok(ORDER[k]) && seg.Tok? && Rank(seg.v) >= k
    ensures Rank(seg.v) >= k + 1
  {
  }

  ghost function PassesOn(segs: seq<Seg>, k: nat, nc: Context): seq<Seg>
    requires k <= |ORDER|
    decreases |ORDER| - k
  {
    if k == |ORDER| then segs else PassesOn(Pass(segs, ORDER[k], nc), k + 1, nc)
  }

  lemma {:induction false} NoVariableLeft(segs: seq<Seg>, nc: Context)
    requires Ready(segs, |ORDER|)
    ensures Flatten(segs) == Out(segs, nc) && Free('$', Flatten(segs))
  {
    if segs != [] {
      assert segs[0].Lit?;
      NoVariableLeft(segs[1..], nc);
    }
  }

  lemma OnePass(segs: seq<Seg>, k: nat, nc: Context)
    requires k < |ORDER| && Ready(segs, k) && DollarFree(nc)
    ensures Ready(Pass(segs, ORDER[k], nc), k + 1)
    ensures Passes(Flatten(segs), k, nc) == Passes(Flatten(Pass(segs, ORDER[k], nc)), k + 1, nc)
  {
    PassReady(segs, k, nc);
    OrderRank(k);
    PassText(segs, ORDER[k], nc);
  }

  lemma OrderRank(k: nat)
    requires k < |ORDER|
    ensures Rank(ORDER[k]) == k
  {
  }

  lemma {:induction false} PassesFlatten(segs: seq<Seg>, k: nat, nc: Context)
    requires k <= |ORDER| && Ready(segs, k) && DollarFree(nc)
    ensures Passes(Flatten(segs), k, nc) == Flatten(PassesOn(segs, k, nc))
    ensures Ready(PassesOn(segs, k, nc), |ORDER|)
    decreases |ORDER| - k
  {
    if k < |ORDER| {
      OnePass(segs, k, nc);
      PassesFlatten(Pass(segs, ORDER[k], nc), k + 1, nc);
    }
  }

  /** All passes, read on segments: no `$` is left, whatever was glued. */
  lemma PassesText(segs: seq<Seg>, nc: Context)
    requires Ready(segs, 0) && DollarFree(nc)
    ensures SubstituteVars(Flatten(segs), nc) == Out(PassesOn(segs, 0, nc), nc)
    ensures Free('$', SubstituteVars(Flatten(segs), nc))
  {
    PassesFlatten(segs, 0, nc);
    NoVariableLeft(PassesOn(segs, 0, nc), nc);
  }

  // --------------------------------------------------- when a pass misreads the text

  /** The pass for `v` fires at its own tokens only. */
  ghost predicate Smooth(segs: seq<Seg>, v: Var) {
    segs == [] || (!Glued(segs, v) && Smooth(segs[1..], v))
  }

  /** No `$Series` is completed to a longer token by the text that comes to stand after it. */
  ghost predicate Seamless(segs: seq<Seg>, nc: Context) {
    Smooth(segs, SeriesPosition) && Smooth(Pass(segs, SeriesPosition, nc), SeriesName)
  }

  /** The position is a number next to a series title, not a text longer than "<title>Position". */
  ghost predicate ShortPosition(nc: Context) {
    |nc.seriesPosition| < |nc.series| + |"Position"|
  }

  /** The effect of one firing on what the text stands for. */
  lemma FiredOut(segs: seq<Seg>, v: Var, nc: Context)
    requires segs != [] && (segs[0] == Tok(v) || Glued(segs, v))
    ensures Consumed(segs, v) <= |segs|
    ensures Out(Pass(segs, v, nc), nc) == Value(v, nc) + Out(Pass(segs[Consumed(segs, v)..], v, nc), nc)
    ensures segs[0] == Tok(v) ==> Out(segs, nc) == Value(v, nc) + Out(segs[1..], nc)
    ensures segs[0] != Tok(v) ==> Out(segs, nc) == nc.series + Suffix(v) + Out(segs[Consumed(segs, v)..], nc)
  {
    var rest := Pass(segs[Consumed(segs, v)..], v, nc);
    OutAppend(Lits(Value(v, nc)), rest, nc);
    LitsText(Value(v, nc), nc);
    if segs[0] != Tok(v) {
      GluedOut(segs, v, nc);
    }
  }

  lemma {:induction false} PassOut(segs: seq<Seg>, v: Var, nc: Context)
    ensures Smooth(segs, v) ==> Out(Pass(segs, v, nc), nc) == Out(segs, nc)
    ensures ShortPosition(nc) ==> |Out(Pass(segs, v, nc), nc)| <= |Out(segs, nc)|
    ensures ShortPosition(nc) && !Smooth(segs, v) ==> |Out(Pass(segs, v, nc), nc)| < |Out(segs, nc)|
    decreases |segs|
  {
    if segs == [] {
    } else if segs[0] == Tok(v) || Glued(segs, v) {
      FiredOut(segs, v, nc);
      PassOut(segs[Consumed(segs, v)..], v, nc);
    } else {
      PassOut(segs[1..], v, nc);
    }
  }

  lemma {:induction false} SmoothElsewhere(segs: seq<Seg>, v: Var)
    requires v != SeriesPosition && v != SeriesName
    ensures Smooth(segs, v)
  {
    if segs != [] {
      SmoothElsewhere(segs[1..], v);
    }
  }

  lemma {:induction false} LaterPassesOut(segs: seq<Seg>, k: nat, nc: Context)
    requires 2 <= k <= |ORDER|
    ensures Out(PassesOn(segs, k, nc), nc) == Out(segs, nc)
    decreases |ORDER| - k
  {
    if k < |ORDER| {
      SmoothElsewhere(segs, ORDER[k]);
      PassOut(segs, ORDER[k], nc);
      LaterPassesOut(Pass(segs, ORDER[k], nc), k + 1, nc);
    }
  }

  lemma FirstTwoPasses(segs: seq<Seg>, nc: Context)
    ensures PassesOn(segs, 0, nc) == PassesOn(Pass(Pass(segs, SeriesPosition, nc), SeriesName, nc), 2, nc)
  {
    assert ORDER[0] == SeriesPosition && ORDER[1] == SeriesName;
  }

  /** The ten passes against one reading of the segments. */
  lemma PassesAreOneReading(segs: seq<Seg>, nc: Context)
    requires Ready(segs, 0) && DollarFree(nc)
    ensures Free('$', SubstituteVars(Flatten(segs), nc))
    ensures Seamless(segs, nc) ==> SubstituteVars(Flatten(segs), nc) == Out(segs, nc)
    ensures ShortPosition(nc) ==> |SubstituteVars(Flatten(segs), nc)| <= |Out(segs, nc)|
    ensures ShortPosition(nc) && !Seamless(segs, nc) ==> |SubstituteVars(Flatten(segs), nc)| < |Out(segs, nc)|
  {
    PassesText(segs, nc);
    var s1 := Pass(segs, SeriesPosition, nc);
    var s2 := Pass(s1, SeriesName, nc);
    FirstTwoPasses(segs, nc);
    PassOut(segs, SeriesPosition, nc);
    PassOut(s1, SeriesName, nc);
    LaterPassesOut(s2, 2, nc);
  }

  // --------------------------------------------------- parsing loses nothing

  lemma ReadyFront(seg: Seg, segs: seq<Seg>)
    requires Ready(segs, 0) && (seg.Lit? ==> seg.c != '$')
    ensures Ready([seg] + segs, 0)
  {
  }

  lemma FlattenFront(seg: Seg, segs: seq<Seg>)
    ensures Flatten([seg] + segs) == (match seg case Lit(c) => [c] case Tok(v) => Token(v)) + Flatten(segs)
  {
    assert ([seg] + segs)[1..] == segs;
  }

  /** Where no token starts, a clean text has no `$`. */
  lemma CleanLiteral(s: string)
    requires s != "" && Clean(s) && forall v: Var :: !HasPrefix(s, Token(v))
    ensures s[0] != '$'
  {
    assert s[0..] == s;
  }

  /** Parsing loses nothing of `s`. */
  ghost predicate Faithful(s: string) {
    Flatten(ParseText(s)) == s && (Clean(s) ==> Ready(ParseText(s), 0))
  }

  lemma FaithfulToken(s: string, v: Var)
    requires s != "" && LongestVar(s) == Some(v) && Faithful(s[|Token(v)|..])
    ensures Faithful(s)
  {
    var tok, rest := Token(v), s[|Token(v)|..];
    Rejoined(s, tok);
    CleanDrop(s, |tok|);
    FlattenFront(Tok(v), ParseText(rest));
    if Clean(s) {
      ReadyFront(Tok(v), ParseText(rest));
    }
  }

  lemma FaithfulLiteral(s: string)
    requires s != "" && LongestVar(s).None? && Faithful(s[1..])
    ensures Faithful(s)
  {
    var c, rest := s[0], s[1..];
    Rejoined(s, [c]);
    CleanDrop(s, 1);
    FlattenFront(Lit(c), ParseText(rest));
    if Clean(s) {
      CleanLiteral(s);
      ReadyFront(Lit(c), ParseText(rest));
    }
  }

  lemma Rejoined(s: string, p: string)
    requires HasPrefix(s, p)
    ensures s == p + s[|p|..]
    ensures p != "" ==> s[1..] == p[1..] + s[|p|..]
  {
  }

  lemma {:induction false} ParseTextFaithful(s: string)
    ensures Faithful(s)
    decreases |s|
  {
    if s != "" {
      match LongestVar(s)
      case Some(v) =>
        ParseTextFaithful(s[|Token(v)|..]);
        FaithfulToken(s, v);
      case None =>
        ParseTextFaithful(s[1..]);
        FaithfulLiteral(s);
    }
  }

  lemma CleanDrop(s: string, n: nat)
    requires n <= |s|
    ensures Clean(s) ==> Clean(s[n..])
  {
    if Clean(s) {
      forall i | 0 <= i < |s[n..]| && s[n..][i] == '$' ensures exists v: Var :: HasPrefix(s[n..][i..], Token(v)) {
        assert s[n..][i..] == s[n + i..];
      }
    }
  }

  /** A block's text has whole tokens only: no token holds a brace. */
  lemma CleanBlock(s: string, end: nat)
    requires 1 <= end < |s| && s[end] == '}' && Clean(s)
    ensures Clean(s[1..end])
  {
    forall i | 0 <= i < |s[1..end]| && s[1..end][i] == '$' ensures exists v: Var :: HasPrefix(s[1..end][i..], Token(v)) {
      var v: Var :| HasPrefix(s[i + 1..], Token(v));
      NoBraces(v);
      var rest := s[i + 1..];
      assert rest[end - (i + 1)] == '}' && rest[..|Token(v)|] == Token(v);
      assert s[1..end][i..] == rest[..end - (i + 1)];
      assert HasPrefix(s[1..end][i..], Token(v));
    }
  }

  lemma NoBraces(v: Var)
    ensures Free('{', Token(v)) && Free('}', Token(v))
  {
  }

  /** `$Series` is found inside the two longer tokens as well. */
  ghost predicate Covers(w: Var, v: Var) {
    w == v || (v == Series && InSeriesGroup(w))
  }

  lemma CoversPrefix(s: string, w: Var, v: Var)
    requires Longest(s, w)
    ensures HasPrefix(s, Token(v)) <==> Covers(w, v)
  {
    if HasPrefix(s, Token(v)) {
      TokenClash(s, w, v);
      if w == Series && v != w {
        SuffixShape(v);
      }
    }
    if Covers(w, v) && w != v {
      SuffixShape(w);
      assert s[..|Token(Series)|] == s[..|Token(w)|][..|Token(Series)|];
    }
  }

  lemma {:induction false} ContainsSkip(t: string, rest: string, tok: string)
    requires tok != "" && tok[0] == '$' && Free('$', t)
    ensures Contains(t + rest, tok) <==> Contains(rest, tok)
  {
    if t == "" {
      assert t + rest == rest;
    } else {
      assert (t + rest)[1..] == t[1..] + rest;
      ContainsSkip(t[1..], rest, tok);
    }
  }

  lemma ContainsAfterToken(s: string, w: Var, v: Var)
    requires Longest(s, w)
    ensures Contains(s, Token(v)) <==> Covers(w, v) || Contains(s[|Token(w)|..], Token(v))
  {
    CoversPrefix(s, w, v);
    TokenShape(w);
    TokenShape(v);
    ContainsAfterPrefix(s, Token(w), Token(v));
  }

  lemma ContainsAfterPrefix(s: string, front: string, tok: string)
    requires front != "" && HasPrefix(s, front) && Free('$', front[1..])
    requires tok != "" && tok[0] == '$'
    ensures Contains(s, tok) <==> HasPrefix(s, tok) || Contains(s[|front|..], tok)
  {
    Rejoined(s, front);
    ContainsSkip(front[1..], s[|front|..], tok);
  }

  lemma {:induction false} ContainsIsParsed(s: string, v: Var)
    ensures Contains(s, Token(v)) <==> exists w: Var :: Tok(w) in ParseText(s) && Covers(w, v)
    decreases |s|
  {
    if s == "" { return; }
    match LongestVar(s)
    case Some(w) =>
      ContainsAfterToken(s, w, v);
      ContainsIsParsed(s[|Token(w)|..], v);
      assert ParseText(s) == [Tok(w)] + ParseText(s[|Token(w)|..]);
    case None =>
      ContainsIsParsed(s[1..], v);
      assert ParseText(s) == [Lit(s[0])] + ParseText(s[1..]);
  }

  /** The textual test for a block is the test on its variables. */
  lemma PresentIsKept(block: string, nc: Context)
    ensures AllVarsPresent(block, nc) <==> Kept(ParseText(block), nc)
  {
    forall v: Var ensures Contains(block, Token(v)) <==> exists w: Var :: Tok(w) in ParseText(block) && Covers(w, v) {
      ContainsIsParsed(block, v);
    }
    if AllVarsPresent(block, nc) {
      forall v: Var | Tok(v) in ParseText(block)
        ensures Value(v, nc) != "" && (v == SeriesPosition ==> nc.series != "")
      {
        assert Covers(v, v) && (v == SeriesPosition ==> Covers(v, Series));
        assert v == SeriesPosition ==> Contains(block, Token(Series)) && Value(Series, nc) == nc.series;
      }
    }
  }

  // --------------------------------------------------- the whole template

  /** What a piece puts into the text between the two stages. */
  ghost function Contribution(piece: Piece, nc: Context): seq<Seg> {
    match piece
    case Plain(seg) => [seg]
    case Block(body) => if Kept(body, nc) then Lits(SubstituteVars(Flatten(body), nc)) else []
  }

  /** The text between the two stages, as segments. */
  ghost function Layout(pieces: seq<Piece>, nc: Context): seq<Seg> {
    if pieces == [] then [] else Contribution(pieces[0], nc) + Layout(pieces[1..], nc)
  }

  lemma ConditionalsChar(s: string, nc: Context)
    requires s != "" && s[0] != '{'
    ensures Conditionals(s, nc) == [s[0]] + Conditionals(s[1..], nc)
  {
  }

  lemma {:induction false} SkipBraceFree(t: string, rest: string, nc: Context)
    requires Free('{', t)
    ensures Conditionals(t + rest, nc) == t + Conditionals(rest, nc)
  {
    if t == "" {
      assert t + rest == rest;
    } else {
      assert (t + rest)[1..] == t[1..] + rest;
      ConditionalsChar(t + rest, nc);
      SkipBraceFree(t[1..], rest, nc);
      Regroup([t[0]], t[1..], Conditionals(rest, nc));
      assert [t[0]] + t[1..] == t;
    }
  }

  /** A kept block: the text it contributes, and that this text is `$`-free. */
  lemma BlockText(block: string, nc: Context)
    requires Clean(block) && DollarFree(nc)
    ensures Flatten(ParseText(block)) == block && Free('$', SubstituteVars(block, nc))
    ensures AllVarsPresent(block, nc) <==> Kept(ParseText(block), nc)
    ensures Flatten(Lits(SubstituteVars(block, nc))) == SubstituteVars(block, nc)
    ensures Ready(Lits(SubstituteVars(block, nc)), 0)
  {
    ParseTextFaithful(block);
    PassesAreOneReading(ParseText(block), nc);
    PresentIsKept(block, nc);
    LitsText(SubstituteVars(block, nc), nc);
    ReadyLits(SubstituteVars(block, nc), 0);
  }

  /** What the block pass produces for the rest, behind one piece. */
  ghost predicate LaidOut(tmpl: string, nc: Context) {
    Conditionals(tmpl, nc) == Flatten(Layout(ParseTemplate(tmpl), nc)) && Ready(Layout(ParseTemplate(tmpl), nc), 0)
  }

  lemma LayoutPiece(text: string, rest: string, piece: Piece, nc: Context)
    requires Flatten(Contribution(piece, nc)) == text && Ready(Contribution(piece, nc), 0)
    requires LaidOut(rest, nc)
    ensures Flatten(Layout([piece] + ParseTemplate(rest), nc)) == text + Conditionals(rest, nc)
    ensures Ready(Layout([piece] + ParseTemplate(rest), nc), 0)
  {
    assert ([piece] + ParseTemplate(rest))[1..] == ParseTemplate(rest);
    FlattenAppend(Contribution(piece, nc), Layout(ParseTemplate(rest), nc));
  }

  lemma ConditionalsBlock(tmpl: string, end: int, nc: Context)
    requires tmpl != "" && tmpl[0] == '{' && end == IndexByte(tmpl, '}') && end >= 0
    ensures 1 <= end < |tmpl| && tmpl[end] == '}'
    ensures Conditionals(tmpl, nc) == BlockOutput(tmpl[1..end], nc) + Conditionals(tmpl[end + 1..], nc)
  {
  }

  lemma ParseBlock(tmpl: string, end: int)
    requires tmpl != "" && tmpl[0] == '{' && end == IndexByte(tmpl, '}') && end >= 0
    ensures ParseTemplate(tmpl) == [Block(ParseText(tmpl[1..end]))] + ParseTemplate(tmpl[end + 1..])
  {
  }

  /** What a block of clean text contributes, kept or not. */
  lemma BlockContribution(block: string, nc: Context)
    requires Clean(block) && DollarFree(nc)
    ensures var piece := Block(ParseText(block));
            && Flatten(Contribution(piece, nc)) == BlockOutput(block, nc)
            && Ready(Contribution(piece, nc), 0)
  {
    BlockText(block, nc);
  }

  lemma LayoutBlock(tmpl: string, end: int, nc: Context)
    requires Clean(tmpl) && DollarFree(nc) && tmpl != "" && tmpl[0] == '{' && end == IndexByte(tmpl, '}') && end >= 0
    requires LaidOut(tmpl[end + 1..], nc)
    ensures LaidOut(tmpl, nc)
  {
    var block, rest := tmpl[1..end], tmpl[end + 1..];
    ConditionalsBlock(tmpl, end, nc);
    ParseBlock(tmpl, end);
    CleanBlock(tmpl, end);
    BlockContribution(block, nc);
    LayoutPiece(BlockOutput(block, nc), rest, Block(ParseText(block)), nc);
  }

  lemma FlattenOne(v: Var)
    ensures Flatten([Tok(v)]) == Token(v)
  {
    assert Flatten([Tok(v)][1..]) == "";
  }

  lemma LayoutVar(tmpl: string, v: Var, nc: Context)
    requires LongestVar(tmpl) == Some(v) && tmpl != "" && tmpl[0] != '{'
    requires LaidOut(tmpl[|Token(v)|..], nc)
    ensures LaidOut(tmpl, nc)
  {
    var tok, rest := Token(v), tmpl[|Token(v)|..];
    FlattenOne(v);
    LayoutPiece(tok, rest, Plain(Tok(v)), nc);
    assert Head(tmpl) == (Plain(Tok(v)), |tok|);
    assert Conditionals(tmpl, nc) == tok + Conditionals(rest, nc) by {
      assert tmpl == tok + rest;
      NoBraces(v);
      SkipBraceFree(tok, rest, nc);
    }
  }

  lemma LayoutLit(tmpl: string, nc: Context)
    requires Clean(tmpl) && tmpl != "" && LongestVar(tmpl).None? && (tmpl[0] == '{' ==> IndexByte(tmpl, '}') < 0)
    requires LaidOut(tmpl[1..], nc)
    ensures LaidOut(tmpl, nc)
  {
    assert tmpl[0..] == tmpl;
    assert Flatten([Lit(tmpl[0])]) == [tmpl[0]];
    LayoutPiece([tmpl[0]], tmpl[1..], Plain(Lit(tmpl[0])), nc);
    assert Head(tmpl) == (Plain(Lit(tmpl[0])), 1);
  }

  lemma {:induction false} ConditionalsLayout(tmpl: string, nc: Context)
    requires Clean(tmpl) && DollarFree(nc)
    ensures LaidOut(tmpl, nc)
    decreases |tmpl|
  {
    if tmpl == "" { return; }
    CleanDrop(tmpl, Head(tmpl).1);
    ConditionalsLayout(tmpl[Head(tmpl).1..], nc);
    if tmpl[0] == '{' && IndexByte(tmpl, '}') >= 0 {
      LayoutBlock(tmpl, IndexByte(tmpl, '}'), nc);
    } else if LongestVar(tmpl).Some? {
      TokenShape(LongestVar(tmpl).value);
      LayoutVar(tmpl, LongestVar(tmpl).value, nc);
    } else {
      LayoutLit(tmpl, nc);
    }
  }

  /** Every kept block reads the same in ten passes and in one. */
  ghost predicate BlocksSeamless(pieces: seq<Piece>, nc: Context) {
    pieces == [] ||
    ((pieces[0].Block? && Kept(pieces[0].body, nc) ==> Seamless(pieces[0].body, nc)) && BlocksSeamless(pieces[1..], nc))
  }

  /** The template, filled in with these values, never completes a `$Series` to a longer token. */
  ghost predicate TemplateSeamless(tmpl: string, nc: Context) {
    BlocksSeamless(ParseTemplate(tmpl), nc) && Seamless(Layout(ParseTemplate(tmpl), nc), nc)
  }

  ghost predicate BodiesReady(pieces: seq<Piece>) {
    pieces == [] || ((pieces[0].Block? ==> Ready(pieces[0].body, 0)) && BodiesReady(pieces[1..]))
  }

  lemma HeadReady(tmpl: string)
    requires Clean(tmpl) && tmpl != "" && Head(tmpl).0.Block?
    ensures Ready(Head(tmpl).0.body, 0)
  {
    var end := IndexByte(tmpl, '}');
    CleanBlock(tmpl, end);
    ParseTextFaithful(tmpl[1..end]);
  }

  lemma {:induction false} ParsedBodiesReady(tmpl: string)
    requires Clean(tmpl)
    ensures BodiesReady(ParseTemplate(tmpl))
    decreases |tmpl|
  {
    if tmpl == "" { return; }
    CleanDrop(tmpl, Head(tmpl).1);
    ParsedBodiesReady(tmpl[Head(tmpl).1..]);
    if Head(tmpl).0.Block? {
      HeadReady(tmpl);
    }
    assert ParseTemplate(tmpl)[1..] == ParseTemplate(tmpl[Head(tmpl).1..]);
  }

  lemma {:induction false} LayoutOut(pieces: seq<Piece>, nc: Context)
    requires BodiesReady(pieces) && DollarFree(nc)
    ensures BlocksSeamless(pieces, nc) ==> Out(Layout(pieces, nc), nc) == Render(pieces, nc)
    ensures ShortPosition(nc) ==> |Out(Layout(pieces, nc), nc)| <= |Render(pieces, nc)|
    ensures ShortPosition(nc) && !BlocksSeamless(pieces, nc) ==> |Out(Layout(pieces, nc), nc)| < |Render(pieces, nc)|
  {
    if pieces == [] { return; }
    LayoutOut(pieces[1..], nc);
    OutAppend(Contribution(pieces[0], nc), Layout(pieces[1..], nc), nc);
    if pieces[0].Block? && Kept(pieces[0].body, nc) {
      PassesAreOneReading(pieces[0].body, nc);
      LitsText(SubstituteVars(Flatten(pieces[0].body), nc), nc);
    }
  }

  /**
   * The block pass and the ten ordered replace passes against the one-pass rendering of the
   * parsed template: they agree when no `$Series` is completed to a longer token, they disagree
   * otherwise (for positions shorter than the series title plus eight characters), and in either
   * case no `$` is left.
   */
  lemma ExpandIsRender(tmpl: string, nc: Context)
    requires Clean(tmpl) && DollarFree(nc)
    ensures Free('$', Expand(tmpl, nc))
    ensures TemplateSeamless(tmpl, nc) ==> Expand(tmpl, nc) == Render(ParseTemplate(tmpl), nc)
    ensures ShortPosition(nc) ==> (Expand(tmpl, nc) == Render(ParseTemplate(tmpl), nc) <==> TemplateSeamless(tmpl, nc))
  {
    var pieces := ParseTemplate(tmpl);
    ConditionalsLayout(tmpl, nc);
    ParsedBodiesReady(tmpl);
    LayoutOut(pieces, nc);
    PassesAreOneReading(Layout(pieces, nc), nc);
  }
}
