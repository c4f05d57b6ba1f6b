/** IsValidTemplate: removal of every known token, and what is left of `$`. */
module TemplateCheck {
  import opened Text
  import opened Template

  /** The order in which IsValidTemplate removes the tokens. */
  const KNOWN: seq<Var> :=
    [Author, SortAuthor, Title, Series, SeriesName, SeriesPosition, Year, Format, Quality, OriginalName]

  function Removals(s: string, k: nat): string
    requires k <= |KNOWN|
    decreases |KNOWN| - k
  {
    if k == |KNOWN| then s else Removals(ReplaceAll(s, Token(KNOWN[k]), ""), k + 1)
  }

  predicate Accepted(tmpl: string) {
    Free('$', Removals(tmpl, 0))
  }

  method IsValidTemplate(tmpl: string) returns (ok: bool)
    ensures ok <==> Accepted(tmpl)
  {
    var work := tmpl;
    for k := 0 to |KNOWN|
      invariant Removals(work, k) == Removals(tmpl, 0)
    {
      work := ReplaceAll(work, Token(KNOWN[k]), "");
    }
    ok := true;
    for i := 0 to |work|
      invariant ok
      invariant forall j :: 0 <= j < i ==> work[j] != '$'
    {
      if Contains(work, "$") {
        var k := ContainsWitness(work, "$");
        assert work[k..][..1] == "$" && work[k] == '$';
        return false;
      }
      if work[i] == '$' {
        assert work[i..][..1] == "$";
        ContainsAt(work, "$", i);
      }
    }
  }

  // --------------------------------------------------- known variables only: accepted

  /** Every `$` starts a token that is still to be removed. */
  ghost predicate StillKnown(s: string, k: nat) {
    forall i :: 0 <= i < |s| && s[i] == '$' ==>
      exists j :: k <= j < |KNOWN| && HasPrefix(s[i..], Token(KNOWN[j]))
  }

  lemma StillKnownParts(a: string, b: string, k: nat)
    requires StillKnown(b, k) && Free('$', a)
    ensures StillKnown(a + b, k)
  {
    forall i | 0 <= i < |a + b| && (a + b)[i] == '$'
      ensures exists j :: k <= j < |KNOWN| && HasPrefix((a + b)[i..], Token(KNOWN[j]))
    {
      assert (a + b)[i..] == b[i - |a|..];
    }
  }

  lemma StillKnownDrop(s: string, n: nat, k: nat)
    requires n <= |s| && StillKnown(s, k)
    ensures StillKnown(s[n..], k)
  {
    forall i | 0 <= i < |s[n..]| && s[n..][i] == '$'
      ensures exists j :: k <= j < |KNOWN| && HasPrefix(s[n..][i..], Token(KNOWN[j]))
    {
      assert s[n..][i..] == s[n + i..];
    }
  }

  lemma StillKnownToken(v: Var, rest: string, k: nat)
    requires StillKnown(rest, k) && exists j :: k <= j < |KNOWN| && KNOWN[j] == v
    ensures StillKnown(Token(v) + rest, k)
  {
    var tok, s := Token(v), Token(v) + rest;
    TokenShape(v);
    StillKnownParts(tok[1..], rest, k);
    assert s[1..] == tok[1..] + rest;
    assert s[..|tok|] == tok && s[0..] == s;
    forall i | 0 <= i < |s| && s[i] == '$' ensures exists j :: k <= j < |KNOWN| && HasPrefix(s[i..], Token(KNOWN[j])) {
      if i == 0 {
        assert HasPrefix(s, tok);
      } else {
        assert s[i..] == s[1..][i - 1..];
      }
    }
  }

  /** The removal for KNOWN[k] leaves only later tokens behind. */
  ghost predicate LeavesKnown(s: string, k: nat)
    requires k < |KNOWN|
  {
    StillKnown(ReplaceAll(s, Token(KNOWN[k]), ""), k + 1)
  }

  /** At a `$` the removal for KNOWN[k] either takes the token away or leaves a later one in place. */
  lemma RemovalAtToken(s: string, k: nat, j: nat)
    requires k <= j < |KNOWN| && HasPrefix(s, Token(KNOWN[j])) && !HasPrefix(s, Token(KNOWN[k]))
    requires LeavesKnown(s[|Token(KNOWN[j])|..], k)
    ensures LeavesKnown(s, k)
  {
    var tok, other := KNOWN[k], KNOWN[j];
    TokenShape(tok);
    TokenShape(other);
    var rest := s[|Token(other)|..];
    Rejoined(s, Token(other));
    ReplaceSkip(Token(other), rest, Token(tok), "");
    StillKnownToken(other, ReplaceAll(rest, Token(tok), ""), k + 1);
  }

  lemma RemovalOfToken(s: string, k: nat)
    requires k < |KNOWN| && HasPrefix(s, Token(KNOWN[k])) && LeavesKnown(s[|Token(KNOWN[k])|..], k)
    ensures LeavesKnown(s, k)
  {
    var tok := Token(KNOWN[k]);
    TokenShape(KNOWN[k]);
    Rejoined(s, tok);
    ReplaceHead(s[|tok|..], tok, "");
  }

  lemma RemovalOfText(s: string, k: nat)
    requires k < |KNOWN| && s != "" && s[0] != '$' && LeavesKnown(s[1..], k)
    ensures LeavesKnown(s, k)
  {
    var tok := Token(KNOWN[k]);
    TokenShape(KNOWN[k]);
    Rejoined(s, [s[0]]);
    SkipFree([s[0]], s[1..], tok, "");
    StillKnownParts([s[0]], ReplaceAll(s[1..], tok, ""), k + 1);
  }

  lemma KnownAtDollar(s: string, k: nat) returns (j: nat)
    requires s != "" && s[0] == '$' && StillKnown(s, k)
    ensures k <= j < |KNOWN| && HasPrefix(s, Token(KNOWN[j]))
  {
    assert s[0..] == s;
    j :| k <= j < |KNOWN| && HasPrefix(s, Token(KNOWN[j]));
  }

  lemma {:induction false} RemovalKeepsKnown(s: string, k: nat)
    requires k < |KNOWN| && StillKnown(s, k)
    ensures LeavesKnown(s, k)
    decreases |s|
  {
    if s == "" {
    } else if s[0] == '$' {
      var j := KnownAtDollar(s, k);
      var n := if HasPrefix(s, Token(KNOWN[k])) then k else j;
      TokenShape(KNOWN[n]);
      StillKnownDrop(s, |Token(KNOWN[n])|, k);
      RemovalKeepsKnown(s[|Token(KNOWN[n])|..], k);
      if n == k {
        RemovalOfToken(s, k);
      } else {
        RemovalAtToken(s, k, j);
      }
    } else {
      StillKnownDrop(s, 1, k);
      RemovalKeepsKnown(s[1..], k);
      RemovalOfText(s, k);
    }
  }

  lemma {:induction false} RemovalsOfKnown(s: string, k: nat)
    requires k <= |KNOWN| && StillKnown(s, k)
    ensures Free('$', Removals(s, k))
    decreases |KNOWN| - k
  {
    if k < |KNOWN| {
      RemovalKeepsKnown(s, k);
      RemovalsOfKnown(ReplaceAll(s, Token(KNOWN[k]), ""), k + 1);
    }
  }

  lemma AllKnown(v: Var)
    ensures exists j :: 0 <= j < |KNOWN| && KNOWN[j] == v
  {
    assert KNOWN[0] == Author && KNOWN[1] == SortAuthor && KNOWN[2] == Title && KNOWN[3] == Series
        && KNOWN[4] == SeriesName && KNOWN[5] == SeriesPosition && KNOWN[6] == Year && KNOWN[7] == Format
        && KNOWN[8] == Quality && KNOWN[9] == OriginalName;
  }

  lemma KnownVariablesAccepted(tmpl: string)
    requires Clean(tmpl)
    ensures Accepted(tmpl)
  {
    forall i | 0 <= i < |tmpl| && tmpl[i] == '$'
      ensures exists j :: 0 <= j < |KNOWN| && HasPrefix(tmpl[i..], Token(KNOWN[j]))
    {
      var v: Var :| HasPrefix(tmpl[i..], Token(v));
      AllKnown(v);
    }
    RemovalsOfKnown(tmpl, 0);
  }

  // --------------------------------------------------- accepted: known variables only, or a token cut by another

  /** A `$` starts no known token. */
  ghost predicate Unknown(s: string, i: nat)
    requires i <= |s|
  {
    i < |s| && s[i] == '$' && forall v: Var :: !HasPrefix(s[i..], Token(v))
  }

  /** The beginning of a token, and no whole one, stands directly before another `$`, as in "$Ti$Authortle". */
  ghost predicate CutToken(s: string) {
    exists i: nat, j: nat, v: Var :: i < j < |s| && Unknown(s, i) && s[j] == '$' && Proper(s[i..j], v)
  }

  ghost predicate Proper(r: string, v: Var) {
    |r| < |Token(v)| && HasPrefix(Token(v), r)
  }

  /** `r` starts with a `$` that no removal can reach, whatever becomes of the text after it. */
  ghost predicate Stuck(r: string, atEnd: bool) {
    r != "" && r[0] == '$' && Free('$', r[1..])
    && forall v: Var :: !HasPrefix(r, Token(v)) && (atEnd || !Proper(r, v))
  }

  lemma NoReach(x: string, z: string, tok: string)
    requires tok != "" && Free('$', tok[1..]) && x != "" && z != "" && z[0] == '$'
    ensures HasPrefix(x + z, tok) <==> HasPrefix(x, tok)
  {
    if |tok| > |x| {
      assert (x + z)[|x|] == '$' && tok[|x|] == tok[1..][|x| - 1];
    } else {
      assert (x + z)[..|tok|] == x[..|tok|];
    }
  }

  lemma {:induction false} RemovalSplits(x: string, z: string, tok: string)
    requires tok != "" && Free('$', tok[1..]) && z != "" && z[0] == '$'
    ensures ReplaceAll(x + z, tok, "") == ReplaceAll(x, tok, "") + ReplaceAll(z, tok, "")
    decreases |x|
  {
    if x == "" {
      assert x + z == z;
    } else {
      NoReach(x, z, tok);
      var n := if HasPrefix(x, tok) then |tok| else 1;
      assert (x + z)[n..] == x[n..] + z;
      RemovalSplits(x[n..], z, tok);
    }
  }

  lemma PrefixCases(r: string, y: string, p: string)
    requires HasPrefix(r + y, p)
    ensures HasPrefix(r, p) || (|r| < |p| && HasPrefix(p, r) && y != "")
  {
    if |p| <= |r| {
      assert (r + y)[..|p|] == r[..|p|];
    } else {
      assert p[..|r|] == (r + y)[..|p|][..|r|] == r;
    }
  }

  lemma StuckStays(r: string, y: string, v: Var)
    requires Stuck(r, y == "")
    ensures ReplaceAll(r + y, Token(v), "") == r + ReplaceAll(y, Token(v), "")
  {
    TokenShape(v);
    if HasPrefix(r + y, Token(v)) {
      PrefixCases(r, y, Token(v));
    } else {
      ReplaceSkip(r, y, Token(v), "");
    }
  }

  lemma {:induction false} StuckSurvives(x: string, r: string, y: string, k: nat)
    requires k <= |KNOWN| && Stuck(r, y == "")
    ensures !Free('$', Removals(x + (r + y), k))
    decreases |KNOWN| - k
  {
    if k == |KNOWN| {
      assert (x + (r + y))[|x|] == '$';
    } else {
      TokenShape(KNOWN[k]);
      RemovalSplits(x, r + y, Token(KNOWN[k]));
      StuckStays(r, y, KNOWN[k]);
      StuckSurvives(ReplaceAll(x, Token(KNOWN[k]), ""), r, ReplaceAll(y, Token(KNOWN[k]), ""), k + 1);
    }
  }

  /** The next `$` after position `i`, or the end. */
  ghost function NextDollar(s: string, i: nat): (j: nat)
    requires i < |s|
    ensures i < j <= |s| && Free('$', s[i + 1..j]) && (j < |s| ==> s[j] == '$')
  {
    var k := IndexByte(s[i + 1..], '$');
    IndexByteFirst(s[i + 1..], '$');
    assert k >= 0 ==> s[i + 1..i + 1 + k] == s[i + 1..][..k];
    if k < 0 then |s| else i + 1 + k
  }

  lemma PrefixGrows(a: string, b: string, p: string)
    ensures HasPrefix(a, p) ==> HasPrefix(a + b, p)
  {
    if HasPrefix(a, p) {
      assert (a + b)[..|p|] == a[..|p|];
    }
  }

  /** The text from an unknown `$` up to the next one is out of reach of every removal. */
  lemma UnknownIsStuck(s: string, i: nat, j: nat)
    requires i < |s| && Unknown(s, i) && !CutToken(s) && j == NextDollar(s, i)
    ensures Stuck(s[i..j], j == |s|)
  {
    var r := s[i..j];
    assert s[i..] == r + s[j..] && r[1..] == s[i + 1..j];
    forall v: Var ensures !HasPrefix(r, Token(v)) {
      PrefixGrows(r, s[j..], Token(v));
    }
  }

  lemma UnknownRejected(s: string, i: nat)
    requires i < |s| && Unknown(s, i) && !CutToken(s)
    ensures !Accepted(s)
  {
    var j := NextDollar(s, i);
    UnknownIsStuck(s, i, j);
    assert s[..i] + (s[i..j] + s[j..]) == s;
    StuckSurvives(s[..i], s[i..j], s[j..], 0);
  }

  /** When no unknown `$` is the beginning of a token cut by another `$`, the check accepts exactly the templates of known variables. */
  lemma AcceptedIffKnown(tmpl: string)
    requires !CutToken(tmpl)
    ensures Accepted(tmpl) <==> Clean(tmpl)
  {
    if Clean(tmpl) {
      KnownVariablesAccepted(tmpl);
    } else {
      var i: nat :| i < |tmpl| && tmpl[i] == '$' && forall v: Var :: !HasPrefix(tmpl[i..], Token(v));
      UnknownRejected(tmpl, i);
    }
  }

  lemma RemovalLeaves(b: string, tok: string)
    requires tok != "" && tok[0] == '$' && Free('$', b)
    ensures ReplaceAll(b, tok, "") == b
  {
    SkipFree(b, "", tok, "");
    assert b + "" == b;
  }

  lemma RemovalJoins(a: string, b: string, tok: string)
    requires tok != "" && tok[0] == '$' && a != "" && Free('$', a[1..]) && Free('$', b) && !HasPrefix(a, tok)
    requires Free('$', tok[1..])
    ensures ReplaceAll(a + (tok + b), tok, "") == a + b
  {
    RemovalSplits(a, tok + b, tok);
    ReplaceHead(b, tok, "");
    RemovalLeaves(b, tok);
    ReplaceSkip(a, "", tok, "");
    assert a + "" == a;
    assert "" + b == b;
  }

  /** The first removal that takes something from a text starting with KNOWN[i]: `$Series` comes before its longer forms. */
  function FirstTaken(i: nat): (k: nat)
    requires i < |KNOWN|
    ensures k <= i && HasPrefix(Token(KNOWN[i]), Token(KNOWN[k]))
  {
    var tok := Token(KNOWN[i]);
    assert tok[..|tok|] == tok;
    if KNOWN[i] == SeriesName || KNOWN[i] == SeriesPosition then
      LongerForms();
      3
    else i
  }

  lemma LongerForms()
    ensures KNOWN[3] == Series
    ensures HasPrefix(Token(SeriesName), Token(Series)) && HasPrefix(Token(SeriesPosition), Token(Series))
    ensures forall i :: 0 <= i < |KNOWN| && (KNOWN[i] == SeriesName || KNOWN[i] == SeriesPosition) ==> 3 <= i
  {
  }

  lemma EarlierMisses(t: string, i: nat, k: nat)
    requires i < |KNOWN| && k < FirstTaken(i) && HasPrefix(t, Token(KNOWN[i]))
    ensures !HasPrefix(t, Token(KNOWN[k]))
  {
    if HasPrefix(t, Token(KNOWN[k])) {
      Known(k);
      Known(i);
      if InSeriesGroup(KNOWN[i]) {
        TokenClash(t, KNOWN[k], KNOWN[i]);
      } else {
        TokenClash(t, KNOWN[i], KNOWN[k]);
      }
    }
  }

  /** The known variables in their order. */
  lemma Known(k: nat)
    requires k < |KNOWN|
    ensures k < 3 ==> !InSeriesGroup(KNOWN[k])
    ensures forall m :: 0 <= m < |KNOWN| && KNOWN[m] == KNOWN[k] ==> m == k
    ensures k > 5 ==> !InSeriesGroup(KNOWN[k])
  {
  }

  /** `a` begins a token that is cut by what follows. */
  ghost predicate Begun(a: string) {
    a != "" && a[0] == '$' && Free('$', a[1..]) && forall v: Var :: !HasPrefix(a, Token(v))
  }

  lemma NothingTaken(a: string, z: string, k: nat)
    requires k < |KNOWN| && Begun(a) && z != "" && z[0] == '$' && Free('$', z[1..]) && !HasPrefix(z, Token(KNOWN[k]))
    ensures ReplaceAll(a + z, Token(KNOWN[k]), "") == a + z
  {
    var tok := Token(KNOWN[k]);
    TokenShape(KNOWN[k]);
    RemovalSplits(a, z, tok);
    ReplaceSkip(a, "", tok, "");
    ReplaceSkip(z, "", tok, "");
    assert a + "" == a && z + "" == z;
  }

  lemma {:induction false} NothingTakenBefore(a: string, z: string, i: nat, k: nat)
    requires i < |KNOWN| && k <= FirstTaken(i) && Begun(a)
    requires z != "" && z[0] == '$' && Free('$', z[1..]) && HasPrefix(z, Token(KNOWN[i]))
    ensures Removals(a + z, k) == Removals(a + z, FirstTaken(i))
    decreases FirstTaken(i) - k
  {
    if k < FirstTaken(i) {
      EarlierMisses(z, i, k);
      NothingTaken(a, z, k);
      NothingTakenBefore(a, z, i, k + 1);
    }
  }

  /** A removal in the list takes the only `$` of a text away. */
  lemma OneDollarTaken(u: string, k: nat)
    requires k < |KNOWN| && HasPrefix(u, Token(KNOWN[k])) && Free('$', u[1..])
    ensures Free('$', Removals(u, k))
  {
    var tok := Token(KNOWN[k]);
    TokenShape(KNOWN[k]);
    var rest := u[|tok|..];
    Rejoined(u, tok);
    TailFree(tok[1..], rest);
    ReplaceHead(rest, tok, "");
    RemovalLeaves(rest, tok);
    assert "" + rest == rest;
    NoDollar(rest, k + 1);
  }

  lemma TailFree(a: string, b: string)
    requires Free('$', a + b)
    ensures Free('$', b)
  {
    forall i | 0 <= i < |b| ensures b[i] != '$' {
      assert b[i] == (a + b)[|a| + i];
    }
  }

  lemma OneDollarMissed(u: string, k: nat)
    requires k < |KNOWN| && !HasPrefix(u, Token(KNOWN[k])) && u != "" && Free('$', u[1..])
    ensures Removals(u, k) == Removals(u, k + 1)
  {
    TokenShape(KNOWN[k]);
    assert u + "" == u;
    ReplaceSkip(u, "", Token(KNOWN[k]), "");
  }

  /** A token that is removed as KNOWN[k] or later stands in front. */
  predicate TakenFrom(u: string, k: nat) {
    exists m :: k <= m < |KNOWN| && HasPrefix(u, Token(KNOWN[m]))
  }

  /** A text with one `$` in front loses it exactly when a token that is still to be removed stands there. */
  lemma {:induction false} OneDollar(u: string, k: nat)
    requires k <= |KNOWN| && u != "" && u[0] == '$' && Free('$', u[1..])
    ensures Free('$', Removals(u, k)) <==> TakenFrom(u, k)
    decreases |KNOWN| - k
  {
    if k < |KNOWN| {
      if HasPrefix(u, Token(KNOWN[k])) {
        OneDollarTaken(u, k);
      } else {
        OneDollarMissed(u, k);
        OneDollar(u, k + 1);
      }
    }
  }

  lemma {:induction false} NoDollar(u: string, k: nat)
    requires k <= |KNOWN| && Free('$', u)
    ensures Removals(u, k) == u
    decreases |KNOWN| - k
  {
    if k < |KNOWN| {
      TokenShape(KNOWN[k]);
      RemovalLeaves(u, Token(KNOWN[k]));
      NoDollar(u, k + 1);
    }
  }

  /** What stands behind the beginning `a` once the cutting token is gone. */
  ghost function Left(b: string, i: nat): string
    requires i < |KNOWN|
  {
    Token(KNOWN[i])[|Token(KNOWN[FirstTaken(i)])|..] + b
  }

  lemma PiecesOf(tok: string, first: string, b: string)
    requires tok != "" && Free('$', tok[1..]) && first != "" && HasPrefix(tok, first) && Free('$', b)
    ensures var z := tok + b;
            && z != "" && z[0] == tok[0] && Free('$', z[1..]) && HasPrefix(z, tok)
            && z == first + (tok[|first|..] + b) && Free('$', tok[|first|..] + b)
  {
    assert (tok + b)[1..] == tok[1..] + b;
    assert tok == first + tok[|first|..];
    assert tok[|first|..] == tok[1..][|first| - 1..];
    assert (tok + b)[..|tok|] == tok;
  }

  /** The removals up to the first that takes something join the two sides of the cut. */
  lemma CutIsJoined(a: string, b: string, i: nat)
    requires i < |KNOWN| && Begun(a) && Free('$', b)
    ensures Removals(a + (Token(KNOWN[i]) + b), 0) == Removals(a + Left(b, i), FirstTaken(i) + 1)
    ensures Free('$', Left(b, i))
  {
    var tok, first := Token(KNOWN[i]), Token(KNOWN[FirstTaken(i)]);
    TokenShape(KNOWN[i]);
    TokenShape(KNOWN[FirstTaken(i)]);
    PiecesOf(tok, first, b);
    NothingTakenBefore(a, tok + b, i, 0);
    RemovalJoins(a, Left(b, i), first);
  }

  /**
   * A beginning of a token cut by a known variable: its `$` starts no known variable, and the template is accepted
   * exactly when taking the variable away joins the halves to a token that is removed later.
   */
  lemma CutAcceptedIff(a: string, b: string, i: nat)
    requires i < |KNOWN| && Begun(a) && Free('$', b)
    ensures var t := a + (Token(KNOWN[i]) + b);
            && !Clean(t)
            && (Accepted(t) <==> TakenFrom(a + Left(b, i), FirstTaken(i) + 1))
  {
    CutIsJoined(a, b, i);
    JoinedDollar(a, Left(b, i), FirstTaken(i) + 1);
    TokenShape(KNOWN[i]);
    CutIsUnclean(a, Token(KNOWN[i]) + b);
  }

  lemma JoinedDollar(a: string, left: string, k: nat)
    requires k <= |KNOWN| && Begun(a) && Free('$', left)
    ensures Free('$', Removals(a + left, k)) <==> TakenFrom(a + left, k)
  {
    assert (a + left)[1..] == a[1..] + left;
    OneDollar(a + left, k);
  }

  lemma CutIsUnclean(a: string, z: string)
    requires Begun(a) && z != "" && z[0] == '$'
    ensures !Clean(a + z)
  {
    var t := a + z;
    forall v: Var ensures !HasPrefix(t, Token(v)) {
      TokenShape(v);
      NoReach(a, z, Token(v));
    }
    assert t[0..] == t && t[0] == '$';
  }

  /** A token that another one begins with comes later in the list. */
  lemma PrefixComesFirst(m: nat, j: nat)
    requires m < |KNOWN| && j < |KNOWN| && HasPrefix(Token(KNOWN[j]), Token(KNOWN[m]))
    ensures m <= j
  {
    var t := Token(KNOWN[j]);
    assert t[..|t|] == t;
    Known(m);
    Known(j);
    if !InSeriesGroup(KNOWN[j]) {
      TokenClash(t, KNOWN[j], KNOWN[m]);
    } else if !InSeriesGroup(KNOWN[m]) {
      TokenClash(t, KNOWN[m], KNOWN[j]);
    } else {
      SeriesPrefixes(m, j);
    }
  }

  lemma SeriesPrefixes(m: nat, j: nat)
    requires m < |KNOWN| && j < |KNOWN| && InSeriesGroup(KNOWN[m]) && InSeriesGroup(KNOWN[j])
    requires HasPrefix(Token(KNOWN[j]), Token(KNOWN[m]))
    ensures m <= j
  {
    assert Token(SeriesName)[7] == 'N' && Token(SeriesPosition)[7] == 'P';
    assert Token(KNOWN[j])[..|Token(KNOWN[m])|] == Token(KNOWN[m]);
  }

  /**
   * A token cut in two by another one, other than the longer forms of `$Series`, is accepted exactly when the
   * cutting token is removed first.
   */
  lemma CutTokenAccepted(a: string, b: string, i: nat, j: nat)
    requires i < |KNOWN| && j < |KNOWN| && a + b == Token(KNOWN[j]) && a != ""
    requires KNOWN[i] != SeriesName && KNOWN[i] != SeriesPosition
    requires forall v: Var :: !HasPrefix(a, Token(v))
    ensures !Clean(a + (Token(KNOWN[i]) + b))
    ensures Accepted(a + (Token(KNOWN[i]) + b)) <==> i < j
  {
    var tok := Token(KNOWN[j]);
    TokenShape(KNOWN[j]);
    assert a == tok[..|a|] && b == tok[|a|..] && a[1..] == tok[1..][..|a| - 1] && b == tok[1..][|a| - 1..];
    CutAcceptedIff(a, b, i);
    assert Left(b, i) == b;
    assert tok[..|tok|] == tok;
    if TakenFrom(tok, i + 1) {
      var m :| i + 1 <= m < |KNOWN| && HasPrefix(tok, Token(KNOWN[m]));
      PrefixComesFirst(m, j);
    }
  }
}
