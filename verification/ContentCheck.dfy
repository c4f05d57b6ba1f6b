/** Whether the metadata read from a file fits the book that was asked for. */
module ContentCheck {
  import opened Dice

  /** Lower-casing and the letter-or-digit test of the Unicode tables, as parameters. */
  datatype Alphabet = Alphabet(lower: nat -> nat, word: nat -> bool) {
    predicate Keeps(r: nat) {
      word(r) || r == SPACE
    }
  }

  // ---------------------------------------------------------------- normalising

  function Filter(al: Alphabet, s: Text): (r: Text)
    ensures forall i :: 0 <= i < |r| ==> al.Keeps(r[i])
  {
    if s == [] then []
    else
      var c := al.lower(s[|s| - 1]);
      Filter(al, s[..|s| - 1]) + if al.Keeps(c) then [c] else []
  }

  function TrimLeft(s: Text): (r: Text)
    ensures r == [] || r[0] != SPACE
    ensures |r| <= |s| && r == s[|s| - |r|..]
  {
    if s != [] && s[0] == SPACE then TrimLeft(s[1..]) else s
  }

  function TrimRight(s: Text): (r: Text)
    ensures r == [] || r[|r| - 1] != SPACE
    ensures |r| <= |s| && r == s[..|r|]
  {
    if s != [] && s[|s| - 1] == SPACE then TrimRight(s[..|s| - 1]) else s
  }

  predicate Trimmed(s: Text) {
    s != [] ==> s[0] != SPACE && s[|s| - 1] != SPACE
  }

  function Trim(s: Text): (r: Text)
    ensures Trimmed(r)
    ensures forall i :: 0 <= i < |r| ==> r[i] in s
    ensures Trimmed(s) ==> r == s
  {
    TrimRight(TrimLeft(s))
  }

  function Normalised(al: Alphabet, s: Text): Text {
    Trim(Filter(al, s))
  }

  method Normalize(al: Alphabet, s: Text) returns (r: Text)
    ensures r == Normalised(al, s)
  {
    var b: Text := [];
    var i := 0;
    while i < |s|
      invariant 0 <= i <= |s|
      invariant b == Filter(al, s[..i])
    {
      var c := al.lower(s[i]);
      assert s[..i + 1][..i] == s[..i];
      if al.word(c) || c == SPACE {
        b := b + [c];
      }
      i := i + 1;
    }
    assert s[..i] == s;
    r := Trim(b);
  }

  lemma {:induction false} FilterKeepsAll(al: Alphabet, s: Text)
    requires forall i :: 0 <= i < |s| ==> al.lower(s[i]) == s[i] && al.Keeps(s[i])
    ensures Filter(al, s) == s
  {
    if s != [] {
      FilterKeepsAll(al, s[..|s| - 1]);
    }
  }

  lemma {:induction false} FilteredIsLower(al: Alphabet, s: Text)
    requires forall c :: al.lower(al.lower(c)) == al.lower(c)
    ensures forall i :: 0 <= i < |Filter(al, s)| ==> al.lower(Filter(al, s)[i]) == Filter(al, s)[i]
  {
    if s != [] {
      FilteredIsLower(al, s[..|s| - 1]);
    }
  }

  /** A normal form is its own normal form, when lower-casing twice changes nothing. */
  lemma NormalisedTwice(al: Alphabet, s: Text)
    requires forall c :: al.lower(al.lower(c)) == al.lower(c)
    ensures Normalised(al, Normalised(al, s)) == Normalised(al, s)
  {
    FilteredIsLower(al, s);
    var n := Normalised(al, s);
    forall i | 0 <= i < |n| ensures al.lower(n[i]) == n[i] && al.Keeps(n[i]) {
      assert n[i] in Filter(al, s);
    }
    FilterKeepsAll(al, n);
  }

  // ---------------------------------------------------------------- surnames

  function WordLength(s: Text): (n: nat)
    ensures n <= |s|
    ensures forall i :: 0 <= i < n ==> s[i] != SPACE
    ensures n < |s| ==> s[n] == SPACE
  {
    if s == [] || s[0] == SPACE then 0 else 1 + WordLength(s[1..])
  }

  /** The words of a text; no code point but SPACE separates words after normalising. */
  function Fields(s: Text): (r: seq<Text>)
    decreases |s|
  {
    if s == [] then []
    else if s[0] == SPACE then Fields(s[1..])
    else [s[..WordLength(s)]] + Fields(s[WordLength(s)..])
  }

  function Last(words: seq<Text>): Text
    requires words != []
  {
    words[|words| - 1]
  }

  predicate LastNameMatch(al: Alphabet, a: Text, b: Text) {
    var aWords := Fields(Normalised(al, a));
    var bWords := Fields(Normalised(al, b));
    aWords != [] && bWords != [] && Last(aWords) == Last(bWords)
  }

  /** `w` is the last word of `s`: what stands after the last space. */
  predicate EndsWithWord(s: Text, w: Text) {
    && w != []
    && SPACE !in w
    && |w| <= |s|
    && s[|s| - |w|..] == w
    && (|w| == |s| || s[|s| - |w| - 1] == SPACE)
  }

  lemma EndsWithSuffix(s: Text, tail: Text, w: Text)
    requires |tail| <= |s| && s[|s| - |tail|..] == tail
    requires EndsWithWord(tail, w) && tail[0] == SPACE
    ensures EndsWithWord(s, w)
  {
    assert w[0] in w && tail[|tail| - |w|..][0] == w[0];
    assert s[|s| - |w|..] == tail[|tail| - |w|..];
    assert s[|s| - |w| - 1] == tail[|tail| - |w| - 1];
  }

  lemma {:induction false} LastField(s: Text)
    requires s != [] && s[|s| - 1] != SPACE
    ensures Fields(s) != [] && EndsWithWord(s, Last(Fields(s)))
    decreases |s|
  {
    var n := if s[0] == SPACE then 1 else WordLength(s);
    var tail := s[n..];
    var rest := Fields(tail);
    if s[0] == SPACE {
      assert tail != [] && tail[|tail| - 1] == s[|s| - 1];
      LastField(tail);
      assert Fields(s) == rest;
      LeadingSpace(s, tail, Last(rest));
    } else if n == |s| {
      assert rest == [] && s[..n] == s;
      assert Fields(s) == [s];
      assert EndsWithWord(s, s);
    } else {
      assert tail[|tail| - 1] == s[|s| - 1];
      LastField(tail);
      assert Fields(s) == [s[..n]] + rest;
      EndsWithSuffix(s, tail, Last(rest));
    }
  }

  lemma LeadingSpace(s: Text, tail: Text, w: Text)
    requires s != [] && s[0] == SPACE && tail == s[1..] && EndsWithWord(tail, w)
    ensures EndsWithWord(s, w)
  {
    assert s[|s| - |w|..] == tail[|tail| - |w|..];
    assert |w| < |tail| ==> s[|s| - |w| - 1] == tail[|tail| - |w| - 1];
  }

  lemma LettersInside(s: Text, w: Text)
    requires EndsWithWord(s, w)
    ensures forall k :: |s| - |w| <= k < |s| ==> s[k] != SPACE
  {
    forall k | |s| - |w| <= k < |s| ensures s[k] != SPACE {
      assert s[k] == w[k - (|s| - |w|)];
    }
  }

  lemma NotLonger(s: Text, v: Text, w: Text)
    requires EndsWithWord(s, v) && EndsWithWord(s, w)
    ensures |w| <= |v|
  {
    LettersInside(s, w);
  }

  lemma OneLastWord(s: Text, v: Text, w: Text)
    requires EndsWithWord(s, v) && EndsWithWord(s, w)
    ensures v == w
  {
    NotLonger(s, v, w);
    NotLonger(s, w, v);
  }

  lemma LastWordsAgree(x: Text, y: Text)
    requires Trimmed(x) && Trimmed(y)
    ensures Fields(x) != [] && Fields(y) != [] && Last(Fields(x)) == Last(Fields(y)) <==>
            exists w :: EndsWithWord(x, w) && EndsWithWord(y, w)
  {
    if x != [] && y != [] {
      LastField(x);
      LastField(y);
      var v := Last(Fields(x));
      forall w | EndsWithWord(x, w) && EndsWithWord(y, w) ensures w == v == Last(Fields(y)) {
        OneLastWord(x, w, v);
        OneLastWord(y, w, Last(Fields(y)));
      }
    }
  }

  /** Last names match exactly when both normal forms end with one and the same word. */
  lemma SurnamesAgree(al: Alphabet, a: Text, b: Text)
    ensures LastNameMatch(al, a, b) <==>
            exists w :: EndsWithWord(Normalised(al, a), w) && EndsWithWord(Normalised(al, b), w)
  {
    LastWordsAgree(Normalised(al, a), Normalised(al, b));
  }

  // ---------------------------------------------------------------- authors

  /** What one extracted author contributes. */
  function AuthorScore(al: Alphabet, author: Text, expected: Text): real {
    var score := Score(Normalised(al, author), Normalised(al, expected));
    if LastNameMatch(al, author, expected) && score < 0.5 then 0.5 else score
  }

  function Scorer(al: Alphabet, expected: Text): Text -> real {
    author => AuthorScore(al, author, expected)
  }

  /** `best` is the maximum of zero and the scores of the names. */
  ghost predicate IsMax(f: Text -> real, names: seq<Text>, best: real) {
    && best >= 0.0
    && (forall a :: a in names ==> f(a) <= best)
    && (best == 0.0 || exists a :: a in names && f(a) == best)
  }

  ghost predicate IsBest(al: Alphabet, authors: seq<Text>, expected: Text, best: real) {
    IsMax(Scorer(al, expected), authors, best)
  }

  method BestAuthorMatch(al: Alphabet, extracted: seq<Text>, expected: Text) returns (best: real)
    ensures IsBest(al, extracted, expected, best)
  {
    var normalizedExpected := Normalize(al, expected);
    ghost var f := Scorer(al, expected);
    best := 0.0;
    var i := 0;
    while i < |extracted|
      invariant 0 <= i <= |extracted|
      invariant IsMax(f, extracted[..i], best)
    {
      var author := extracted[i];
      var score := ScoreOf(al, author, expected, normalizedExpected);
      ghost var before := best;
      if score > best {
        best := score;
      }
      var raised := Raised(al, author, expected, score);
      if raised > best {
        best := raised;
      }
      assert f(author) == raised;
      NextAuthor(f, extracted, i, before, best);
      i := i + 1;
    }
    assert extracted[..i] == extracted;
  }

  method ScoreOf(al: Alphabet, author: Text, expected: Text, normalizedExpected: Text) returns (score: real)
    requires normalizedExpected == Normalised(al, expected)
    ensures score == Score(Normalised(al, author), Normalised(al, expected))
  {
    var n := Normalize(al, author);
    score := Similarity(n, normalizedExpected);
  }

  /** A matching last name lifts the score to 0.5. */
  method Raised(al: Alphabet, author: Text, expected: Text, score: real) returns (raised: real)
    requires score == Score(Normalised(al, author), Normalised(al, expected))
    ensures raised == AuthorScore(al, author, expected) && raised >= score
  {
    raised := score;
    if LastNameMatch(al, author, expected) {
      if score < 0.5 {
        raised := 0.5;
      }
    }
  }

  lemma NextAuthor(f: Text -> real, names: seq<Text>, i: nat, before: real, best: real)
    requires i < |names| && IsMax(f, names[..i], before)
    requires best == if f(names[i]) > before then f(names[i]) else before
    ensures IsMax(f, names[..i + 1], best)
  {
    assert names[..i + 1] == names[..i] + [names[i]];
    if best > before {
      assert names[i] in names[..i + 1];
    } else if before != 0.0 {
      var a :| a in names[..i] && f(a) == before;
      assert a in names[..i + 1];
    }
  }

  /** The author score is a function of the set of names: order and repetition do not matter. */
  lemma OrderIndependent(al: Alphabet, xs: seq<Text>, ys: seq<Text>, expected: Text, x: real, y: real)
    requires forall a :: a in xs <==> a in ys
    requires IsBest(al, xs, expected, x) && IsBest(al, ys, expected, y)
    ensures x == y
  {
    MoreAuthors(al, xs, ys, expected, x, y);
    MoreAuthors(al, ys, xs, expected, y, x);
  }

  lemma MoreAuthors(al: Alphabet, xs: seq<Text>, ys: seq<Text>, expected: Text, x: real, y: real)
    requires forall a :: a in xs ==> a in ys
    requires IsBest(al, xs, expected, x) && IsBest(al, ys, expected, y)
    ensures x <= y
  {
  }

  lemma BestInRange(al: Alphabet, xs: seq<Text>, expected: Text, x: real)
    requires IsBest(al, xs, expected, x)
    ensures 0.0 <= x <= 1.0
  {
    if x != 0.0 {
      var a :| a in xs && Scorer(al, expected)(a) == x;
      ScoreInRange(Normalised(al, a), Normalised(al, expected));
    }
  }

  lemma {:induction false} BestExists(al: Alphabet, xs: seq<Text>, expected: Text) returns (best: real)
    ensures IsBest(al, xs, expected, best)
  {
    if xs == [] {
      best := 0.0;
    } else {
      var n := |xs| - 1;
      var before := BestExists(al, xs[..n], expected);
      var s := AuthorScore(al, xs[n], expected);
      best := if s > before then s else before;
      NextAuthor(Scorer(al, expected), xs, n, before, best);
      assert xs[..n + 1] == xs;
    }
  }

  // ---------------------------------------------------------------- the verdict

  const MISMATCH_THRESHOLD: real := 0.35

  datatype Metadata = Metadata(title: Text, authors: seq<Text>)

  datatype Extracted = Nothing | Found(meta: Metadata)

  datatype ContentMatch = ContentMatch(titleScore: real, authorScore: real, mismatch: bool)

  function TitleScore(al: Alphabet, title: Text, expected: Text): real {
    if title != [] && expected != [] then Score(Normalised(al, title), Normalised(al, expected)) else 1.0
  }

  /** `x` is the score of a list of authors; without names to compare it is full. */
  ghost predicate IsAuthorScore(al: Alphabet, authors: seq<Text>, expected: Text, x: real) {
    if authors != [] && expected != [] then IsBest(al, authors, expected, x) else x == 1.0
  }

  ghost predicate Judges(al: Alphabet, meta: Extracted, title: Text, author: Text, r: ContentMatch) {
    match meta
    case Nothing => r == ContentMatch(0.0, 0.0, false)
    case Found(m) =>
      && r.titleScore == TitleScore(al, m.title, title)
      && IsAuthorScore(al, m.authors, author, r.authorScore)
      && (r.mismatch <==> r.titleScore < MISMATCH_THRESHOLD && r.authorScore < MISMATCH_THRESHOLD)
  }

  method VerifyContent(al: Alphabet, meta: Extracted, expectedTitle: Text, expectedAuthor: Text)
    returns (r: ContentMatch)
    ensures Judges(al, meta, expectedTitle, expectedAuthor, r)
  {
    if meta.Nothing? {
      return ContentMatch(0.0, 0.0, false);
    }
    var titleScore := 1.0;
    if meta.meta.title != [] && expectedTitle != [] {
      var a := Normalize(al, meta.meta.title);
      var b := Normalize(al, expectedTitle);
      titleScore := Similarity(a, b);
    }
    var authorScore := 1.0;
    if |meta.meta.authors| > 0 && expectedAuthor != [] {
      authorScore := BestAuthorMatch(al, meta.meta.authors, expectedAuthor);
    }
    r := ContentMatch(titleScore, authorScore,
                      titleScore < MISMATCH_THRESHOLD && authorScore < MISMATCH_THRESHOLD);
  }

  /** The verdict is a function of the metadata, whatever order the loops run in. */
  lemma OneVerdict(al: Alphabet, meta: Extracted, title: Text, author: Text, r: ContentMatch, s: ContentMatch)
    requires Judges(al, meta, title, author, r) && Judges(al, meta, title, author, s)
    ensures r == s
  {
    if meta.Found? && meta.meta.authors != [] && author != [] {
      OrderIndependent(al, meta.meta.authors, meta.meta.authors, author, r.authorScore, s.authorScore);
    }
  }

  /**
   * Adding names to the list turns a match into a mismatch exactly in one family of cases: the list was
   * empty, so nothing was compared before, and title and new names both score below the threshold.
   */
  lemma AddingAuthors(al: Alphabet, few: Metadata, many: Metadata, title: Text, author: Text,
                      r: ContentMatch, s: ContentMatch)
    requires few.title == many.title && forall a :: a in few.authors ==> a in many.authors
    requires Judges(al, Found(few), title, author, r) && Judges(al, Found(many), title, author, s)
    ensures !r.mismatch && s.mismatch <==>
            && few.authors == [] && many.authors != [] && author != []
            && TitleScore(al, many.title, title) < MISMATCH_THRESHOLD
            && forall a :: a in many.authors ==> AuthorScore(al, a, author) < MISMATCH_THRESHOLD
  {
    if few.authors != [] && author != [] {
      assert few.authors[0] in many.authors;
      MoreAuthors(al, few.authors, many.authors, author, r.authorScore, s.authorScore);
    }
  }

  /** A file is never called a mismatch when one of its authors has the expected surname. */
  lemma SurnameIsEnough(al: Alphabet, m: Metadata, title: Text, author: Text, name: Text, r: ContentMatch)
    requires Judges(al, Found(m), title, author, r)
    requires name in m.authors && LastNameMatch(al, name, author)
    ensures !r.mismatch && r.authorScore >= 0.5
  {
  }
}
