/** The content check with its constants spelled out. */
module ContentFacts {
  import opened Dice
  import opened ContentCheck

  // ---------------------------------------------------------------- normalising

  lemma {:induction false} FilterJoins(al: Alphabet, a: Text, b: Text)
    ensures Filter(al, a + b) == Filter(al, a) + Filter(al, b)
  {
    if b == [] {
      assert a + b == a;
    } else {
      assert (a + b)[..|a + b| - 1] == a + b[..|b| - 1];
      FilterJoins(al, a, b[..|b| - 1]);
    }
  }

  /** Text by text, a code point is lower-cased and kept if it is a letter, a digit or U+0020 then. */
  lemma FilterOne(al: Alphabet, a: Text, c: nat, b: Text)
    ensures Filter(al, a + ([c] + b)) ==
            Filter(al, a) + (if al.word(al.lower(c)) || al.lower(c) == 32 then [al.lower(c)] + Filter(al, b) else Filter(al, b))
    ensures Filter(al, []) == []
  {
    FilterJoins(al, a, [c] + b);
    FilterJoins(al, [c], b);
    assert [c][..0] == [];
    assert [] + Filter(al, b) == Filter(al, b);
  }

  lemma {:induction false} LeftCut(s: Text, k: nat)
    requires k < |s| - |TrimLeft(s)|
    ensures s[k] == 32
  {
    if k > 0 {
      LeftCut(s[1..], k - 1);
    }
  }

  lemma {:induction false} RightCut(s: Text, k: nat)
    requires |TrimRight(s)| <= k < |s|
    ensures s[k] == 32
  {
    if k < |s| - 1 {
      RightCut(s[..|s| - 1], k);
    }
  }

  /** `left` is the end of `s`, and `right` the beginning of that. */
  lemma Between(s: Text, left: Text, right: Text) returns (i: nat, j: nat)
    requires |right| <= |left| <= |s| && left == s[|s| - |left|..] && right == left[..|right|]
    requires forall k :: 0 <= k < |s| - |left| ==> s[k] == 32
    requires forall k :: |right| <= k < |left| ==> left[k] == 32
    ensures i <= j <= |s| && right == s[i..j]
    ensures (forall k :: 0 <= k < i ==> s[k] == 32) && (forall k :: j <= k < |s| ==> s[k] == 32)
  {
    i := |s| - |left|;
    j := i + |right|;
    assert left[..|right|] == s[i..j];
    forall k | j <= k < |s| ensures s[k] == 32 {
      assert s[k] == left[k - i];
    }
  }

  /** Only spaces at the two ends are cut off, and all of them. */
  lemma TrimSpelled(s: Text, r: Text) returns (i: nat, j: nat)
    requires r == Trim(s)
    ensures i <= j <= |s| && r == s[i..j]
    ensures (forall k :: 0 <= k < i ==> s[k] == 32) && (forall k :: j <= k < |s| ==> s[k] == 32)
    ensures r != [] ==> r[0] != 32 && r[|r| - 1] != 32
  {
    var left := TrimLeft(s);
    forall k | 0 <= k < |s| - |left| ensures s[k] == 32 {
      LeftCut(s, k);
    }
    forall k | |r| <= k < |left| ensures left[k] == 32 {
      RightCut(left, k);
    }
    i, j := Between(s, left, r);
  }

  // ---------------------------------------------------------------- scores and verdict

  /** Both names end with the same word once they are normalised. */
  ghost predicate SameSurname(al: Alphabet, a: Text, b: Text) {
    exists w :: EndsWithWord(Normalised(al, a), w) && EndsWithWord(Normalised(al, b), w)
  }

  /** An author counts as much as the names are alike, and at least half when the surnames are equal. */
  lemma AuthorScoreSpelled(al: Alphabet, author: Text, expected: Text)
    ensures var score, s := Score(Normalised(al, author), Normalised(al, expected)), AuthorScore(al, author, expected);
            && (!SameSurname(al, author, expected) ==> s == score)
            && (SameSurname(al, author, expected) ==> s == if score < 0.5 then 0.5 else score)
  {
    SurnamesAgree(al, author, expected);
  }

  /** `x` is the similarity of two texts in normal form, or full marks when one of them is empty. */
  predicate Compared(al: Alphabet, a: Text, b: Text, x: real) {
    x == if a == [] || b == [] then 1.0 else Score(Normalised(al, a), Normalised(al, b))
  }

  /** A mismatch needs metadata, and both scores below 0.35. */
  lemma MismatchIff(al: Alphabet, meta: Extracted, title: Text, author: Text, r: ContentMatch)
    requires Judges(al, meta, title, author, r)
    ensures r.mismatch <==> meta.Found? && r.titleScore < 0.35 && r.authorScore < 0.35
    ensures meta == Nothing ==> r.titleScore == 0.0 && r.authorScore == 0.0
    ensures meta.Found? ==> Compared(al, meta.meta.title, title, r.titleScore)
    ensures meta.Found? && (meta.meta.authors == [] || author == []) ==> r.authorScore == 1.0
  {
  }

  /** With names to compare, a mismatch is a title below 0.35 and no name that reaches it. */
  lemma NamedMismatchIff(al: Alphabet, m: Metadata, title: Text, author: Text, r: ContentMatch)
    requires Judges(al, Found(m), title, author, r) && m.authors != [] && author != []
    ensures r.mismatch <==>
            && m.title != [] && title != [] && Score(Normalised(al, m.title), Normalised(al, title)) < 0.35
            && forall a :: a in m.authors ==>
                 !SameSurname(al, a, author) && Score(Normalised(al, a), Normalised(al, author)) < 0.35
  {
    forall a | a in m.authors
      ensures Scorer(al, author)(a) < 0.35 <==>
              !SameSurname(al, a, author) && Score(Normalised(al, a), Normalised(al, author)) < 0.35
    {
      AuthorScoreSpelled(al, a, author);
    }
  }
}
