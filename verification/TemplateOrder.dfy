/** The order in which the template check removes the tokens, shown by texts in which one token cuts another. */
module TemplateOrder {
  import opened Text
  import opened Template
  import opened TemplateCheck

  lemma ShortIsNoToken(a: string)
    requires |a| == 2
    ensures forall v: Var :: !HasPrefix(a, Token(v))
  {
  }

  /** A token cut behind its second character is accepted exactly when the cutting one is removed first. */
  lemma CutShows(i: nat, j: nat, knife: string, front: string, back: string)
    requires i < |KNOWN| && j < |KNOWN| && KNOWN[i] != SeriesName && KNOWN[i] != SeriesPosition
    requires knife == Token(KNOWN[i]) && front + back == Token(KNOWN[j]) && |front| == 2
    ensures Accepted(front + (knife + back)) <==> i < j
  {
    ShortIsNoToken(front);
    CutTokenAccepted(front, back, i, j);
  }

  lemma AuthorFirst()
    ensures Accepted("$S" + ("$Author" + "ortAuthor"))
  {
    assert "$S" + "ortAuthor" == "$SortAuthor";
    CutShows(0, 1, "$Author", "$S", "ortAuthor");
  }

  lemma SortAuthorBeforeTitle()
    ensures Accepted("$T" + ("$SortAuthor" + "itle"))
  {
    assert "$T" + "itle" == "$Title";
    CutShows(1, 2, "$SortAuthor", "$T", "itle");
  }

  lemma TitleBeforeSeries()
    ensures Accepted("$S" + ("$Title" + "eries"))
  {
    assert "$S" + "eries" == "$Series";
    CutShows(2, 3, "$Title", "$S", "eries");
  }

  lemma SeriesBeforeSeriesName()
    ensures Accepted("$S" + ("$Series" + "eriesName"))
  {
    assert "$S" + "eriesName" == "$SeriesName";
    CutShows(3, 4, "$Series", "$S", "eriesName");
  }

  lemma SeriesBeforeSeriesPosition()
    ensures Accepted("$S" + ("$Series" + "eriesPosition"))
  {
    assert "$S" + "eriesPosition" == "$SeriesPosition";
    CutShows(3, 5, "$Series", "$S", "eriesPosition");
  }

  lemma YearAfterSeriesName()
    ensures !Accepted("$S" + ("$Year" + "eriesName"))
  {
    assert "$S" + "eriesName" == "$SeriesName";
    CutShows(6, 4, "$Year", "$S", "eriesName");
  }

  lemma YearAfterSeriesPosition()
    ensures !Accepted("$S" + ("$Year" + "eriesPosition"))
  {
    assert "$S" + "eriesPosition" == "$SeriesPosition";
    CutShows(6, 5, "$Year", "$S", "eriesPosition");
  }

  lemma YearBeforeFormat()
    ensures Accepted("$F" + ("$Year" + "ormat"))
  {
    assert "$F" + "ormat" == "$Format";
    CutShows(6, 7, "$Year", "$F", "ormat");
  }

  lemma FormatBeforeQuality()
    ensures Accepted("$Q" + ("$Format" + "uality"))
  {
    assert "$Q" + "uality" == "$Quality";
    CutShows(7, 8, "$Format", "$Q", "uality");
  }

  lemma QualityBeforeOriginalName()
    ensures Accepted("$O" + ("$Quality" + "riginalName"))
  {
    assert "$O" + "riginalName" == "$OriginalName";
    CutShows(8, 9, "$Quality", "$O", "riginalName");
  }
}
