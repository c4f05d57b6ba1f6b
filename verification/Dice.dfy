/**
 * The content check of a downloaded file: bigram similarity of titles and authors.
 *
 * A text is its sequence of code points. Lengths in the score are byte lengths of the UTF-8 form,
 * while bigrams are pairs of code points. Scores are exact rationals.
 */
module Dice {

  type Text = seq<nat>

  const SPACE: nat := 32

  /** Bytes of one code point in UTF-8. */
  function Width(r: nat): nat {
    if r < 0x80 then 1 else if r < 0x800 then 2 else if r < 0x1_0000 then 3 else 4
  }

  function ByteLen(s: Text): nat {
    if s == [] then 0 else ByteLen(s[..|s| - 1]) + Width(s[|s| - 1])
  }

  // ---------------------------------------------------------------- bigrams

  /** The bag of adjacent pairs. */
  function Bigrams(s: Text): multiset<Text> {
    if |s| < 2 then multiset{} else Bigrams(s[..|s| - 1]) + multiset{s[|s| - 2..]}
  }

  ghost predicate Counts(m: map<Text, nat>, bag: multiset<Text>) {
    forall b: Text :: (b in m <==> b in bag) && (b in m ==> m[b] == bag[b])
  }

  lemma NextBigram(s: Text, i: nat)
    requires i + 2 <= |s|
    ensures Bigrams(s[..i + 2]) == Bigrams(s[..i + 1]) + multiset{s[i..i + 2]}
  {
    var t := s[..i + 2];
    assert t[..|t| - 1] == s[..i + 1];
    assert t[|t| - 2..] == s[i..i + 2];
  }

  method CountBigrams(s: Text) returns (m: map<Text, nat>)
    ensures Counts(m, Bigrams(s))
  {
    m := map[];
    var i := 0;
    ghost var bag: multiset<Text> := multiset{};
    while i < |s| - 1
      invariant 0 <= i <= |s| && (i > 0 ==> i < |s|)
      invariant bag == if i < |s| then Bigrams(s[..i + 1]) else multiset{}
      invariant Counts(m, bag)
    {
      var bg := s[i..i + 2];
      NextBigram(s, i);
      bag := bag + multiset{bg};
      m := m[bg := (if bg in m then m[bg] else 0) + 1];
      i := i + 1;
    }
    assert s != [] ==> s[..i + 1] == s;
  }

  lemma {:induction false} BagSize(s: Text)
    ensures |Bigrams(s)| == if s == [] then 0 else |s| - 1
  {
    if |s| >= 2 {
      BagSize(s[..|s| - 1]);
    }
  }

  lemma {:induction false} BytesCoverRunes(s: Text)
    ensures |s| <= ByteLen(s) <= 4 * |s|
  {
    if s != [] {
      BytesCoverRunes(s[..|s| - 1]);
    }
  }

  // ---------------------------------------------------------------- the score

  predicate OccursAt(s: Text, sub: Text, i: nat) {
    i + |sub| <= |s| && s[i..i + |sub|] == sub
  }

  predicate Contains(s: Text, sub: Text) {
    exists i :: 0 <= i <= |s| && OccursAt(s, sub, i)
  }

  function Ratio(n: nat, d: nat): (r: real)
    requires d > 0
  {
    2.0 * n as real / d as real
  }

  function Score(a: Text, b: Text): (r: real) {
    if a == b then 1.0
    else if ByteLen(a) < 2 || ByteLen(b) < 2 then
      if Contains(a, b) || Contains(b, a) then 0.8 else 0.0
    else Ratio(|Bigrams(a) * Bigrams(b)|, ByteLen(a) - 1 + ByteLen(b) - 1)
  }

  lemma PickShared(a: multiset<Text>, b: multiset<Text>, left: multiset<Text>, bg: Text)
    requires left <= a && left[bg] == a[bg]
    ensures |left * b| == |left[bg := 0] * b| + if a[bg] < b[bg] then a[bg] else b[bg]
  {
    var n := if a[bg] < b[bg] then a[bg] else b[bg];
    var rest := left[bg := 0] * b;
    assert left * b == rest[bg := n];
    assert rest[bg] == 0;
  }

  /** The map-counting loop: its counter ends at the size of the bag intersection, in any key order. */
  method Similarity(a: Text, b: Text) returns (score: real)
    ensures score == Score(a, b)
  {
    if a == b {
      return 1.0;
    }
    if ByteLen(a) < 2 || ByteLen(b) < 2 {
      if a == b {
        return 1.0;
      }
      if Contains(a, b) || Contains(b, a) {
        return 0.8;
      }
      return 0.0;
    }
    var aBigrams := CountBigrams(a);
    var bBigrams := CountBigrams(b);
    ghost var bagA, bagB := Bigrams(a), Bigrams(b);
    var intersection := 0;
    var keys := aBigrams.Keys;
    ghost var left := bagA;
    assert left * bagB == bagA * bagB;
    while keys != {}
      invariant keys <= aBigrams.Keys && left <= bagA
      invariant forall bg: Text :: left[bg] == if bg in keys then bagA[bg] else 0
      invariant intersection + |left * bagB| == |bagA * bagB|
      decreases |keys|
    {
      var bg :| bg in keys;
      PickShared(bagA, bagB, left, bg);
      if bg in bBigrams {
        var count := bBigrams[bg];
        if aBigrams[bg] < count {
          intersection := intersection + aBigrams[bg];
        } else {
          intersection := intersection + count;
        }
      }
      left := left[bg := 0];
      keys := keys - {bg};
    }
    assert left == multiset{};
    assert |left * bagB| == 0;
    score := Ratio(intersection, ByteLen(a) - 1 + ByteLen(b) - 1);
  }

  lemma SharedBound(a: multiset<Text>, b: multiset<Text>)
    ensures |a * b| <= |a| && |a * b| <= |b|
    ensures |a * b| == |a| ==> a <= b
    ensures |a * b| == |b| ==> b <= a
  {
    assert a == a * b + (a - b);
    assert b == a * b + (b - a);
    assert |a - b| == 0 ==> a - b == multiset{};
    assert |b - a| == 0 ==> b - a == multiset{};
  }

  lemma RatioRange(n: nat, d: nat)
    requires d > 0
    ensures 0.0 <= Ratio(n, d)
    ensures Ratio(n, d) <= 1.0 <==> 2 * n <= d
    ensures Ratio(n, d) == 1.0 <==> 2 * n == d
    ensures Ratio(n, d) == 0.0 <==> n == 0
  {
    var q := Ratio(n, d);
    assert q * d as real == 2.0 * n as real;
    assert d as real > 0.0;
    Sign(q, d as real);
    Sign(1.0 - q, d as real);
    assert (1.0 - q) * d as real == d as real - 2.0 * n as real;
  }

  lemma Sign(x: real, d: real)
    requires d > 0.0
    ensures x * d >= 0.0 <==> x >= 0.0
    ensures x * d == 0.0 <==> x == 0.0
  {
    if x > 0.0 {
      assert x * d > 0.0;
    } else if x < 0.0 {
      assert (-x) * d > 0.0;
      assert x * d == -((-x) * d);
    }
  }

  /** The score does not depend on the order of its arguments. */
  lemma ScoreSymmetric(a: Text, b: Text)
    ensures Score(a, b) == Score(b, a)
  {
    assert Bigrams(a) * Bigrams(b) == Bigrams(b) * Bigrams(a);
  }

  /** The score is a proportion, although its denominator counts bytes and its numerator code points. */
  lemma ScoreInRange(a: Text, b: Text)
    ensures 0.0 <= Score(a, b) <= 1.0
  {
    if a != b && ByteLen(a) >= 2 && ByteLen(b) >= 2 {
      SharedBound(Bigrams(a), Bigrams(b));
      BagSize(a);
      BagSize(b);
      BytesCoverRunes(a);
      BytesCoverRunes(b);
      RatioRange(|Bigrams(a) * Bigrams(b)|, ByteLen(a) - 1 + ByteLen(b) - 1);
    }
  }

  /** A text without code points of two or more bytes. */
  predicate Ascii(s: Text) {
    ByteLen(s) == |s|
  }

  lemma {:induction false} AsciiMeans(s: Text)
    ensures Ascii(s) <==> forall i :: 0 <= i < |s| ==> s[i] < 0x80
  {
    if s != [] {
      var t := s[..|s| - 1];
      AsciiMeans(t);
      BytesCoverRunes(t);
      assert forall i :: 0 <= i < |t| ==> t[i] == s[i];
    }
  }

  /** Full marks go to equal texts and to ASCII texts with the same bag of pairs, and to no others. */
  lemma FullScore(a: Text, b: Text)
    ensures Score(a, b) == 1.0 <==>
            a == b || (|a| >= 2 && |b| >= 2 && Ascii(a) && Ascii(b) && Bigrams(a) == Bigrams(b))
  {
    BytesCoverRunes(a);
    BytesCoverRunes(b);
    if a != b && ByteLen(a) >= 2 && ByteLen(b) >= 2 {
      var shared := |Bigrams(a) * Bigrams(b)|;
      SharedBound(Bigrams(a), Bigrams(b));
      BagSize(a);
      BagSize(b);
      RatioRange(shared, ByteLen(a) - 1 + ByteLen(b) - 1);
      if Bigrams(a) == Bigrams(b) {
        assert Bigrams(a) * Bigrams(b) == Bigrams(a);
      }
      if Score(a, b) == 1.0 {
        assert shared == |a| - 1 == |b| - 1;
        assert Bigrams(a) <= Bigrams(b) && Bigrams(b) <= Bigrams(a);
      }
    }
  }

  /** A score of zero: the texts share no pair, or one is under two bytes and neither contains the other. */
  lemma ZeroScore(a: Text, b: Text)
    ensures Score(a, b) == 0.0 <==>
            && a != b
            && (if ByteLen(a) < 2 || ByteLen(b) < 2 then !Contains(a, b) && !Contains(b, a)
                else Bigrams(a) !! Bigrams(b))
  {
    if a != b && ByteLen(a) >= 2 && ByteLen(b) >= 2 {
      NothingShared(Bigrams(a), Bigrams(b), ByteLen(a) - 1 + ByteLen(b) - 1);
    }
  }

  lemma NothingShared(a: multiset<Text>, b: multiset<Text>, d: nat)
    requires d > 0
    ensures Ratio(|a * b|, d) == 0.0 <==> a !! b
  {
    RatioRange(|a * b|, d);
    if |a * b| == 0 {
      assert a * b == multiset{};
      forall bg | bg in a ensures bg !in b {
        assert bg !in a * b;
      }
    } else {
      var bg :| bg in a * b;
      assert bg in a && bg in b;
    }
  }

  // ---------------------------------------------------------------- the score from the texts alone

  lemma LongScore(a: Text, b: Text)
    requires a != b && ByteLen(a) >= 2 && ByteLen(b) >= 2
    ensures Score(a, b) == Ratio(|Bigrams(a) * Bigrams(b)|, ByteLen(a) - 1 + ByteLen(b) - 1)
  {
  }

  lemma RatioTimes(q: real, n: nat, d: nat)
    requires d > 0 && q == Ratio(n, d)
    ensures q * d as real == 2.0 * n as real
  {
  }

  /** The score of unequal texts of two bytes or more, times the pair slots, is twice the number of shared pairs. */
  lemma ScoreTimesSlots(a: Text, b: Text, q: real, d: nat)
    requires a != b && ByteLen(a) >= 2 && ByteLen(b) >= 2
    requires q == Score(a, b) && d == ByteLen(a) - 1 + ByteLen(b) - 1
    ensures q * d as real == 2.0 * |Bigrams(a) * Bigrams(b)| as real
  {
    LongScore(a, b);
    RatioTimes(q, |Bigrams(a) * Bigrams(b)|, d);
  }

  /** The score of unequal texts one of which is under two bytes. */
  lemma ShortScore(a: Text, b: Text)
    requires a != b && (ByteLen(a) < 2 || ByteLen(b) < 2)
    ensures Score(a, b) == if Contains(a, b) || Contains(b, a) then 0.8 else 0.0
  {
  }

  lemma ContainsAround(before: Text, sub: Text, after: Text)
    ensures Contains(before + (sub + after), sub)
  {
    var s := before + (sub + after);
    assert s[|before|..|before| + |sub|] == sub;
    assert OccursAt(s, sub, |before|);
  }

  /** A text contains another exactly when it is that one with something before and something behind it. */
  lemma ContainsIff(s: Text, sub: Text)
    ensures Contains(s, sub) <==> exists before: Text, after: Text :: s == before + (sub + after)
  {
    if Contains(s, sub) {
      var i :| 0 <= i <= |s| && OccursAt(s, sub, i);
      assert s == s[..i] + (sub + s[i + |sub|..]);
    }
    if before: Text, after: Text :| s == before + (sub + after) {
      ContainsAround(before, sub, after);
    }
  }

  predicate PairAt(s: Text, pair: Text, i: nat) {
    i + 2 <= |s| && pair == [s[i], s[i + 1]]
  }

  /** The places of a pair in a text. */
  ghost function Places(s: Text, pair: Text): set<nat> {
    set i: nat | i < |s| && PairAt(s, pair, i)
  }

  lemma NextPlaces(s: Text, pair: Text)
    requires |s| >= 2
    ensures |Places(s, pair)| == |Places(s[..|s| - 1], pair)| + if s[|s| - 2..] == pair then 1 else 0
  {
    var t := s[..|s| - 1];
    var last := |s| - 2;
    assert s[last..] == [s[last], s[last + 1]];
    forall i: nat | i < last ensures PairAt(s, pair, i) <==> PairAt(t, pair, i) {}
    assert Places(s, pair) == Places(t, pair) + if s[last..] == pair then {last} else {};
    assert last !in Places(t, pair);
  }

  lemma NextCount(s: Text, pair: Text)
    requires |s| >= 2
    ensures Bigrams(s)[pair] == Bigrams(s[..|s| - 1])[pair] + if s[|s| - 2..] == pair then 1 else 0
  {
  }

  /** The bag counts a pair as often as the text has it at two neighbouring places. */
  lemma {:induction false} BigramCount(s: Text, pair: Text)
    ensures Bigrams(s)[pair] == |Places(s, pair)|
  {
    if |s| >= 2 {
      BigramCount(s[..|s| - 1], pair);
      NextPlaces(s, pair);
      NextCount(s, pair);
    } else {
      assert Places(s, pair) == {};
    }
  }

  /** The places whose code point is at least `bound`. */
  ghost function AtLeast(s: Text, bound: nat): set<int> {
    set i | 0 <= i < |s| && s[i] >= bound
  }

  /** UTF-8: one byte for every code point, and one more from each of U+0080, U+0800 and U+10000 on. */
  lemma {:induction false} ByteCount(s: Text)
    ensures ByteLen(s) == |s| + |AtLeast(s, 128)| + |AtLeast(s, 2048)| + |AtLeast(s, 65536)|
  {
    if s == [] {
      assert AtLeast(s, 128) == AtLeast(s, 2048) == AtLeast(s, 65536) == {};
    } else {
      ByteCount(s[..|s| - 1]);
      NextAtLeast(s, 128);
      NextAtLeast(s, 2048);
      NextAtLeast(s, 65536);
    }
  }

  lemma NextAtLeast(s: Text, bound: nat)
    requires s != []
    ensures |AtLeast(s, bound)| == |AtLeast(s[..|s| - 1], bound)| + if s[|s| - 1] >= bound then 1 else 0
  {
    var last := |s| - 1;
    var t := s[..last];
    assert AtLeast(s, bound) == AtLeast(t, bound) + if s[last] >= bound then {last} else {};
    assert last !in AtLeast(t, bound);
  }
}
