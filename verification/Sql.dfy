/** The LIKE operator of SQLite, as the path queries use it. */
module Sql {
  import opened Text

  /** `%` matches any text, `_` any character, and letters match in either case; there is no escape character. */
  predicate Like(pattern: string, s: string)
    decreases |pattern| + |s|
  {
    if pattern == "" then s == ""
    else if pattern[0] == '%' then Like(pattern[1..], s) || (s != "" && Like(pattern, s[1..]))
    else s != "" && (pattern[0] == '_' || LowerChar(pattern[0]) == LowerChar(s[0])) && Like(pattern[1..], s[1..])
  }

  /** The filter `path LIKE root || '%'`. */
  predicate Under(root: string, path: string) {
    Like(root + "%", path)
  }

  lemma {:induction false} AnythingIsLike(s: string)
    ensures Like("%", s)
    decreases |s|
  {
    var p := "%";
    assert p[1..] == "";
    if s != "" {
      AnythingIsLike(s[1..]);
    }
  }

  /** Every path with the prefix passes the filter, even when the prefix itself contains `%` or `_`. */
  lemma {:induction false} PrefixIsUnder(root: string, path: string)
    requires HasPrefix(path, root)
    ensures Under(root, path)
    decreases |root|
  {
    var pattern := root + "%";
    if root == "" {
      assert pattern == "%";
      AnythingIsLike(path);
    } else {
      assert path[1..][..|root| - 1] == root[1..];
      PrefixIsUnder(root[1..], path[1..]);
      assert pattern[1..] == root[1..] + "%" && path[0] == root[0];
      if root[0] == '%' {
        assert Like(pattern[1..], path[1..]);
        assert Like(pattern, path[1..]) by {
          assert pattern[0] == '%';
        }
      }
    }
  }

  predicate Literal(root: string) {
    forall i :: 0 <= i < |root| ==> root[i] != '%' && root[i] != '_'
  }

  /** For a root without wildcards the filter is the prefix test up to the case of letters. */
  lemma {:induction false} UnderLiteral(root: string, path: string)
    requires Literal(root)
    ensures Under(root, path) <==> |root| <= |path| && Lower(path[..|root|]) == Lower(root)
    decreases |root|
  {
    var pattern := root + "%";
    if root == "" {
      assert pattern == "%";
      AnythingIsLike(path);
    } else {
      assert pattern[0] == root[0] && pattern[1..] == root[1..] + "%";
      if path != "" {
        UnderLiteral(root[1..], path[1..]);
        if |root| <= |path| {
          assert path[..|root|][1..] == path[1..][..|root[1..]|];
          assert path[..|root|][0] == path[0];
          assert Lower(path[..|root|]) == [LowerChar(path[0])] + Lower(path[1..][..|root[1..]|]);
          assert Lower(root) == [LowerChar(root[0])] + Lower(root[1..]);
        }
      }
    }
  }

  // ---------------------------------------------------------------- the pattern characters

  /** The same character, or the same letter in the other case. */
  predicate SameLetter(c: char, d: char) {
    c == d || ('A' <= c <= 'Z' && d as int == c as int + 32) || ('A' <= d <= 'Z' && c as int == d as int + 32)
  }

  lemma LowerIsSame(c: char, d: char)
    ensures LowerChar(c) == LowerChar(d) <==> SameLetter(c, d)
  {
  }

  /** An underscore takes one character, whichever it is; other characters take themselves, in either case. */
  lemma OneCharacter(c: char, rest: string, s: string)
    ensures Like("", s) <==> s == ""
    ensures c != '%' ==>
              (Like([c] + rest, s) <==> s != "" && (c == '_' || SameLetter(c, s[0])) && Like(rest, s[1..]))
  {
    assert ([c] + rest)[1..] == rest;
    if s != "" {
      LowerIsSame(c, s[0]);
    }
  }

  /** The rest of the text from `k` on matches. */
  ghost predicate LikeFrom(pattern: string, s: string, k: nat) {
    k <= |s| && Like(pattern, s[k..])
  }

  /** A percent sign takes any beginning of the text. */
  lemma {:induction false} AnyBeginning(rest: string, s: string)
    ensures Like(['%'] + rest, s) <==> exists k: nat :: LikeFrom(rest, s, k)
    decreases |s|
  {
    assert (['%'] + rest)[1..] == rest && s[0..] == s;
    if Like(rest, s) {
      assert LikeFrom(rest, s, 0);
    }
    if s != "" {
      AnyBeginning(rest, s[1..]);
      if Like(['%'] + rest, s[1..]) {
        var k: nat :| LikeFrom(rest, s[1..], k);
        assert s[1..][k..] == s[k + 1..];
        assert LikeFrom(rest, s, k + 1);
      }
      if k: nat :| LikeFrom(rest, s, k) && k > 0 {
        assert s[1..][k - 1..] == s[k..];
        assert LikeFrom(rest, s[1..], k - 1);
      }
    }
  }
}
