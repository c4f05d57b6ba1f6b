/** ASCII string operations of Go's `strings` package, as the modelled files use them. */
module Text {

  /** strings.HasPrefix */
  predicate HasPrefix(s: string, p: string) {
    |p| <= |s| && s[..|p|] == p
  }

  /** strings.HasSuffix */
  predicate HasSuffix(s: string, p: string) {
    |p| <= |s| && s[|s| - |p|..] == p
  }

  /** strings.Contains */
  predicate Contains(s: string, p: string) {
    HasPrefix(s, p) || (s != "" && Contains(s[1..], p))
  }

  predicate Free(c: char, s: string) {
    forall i :: 0 <= i < |s| ==> s[i] != c
  }

  /** strings.ReplaceAll for a non-empty token: left to right, without rescanning what was written. */
  function ReplaceAll(s: string, tok: string, val: string): string
    requires tok != ""
    decreases |s|
  {
    if s == "" then ""
    else if HasPrefix(s, tok) then val + ReplaceAll(s[|tok|..], tok, val)
    else [s[0]] + ReplaceAll(s[1..], tok, val)
  }

  /** strings.ToLower, and LOWER in SQLite, on ASCII */
  function Lower(s: string): (r: string)
    ensures |r| == |s|
    ensures forall i :: 0 <= i < |s| ==> r[i] == LowerChar(s[i])
  {
    if s == "" then "" else [LowerChar(s[0])] + Lower(s[1..])
  }

  function LowerChar(c: char): char {
    if 'A' <= c <= 'Z' then (c as int + 32) as char else c
  }

  lemma {:induction false} ContainsAt(s: string, p: string, k: nat)
    requires k <= |s| && HasPrefix(s[k..], p)
    ensures Contains(s, p)
  {
    if k > 0 {
      assert s[1..][k - 1..] == s[k..];
      ContainsAt(s[1..], p, k - 1);
    } else {
      assert s[0..] == s;
    }
  }

  lemma {:induction false} ContainsWitness(s: string, p: string) returns (k: nat)
    requires Contains(s, p)
    ensures k <= |s| && HasPrefix(s[k..], p)
  {
    if HasPrefix(s, p) {
      k := 0;
      assert s[0..] == s;
    } else {
      var j := ContainsWitness(s[1..], p);
      k := j + 1;
      assert s[1..][j..] == s[k..];
    }
  }
}
