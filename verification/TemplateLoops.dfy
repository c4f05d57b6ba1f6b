/** The two substitution stages as the loops that run them. */
module TemplateLoops {
  import opened Text
  import opened Template

  /** substituteVars: the passes in their order. */
  method ReplaceTokens(text: string, nc: Context) returns (s: string)
    ensures s == SubstituteVars(text, nc)
  {
    s := text;
    for k := 0 to |ORDER|
      invariant Passes(s, k, nc) == SubstituteVars(text, nc)
    {
      s := ReplaceAll(s, Token(ORDER[k]), Value(ORDER[k], nc));
    }
  }

  /** One turn of the loop: the text it writes and how far it moves. */
  method NextPiece(rest: string, nc: Context) returns (text: string, n: nat)
    requires rest != ""
    ensures 0 < n <= |rest| && Conditionals(rest, nc) == text + Conditionals(rest[n..], nc)
  {
    var end := if rest[0] == '{' then IndexByte(rest, '}') else -1;
    if end == -1 {
      text, n := [rest[0]], 1;
    } else if AllVarsPresent(rest[1..end], nc) {
      text := ReplaceTokens(rest[1..end], nc);
      n := end + 1;
    } else {
      text, n := "", end + 1;
    }
  }

  /** processConditionals: one walk over the template with an output buffer. */
  method ProcessConditionals(tmpl: string, nc: Context) returns (buf: string)
    ensures buf == Conditionals(tmpl, nc)
  {
    buf := "";
    var i := 0;
    ghost var tail := tmpl;
    ghost var left := Conditionals(tail, nc);
    while i < |tmpl|
      invariant 0 <= i <= |tmpl|
      invariant tail == tmpl[i..]
      invariant left == Conditionals(tail, nc)
      invariant buf + left == Conditionals(tmpl, nc)
    {
      var text, n := NextPiece(tmpl[i..], nc);
      ghost var rest := Conditionals(tail[n..], nc);
      Regroup(buf, text, rest);
      tail, left := tail[n..], rest;
      buf := buf + text;
      i := i + n;
    }
  }
}
