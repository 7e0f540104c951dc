/**
 The part of POSIX extended regular expressions that proxy whitelist lines are made of: ordinary characters, escaped
 dots, anchors, groups and alternation. A pattern with anything else (repetition, brackets, an unescaped dot) is
 outside this part and does not parse here.
 */
module EreSyntax {
  import opened Wrappers

  datatype Ere = Empty | Lit(c: char) | Begin | End | Cat(first: Ere, second: Ere) | Alt(left: Ere, right: Ere)

  datatype Parsed = Parsed(ere: Ere, rest: string)

  /** The characters with a meaning of their own outside a bracket expression. */
  predicate IsSpecial(c: char) {
    || c == '^' || c == '.' || c == '[' || c == '$' || c == '(' || c == ')'
    || c == '|' || c == '*' || c == '+' || c == '?' || c == '{' || c == '\\'
  }

  // ---- Meaning ----

  /** The expression matches host[i..j]. An anchor matches the empty string at its end of the host. */
  ghost predicate Matches(e: Ere, host: string, i: nat, j: nat)
    requires i <= j <= |host|
  {
    match e
    case Empty => i == j
    case Lit(c) => j == i + 1 && host[i] == c
    case Begin => i == j == 0
    case End => i == j == |host|
    case Cat(a, b) => exists k :: i <= k <= j && Matches(a, host, i, k) && Matches(b, host, k, j)
    case Alt(a, b) => Matches(a, host, i, j) || Matches(b, host, i, j)
  }

  /** A search: some part of the host matches. */
  ghost predicate Finds(e: Ere, host: string) {
    exists i, j :: 0 <= i <= j <= |host| && Matches(e, host, i, j)
  }

  lemma MatchesCat(a: Ere, b: Ere, host: string, i: nat, j: nat) returns (k: nat)
    requires i <= j <= |host| && Matches(Cat(a, b), host, i, j)
    ensures i <= k <= j && Matches(a, host, i, k) && Matches(b, host, k, j)
  {
    k :| i <= k <= j && Matches(a, host, i, k) && Matches(b, host, k, j);
  }

  // ---- Parsing from left to right ----

  /** Branches separated by bars; an empty branch matches the empty string. */
  function ParseAlt(s: string): (r: Option<Parsed>)
    ensures r.Some? ==> |r.value.rest| <= |s|
    decreases |s|, 2
  {
    var first := ParseCat(s);
    if first.None? || first.value.rest == "" || first.value.rest[0] != '|' then first
    else
      var others := ParseAlt(first.value.rest[1..]);
      if others.None? then None else Some(Parsed(Alt(first.value.ere, others.value.ere), others.value.rest))
  }

  /** Pieces one after the other, up to the end, a bar or a closing parenthesis. */
  function ParseCat(s: string): (r: Option<Parsed>)
    ensures r.Some? ==> |r.value.rest| <= |s|
    decreases |s|, 1
  {
    if s == "" || s[0] == '|' || s[0] == ')' then Some(Parsed(Empty, s))
    else
      var piece := ParsePiece(s);
      if piece.None? then None
      else
        var others := ParseCat(piece.value.rest);
        if others.None? then None else Some(Parsed(Cat(piece.value.ere, others.value.ere), others.value.rest))
  }

  function ParsePiece(s: string): (r: Option<Parsed>)
    requires s != ""
    ensures r.Some? ==> |r.value.rest| < |s|
    decreases |s|, 0
  {
    if s[0] == '(' then
      var inner := ParseAlt(s[1..]);
      if inner.Some? && inner.value.rest != "" && inner.value.rest[0] == ')' then
        Some(Parsed(inner.value.ere, inner.value.rest[1..]))
      else None
    else if s[0] == '^' then Some(Parsed(Begin, s[1..]))
    else if s[0] == '$' then Some(Parsed(End, s[1..]))
    else if s[0] == '\\' then if |s| > 1 && IsSpecial(s[1]) then Some(Parsed(Lit(s[1]), s[2..])) else None
    else if IsSpecial(s[0]) then None
    else Some(Parsed(Lit(s[0]), s[1..]))
  }

  /** A whole pattern. */
  function Parse(s: string): Option<Ere> {
    var r := ParseAlt(s);
    if r.Some? && r.value.rest == "" then Some(r.value.ere) else None
  }

  // ---- Runs of literal characters ----

  /** The given characters and then e. */
  function Literally(chars: string, e: Ere): Ere {
    if chars == "" then e else Cat(Lit(chars[0]), Literally(chars[1..], e))
  }

  lemma {:induction false} MatchesLiterally(chars: string, e: Ere, host: string, i: nat, j: nat)
    requires i <= j <= |host|
    ensures Matches(Literally(chars, e), host, i, j) <==>
      i + |chars| <= j && host[i..i + |chars|] == chars && Matches(e, host, i + |chars|, j)
  {
    if chars != "" {
      if i < j {
        MatchesLiterally(chars[1..], e, host, i + 1, j);
        assert Matches(Literally(chars, e), host, i, j) <==>
          host[i] == chars[0] && Matches(Literally(chars[1..], e), host, i + 1, j);
        if i + |chars| <= j {
          assert host[i..i + |chars|] == [host[i]] + host[i + 1..i + 1 + |chars[1..]|];
          assert chars == [chars[0]] + chars[1..];
        }
      }
    }
  }
}
