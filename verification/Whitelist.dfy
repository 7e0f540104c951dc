/**
 From domain lists to the proxy whitelist (cc-deck/internal/network/domains.go:93-113 and 160-235,
 cc-deck/internal/compose/proxy.go:38-57): entries covered by a wildcard are dropped, every other entry becomes one
 line, an extended regular expression that the proxy searches for in the host.
 */
module Whitelist {
  import opened Wrappers
  import opened EreSyntax
  import D = DomainGroups

  predicate IsWildcard(d: string) {
    d != "" && d[0] == '.'
  }

  predicate HasSuffix(s: string, suffix: string) {
    |suffix| <= |s| && s[|s| - |suffix|..] == suffix
  }

  predicate Covers(wc: string, d: string) {
    IsWildcard(wc) && (d == wc[1..] || HasSuffix(d, wc))
  }

  predicate Covered(d: string, wildcards: set<string>) {
    exists wc :: wc in wildcards && Covers(wc, d)
  }

  function WildcardsOf(ds: seq<string>): set<string> {
    set d | d in ds && IsWildcard(d)
  }

  // ---- Reduction ----

  /** The first occurrences of the entries that the wildcards leave, in the order of the list. */
  function Kept(ds: seq<string>, wildcards: set<string>): seq<string> {
    if ds == [] then []
    else
      var n := |ds| - 1;
      var d := ds[n];
      Kept(ds[..n], wildcards) +
      (if d in ds[..n] || (!IsWildcard(d) && Covered(d, wildcards)) then [] else [d])
  }

  function Reduced(ds: seq<string>): seq<string> {
    Kept(ds, WildcardsOf(ds))
  }

  method WildcardDedup(domains: seq<string>) returns (result: seq<string>)
    ensures result == Reduced(domains)
  {
    result := [];
    if |domains| == 0 {
      return;
    }
    var wildcards: set<string> := {};
    for i := 0 to |domains|
      invariant wildcards == WildcardsOf(domains[..i])
    {
      if IsWildcard(domains[i]) {
        wildcards := wildcards + {domains[i]};
      }
    }
    assert domains[..|domains|] == domains;
    if |wildcards| == 0 {
      result := DedupStrings(domains);
      return;
    }
    var seen: set<string> := {};
    for i := 0 to |domains|
      invariant forall d :: d in seen <==> d in domains[..i]
      invariant result == Kept(domains[..i], wildcards)
    {
      var d := domains[i];
      KeptNext(domains, i, wildcards);
      if d in seen {
        continue;
      }
      seen := seen + {d};
      if IsWildcard(d) {
        result := result + [d];
        continue;
      }
      var covered := IsCoveredByWildcard(d, wildcards);
      if !covered {
        result := result + [d];
      }
    }
  }

  method IsCoveredByWildcard(domain: string, wildcards: set<string>) returns (covered: bool)
    requires forall wc :: wc in wildcards ==> IsWildcard(wc)
    ensures covered <==> Covered(domain, wildcards)
  {
    var rest := wildcards;
    while rest != {}
      invariant rest <= wildcards
      invariant forall wc :: wc in wildcards && Covers(wc, domain) ==> wc in rest
    {
      var suffix :| suffix in rest;
      if domain == suffix[1..] || HasSuffix(domain, suffix) {
        return true;
      }
      rest := rest - {suffix};
    }
    return false;
  }

  method DedupStrings(ss: seq<string>) returns (result: seq<string>)
    ensures result == Kept(ss, {})
  {
    var seen: set<string> := {};
    result := [];
    for i := 0 to |ss|
      invariant forall d :: d in seen <==> d in ss[..i]
      invariant result == Kept(ss[..i], {})
    {
      KeptNext(ss, i, {});
      if ss[i] !in seen {
        seen := seen + {ss[i]};
        result := result + [ss[i]];
      }
    }
    assert ss[..|ss|] == ss;
  }

  lemma KeptNext(ds: seq<string>, i: nat, wildcards: set<string>)
    requires i < |ds|
    ensures Kept(ds[..i + 1], wildcards) ==
      Kept(ds[..i], wildcards) +
      if ds[i] in ds[..i] || (!IsWildcard(ds[i]) && Covered(ds[i], wildcards)) then [] else [ds[i]]
    ensures forall d :: d in ds[..i + 1] <==> d in ds[..i] || d == ds[i]
  {
    assert ds[..i + 1] == ds[..i] + [ds[i]] && ds[..i + 1][..i] == ds[..i];
  }

  lemma {:induction false} KeptMembers(ds: seq<string>, wildcards: set<string>, d: string)
    ensures d in Kept(ds, wildcards) <==> d in ds && (IsWildcard(d) || !Covered(d, wildcards))
  {
    if ds != [] {
      KeptMembers(ds[..|ds| - 1], wildcards, d);
      assert ds == ds[..|ds| - 1] + [ds[|ds| - 1]];
    }
  }

  /** The position at which an entry first occurs. */
  function FirstAt(ds: seq<string>, d: string): (i: nat)
    requires d in ds
    ensures i < |ds| && ds[i] == d && d !in ds[..i]
  {
    if ds[0] == d then 0 else 1 + FirstAt(ds[1..], d)
  }

  /** The kept entries stand in the order in which they first occur, so none is repeated. */
  lemma {:induction false} KeptInOrder(ds: seq<string>, wildcards: set<string>, i: nat, j: nat)
    requires i < j < |Kept(ds, wildcards)|
    ensures Kept(ds, wildcards)[i] in ds && Kept(ds, wildcards)[j] in ds
    ensures FirstAt(ds, Kept(ds, wildcards)[i]) < FirstAt(ds, Kept(ds, wildcards)[j])
  {
    var n := |ds| - 1;
    var before := Kept(ds[..n], wildcards);
    assert ds == ds[..n] + [ds[n]];
    KeptMembers(ds, wildcards, Kept(ds, wildcards)[i]);
    KeptMembers(ds, wildcards, Kept(ds, wildcards)[j]);
    KeptMembers(ds[..n], wildcards, before[i]);
    FirstInPrefix(ds, n, before[i]);
    if j < |before| {
      KeptInOrder(ds[..n], wildcards, i, j);
      FirstInPrefix(ds, n, before[j]);
    }
  }

  lemma {:induction false} FirstInPrefix(ds: seq<string>, n: nat, d: string)
    requires n <= |ds| && d in ds[..n]
    ensures d in ds && FirstAt(ds, d) == FirstAt(ds[..n], d)
  {
    if ds[0] != d {
      assert ds[..n][1..] == ds[1..][..n - 1];
      FirstInPrefix(ds[1..], n - 1, d);
    }
  }

  // ---- Whitelist lines ----

  function TrimDot(d: string): string {
    if IsWildcard(d) then d[1..] else d
  }

  function Escaped(c: char): string {
    if c == '.' then "\\." else [c]
  }

  function EscapeDots(s: string): string {
    if s == "" then "" else Escaped(s[0]) + EscapeDots(s[1..])
  }

  function ToRegexPattern(d: string): string {
    "(^|\\.)" + EscapeDots(TrimDot(d)) + "$"
  }

  function Terminated(line: string): string {
    line + "\n"
  }

  /** The whitelist file: one line for each entry. */
  function WhitelistText(ds: seq<string>): string {
    if ds == [] then "" else Terminated(ToRegexPattern(ds[0])) + WhitelistText(ds[1..])
  }

  function Join(lines: seq<string>): string {
    if lines == [] then "" else if |lines| == 1 then lines[0] else lines[0] + "\n" + Join(lines[1..])
  }

  method GenerateWhitelist(domains: seq<string>) returns (text: string)
    ensures text == WhitelistText(domains)
  {
    if |domains| == 0 {
      return "";
    }
    var lines: seq<string> := [];
    for i := 0 to |domains|
      invariant |lines| == i && forall k :: 0 <= k < i ==> lines[k] == ToRegexPattern(domains[k])
    {
      lines := lines + [ToRegexPattern(domains[i])];
    }
    JoinIsText(lines, domains);
    return Join(lines) + "\n";
  }

  lemma {:induction false} JoinIsText(lines: seq<string>, ds: seq<string>)
    requires |lines| == |ds| > 0 && forall k :: 0 <= k < |ds| ==> lines[k] == ToRegexPattern(ds[k])
    ensures Join(lines) + "\n" == WhitelistText(ds)
  {
    if |ds| > 1 {
      JoinIsText(lines[1..], ds[1..]);
      assert Join(lines) + "\n" == lines[0] + "\n" + (Join(lines[1..]) + "\n");
    } else {
      assert WhitelistText(ds[1..]) == "";
    }
  }

  // ---- What the proxy admits ----

  /** The lines of a text, without their line ends. */
  function Lines(text: string): seq<string> {
    if text == "" then [] else Front(text[0], Lines(text[1..]))
  }

  /** One more character before the text of these lines. */
  function Front(c: char, lines: seq<string>): seq<string> {
    if c == '\n' then [""] + lines else if lines == [] then [[c]] else [[c] + lines[0]] + lines[1..]
  }

  lemma FrontAppend(c: char, a: seq<string>, b: seq<string>)
    requires c == '\n' || a != []
    ensures Front(c, a + b) == Front(c, a) + b
  {
    if c != '\n' {
      assert (a + b)[1..] == a[1..] + b;
    }
  }

  /** Blanks, line ends and comment signs mean something to the reader of the file before any expression is seen. */
  predicate IsFileSyntax(c: char) {
    c == ' ' || c == '\t' || c == '\r' || c == '\n' || c == '#'
  }

  predicate IsPlainChar(c: char) {
    !IsSpecial(c) && !IsFileSyntax(c)
  }

  /** A domain as people write them: dots, and characters that mean themselves. */
  predicate IsPlain(d: string) {
    forall c :: c in d ==> c == '.' || IsPlainChar(c)
  }

  /**
   Whether the line admits the host. Lines outside the part of the syntax that EreSyntax describes are left to an
   arbitrary function: nothing proved below depends on what the proxy does with them.
   */
  ghost predicate LineAdmits(other: (string, string) -> bool, line: string, host: string) {
    if (exists c :: c in line && IsFileSyntax(c)) || Parse(line).None? then other(line, host)
    else line != "" && Finds(Parse(line).value, host)
  }

  ghost predicate TextAdmits(other: (string, string) -> bool, text: string, host: string) {
    exists line :: line in Lines(text) && LineAdmits(other, line, host)
  }

  ghost predicate EntryAdmits(other: (string, string) -> bool, d: string, host: string) {
    TextAdmits(other, Terminated(ToRegexPattern(d)), host)
  }

  /** The whitelist admits exactly the hosts that one of its entries admits. */
  lemma {:induction false} WhitelistAdmits(other: (string, string) -> bool, ds: seq<string>, host: string)
    ensures TextAdmits(other, WhitelistText(ds), host) <==> exists d :: d in ds && EntryAdmits(other, d, host)
  {
    if ds != [] {
      WhitelistAdmits(other, ds[1..], host);
      TextSplit(other, ToRegexPattern(ds[0]), WhitelistText(ds[1..]), host);
      assert WhitelistText(ds) == Terminated(ToRegexPattern(ds[0])) + WhitelistText(ds[1..]);
      if EntryAdmits(other, ds[0], host) {
        assert ds[0] in ds;
      }
    }
  }

  lemma TextSplit(other: (string, string) -> bool, a: string, b: string, host: string)
    ensures TextAdmits(other, Terminated(a) + b, host) <==>
      TextAdmits(other, Terminated(a), host) || TextAdmits(other, b, host)
  {
    LinesSplit(a, b);
    var all := Lines(Terminated(a) + b);
    forall line ensures line in all <==> line in Lines(Terminated(a)) || line in Lines(b) {
    }
  }

  lemma {:induction false} LinesSplit(a: string, b: string)
    ensures Lines(Terminated(a) + b) == Lines(Terminated(a)) + Lines(b)
    ensures Lines(Terminated(a)) != []
  {
    TerminatedCons(a, b);
    if a == "" {
      LinesCons('\n', b);
      LinesCons('\n', "");
      FrontAppend('\n', [], Lines(b));
    } else {
      LinesSplit(a[1..], b);
      FrontAppend(a[0], Lines(Terminated(a[1..])), Lines(b));
      LinesCons(a[0], Terminated(a[1..]) + b);
      LinesCons(a[0], Terminated(a[1..]));
    }
  }

  lemma TerminatedCons(a: string, b: string)
    ensures a == "" ==> Terminated(a) == ['\n'] + "" && Terminated(a) + b == ['\n'] + b
    ensures a != "" ==>
      Terminated(a) == [a[0]] + Terminated(a[1..]) && Terminated(a) + b == [a[0]] + (Terminated(a[1..]) + b)
  {
  }

  lemma {:induction false} OneLineText(a: string)
    requires '\n' !in a
    ensures Lines(Terminated(a)) == [a]
  {
    TerminatedCons(a, "");
    if a == "" {
      LinesCons('\n', "");
    } else {
      OneLineText(a[1..]);
      LinesCons(a[0], Terminated(a[1..]));
      assert [a[0]] + a[1..] == a;
    }
  }

  lemma LinesCons(c: char, s: string)
    ensures Lines([c] + s) == Front(c, Lines(s))
  {
    assert ([c] + s)[1..] == s;
  }

  // ---- What one line admits ----

  /** The start of the host, or a dot. */
  const LEAD := Alt(Cat(Begin, Empty), Cat(Lit('.'), Empty))

  lemma ParseLead(s: string)
    ensures var others := ParseCat(s);
      ParseCat("(^|\\.)" + s) ==
      if others.None? then None else Some(Parsed(Cat(LEAD, others.value.ere), others.value.rest))
  {
    var t := "^|\\.)" + s;
    ParseGroup(s);
    assert "(^|\\.)" + s == "(" + t;
    assert ("(" + t)[1..] == t && (")" + s)[1..] == s;
    assert ParsePiece("(" + t) == Some(Parsed(LEAD, s));
  }

  lemma ParseGroup(s: string)
    ensures ParseAlt("^|\\.)" + s) == Some(Parsed(LEAD, ")" + s))
  {
    var t2 := "\\." + (")" + s);
    var t1 := "|" + t2;
    var t0 := "^" + t1;
    assert t0 == "^|\\.)" + s;
    assert t0[1..] == t1 && t1[1..] == t2;
    assert ParsePiece(t0) == Some(Parsed(Begin, t1));
    assert ParseCat(t1) == Some(Parsed(Empty, t1));
    assert ParseCat(t0) == Some(Parsed(Cat(Begin, Empty), t1));
    ParseOne('.', ")" + s);
    assert ParseAlt(t2) == ParseCat(t2);
  }

  lemma {:induction false} ParseEscaped(p: string, tail: string)
    requires forall c :: c in p ==> c == '.' || !IsSpecial(c)
    ensures var others := ParseCat(tail);
      ParseCat(EscapeDots(p) + tail) ==
      if others.None? then None else Some(Parsed(Literally(p, others.value.ere), others.value.rest))
  {
    if p == "" {
      assert EscapeDots(p) + tail == tail;
    } else {
      ParseEscaped(p[1..], tail);
      ParseOne(p[0], EscapeDots(p[1..]) + tail);
      AppendAssociative(Escaped(p[0]), EscapeDots(p[1..]), tail);
    }
  }

  lemma AppendAssociative(a: string, b: string, c: string)
    ensures a + b + c == a + (b + c)
  {
  }

  lemma ParseOne(c: char, s: string)
    requires c == '.' || !IsSpecial(c)
    ensures var others := ParseCat(s);
      ParseCat(Escaped(c) + s) ==
      if others.None? then None else Some(Parsed(Cat(Lit(c), others.value.ere), others.value.rest))
  {
    var t := Escaped(c) + s;
    assert t[|Escaped(c)|..] == s;
    assert ParsePiece(t) == Some(Parsed(Lit(c), s));
  }

  lemma ParseEnd()
    ensures ParseCat("$") == Some(Parsed(Cat(End, Empty), ""))
  {
    assert "$"[1..] == "";
  }

  /** The expression of a plain line. */
  function Below(base: string): Ere {
    Cat(LEAD, Literally(base, Cat(End, Empty)))
  }

  lemma PlainPatternParses(d: string)
    requires IsPlain(d)
    ensures Parse(ToRegexPattern(d)) == Some(Below(TrimDot(d)))
  {
    var base := TrimDot(d);
    ParseEnd();
    ParseEscaped(base, "$");
    ParseLead(EscapeDots(base) + "$");
    assert ToRegexPattern(d) == "(^|\\.)" + (EscapeDots(base) + "$");
  }

  lemma {:induction false} EscapedChars(s: string, c: char)
    ensures c in EscapeDots(s) ==> c in s || c == '\\'
  {
    if s != "" {
      EscapedChars(s[1..], c);
      assert s == [s[0]] + s[1..];
    }
  }

  /** The host is the base name or below it. */
  predicate Under(host: string, base: string) {
    host == base || HasSuffix(host, "." + base)
  }

  lemma MatchesLead(host: string, i: nat, k: nat)
    requires i <= k <= |host|
    ensures Matches(LEAD, host, i, k) <==> i == k == 0 || (k == i + 1 && host[i] == '.')
  {
    assert Matches(Empty, host, k, k);
    assert Matches(Cat(Begin, Empty), host, i, k) <==> Matches(Begin, host, i, k);
    assert Matches(Cat(Lit('.'), Empty), host, i, k) <==> Matches(Lit('.'), host, i, k);
  }

  lemma MatchesBase(base: string, host: string, k: nat, j: nat)
    requires k <= j <= |host|
    ensures Matches(Literally(base, Cat(End, Empty)), host, k, j) <==> j == |host| && host[k..] == base
  {
    MatchesLiterally(base, Cat(End, Empty), host, k, j);
    if k + |base| <= j {
      assert host[k..k + |base|] == host[k..][..|base|];
      assert Matches(Empty, host, j, j);
      assert Matches(Cat(End, Empty), host, k + |base|, j) <==> Matches(End, host, k + |base|, j);
    }
  }

  lemma FoundIsUnder(base: string, host: string, i: nat, j: nat)
    requires i <= j <= |host| && Matches(Below(base), host, i, j)
    ensures Under(host, base)
  {
    var k := MatchesCat(LEAD, Literally(base, Cat(End, Empty)), host, i, j);
    MatchesLead(host, i, k);
    MatchesBase(base, host, k, j);
    if k > 0 {
      assert host[i..] == [host[i]] + host[i + 1..];
    }
  }

  lemma UnderIsFound(base: string, host: string)
    requires Under(host, base)
    ensures Finds(Below(base), host)
  {
    var n, k := |host|, |host| - |base|;
    var i := if k == 0 then 0 else k - 1;
    assert host[k..] == base by {
      assert host != base ==> host[k..] == host[i..][1..];
    }
    assert k == 0 || host[i..][0] == '.';
    MatchesLead(host, i, k);
    MatchesBase(base, host, k, n);
    assert Matches(Below(base), host, i, n);
  }

  lemma LeadThenBase(base: string, host: string)
    ensures Finds(Below(base), host) <==> Under(host, base)
  {
    if Finds(Below(base), host) {
      var i: nat, j: nat :| i <= j <= |host| && Matches(Below(base), host, i, j);
      FoundIsUnder(base, host, i, j);
    }
    if Under(host, base) {
      UnderIsFound(base, host);
    }
  }

  /** The line of a plain entry, wildcard or not, admits the base name and all its subdomains. */
  lemma PlainEntryAdmits(other: (string, string) -> bool, d: string, host: string)
    requires IsPlain(d)
    ensures EntryAdmits(other, d, host) <==> Under(host, TrimDot(d))
  {
    PlainPatternParses(d);
    LeadThenBase(TrimDot(d), host);
    OneLine(other, d, host);
  }

  lemma OneLine(other: (string, string) -> bool, d: string, host: string)
    requires forall c :: c in d ==> !IsFileSyntax(c)
    ensures Parse(ToRegexPattern(d)).Some? ==>
      (EntryAdmits(other, d, host) <==> Finds(Parse(ToRegexPattern(d)).value, host))
  {
    var p := ToRegexPattern(d);
    forall c | c in p ensures !IsFileSyntax(c) {
      EscapedChars(TrimDot(d), c);
    }
    OneLineText(p);
    if EntryAdmits(other, d, host) {
      assert LineAdmits(other, p, host);
    } else {
      assert p in Lines(Terminated(p));
    }
  }

  // ---- Reduction preserves what is admitted ----

  ghost predicate Preserves(other: (string, string) -> bool, ds: seq<string>) {
    forall host :: TextAdmits(other, WhitelistText(Reduced(ds)), host) <==> TextAdmits(other, WhitelistText(ds), host)
  }

  /** A wildcard of the list makes the reduction drop d as one of its subdomains. */
  predicate DropsBelow(wc: string, d: string) {
    IsWildcard(wc) && !IsWildcard(d) && HasSuffix(d, wc)
  }

  lemma UnderSuffix(host: string, d: string, wc: string)
    requires DropsBelow(wc, d) && Under(host, d)
    ensures Under(host, wc[1..])
  {
    assert wc == "." + wc[1..];
    assert host == d || host[|host| - |d|..] == d;
    assert host[|host| - |wc|..] == d[|d| - |wc|..];
  }

  lemma SuffixIsPlain(d: string, suffix: string)
    requires IsPlain(d) && HasSuffix(d, suffix)
    ensures IsPlain(suffix)
  {
    forall c | c in suffix ensures c in d {
      assert c in d[|d| - |suffix|..];
    }
  }

  /** For every list whose dropped subdomains are plain, whatever the other entries are. */
  lemma ReductionPreservesAdmittedHosts(other: (string, string) -> bool, ds: seq<string>)
    requires forall d, wc :: d in ds && wc in ds && DropsBelow(wc, d) ==> IsPlain(d)
    ensures Preserves(other, ds)
  {
    forall host
      ensures TextAdmits(other, WhitelistText(Reduced(ds)), host) <==> TextAdmits(other, WhitelistText(ds), host)
    {
      WhitelistAdmits(other, ds, host);
      WhitelistAdmits(other, Reduced(ds), host);
      if d :| d in Reduced(ds) && EntryAdmits(other, d, host) {
        KeptMembers(ds, WildcardsOf(ds), d);
      }
      if d :| d in ds && EntryAdmits(other, d, host) {
        StillAdmitted(other, ds, host, d);
      }
    }
  }

  lemma StillAdmitted(other: (string, string) -> bool, ds: seq<string>, host: string, d: string)
    requires forall d, wc :: d in ds && wc in ds && DropsBelow(wc, d) ==> IsPlain(d)
    requires d in ds && EntryAdmits(other, d, host)
    ensures exists e :: e in Reduced(ds) && EntryAdmits(other, e, host)
  {
    if d !in Reduced(ds) {
      var wc := CoveringWildcard(ds, d);
      WildcardAdmits(other, wc, d, host);
    }
  }

  lemma CoveringWildcard(ds: seq<string>, d: string) returns (wc: string)
    requires d in ds && d !in Reduced(ds)
    ensures wc in ds && wc in Reduced(ds) && !IsWildcard(d) && Covers(wc, d)
  {
    KeptMembers(ds, WildcardsOf(ds), d);
    wc :| wc in WildcardsOf(ds) && Covers(wc, d);
    KeptMembers(ds, WildcardsOf(ds), wc);
  }

  /** What a covered plain entry admits, the wildcard admits. */
  lemma WildcardAdmits(other: (string, string) -> bool, wc: string, d: string, host: string)
    requires !IsWildcard(d) && Covers(wc, d) && (HasSuffix(d, wc) ==> IsPlain(d)) && EntryAdmits(other, d, host)
    ensures EntryAdmits(other, wc, host)
  {
    if d == wc[1..] {
      assert ToRegexPattern(d) == ToRegexPattern(wc);
    } else {
      SuffixIsPlain(d, wc);
      PlainEntryAdmits(other, d, host);
      PlainEntryAdmits(other, wc, host);
      UnderSuffix(host, d, wc);
    }
  }

  // ---- From names to admitted hosts ----

  /** What one name stands for: a literal domain if it has a dot, a group otherwise. */
  function Named(c: D.Config, name: string): D.Result {
    if '.' in name then D.Ok([name]) else D.Expanded(c, name)
  }

  function AllDomains(c: D.Config, names: seq<string>): D.Result {
    if names == [] then D.Ok([])
    else
      var before := AllDomains(c, names[..|names| - 1]);
      var last := Named(c, names[|names| - 1]);
      if before.Err? then before else if last.Err? then last else D.Ok(before.domains + last.domains)
  }

  method ExpandAll(c: D.Config, names: seq<string>) returns (r: D.Result)
    ensures r == var all := AllDomains(c, names);
      if all.Ok? then D.Ok(Reduced(all.domains)) else all
  {
    var allDomains: seq<string> := [];
    for i := 0 to |names|
      invariant AllDomains(c, names[..i]) == D.Ok(allDomains)
    {
      assert names[..i + 1][..i] == names[..i];
      if '.' !in names[i] {
        var domains := D.ExpandGroup(c, names[i]);
        if domains.Err? {
          ErrorStays(c, names, i + 1);
          return domains;
        }
        allDomains := allDomains + domains.domains;
      } else {
        allDomains := allDomains + [names[i]];
      }
    }
    assert names[..|names|] == names;
    var result := WildcardDedup(allDomains);
    r := D.Ok(result);
  }

  lemma {:induction false} ErrorStays(c: D.Config, names: seq<string>, i: nat)
    requires i <= |names| && AllDomains(c, names[..i]).Err?
    ensures AllDomains(c, names) == AllDomains(c, names[..i])
  {
    if i == |names| {
      assert names[..i] == names;
    } else {
      assert names[..|names| - 1][..i] == names[..i];
      ErrorStays(c, names[..|names| - 1], i);
    }
  }

  /** A domain that the names ask for: one of them, or an own domain of a group that includes lead to. */
  ghost predicate AskedFor(c: D.Config, names: seq<string>, d: string) {
    exists name :: name in names &&
      if '.' in name then d == name else exists g :: D.Reachable(c, [name], g) && d in c.Own(g)
  }

  lemma {:induction false} AllDomainsAskedFor(c: D.Config, names: seq<string>, d: string)
    requires AllDomains(c, names).Ok?
    ensures d in AllDomains(c, names).domains <==> AskedFor(c, names, d)
  {
    if names != [] {
      var n := |names| - 1;
      AllDomainsAskedFor(c, names[..n], d);
      assert names == names[..n] + [names[n]];
      if '.' !in names[n] {
        D.CollectsReachableGroups(c, names[n], d);
      }
      if AskedFor(c, names[..n], d) {
        var name :| name in names[..n] &&
          if '.' in name then d == name else exists g :: D.Reachable(c, [name], g) && d in c.Own(g);
        assert name in names;
      }
    }
  }

  /**
   From names to hosts: when every domain asked for is plain, the generated whitelist admits a host exactly when the
   host is one of those domains or below one of them.
   */
  lemma WhitelistAdmitsWhatWasAskedFor(other: (string, string) -> bool, c: D.Config, names: seq<string>, host: string)
    requires AllDomains(c, names).Ok?
    requires forall d :: d in AllDomains(c, names).domains ==> IsPlain(d)
    ensures TextAdmits(other, WhitelistText(Reduced(AllDomains(c, names).domains)), host) <==>
      exists d :: AskedFor(c, names, d) && Under(host, TrimDot(d))
  {
    var ds := AllDomains(c, names).domains;
    ReductionPreservesAdmittedHosts(other, ds);
    assert TextAdmits(other, WhitelistText(Reduced(ds)), host) <==> TextAdmits(other, WhitelistText(ds), host);
    WhitelistAdmits(other, ds, host);
    if d :| d in ds && EntryAdmits(other, d, host) {
      PlainEntryAdmits(other, d, host);
      AllDomainsAskedFor(c, names, d);
    }
    if d :| AskedFor(c, names, d) && Under(host, TrimDot(d)) {
      AllDomainsAskedFor(c, names, d);
      PlainEntryAdmits(other, d, host);
    }
  }
}
