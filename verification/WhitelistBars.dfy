/**
 What the reduction of a whitelist does to entries with bars (cc-deck/internal/network/domains.go:160-222 and
 cc-deck/internal/compose/proxy.go:52-57): a bar splits the line of an entry into branches, of which only the last one
 is tied to the end of the host.
 */
module WhitelistBars {
  import opened Wrappers
  import opened EreSyntax
  import opened Whitelist

  // ---- Parsing a line with bars ----

  /** Plain up to bars, which ToRegexPattern passes on and which split the line into branches. */
  predicate IsPlainUpToBars(d: string) {
    forall c :: c in d ==> c == '.' || c == '|' || IsPlainChar(c)
  }

  /** The part before the first bar. */
  function Branch(s: string): (n: nat)
    ensures n <= |s| && (n < |s| ==> s[n] == '|') && forall k :: 0 <= k < n ==> s[k] != '|'
  {
    if s == "" || s[0] == '|' then 0 else 1 + Branch(s[1..])
  }

  lemma {:induction false} EscapeAppend(a: string, b: string)
    ensures EscapeDots(a + b) == EscapeDots(a) + EscapeDots(b)
  {
    if a == "" {
      assert a + b == b;
    } else {
      EscapeAppend(a[1..], b);
      assert a + b == [a[0]] + (a[1..] + b);
      EscapeCons(a[0], a[1..] + b);
      AppendAssociative(Escaped(a[0]), EscapeDots(a[1..]), EscapeDots(b));
    }
  }

  lemma EscapeCons(c: char, s: string)
    ensures EscapeDots([c] + s) == Escaped(c) + EscapeDots(s)
  {
    assert ([c] + s)[1..] == s;
  }

  /** The text of a line from some point of the entry on. */
  function Ending(s: string): string {
    EscapeDots(s) + "$"
  }

  lemma SplitAtBar(s: string, n: nat)
    requires n < |s| && s[n] == '|'
    ensures Ending(s) == EscapeDots(s[..n]) + ("|" + Ending(s[n + 1..]))
  {
    CutAt(s, n);
    EndingAround(s[..n], s[n + 1..]);
  }

  lemma CutAt(s: string, n: nat)
    requires n < |s|
    ensures s == s[..n] + ([s[n]] + s[n + 1..])
  {
  }

  lemma EndingAround(a: string, b: string)
    ensures Ending(a + (['|'] + b)) == EscapeDots(a) + ("|" + Ending(b))
  {
    EscapeAppend(a, ['|'] + b);
    EscapeCons('|', b);
    Regroup(EscapeDots(a), "|", EscapeDots(b), "$");
  }

  lemma Regroup(a: string, b: string, c: string, d: string)
    ensures a + (b + c) + d == a + (b + (c + d))
  {
  }

  lemma BarredBranchParses(s: string, n: nat)
    requires n < |s| && s[n] == '|' && IsPlain(s[..n])
    ensures ParseCat(Ending(s)) == Some(Parsed(Literally(s[..n], Empty), "|" + Ending(s[n + 1..])))
  {
    var tail := "|" + Ending(s[n + 1..]);
    SplitAtBar(s, n);
    assert ParseCat(tail) == Some(Parsed(Empty, tail));
    ParseEscaped(s[..n], tail);
  }

  lemma LastBranchParses(s: string)
    requires IsPlain(s)
    ensures ParseCat(Ending(s)) == Some(Parsed(Literally(s, Cat(End, Empty)), ""))
  {
    ParseEnd();
    ParseEscaped(s, "$");
  }

  lemma FirstBranchIsPlain(s: string)
    requires IsPlainUpToBars(s)
    ensures IsPlain(s[..Branch(s)])
  {
    forall c | c in s[..Branch(s)] ensures c != '|' && c in s {
      var k :| 0 <= k < Branch(s) && s[k] == c;
    }
  }

  /** The expression of the line from some point of the entry on: branches anywhere, and the last one at the end. */
  function EndingEre(s: string): Ere {
    var n := Branch(s);
    if n == |s| then Literally(s, Cat(End, Empty)) else Alt(Literally(s[..n], Empty), EndingEre(s[n + 1..]))
  }

  lemma {:induction false} BranchesParse(s: string)
    requires IsPlainUpToBars(s)
    ensures ParseAlt(Ending(s)) == Some(Parsed(EndingEre(s), ""))
    decreases |s|
  {
    var n := Branch(s);
    FirstBranchIsPlain(s);
    if n == |s| {
      assert s[..n] == s;
      LastBranchParses(s);
    } else {
      BarredBranchParses(s, n);
      assert forall c :: c in s[n + 1..] ==> c in s;
      BranchesParse(s[n + 1..]);
      AltParses(Ending(s), Literally(s[..n], Empty), Ending(s[n + 1..]), EndingEre(s[n + 1..]));
    }
  }

  lemma AltParses(s: string, first: Ere, tail: string, others: Ere)
    requires ParseCat(s) == Some(Parsed(first, "|" + tail)) && ParseAlt(tail) == Some(Parsed(others, ""))
    ensures ParseAlt(s) == Some(Parsed(Alt(first, others), ""))
  {
    assert ("|" + tail)[1..] == tail;
  }

  lemma BarredPattern(d: string, n: nat)
    requires n < |d| && d[n] == '|' && IsPlain(d[..n]) && IsPlainUpToBars(d[n + 1..])
    ensures ParseAlt("(^|\\.)" + Ending(d)) ==
      Some(Parsed(Alt(Cat(LEAD, Literally(d[..n], Empty)), EndingEre(d[n + 1..])), ""))
  {
    BarredBranchParses(d, n);
    ParseLead(Ending(d));
    BranchesParse(d[n + 1..]);
    AltParses(
      "(^|\\.)" + Ending(d), Cat(LEAD, Literally(d[..n], Empty)), Ending(d[n + 1..]), EndingEre(d[n + 1..]));
  }

  lemma BarredLine(d: string)
    requires IsPlainUpToBars(d) && Branch(d) < |d| && !IsWildcard(d)
    ensures var n := Branch(d);
      Parse(ToRegexPattern(d)) == Some(Alt(Cat(LEAD, Literally(d[..n], Empty)), EndingEre(d[n + 1..])))
  {
    FirstBranchIsPlain(d);
    assert forall c :: c in d[Branch(d) + 1..] ==> c in d;
    BarredPattern(d, Branch(d));
    LeadAndEnding(d);
  }

  lemma LeadAndEnding(d: string)
    requires !IsWildcard(d)
    ensures ToRegexPattern(d) == "(^|\\.)" + Ending(d)
  {
  }

  // ---- What such a line finds ----

  predicate HasPrefix(s: string, prefix: string) {
    |prefix| <= |s| && s[..|prefix|] == prefix
  }

  predicate OccursAt(part: string, s: string, i: nat) {
    i + |part| <= |s| && s[i..i + |part|] == part
  }

  ghost predicate Occurs(part: string, s: string) {
    exists i: nat :: OccursAt(part, s, i)
  }

  lemma FindsAlt(a: Ere, b: Ere, host: string)
    ensures Finds(Alt(a, b), host) <==> Finds(a, host) || Finds(b, host)
  {
    if Finds(Alt(a, b), host) {
      var i: nat, j: nat :| i <= j <= |host| && Matches(Alt(a, b), host, i, j);
      assert Matches(a, host, i, j) || Matches(b, host, i, j);
    }
    if Finds(a, host) {
      var i: nat, j: nat :| i <= j <= |host| && Matches(a, host, i, j);
      assert Matches(Alt(a, b), host, i, j);
    }
    if Finds(b, host) {
      var i: nat, j: nat :| i <= j <= |host| && Matches(b, host, i, j);
      assert Matches(Alt(a, b), host, i, j);
    }
  }

  lemma FindsLiteral(b: string, host: string)
    ensures Finds(Literally(b, Empty), host) <==> Occurs(b, host)
  {
    if Finds(Literally(b, Empty), host) {
      var i: nat, j: nat :| i <= j <= |host| && Matches(Literally(b, Empty), host, i, j);
      MatchesLiterally(b, Empty, host, i, j);
      assert OccursAt(b, host, i);
    }
    if Occurs(b, host) {
      var i: nat :| OccursAt(b, host, i);
      MatchesLiterally(b, Empty, host, i, i + |b|);
    }
  }

  lemma FindsAtEnd(b: string, host: string)
    ensures Finds(Literally(b, Cat(End, Empty)), host) <==> HasSuffix(host, b)
  {
    if Finds(Literally(b, Cat(End, Empty)), host) {
      var i: nat, j: nat :| i <= j <= |host| && Matches(Literally(b, Cat(End, Empty)), host, i, j);
      MatchesBase(b, host, i, j);
    }
    if HasSuffix(host, b) {
      MatchesBase(b, host, |host| - |b|, |host|);
    }
  }

  /** The branch stands at the start of the host or behind a dot. */
  ghost predicate AtLabel(b: string, host: string) {
    HasPrefix(host, b) || Occurs("." + b, host)
  }

  lemma FindsAtLabel(b: string, host: string)
    ensures Finds(Cat(LEAD, Literally(b, Empty)), host) <==> AtLabel(b, host)
  {
    if Finds(Cat(LEAD, Literally(b, Empty)), host) {
      FoundIsAtLabel(b, host);
    }
    if HasPrefix(host, b) {
      LabelIsFound(b, host, 0, 0);
    }
    if Occurs("." + b, host) {
      var i: nat :| OccursAt("." + b, host, i);
      DotBefore(b, host, i);
      LabelIsFound(b, host, i, i + 1);
    }
  }

  lemma DotBefore(b: string, host: string, i: nat)
    ensures OccursAt("." + b, host, i) <==> i < |host| && host[i] == '.' && OccursAt(b, host, i + 1)
  {
    if i + 1 + |b| <= |host| {
      assert host[i..i + 1 + |b|] == [host[i]] + host[i + 1..i + 1 + |b|];
    }
  }

  lemma FoundIsAtLabel(b: string, host: string)
    requires Finds(Cat(LEAD, Literally(b, Empty)), host)
    ensures AtLabel(b, host)
  {
    var e := Literally(b, Empty);
    var i: nat, j: nat :| i <= j <= |host| && Matches(Cat(LEAD, e), host, i, j);
    var k := MatchesCat(LEAD, e, host, i, j);
    MatchesLead(host, i, k);
    MatchesLiterally(b, Empty, host, k, j);
    assert OccursAt(b, host, k);
    DotBefore(b, host, i);
  }

  lemma LabelIsFound(b: string, host: string, i: nat, k: nat)
    requires i == k == 0 || (k == i + 1 && i < |host| && host[i] == '.')
    requires OccursAt(b, host, k)
    ensures Finds(Cat(LEAD, Literally(b, Empty)), host)
  {
    MatchesLead(host, i, k);
    MatchesLiterally(b, Empty, host, k, k + |b|);
    assert Matches(Cat(LEAD, Literally(b, Empty)), host, i, k + |b|);
  }

  // ---- The branches of an entry ----

  /** The branches between the first and the last one, from some point of the entry on. */
  function Middles(s: string): seq<string> {
    var n := Branch(s);
    if n == |s| then [] else [s[..n]] + Middles(s[n + 1..])
  }

  function LastBranch(s: string): string {
    var n := Branch(s);
    if n == |s| then s else LastBranch(s[n + 1..])
  }

  predicate IsBarred(d: string) {
    Branch(d) < |d|
  }

  /** The first branch, which may stand behind any dot, or at the start. */
  function First(d: string): string {
    d[..Branch(d)]
  }

  /** The branches that may stand anywhere. */
  function Anywhere(d: string): seq<string>
    requires IsBarred(d)
  {
    Middles(d[Branch(d) + 1..])
  }

  /** The branch at the end of the host. */
  function Last(d: string): string
    requires IsBarred(d)
  {
    LastBranch(d[Branch(d) + 1..])
  }

  lemma {:induction false} FindsEnding(s: string, host: string)
    ensures Finds(EndingEre(s), host) <==> HasSuffix(host, LastBranch(s)) || OneOccurs(Middles(s), host)
    decreases |s|
  {
    var n := Branch(s);
    if n == |s| {
      FindsAtEnd(s, host);
    } else {
      var head, tail := s[..n], s[n + 1..];
      EndingStep(s);
      FindsAlt(Literally(head, Empty), EndingEre(tail), host);
      FindsLiteral(head, host);
      FindsEnding(tail, host);
      OneMoreOccurs(head, Middles(tail), host);
    }
  }

  lemma EndingStep(s: string)
    requires Branch(s) < |s|
    ensures var head, tail := s[..Branch(s)], s[Branch(s) + 1..];
      && EndingEre(s) == Alt(Literally(head, Empty), EndingEre(tail))
      && Middles(s) == [head] + Middles(tail) && LastBranch(s) == LastBranch(tail)
  {
  }

  ghost predicate OneOccurs(parts: seq<string>, host: string) {
    exists m :: m in parts && Occurs(m, host)
  }

  lemma OneMoreOccurs(part: string, parts: seq<string>, host: string)
    ensures OneOccurs([part] + parts, host) <==> Occurs(part, host) || OneOccurs(parts, host)
  {
    assert part in [part] + parts && forall m :: m in parts ==> m in [part] + parts;
  }

  /** What an entry admits: with bars, each branch for itself. */
  ghost predicate Admits(d: string, host: string) {
    if IsBarred(d) then
      AtLabel(First(d), host) || HasSuffix(host, Last(d)) || OneOccurs(Anywhere(d), host)
    else Under(host, TrimDot(d))
  }

  /** Plain up to bars, and a wildcard only without bars. */
  predicate IsRegular(d: string) {
    IsPlainUpToBars(d) && (IsWildcard(d) ==> IsPlain(d))
  }

  lemma NotBarredIsPlain(d: string)
    requires IsPlainUpToBars(d)
    ensures IsBarred(d) <==> '|' in d
    ensures !IsBarred(d) ==> IsPlain(d)
  {
    FirstBranchIsPlain(d);
    if !IsBarred(d) {
      assert d[..Branch(d)] == d;
    }
  }

  lemma EntryAdmitsBranches(other: (string, string) -> bool, d: string, host: string)
    requires IsRegular(d)
    ensures EntryAdmits(other, d, host) <==> Admits(d, host)
  {
    NotBarredIsPlain(d);
    if IsBarred(d) {
      var n := Branch(d);
      BarredLine(d);
      OneLine(other, d, host);
      FindsAlt(Cat(LEAD, Literally(First(d), Empty)), EndingEre(d[n + 1..]), host);
      FindsAtLabel(First(d), host);
      FindsEnding(d[n + 1..], host);
    } else {
      PlainEntryAdmits(other, d, host);
    }
  }

  // ---- Which branches another entry makes superfluous ----

  /**
   Whatever contains the text is admitted by a branch of e; atLabel says that the text stands at the start of the host
   or behind a dot. All of this can be read off the entries.
   */
  ghost predicate Absorbs(e: string, text: string, atLabel: bool) {
    IsBarred(e) &&
    (Last(e) == "" || First(e) == "" || (atLabel && HasPrefix(text, First(e)))
      || Occurs("." + First(e), text) || OneOccurs(Anywhere(e), text))
  }

  ghost predicate OneAbsorbs(es: seq<string>, text: string, atLabel: bool) {
    exists e :: e in es && Absorbs(e, text, atLabel)
  }

  /** Every branch of d that is not tied to the end of the host is absorbed by one of the entries. */
  ghost predicate Absorbed(d: string, es: seq<string>)
    requires IsBarred(d)
  {
    OneAbsorbs(es, First(d), true) && forall m :: m in Anywhere(d) ==> OneAbsorbs(es, m, false)
  }

  lemma OccursWithin(part: string, text: string, host: string)
    requires Occurs(part, text) && Occurs(text, host)
    ensures Occurs(part, host)
  {
    var i: nat :| OccursAt(part, text, i);
    var j: nat :| OccursAt(text, host, j);
    SliceOfSlice(host, j, |text|, i, |part|);
    assert OccursAt(part, host, j + i);
  }

  lemma SliceOfSlice(s: string, j: nat, n: nat, i: nat, m: nat)
    requires j + n <= |s| && i + m <= n
    ensures s[j..j + n][i..i + m] == s[j + i..j + i + m]
  {
    var a, b := s[j..j + n][i..i + m], s[j + i..j + i + m];
    assert forall k :: 0 <= k < m ==> a[k] == b[k];
  }

  lemma PrefixOccurs(part: string, text: string)
    requires HasPrefix(text, part)
    ensures Occurs(part, text)
  {
    assert OccursAt(part, text, 0);
  }

  lemma OneOccursWithin(parts: seq<string>, text: string, host: string)
    requires OneOccurs(parts, text) && Occurs(text, host)
    ensures OneOccurs(parts, host)
  {
    var m :| m in parts && Occurs(m, text);
    OccursWithin(m, text, host);
  }

  /** A host that a branch finds is admitted by an entry that absorbs the branch. */
  lemma AbsorbingAdmits(e: string, text: string, atLabel: bool, host: string)
    requires Absorbs(e, text, atLabel) && if atLabel then AtLabel(text, host) else Occurs(text, host)
    ensures Admits(e, host)
  {
    assert Occurs(text, host) by {
      if atLabel && HasPrefix(host, text) {
        PrefixOccurs(text, host);
      } else if atLabel {
        assert OccursAt(text, "." + text, 1);
        OccursWithin(text, "." + text, host);
      }
    }
    if Last(e) == "" {
      assert HasSuffix(host, "");
    } else if First(e) == "" {
      assert HasPrefix(host, "");
    } else if Occurs("." + First(e), text) {
      OccursWithin("." + First(e), text, host);
    } else if OneOccurs(Anywhere(e), text) {
      OneOccursWithin(Anywhere(e), text, host);
    } else if HasPrefix(host, text) {
      assert host[..|First(e)|] == host[..|text|][..|First(e)|];
    } else {
      assert HasPrefix("." + text, "." + First(e)) by {
        assert ("." + text)[..|"." + First(e)|] == "." + text[..|First(e)|];
      }
      PrefixOccurs("." + First(e), "." + text);
      OccursWithin("." + First(e), "." + text, host);
    }
  }

  // ---- A host that shows a branch and nothing else ----

  /** The text, marked off by a character that no entry has. */
  function Marked(text: string, atLabel: bool, c: char): string {
    (if atLabel then "" else [c]) + (text + [c])
  }

  lemma MarkedIsFound(text: string, atLabel: bool, c: char)
    ensures if atLabel then AtLabel(text, Marked(text, atLabel, c)) else Occurs(text, Marked(text, atLabel, c))
  {
    var host := Marked(text, atLabel, c);
    if atLabel {
      assert host == text + [c];
    } else {
      assert host[1..1 + |text|] == text;
      assert OccursAt(text, host, 1);
    }
  }

  /** What does not have the mark in it is found in the text itself. */
  lemma MarkedContains(part: string, text: string, atLabel: bool, c: char)
    requires part != "" && c !in part && Occurs(part, Marked(text, atLabel, c))
    ensures Occurs(part, text)
  {
    var host := Marked(text, atLabel, c);
    var start := if atLabel then 0 else 1;
    MarkedText(text, atLabel, c);
    var i: nat :| OccursAt(part, host, i);
    NotAtMark(part, host, i, c);
    SliceOfSlice(host, start, |text|, i - start, |part|);
    assert OccursAt(part, text, i - start);
  }

  lemma MarkedText(text: string, atLabel: bool, c: char)
    ensures var host := Marked(text, atLabel, c);
      var start := if atLabel then 0 else 1;
      && |host| == start + |text| + 1 && host[start..start + |text|] == text
      && host[|host| - 1] == c && (!atLabel ==> host[0] == c)
  {
  }

  /** A part without the mark lies between the marks. */
  lemma NotAtMark(part: string, host: string, i: nat, c: char)
    requires part != "" && c !in part && OccursAt(part, host, i)
    ensures forall k :: i <= k < i + |part| ==> host[k] != c
  {
    forall k | i <= k < i + |part| ensures host[k] != c {
      assert host[i..i + |part|][k - i] in part;
    }
  }

  lemma {:induction false} PartsAreFrom(s: string, c: char)
    requires c !in s
    ensures c !in LastBranch(s) && forall m :: m in Middles(s) ==> c !in m
    decreases |s|
  {
    var n := Branch(s);
    if n < |s| {
      assert forall x :: x in s[..n] || x in s[n + 1..] ==> x in s;
      PartsAreFrom(s[n + 1..], c);
    }
  }

  lemma BranchesAreFrom(e: string, c: char)
    requires c !in e && IsBarred(e)
    ensures c !in First(e) && c !in Last(e) && forall m :: m in Anywhere(e) ==> c !in m
  {
    assert forall x :: x in e[..Branch(e)] || x in e[Branch(e) + 1..] ==> x in e;
    PartsAreFrom(e[Branch(e) + 1..], c);
  }

  lemma LastIsIn(host: string, suffix: string)
    requires suffix != "" && HasSuffix(host, suffix)
    ensures host[|host| - 1] in suffix
  {
    assert host[|host| - |suffix|..][|suffix| - 1] in suffix;
  }

  lemma EndsWithMark(text: string, atLabel: bool, c: char, suffix: string)
    requires c !in suffix && HasSuffix(Marked(text, atLabel, c), suffix)
    ensures suffix == ""
  {
    MarkedText(text, atLabel, c);
    if suffix != "" {
      LastIsIn(Marked(text, atLabel, c), suffix);
    }
  }

  /** An entry that admits the marked text absorbs it. */
  lemma OnlyAbsorbingAdmits(e: string, text: string, atLabel: bool, c: char)
    requires c !in e && c != '.' && IsRegular(e) && Admits(e, Marked(text, atLabel, c))
    ensures Absorbs(e, text, atLabel)
  {
    var host := Marked(text, atLabel, c);
    if !IsBarred(e) {
      NoPlainAdmits(e, text, atLabel, c);
    } else {
      BranchesAreFrom(e, c);
      if HasSuffix(host, Last(e)) {
        EndsWithMark(text, atLabel, c, Last(e));
      } else if OneOccurs(Anywhere(e), host) {
        var m :| m in Anywhere(e) && Occurs(m, host);
        if m == "" {
          assert OccursAt(m, text, 0);
        } else {
          MarkedContains(m, text, atLabel, c);
        }
      } else if Occurs("." + First(e), host) {
        MarkedContains("." + First(e), text, atLabel, c);
      } else {
        PrefixOfMarked(First(e), text, atLabel, c);
      }
    }
  }

  lemma PrefixOfMarked(first: string, text: string, atLabel: bool, c: char)
    requires c !in first && HasPrefix(Marked(text, atLabel, c), first)
    ensures first == "" || (atLabel && HasPrefix(text, first))
  {
    var host := Marked(text, atLabel, c);
    MarkedText(text, atLabel, c);
    if first != "" {
      assert OccursAt(first, host, 0);
      NotAtMark(first, host, 0, c);
      SliceOfSlice(host, 0, |text|, 0, |first|);
    }
  }

  lemma NoPlainAdmits(e: string, text: string, atLabel: bool, c: char)
    requires c !in e && c != '.' && !IsBarred(e)
    ensures !Admits(e, Marked(text, atLabel, c))
  {
    var host := Marked(text, atLabel, c);
    var base := TrimDot(e);
    assert c !in base && c !in "." + base;
    MarkedText(text, atLabel, c);
    assert c in host;
    if HasSuffix(host, "." + base) {
      LastIsIn(host, "." + base);
    }
  }

  // ---- The exact condition for a list ----

  /**
   A dropped entry with a bar ends like the wildcard above it, so its last branch admits nothing that the wildcard does
   not.
   */
  lemma {:induction false} LastEndsLike(s: string, suffix: string)
    requires '|' !in suffix && HasSuffix(s, suffix)
    ensures HasSuffix(LastBranch(s), suffix)
    decreases |s|
  {
    var n := Branch(s);
    if n < |s| {
      BarOutside(s, suffix, n);
      assert s[n + 1..][|s[n + 1..]| - |suffix|..] == s[|s| - |suffix|..];
      LastEndsLike(s[n + 1..], suffix);
    }
  }

  lemma BarOutside(s: string, suffix: string, n: nat)
    requires n < |s| && s[n] == '|' && '|' !in suffix && HasSuffix(s, suffix)
    ensures n < |s| - |suffix|
  {
    forall k | |s| - |suffix| <= k < |s| ensures s[k] in suffix {
      assert s[|s| - |suffix|..][k - (|s| - |suffix|)] in suffix;
    }
  }

  lemma LastIsBelow(d: string, wc: string, host: string)
    requires DropsBelow(wc, d) && '|' !in wc && IsBarred(d) && HasSuffix(host, Last(d))
    ensures Under(host, wc[1..])
  {
    LastEndsLike(d, wc);
    assert wc == "." + wc[1..];
    var last := Last(d);
    assert host[|host| - |wc|..] == host[|host| - |last|..][|last| - |wc|..];
  }

  lemma AbsorbedStaysAdmitted(d: string, wc: string, es: seq<string>, host: string)
    requires DropsBelow(wc, d) && IsPlain(wc) && IsBarred(d) && wc in es && Absorbed(d, es) && Admits(d, host)
    ensures exists e :: e in es && Admits(e, host)
  {
    NotBarredIsPlain(wc);
    if HasSuffix(host, Last(d)) {
      LastIsBelow(d, wc, host);
      assert Admits(wc, host);
    } else if AtLabel(First(d), host) {
      var e :| e in es && Absorbs(e, First(d), true);
      AbsorbingAdmits(e, First(d), true, host);
    } else {
      var m :| m in Anywhere(d) && Occurs(m, host);
      var e :| e in es && Absorbs(e, m, false);
      AbsorbingAdmits(e, m, false, host);
    }
  }

  ghost predicate AllRegular(ds: seq<string>) {
    forall d :: d in ds ==> IsRegular(d)
  }

  /** The entry is a wildcard, or no wildcard of the list covers it. */
  predicate Stays(ds: seq<string>, e: string) {
    e in ds && (IsWildcard(e) || forall wc :: wc in ds ==> !Covers(wc, e))
  }

  /** The entry has a bar, and a wildcard of the list stands above it. */
  predicate IsDropped(ds: seq<string>, d: string) {
    d in ds && IsBarred(d) && exists wc :: wc in ds && DropsBelow(wc, d)
  }

  /**
   Each branch of each dropped entry with a bar, other than its last, is absorbed by an entry that stays. This can be
   checked on the list itself.
   */
  ghost predicate DroppedAreAbsorbed(ds: seq<string>) {
    forall d :: IsDropped(ds, d) ==>
      && (exists e :: Stays(ds, e) && Absorbs(e, First(d), true))
      && forall m :: m in Anywhere(d) ==> exists e :: Stays(ds, e) && Absorbs(e, m, false)
  }

  lemma StayingIsKept(ds: seq<string>, e: string)
    ensures Stays(ds, e) <==> e in Reduced(ds)
  {
    KeptMembers(ds, WildcardsOf(ds), e);
    assert Covered(e, WildcardsOf(ds)) <==> exists wc :: wc in ds && Covers(wc, e);
  }

  lemma AbsorbedByStaying(ds: seq<string>, text: string, atLabel: bool)
    ensures OneAbsorbs(Reduced(ds), text, atLabel) <==> exists e :: Stays(ds, e) && Absorbs(e, text, atLabel)
  {
    if OneAbsorbs(Reduced(ds), text, atLabel) {
      var e :| e in Reduced(ds) && Absorbs(e, text, atLabel);
      StayingIsKept(ds, e);
    }
    if e :| Stays(ds, e) && Absorbs(e, text, atLabel) {
      StayingIsKept(ds, e);
    }
  }

  lemma DroppedIsAbsorbed(ds: seq<string>, d: string)
    requires IsBarred(d)
    ensures Absorbed(d, Reduced(ds)) <==>
      && (exists e :: Stays(ds, e) && Absorbs(e, First(d), true))
      && forall m :: m in Anywhere(d) ==> exists e :: Stays(ds, e) && Absorbs(e, m, false)
  {
    AbsorbedByStaying(ds, First(d), true);
    forall m | m in Anywhere(d)
      ensures OneAbsorbs(Reduced(ds), m, false) <==> exists e :: Stays(ds, e) && Absorbs(e, m, false)
    {
      AbsorbedByStaying(ds, m, false);
    }
  }

  lemma ListAdmits(other: (string, string) -> bool, ds: seq<string>, host: string)
    requires AllRegular(ds)
    ensures TextAdmits(other, WhitelistText(ds), host) <==> exists d :: d in ds && Admits(d, host)
  {
    WhitelistAdmits(other, ds, host);
    forall d | d in ds ensures EntryAdmits(other, d, host) <==> Admits(d, host) {
      EntryAdmitsBranches(other, d, host);
    }
  }

  lemma ReducedIsRegular(ds: seq<string>)
    requires AllRegular(ds)
    ensures AllRegular(Reduced(ds)) && forall d :: d in Reduced(ds) ==> d in ds
  {
    forall d | d in Reduced(ds) ensures d in ds {
      KeptMembers(ds, WildcardsOf(ds), d);
    }
  }

  /** A dropped entry that is absorbed, or has no bar, is not missed. */
  lemma DroppedIsNotMissed(ds: seq<string>, d: string, host: string)
    requires AllRegular(ds) && DroppedAreAbsorbed(ds) && d in ds && Admits(d, host)
    ensures exists e :: e in Reduced(ds) && Admits(e, host)
  {
    KeptMembers(ds, WildcardsOf(ds), d);
    if d !in Reduced(ds) {
      var wc :| wc in WildcardsOf(ds) && Covers(wc, d);
      KeptMembers(ds, WildcardsOf(ds), wc);
      NotBarredIsPlain(wc);
      NotBarredIsPlain(d);
      if d != wc[1..] && IsBarred(d) {
        assert IsDropped(ds, d);
        DroppedIsAbsorbed(ds, d);
        AbsorbedStaysAdmitted(d, wc, Reduced(ds), host);
      } else {
        CoveredPlainStaysAdmitted(d, wc, host);
      }
    }
  }

  lemma CoveredPlainStaysAdmitted(d: string, wc: string, host: string)
    requires IsWildcard(wc) && IsPlain(wc) && !IsBarred(wc) && !IsWildcard(d) && Covers(wc, d) && Admits(d, host)
    requires d == wc[1..] || !IsBarred(d)
    ensures Admits(wc, host)
  {
    if d == wc[1..] {
      assert forall c :: c in d ==> c in wc;
      NotBarredIsPlain(d);
    } else {
      UnderSuffix(host, d, wc);
    }
  }

  /** A branch that nothing absorbs is missed at the host that shows it and nothing else. */
  lemma UnabsorbedIsMissed(other: (string, string) -> bool, ds: seq<string>, d: string, text: string, atLabel: bool)
    requires AllRegular(ds) && d in ds && IsBarred(d)
    requires if atLabel then text == First(d) else text in Anywhere(d)
    requires !OneAbsorbs(Reduced(ds), text, atLabel)
    ensures !Preserves(other, ds)
  {
    var c := '*';
    var host := Marked(text, atLabel, c);
    ReducedIsRegular(ds);
    ListAdmits(other, ds, host);
    ListAdmits(other, Reduced(ds), host);
    MarkedIsFound(text, atLabel, c);
    assert Admits(d, host);
    forall e | e in Reduced(ds) ensures !Admits(e, host) {
      if Admits(e, host) {
        OnlyAbsorbingAdmits(e, text, atLabel, c);
      }
    }
  }

  /**
   For every list of entries that are plain up to bars, with plain wildcards: the reduced list admits the same hosts
   as the list itself if and only if each branch of a dropped entry that is not tied to the end of the host is
   absorbed by a branch of an entry that is kept.
   */
  lemma PreservesExactlyIfBranchesAreAbsorbed(other: (string, string) -> bool, ds: seq<string>)
    requires AllRegular(ds)
    ensures Preserves(other, ds) <==> DroppedAreAbsorbed(ds)
  {
    if DroppedAreAbsorbed(ds) {
      ReducedIsRegular(ds);
      forall host
        ensures TextAdmits(other, WhitelistText(Reduced(ds)), host) <==> TextAdmits(other, WhitelistText(ds), host)
      {
        ListAdmits(other, ds, host);
        ListAdmits(other, Reduced(ds), host);
        if d :| d in ds && Admits(d, host) {
          DroppedIsNotMissed(ds, d, host);
        }
      }
    } else {
      var d :| IsDropped(ds, d) && !(
        && (exists e :: Stays(ds, e) && Absorbs(e, First(d), true))
        && forall m :: m in Anywhere(d) ==> exists e :: Stays(ds, e) && Absorbs(e, m, false));
      DroppedIsAbsorbed(ds, d);
      if !OneAbsorbs(Reduced(ds), First(d), true) {
        UnabsorbedIsMissed(other, ds, d, First(d), true);
      } else {
        var m :| m in Anywhere(d) && !OneAbsorbs(Reduced(ds), m, false);
        UnabsorbedIsMissed(other, ds, d, m, false);
      }
    }
  }

  /**
   So no list of such entries loses a host, whichever of them it has, if and only if none of them that a wildcard among
   them drops as a subdomain has a bar.
   */
  lemma PreservesExactlyWithoutBars(other: (string, string) -> bool, pool: set<string>)
    requires forall d :: d in pool ==> IsRegular(d)
    ensures (forall ds: seq<string> :: (forall d :: d in ds ==> d in pool) ==> Preserves(other, ds)) <==>
      (forall d, wc :: d in pool && wc in pool && DropsBelow(wc, d) ==> '|' !in d)
  {
    if forall d, wc :: d in pool && wc in pool && DropsBelow(wc, d) ==> '|' !in d {
      forall ds: seq<string> | forall d :: d in ds ==> d in pool ensures Preserves(other, ds) {
        forall d ensures !IsDropped(ds, d) {
          if d in ds {
            NotBarredIsPlain(d);
          }
        }
        PreservesExactlyIfBranchesAreAbsorbed(other, ds);
      }
    } else {
      var d, wc :| d in pool && wc in pool && DropsBelow(wc, d) && '|' in d;
      BarsLoseHosts(other, wc, d);
      assert forall e :: e in [wc, d] ==> e in pool;
    }
  }

  /** A wildcard and a subdomain of it with a bar: with nothing to absorb it, it is missed. */
  lemma BarsLoseHosts(other: (string, string) -> bool, wc: string, d: string)
    requires IsRegular(wc) && IsRegular(d) && DropsBelow(wc, d) && '|' in d
    ensures !Preserves(other, [wc, d])
  {
    var ds := [wc, d];
    NotBarredIsPlain(wc);
    NotBarredIsPlain(d);
    assert d in ds && wc in WildcardsOf(ds) && Covers(wc, d);
    forall e | e in Reduced(ds) ensures e == wc {
      KeptMembers(ds, WildcardsOf(ds), e);
    }
    assert !OneAbsorbs(Reduced(ds), First(d), true);
    assert IsDropped(ds, d);
    AbsorbedByStaying(ds, First(d), true);
    PreservesExactlyIfBranchesAreAbsorbed(other, ds);
  }
}
