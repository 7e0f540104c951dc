/**
 The ledger of sidebar rows of background jobs (cc-deck/internal/cmd/claude_bg_attribution.go).

 For each job the ledger remembers the row that shows it (the owner) and the rows that were left behind and still
 have to be released (pending). A hook of the job first decides where the job is viewed, then writes down what it
 intends, then releases rows, then delivers its event.
 */
module BgLedger {
  import opened Wrappers

  datatype Reason =
    | ViewerEnv | ParkedViewer | AttachViewer
    | Headless | SeveralViewers | ViewerNotInZellij | RecordMissing

  /** A pane of a Zellij session. */
  datatype Terminal = Terminal(zellijSession: string, paneID: nat)

  datatype Attribution = Attribution(at: Terminal, reason: Reason, profile: string, terminals: seq<Terminal>) {
    predicate Delivers() {
      reason.ViewerEnv? || reason.ParkedViewer? || reason.AttachViewer?
    }
  }

  datatype RowRelease = RowRelease(at: Terminal, sessionID: string, retryAfter: int, attempts: nat)

  datatype Entry = Entry(at: Terminal, sessionID: string, updatedAt: int, released: bool, pending: seq<RowRelease>)

  const NO_TERMINAL := Terminal("", 0)
  const HOUR_SECONDS := 3600

  /** The job is viewed at t, as far as the attribution knows. */
  predicate Viewed(att: Attribution, t: Terminal) {
    t in att.terminals || (att.Delivers() && att.at == t)
  }

  /**
   What holds of every attribution: a single terminal where one is chosen, none where there is no viewer in Zellij.
   */
  predicate Consistent(att: Attribution) {
    && (att.Delivers() ==> forall t :: t in att.terminals ==> t == att.at)
    && (att.reason.Headless? || att.reason.ViewerNotInZellij? ==> att.terminals == [])
  }

  predicate IsEnd(event: string) {
    event == "SessionEnd"
  }

  // ---- Where a job is viewed ----

  datatype Viewer = Viewer(inZellij: bool, at: Terminal, parked: bool, profile: string)

  function Terminals(vs: seq<Viewer>): set<Terminal> {
    set i | 0 <= i < |vs| && vs[i].inZellij :: vs[i].at
  }

  /** How many viewers run outside Zellij, each of them a terminal of its own. */
  function OutsideCount(vs: seq<Viewer>): nat {
    if vs == [] then 0 else OutsideCount(vs[..|vs| - 1]) + if vs[|vs| - 1].inZellij then 0 else 1
  }

  predicate NoDuplicates<T(==)>(s: seq<T>) {
    forall i, j :: 0 <= i < j < |s| ==> s[i] != s[j]
  }

  lemma OneOfEach(s: seq<Terminal>, t: set<Terminal>)
    requires NoDuplicates(s) && forall x :: x in s <==> x in t
    ensures |s| == |t|
  {
    if s == [] {
      assert t == {};
    } else {
      var rest := s[..|s| - 1];
      assert s == rest + [s[|s| - 1]];
      OneOfEach(rest, t - {s[|s| - 1]});
    }
  }

  /** The viewers sorted into terminals, in the order in which the terminals come up. */
  ghost predicate Grouped(vs: seq<Viewer>, types: map<Terminal, seq<Viewer>>, terminals: seq<Terminal>) {
    && NoDuplicates(terminals)
    && (forall t :: t in terminals <==> t in types)
    && types.Keys == Terminals(vs)
    && (forall t :: t in types ==> types[t] != [] && forall v :: v in types[t] <==> v in vs && v.inZellij && v.at == t)
  }

  lemma GroupedStep(vs: seq<Viewer>, v: Viewer, types: map<Terminal, seq<Viewer>>, terminals: seq<Terminal>)
    requires Grouped(vs, types, terminals)
    ensures !v.inZellij ==> Grouped(vs + [v], types, terminals)
    ensures v.inZellij ==>
      Grouped(vs + [v], types[v.at := (if v.at in types then types[v.at] else []) + [v]],
              if v.at in types then terminals else terminals + [v.at])
  {
    assert Terminals(vs + [v]) == Terminals(vs) + if v.inZellij then {v.at} else {} by {
      assert forall k :: 0 <= k < |vs| ==> (vs + [v])[k] == vs[k];
      assert (vs + [v])[|vs|] == v;
    }
  }

  method GroupViewers(vs: seq<Viewer>)
    returns (types: map<Terminal, seq<Viewer>>, terminals: seq<Terminal>, outside: nat)
    ensures Grouped(vs, types, terminals) && outside == OutsideCount(vs)
  {
    types, terminals, outside := map[], [], 0;
    for i := 0 to |vs|
      invariant Grouped(vs[..i], types, terminals) && outside == OutsideCount(vs[..i])
    {
      assert vs[..i + 1] == vs[..i] + [vs[i]] && vs[..i + 1][..i] == vs[..i];
      GroupedStep(vs[..i], vs[i], types, terminals);
      if !vs[i].inZellij {
        outside := outside + 1;
      } else {
        var t := vs[i].at;
        if t !in types {
          terminals := terminals + [t];
        }
        types := types[t := (if t in types then types[t] else []) + [vs[i]]];
      }
    }
    assert vs[..|vs|] == vs;
  }

  /** The viewer whose profile the row takes: the first parked one, else the first. */
  method ChooseViewer(group: seq<Viewer>) returns (chosen: Viewer)
    requires group != []
    ensures chosen in group && (chosen.parked <==> exists v :: v in group && v.parked)
    ensures !chosen.parked ==> chosen == group[0]
  {
    chosen := group[0];
    var k := 0;
    while k < |group|
      invariant 0 <= k <= |group| && chosen == group[0]
      invariant forall j :: 0 <= j < k ==> !group[j].parked
    {
      if group[k].parked {
        return group[k];
      }
      k := k + 1;
    }
  }

  /**
   The resolution of a job with these viewers. The event is delivered exactly when all viewers share one terminal of
   Zellij; the terminals in which the job is viewed are all reported, so that none of them is taken for a row left
   behind.
   */
  ghost predicate IsResolution(vs: seq<Viewer>, att: Attribution) {
    && Consistent(att) && !att.reason.RecordMissing? && !att.reason.ViewerEnv?
    && NoDuplicates(att.terminals) && (forall t :: t in att.terminals <==> t in Terminals(vs))
    && (att.reason.SeveralViewers? <==> |Terminals(vs)| + OutsideCount(vs) > 1)
    && (att.reason.Headless? <==> vs == [])
    && (att.reason.ViewerNotInZellij? <==> |vs| == 1 && !vs[0].inZellij)
    && (att.Delivers() <==> vs != [] && forall v :: v in vs ==> v.inZellij && v.at == vs[0].at)
    && (att.Delivers() ==>
          && att.at == vs[0].at
          && (att.reason.ParkedViewer? <==> exists v :: v in vs && v.parked)
          && exists v :: v in vs && v.parked == att.reason.ParkedViewer? && v.profile == att.profile)
  }

  /** Picks the terminal of a job from its viewers; viewers is None when they could not be listed. */
  method ResolveBackground(viewers: Option<seq<Viewer>>) returns (att: Attribution)
    ensures viewers == None ==> att == Attribution(NO_TERMINAL, RecordMissing, "", [])
    ensures viewers.Some? ==> IsResolution(viewers.value, att)
  {
    if viewers == None {
      return Attribution(NO_TERMINAL, RecordMissing, "", []);
    }
    var vs := viewers.value;
    var types, terminals, outside := GroupViewers(vs);
    OneOfEach(terminals, Terminals(vs));
    if |types| + outside > 1 {
      ResolvesToSeveral(vs, terminals);
      return Attribution(NO_TERMINAL, SeveralViewers, "", terminals);
    }
    if |types| == 0 {
      ResolvesToNobody(vs);
      return Attribution(NO_TERMINAL, if outside == 1 then ViewerNotInZellij else Headless, "", terminals);
    }
    var chosen := ChooseViewer(types[terminals[0]]);
    att := Attribution(terminals[0], if chosen.parked then ParkedViewer else AttachViewer, chosen.profile, terminals);
    ResolvesToOne(vs, terminals, types[terminals[0]], chosen);
  }

  lemma ResolvesToSeveral(vs: seq<Viewer>, terminals: seq<Terminal>)
    requires NoDuplicates(terminals) && forall t :: t in terminals <==> t in Terminals(vs)
    requires |Terminals(vs)| + OutsideCount(vs) > 1
    ensures IsResolution(vs, Attribution(NO_TERMINAL, SeveralViewers, "", terminals))
  {
    SeveralTerminals(vs);
  }

  lemma ResolvesToNobody(vs: seq<Viewer>)
    requires Terminals(vs) == {} && OutsideCount(vs) <= 1
    ensures IsResolution(vs,
      Attribution(NO_TERMINAL, if OutsideCount(vs) == 1 then ViewerNotInZellij else Headless, "", []))
  {
    FewOutside(vs);
    assert vs != [] ==> vs[0] in vs;
  }

  lemma ResolvesToOne(vs: seq<Viewer>, terminals: seq<Terminal>, group: seq<Viewer>, chosen: Viewer)
    requires |terminals| == 1 && (forall t :: t in terminals <==> t in Terminals(vs)) && |Terminals(vs)| == 1
    requires OutsideCount(vs) == 0
    requires chosen in group && forall v :: v in group <==> v in vs && v.inZellij && v.at == terminals[0]
    requires chosen.parked <==> exists v :: v in group && v.parked
    ensures IsResolution(vs, Attribution(
      terminals[0], if chosen.parked then ParkedViewer else AttachViewer, chosen.profile, terminals))
  {
    OneTerminal(vs, terminals[0]);
    assert forall v :: v in vs <==> v in group;
  }

  /** A single terminal and nobody outside: all viewers are there. */
  lemma OneTerminal(vs: seq<Viewer>, t: Terminal)
    requires |Terminals(vs)| == 1 && t in Terminals(vs) && OutsideCount(vs) == 0
    ensures vs != [] && vs[0].at == t
    ensures forall v :: v in vs ==> v.inZellij && v.at == t
  {
    OutsideCountZero(vs);
    forall v | v in vs ensures v.inZellij && v.at == t {
      var i :| 0 <= i < |vs| && vs[i] == v;
      assert vs[i].at in Terminals(vs);
      if v.at != t {
        SubsetSize({v.at, t}, Terminals(vs));
        assert false;
      }
    }
    assert vs[0] in vs;
  }

  lemma OutsideCountZero(vs: seq<Viewer>)
    ensures OutsideCount(vs) == 0 <==> forall v :: v in vs ==> v.inZellij
  {
    if vs != [] {
      assert vs == vs[..|vs| - 1] + [vs[|vs| - 1]];
    }
  }

  /** Several terminals means that the viewers do not share one. */
  lemma SeveralTerminals(vs: seq<Viewer>)
    requires |Terminals(vs)| + OutsideCount(vs) > 1
    ensures |vs| > 1
    ensures !forall v :: v in vs ==> v.inZellij && v.at == vs[0].at
  {
    OutsideCountZero(vs);
    if forall v :: v in vs ==> v.inZellij && v.at == vs[0].at {
      assert Terminals(vs) <= {vs[0].at} by {
        forall t | t in Terminals(vs) ensures t == vs[0].at {
          var i :| 0 <= i < |vs| && vs[i].at == t;
          assert vs[i] in vs;
        }
      }
      SubsetSize(Terminals(vs), {vs[0].at});
      assert false;
    }
  }

  /** With no viewer in Zellij, the outside viewers are all the viewers. */
  lemma FewOutside(vs: seq<Viewer>)
    requires Terminals(vs) == {}
    ensures OutsideCount(vs) == |vs|
    ensures forall i :: 0 <= i < |vs| ==> !vs[i].inZellij
  {
    assert forall i :: 0 <= i < |vs| && vs[i].inZellij ==> vs[i].at in Terminals(vs);
    if vs != [] {
      var rest := vs[..|vs| - 1];
      assert forall i :: 0 <= i < |rest| ==> rest[i] == vs[i];
      assert Terminals(rest) == {};
      FewOutside(rest);
    }
  }

  // ---- What a hook decides ----

  /** The next owner of the job, and the owner whose row is left behind; write says whether the ledger changes. */
  datatype Decision = Decision(release: Option<Entry>, next: Option<Entry>, write: bool)

  function Transition(cur: Option<Entry>, att: Attribution, sessionID: string, event: string, now: int): Decision {
    var owner := Entry(att.at, sessionID, now, false, []);
    if IsEnd(event) then
      if cur == None then Decision(None, None, false)
      else if att.reason.RecordMissing? then Decision(None, cur, false)
      else if !att.Delivers() || cur.value.at != att.at then Decision(cur, None, true)
      else Decision(None, None, true)
    else if cur == None then
      if att.Delivers() then Decision(None, Some(owner), true) else Decision(None, None, false)
    else match att.reason
      case RecordMissing => Decision(None, cur, false)
      case SeveralViewers =>
        if cur.value.at in att.terminals then Decision(None, cur, false) else Decision(cur, None, true)
      case Headless => Decision(cur, None, true)
      case ViewerNotInZellij => Decision(cur, None, true)
      case _ =>
        if cur.value.at != att.at then Decision(cur, Some(owner), true)
        else if cur.value.sessionID != sessionID || now - cur.value.updatedAt >= HOUR_SECONDS
        then Decision(None, Some(cur.value.(sessionID := sessionID, updatedAt := now)), true)
        else Decision(None, cur, false)
  }

  /**
   A row is left behind exactly when the job is known not to be viewed there, or ends elsewhere. The job has an owner
   afterwards exactly when its event is delivered, or its row is still viewed or may be.
   */
  lemma LeavesExactlyUnviewedRows(cur: Option<Entry>, att: Attribution, sessionID: string, event: string, now: int)
    requires Consistent(att)
    ensures var d := Transition(cur, att, sessionID, event, now);
      && d.release == (
        if cur == None || att.reason.RecordMissing? then None
        else if IsEnd(event) then if att.Delivers() && att.at == cur.value.at then None else cur
        else if Viewed(att, cur.value.at) then None else cur)
      && (d.next.Some? <==>
        if IsEnd(event) then cur.Some? && att.reason.RecordMissing?
        else att.Delivers() || (cur.Some? && (att.reason.RecordMissing? || Viewed(att, cur.value.at))))
      && (d.next.Some? ==> d.next.value.at == if att.Delivers() && !IsEnd(event) then att.at else cur.value.at)
  {
  }

  predicate SameRow(a: RowRelease, b: RowRelease) {
    a.at == b.at && a.sessionID == b.sessionID
  }

  predicate ContainsRelease(releases: seq<RowRelease>, r: RowRelease) {
    exists k :: 0 <= k < |releases| && SameRow(releases[k], r)
  }

  /** The release names the row that the entry owns. */
  predicate OwnRow(e: Entry, r: RowRelease) {
    !e.released && r.at == e.at && r.sessionID == e.sessionID
  }

  /** The releases that stay pending beside the owner: its own row is not among them, and none comes twice. */
  function Kept(owner: Entry, pending: seq<RowRelease>): seq<RowRelease> {
    if pending == [] then []
    else
      var kept, r := Kept(owner, pending[..|pending| - 1]), pending[|pending| - 1];
      if OwnRow(owner, r) || ContainsRelease(kept, r) then kept else kept + [r]
  }

  method KeepPending(owner: Entry, pending: seq<RowRelease>) returns (kept: seq<RowRelease>)
    ensures kept == Kept(owner, pending)
  {
    kept := [];
    for i := 0 to |pending|
      invariant kept == Kept(owner, pending[..i])
    {
      assert pending[..i + 1][..i] == pending[..i];
      if !OwnRow(owner, pending[i]) && !ContainsRelease(kept, pending[i]) {
        kept := kept + [pending[i]];
      }
    }
    assert pending[..|pending|] == pending;
  }

  /** What a hook is about to write: the entry that shall be stored, and whether storing is needed. */
  datatype Intent = Intent(next: Option<Entry>, write: bool)

  function Pending(stored: Option<Entry>, d: Decision): seq<RowRelease> {
    (if stored.Some? then stored.value.pending else []) +
    (if d.release.Some? then [RowRelease(d.release.value.at, d.release.value.sessionID, 0, 0)] else [])
  }

  /** The intent of a hook, from the stored entry of its job and the viewers it found. */
  function Plan(stored: Option<Entry>, att: Attribution, sessionID: string, event: string, now: int): Intent {
    var d := Transition(if stored.Some? && !stored.value.released then stored else None, att, sessionID, event, now);
    var pending := Pending(stored, d);
    if pending == [] then Intent(d.next, d.write)
    else
      var owner := if d.next.Some? then d.next.value else Entry(NO_TERMINAL, "", 0, true, []);
      Intent(Some(owner.(pending := Kept(owner, pending))), true)
  }

  // ---- What the ledger promises ----

  /** The ledger entry remembers the row at t, as the owner's or as one still to be released. */
  ghost predicate Covered(e: Option<Entry>, t: Terminal) {
    e.Some? && ((!e.value.released && e.value.at == t) || exists r :: r in e.value.pending && r.at == t)
  }

  ghost predicate Owns(e: Option<Entry>, t: Terminal) {
    e.Some? && !e.value.released && e.value.at == t
  }

  const MAX_ATTEMPTS: nat := 6

  /** What holds of every stored entry. */
  ghost predicate WellFormed(e: Entry) {
    && (e.released ==> e.pending != [])
    && (forall j, k :: 0 <= j < k < |e.pending| ==> !SameRow(e.pending[j], e.pending[k]))
    && (forall r :: r in e.pending ==> !OwnRow(e, r) && r.attempts <= MAX_ATTEMPTS)
  }

  ghost predicate WellFormedOption(e: Option<Entry>) {
    e.Some? ==> WellFormed(e.value)
  }

  lemma {:induction false} KeptCovers(owner: Entry, pending: seq<RowRelease>, r: RowRelease)
    requires r in pending
    ensures OwnRow(owner, r) || ContainsRelease(Kept(owner, pending), r)
  {
    var front, last := pending[..|pending| - 1], pending[|pending| - 1];
    assert pending == front + [last];
    var kept := Kept(owner, front);
    if r in front {
      KeptCovers(owner, front, r);
      if ContainsRelease(kept, r) {
        var k :| 0 <= k < |kept| && SameRow(kept[k], r);
        assert Kept(owner, pending)[k] == kept[k];
      }
    } else if !OwnRow(owner, last) && !ContainsRelease(kept, last) {
      assert Kept(owner, pending)[|kept|] == r;
    }
  }

  lemma {:induction false} KeptIsWellFormed(owner: Entry, pending: seq<RowRelease>)
    requires forall r :: r in pending ==> r.attempts <= MAX_ATTEMPTS
    ensures var kept := Kept(owner, pending);
      && (forall r :: r in kept ==> r in pending && !OwnRow(owner, r))
      && (forall j, k :: 0 <= j < k < |kept| ==> !SameRow(kept[j], kept[k]))
  {
    if pending != [] {
      assert pending == pending[..|pending| - 1] + [pending[|pending| - 1]];
      KeptIsWellFormed(owner, pending[..|pending| - 1]);
    }
  }

  /**
   No intent drops a row: what the stored entry covers, the intent covers as well, save the row at which a
   SessionEnd is delivered. And a hook that will deliver to a row owns it in its intent.
   */
  lemma PlanKeepsRows(stored: Option<Entry>, att: Attribution, sessionID: string, event: string, now: int, t: Terminal)
    ensures Covered(stored, t) && !(IsEnd(event) && att.Delivers() && t == att.at) ==>
      Covered(Plan(stored, att, sessionID, event, now).next, t)
    ensures att.Delivers() && !IsEnd(event) ==> Owns(Plan(stored, att, sessionID, event, now).next, att.at)
    ensures !Plan(stored, att, sessionID, event, now).write ==>
      || Plan(stored, att, sessionID, event, now).next == stored
      || (stored.Some? && stored.value.released && stored.value.pending == [])
  {
    var d := Transition(if stored.Some? && !stored.value.released then stored else None, att, sessionID, event, now);
    var pending := Pending(stored, d);
    if pending != [] && Covered(stored, t) {
      var owner := if d.next.Some? then d.next.value else Entry(NO_TERMINAL, "", 0, true, []);
      if !stored.value.released && stored.value.at == t {
        if d.release.Some? {
          KeptCovers(owner, pending, pending[|pending| - 1]);
        }
      } else {
        var r :| r in stored.value.pending && r.at == t;
        KeptCovers(owner, pending, r);
      }
    }
  }

  /** Every intent formed from a well-formed entry is well-formed. */
  lemma PlanIsWellFormed(stored: Option<Entry>, att: Attribution, sessionID: string, event: string, now: int)
    requires WellFormedOption(stored)
    ensures WellFormedOption(Plan(stored, att, sessionID, event, now).next)
  {
    var d := Transition(if stored.Some? && !stored.value.released then stored else None, att, sessionID, event, now);
    var pending := Pending(stored, d);
    if pending != [] {
      var owner := if d.next.Some? then d.next.value else Entry(NO_TERMINAL, "", 0, true, []);
      KeptIsWellFormed(owner, pending);
      if d.next == None {
        assert pending[0] in pending;
        KeptCovers(owner, pending, pending[0]);
      }
    }
  }

  // ---- Releasing rows ----

  /** A row is released only where the job is known not to be viewed. */
  predicate CanRelease(att: Attribution, r: RowRelease) {
    && !att.reason.RecordMissing?
    && r.at !in att.terminals
    && (!att.Delivers() || att.at != r.at)
  }

  /** A resolved attribution never lets a row be released where a viewer is. */
  lemma NeverReleasesAViewedRow(vs: seq<Viewer>, att: Attribution, r: RowRelease, v: Viewer)
    requires forall t :: t in att.terminals <==> t in Terminals(vs)
    requires v in vs && v.inZellij && v.at == r.at
    ensures !CanRelease(att, r)
  {
    var i :| 0 <= i < |vs| && vs[i] == v;
    assert vs[i].at in Terminals(vs);
  }

  function Pow2(n: nat): nat {
    if n == 0 then 1 else 2 * Pow2(n - 1)
  }

  /** What becomes of one release in a hook. The clock is read before the call, and again when it failed. */
  datatype SendOutcome = SendOutcome(now: int, budgetSpent: bool, sent: bool, failedAt: int)

  predicate Attempted(att: Attribution, r: RowRelease, o: SendOutcome) {
    CanRelease(att, r) && r.retryAfter <= o.now && !o.budgetSpent
  }

  function Retried(r: RowRelease, failedAt: int): RowRelease
  {
    var attempts := if r.attempts < MAX_ATTEMPTS then r.attempts + 1 else r.attempts;
    r.(attempts := attempts, retryAfter := failedAt + 1000 * Pow2(attempts - 1))
  }

  function AfterSend(att: Attribution, r: RowRelease, o: SendOutcome): Option<RowRelease> {
    if !Attempted(att, r, o) then Some(r)
    else if o.sent then None
    else Some(Retried(r, o.failedAt))
  }

  /** The releases still pending after the outcomes of the sends, in order. */
  function Remaining(att: Attribution, pending: seq<RowRelease>, outcomes: seq<SendOutcome>): seq<RowRelease>
    requires |pending| == |outcomes|
  {
    if pending == [] then []
    else
      var n := |pending| - 1;
      var front, last := Remaining(att, pending[..n], outcomes[..n]), AfterSend(att, pending[n], outcomes[n]);
      if last.Some? then front + [last.value] else front
  }

  /**
   Of releases for different rows, exactly those stay pending that were not attempted or whose send failed; the ones
   not attempted stay as they were.
   */
  lemma {:induction false} OnlySentReleasesGo(
    att: Attribution, pending: seq<RowRelease>, outcomes: seq<SendOutcome>, i: nat
  )
    requires i < |pending| == |outcomes|
    requires forall j, k :: 0 <= j < k < |pending| ==> !SameRow(pending[j], pending[k])
    ensures ContainsRelease(Remaining(att, pending, outcomes), pending[i]) <==>
      !(Attempted(att, pending[i], outcomes[i]) && outcomes[i].sent)
    ensures !Attempted(att, pending[i], outcomes[i]) ==> pending[i] in Remaining(att, pending, outcomes)
  {
    var n := |pending| - 1;
    var front := Remaining(att, pending[..n], outcomes[..n]);
    var all := Remaining(att, pending, outcomes);
    var last := AfterSend(att, pending[n], outcomes[n]);
    assert all == if last.Some? then front + [last.value] else front;
    if i < n {
      OnlySentReleasesGo(att, pending[..n], outcomes[..n], i);
      ContainsAppended(front, last, pending[i]);
    } else {
      if ContainsRelease(front, pending[n]) {
        var k :| 0 <= k < |front| && SameRow(front[k], pending[n]);
        RemainingComeFrom(att, pending[..n], outcomes[..n], front[k]);
      }
      ContainsAppended(front, last, pending[n]);
    }
  }

  lemma ContainsAppended(releases: seq<RowRelease>, last: Option<RowRelease>, r: RowRelease)
    ensures ContainsRelease(if last.Some? then releases + [last.value] else releases, r) <==>
      ContainsRelease(releases, r) || (last.Some? && SameRow(last.value, r))
  {
    if last.Some? {
      var all := releases + [last.value];
      assert forall k :: 0 <= k < |releases| ==> all[k] == releases[k];
      assert all[|releases|] == last.value;
    }
  }

  lemma {:induction false} RemainingComeFrom(
    att: Attribution, pending: seq<RowRelease>, outcomes: seq<SendOutcome>, r: RowRelease
  )
    requires |pending| == |outcomes| && r in Remaining(att, pending, outcomes)
    ensures ContainsRelease(pending, r)
  {
    var n := |pending| - 1;
    if r in Remaining(att, pending[..n], outcomes[..n]) {
      RemainingComeFrom(att, pending[..n], outcomes[..n], r);
      var k :| 0 <= k < n && SameRow(pending[..n][k], r);
      assert SameRow(pending[k], r);
    } else {
      assert SameRow(pending[n], r);
    }
  }

  method SendReleases(att: Attribution, pending: seq<RowRelease>, outcomes: seq<SendOutcome>)
    returns (remaining: seq<RowRelease>)
    requires |pending| == |outcomes|
    ensures remaining == Remaining(att, pending, outcomes)
  {
    remaining := [];
    for i := 0 to |pending|
      invariant remaining == Remaining(att, pending[..i], outcomes[..i])
    {
      assert pending[..i + 1][..i] == pending[..i] && outcomes[..i + 1][..i] == outcomes[..i];
      var r := pending[i];
      if !CanRelease(att, r) || r.retryAfter > outcomes[i].now || outcomes[i].budgetSpent {
        remaining := remaining + [r];
      } else if !outcomes[i].sent {
        remaining := remaining + [Retried(r, outcomes[i].failedAt)];
      }
    }
    assert pending[..|pending|] == pending && outcomes[..|pending|] == outcomes;
  }

  /** The entry after the sends: gone when it only served cleanup and nothing is left to clean up. */
  function Finish(e: Entry, remaining: seq<RowRelease>): Option<Entry> {
    if e.released && remaining == [] then None else Some(e.(pending := remaining))
  }

  /** A failed send is retried after at least one second and never more than 32 seconds later. */
  lemma BackoffIsBounded(r: RowRelease, failedAt: int)
    requires r.attempts <= MAX_ATTEMPTS
    ensures 1 <= Retried(r, failedAt).attempts <= MAX_ATTEMPTS
    ensures failedAt + 1000 <= Retried(r, failedAt).retryAfter <= failedAt + 32000
    ensures r.attempts < MAX_ATTEMPTS ==> Retried(r, failedAt).retryAfter == failedAt + 1000 * Pow2(r.attempts)
  {
    assert Pow2(5) == 32 by {
      assert Pow2(1) == 2 && Pow2(2) == 4 && Pow2(3) == 8 && Pow2(4) == 16;
    }
    var k := Retried(r, failedAt).attempts - 1;
    Pow2Monotone(0, k);
    Pow2Monotone(k, 5);
  }

  lemma Pow2Monotone(m: nat, n: nat)
    requires m <= n
    ensures Pow2(m) <= Pow2(n)
    decreases n - m
  {
    if m < n {
      Pow2Monotone(m + 1, n);
    }
  }
}
