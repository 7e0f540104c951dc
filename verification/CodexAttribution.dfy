/**
 Attribution of Codex events that arrive from the shared daemon (cc-deck/internal/cmd/codex_attribution.go:428-537).

 A session is bound to the terminal client that owns it by a cached mapping that names the client's process id and
 start time. Process ids are reused over time; what the process table answers is an argument of each event.
 */
module CodexAttribution {
  import opened Wrappers

  type SessionID = string

  /** A Codex process that can match an event, as derived from its arguments, directory and environment. */
  datatype Client = Client(dir: string, codexHome: string, pane: Option<(nat, string)>, bindable: bool, profile: string)

  /** A process; client is None when it is no Codex client, or belongs to the shared daemon itself. */
  datatype Process = Process(pid: nat, start: int, client: Option<Client>)

  datatype Mapping = Mapping(paneID: nat, zellijSession: string, clientPID: nat, clientStart: int, profile: string)

  datatype Reason = FromClientCache | Discovered | Ambiguous | NoClient | ClientNotInZellij

  datatype Attribution = Attribution(
    paneID: nat, zellijSession: string, profile: string, reason: Reason, clientPID: nat, clientStart: int, forget: bool)
  {
    predicate Delivers() {
      reason.FromClientCache? || reason.Discovered?
    }

    predicate Names(p: Process) {
      clientPID == p.pid && clientStart == p.start
    }
  }

  function Dropped(reason: Reason): Attribution {
    Attribution(0, "", "", reason, 0, 0, false)
  }

  /** One hook invocation. process is what the table answers for the mapped pid, listing is its listing, if any. */
  datatype HookEvent = HookEvent(
    event: string, sessionID: SessionID, cwd: string, codexHome: string,
    process: Option<Process>, listing: Option<seq<Process>>)

  predicate IsStart(e: HookEvent) {
    e.event == "SessionStart"
  }

  predicate IsEnd(e: HookEvent) {
    e.event == "SessionEnd"
  }

  // ---- The cached client ----

  /** The process still is the client the mapping names, interactive, and in the recorded pane. */
  predicate Live(m: Mapping, process: Option<Process>) {
    && process.Some? && process.value.pid == m.clientPID && process.value.start == m.clientStart
    && process.value.client.Some? && process.value.client.value.bindable
    && process.value.client.value.pane == Some((m.paneID, m.zellijSession))
  }

  function Cached(m: Mapping): Attribution {
    Attribution(m.paneID, m.zellijSession, m.profile, FromClientCache, m.clientPID, m.clientStart, false)
  }

  // ---- Discovery ----

  predicate Matches(p: Process, cwd: string, codexHome: string) {
    p.client.Some? && p.client.value.codexHome == codexHome && p.client.value.dir == cwd
  }

  function MatchCount(procs: seq<Process>, cwd: string, codexHome: string): nat {
    if procs == [] then 0
    else MatchCount(procs[..|procs| - 1], cwd, codexHome) + if Matches(procs[|procs| - 1], cwd, codexHome) then 1 else 0
  }

  /** The last matching process. */
  function LastMatch(procs: seq<Process>, cwd: string, codexHome: string): (p: Process)
    requires MatchCount(procs, cwd, codexHome) > 0
    ensures p in procs && Matches(p, cwd, codexHome)
  {
    if Matches(procs[|procs| - 1], cwd, codexHome) then procs[|procs| - 1]
    else LastMatch(procs[..|procs| - 1], cwd, codexHome)
  }

  function Discover(e: HookEvent): Attribution {
    if e.cwd == "" || e.codexHome == "" || e.listing == None then Dropped(NoClient)
    else
      var count := MatchCount(e.listing.value, e.cwd, e.codexHome);
      if count == 0 then Dropped(NoClient)
      else if count > 1 then Dropped(Ambiguous)
      else
        var p := LastMatch(e.listing.value, e.cwd, e.codexHome);
        if !p.client.value.bindable then Dropped(NoClient)
        else if p.client.value.pane == None then Dropped(ClientNotInZellij)
        else
          var at := p.client.value.pane.value;
          Attribution(at.0, at.1, p.client.value.profile, Discovered, p.pid, p.start, false)
  }

  /** Discovery as the program runs it: one pass over the listing that collects the matching clients. */
  method DiscoverClient(e: HookEvent) returns (att: Attribution)
    ensures att == Discover(e)
  {
    if e.cwd == "" || e.codexHome == "" || e.listing == None {
      return Dropped(NoClient);
    }
    var procs := e.listing.value;
    var matches: seq<Process> := [];
    for i := 0 to |procs|
      invariant |matches| == MatchCount(procs[..i], e.cwd, e.codexHome)
      invariant |matches| > 0 ==> matches[|matches| - 1] == LastMatch(procs[..i], e.cwd, e.codexHome)
    {
      assert procs[..i + 1][..i] == procs[..i];
      if Matches(procs[i], e.cwd, e.codexHome) {
        matches := matches + [procs[i]];
      }
    }
    assert procs[..|procs|] == procs;
    if |matches| == 0 { return Dropped(NoClient); }
    if |matches| > 1 { return Dropped(Ambiguous); }
    var c := matches[0].client.value;
    if !c.bindable { return Dropped(NoClient); }
    if c.pane == None { return Dropped(ClientNotInZellij); }
    att := Attribution(c.pane.value.0, c.pane.value.1, c.profile, Discovered, matches[0].pid, matches[0].start, false);
  }

  // ---- Resolution ----

  /** The mapping that may decide the event: one that names a client, of a session that has a name. */
  function Binding(e: HookEvent, paneMap: map<SessionID, Mapping>): Option<Mapping> {
    if e.sessionID != "" && e.sessionID in paneMap && paneMap[e.sessionID].clientPID > 0
    then Some(paneMap[e.sessionID]) else None
  }

  function Resolve(e: HookEvent, paneMap: map<SessionID, Mapping>): Attribution {
    var b := Binding(e, paneMap);
    var live := b.Some? && Live(b.value, e.process);
    if live && !IsStart(e) then Cached(b.value)
    else if b.Some? && !live && !IsStart(e) then Dropped(NoClient)
    else
      var att := Discover(e);
      if att.reason.Discovered? || !live then att
      else
        var client := e.process.value.client.value;
        if client.dir == e.cwd && client.codexHome == e.codexHome then Cached(b.value) else att.(forget := true)
  }

  /** The mapping an attributed event writes back. */
  function Recorded(att: Attribution): Mapping {
    Mapping(att.paneID, att.zellijSession, att.clientPID, att.clientStart, att.profile)
  }

  // ---- Discovery is never a guess ----

  /** Matching processes at two different places of the listing count as two. */
  lemma {:induction false} TwoMatchesCount(procs: seq<Process>, cwd: string, codexHome: string, i: nat, j: nat)
    requires i < j < |procs| && Matches(procs[i], cwd, codexHome) && Matches(procs[j], cwd, codexHome)
    ensures MatchCount(procs, cwd, codexHome) > 1
  {
    if j == |procs| - 1 {
      OneMatchCounts(procs[..|procs| - 1], cwd, codexHome, i);
    } else {
      TwoMatchesCount(procs[..|procs| - 1], cwd, codexHome, i, j);
    }
  }

  lemma {:induction false} OneMatchCounts(procs: seq<Process>, cwd: string, codexHome: string, i: nat)
    requires i < |procs| && Matches(procs[i], cwd, codexHome)
    ensures MatchCount(procs, cwd, codexHome) > 0
  {
    if i < |procs| - 1 {
      OneMatchCounts(procs[..|procs| - 1], cwd, codexHome, i);
    }
  }

  /**
   A discovered delivery reaches the owner whenever the owner is among the matches: no second process matched, and
   the one that did is the one named.
   */
  lemma DiscoveryReachesTheOwner(e: HookEvent, paneMap: map<SessionID, Mapping>, i: nat)
    requires Resolve(e, paneMap).reason.Discovered?
    requires e.listing.Some? && i < |e.listing.value| && Matches(e.listing.value[i], e.cwd, e.codexHome)
    ensures var att, owner := Resolve(e, paneMap), e.listing.value[i];
      && att.Names(owner) && owner.client.value.bindable
      && owner.client.value.pane == Some((att.paneID, att.zellijSession))
    ensures forall j :: 0 <= j < |e.listing.value| && j != i ==> !Matches(e.listing.value[j], e.cwd, e.codexHome)
  {
    var procs := e.listing.value;
    forall j | 0 <= j < |procs| && j != i ensures !Matches(procs[j], e.cwd, e.codexHome) {
      if Matches(procs[j], e.cwd, e.codexHome) {
        TwoMatchesCount(procs, e.cwd, e.codexHome, if i < j then i else j, if i < j then j else i);
      }
    }
    var p := LastMatch(procs, e.cwd, e.codexHome);
    var k :| 0 <= k < |procs| && procs[k] == p;
  }
}
