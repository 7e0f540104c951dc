/**
 The persisted record of a share and the resources it stands for (cc-deck/internal/share/model.go), and the log of what
 the commands did.

 A share holds two kinds of live resource in Zellij: login credentials, and a web server that cc-deck started.
 Every call that changes something, to Zellij or to the state file, leaves an event in the log.
 */
module SharingModel {
  import opened Wrappers

  datatype Role = Interactive | Observer | OtherRole

  datatype InvitationState = InvitationActive | InvitationRevoked

  datatype InvitationRecord = InvitationRecord(
    inviteLabel: string, credential: string, role: Role, state: InvitationState, createdAt: int)

  datatype ProbeStage = StageDNS | StageTLS | StageHTTP | StageAuth | StageWebSocket

  datatype ProbeResult = ProbeOk(checkedAt: int) | ProbeFailed(failedAt: ProbeStage, checkedAt: int)

  datatype LifecycleState = StateInactive | StateStarting | StateActive | StateStopping | StateDegraded

  datatype Residual =
    | Diagnostic(text: string)
    | UndoFailed(resource: Resource)
    | CredentialMayRemainActive(inviteLabel: string)
    | RemoteClientsMayRemain
    | StoppingNotPersisted
    | RecordNotRemoved

  /** The content of the state file. */
  datatype OperationRecord = OperationRecord(
    id: nat,
    workspace: string,
    session: string,
    endpointName: string,
    endpointURL: string,
    invitations: seq<InvitationRecord>,
    webServerOwned: bool,
    webServerStopped: bool,
    lastProbe: Option<ProbeResult>,
    state: LifecycleState,
    createdAt: int,
    updatedAt: int,
    residuals: seq<Residual>)

  /** Something alive in Zellij because cc-deck asked for it: a credential, or the web server of one share. */
  datatype Resource = Credential(name: string) | WebServer(share: nat)

  datatype Event =
    | Acquired(r: Resource)       // Zellij created r and told cc-deck
    | LostReply(r: Resource)      // Zellij created r, but the call returned an error
    | AcquireFailed               // nothing was created
    | ServerRunning               // a web server was running already
    | Released(r: Resource)       // Zellij confirmed that r is gone
    | CleanupFailed(r: Resource)  // revoking or stopping r returned an error
    | Unnamed                     // an invitation to revoke has no credential name, so no call was possible
    | Wrote(state: LifecycleState, listed: set<Resource>)  // the state file now lists these as outstanding
    | WriteFailed                 // the state file could not be written or removed
    | Crash                       // the command was killed

  predicate IsFault(e: Event) {
    e.LostReply? || e.AcquireFailed? || e.CleanupFailed? || e.Unnamed? || e.WriteFailed? || e.Crash?
  }

  predicate NoFaults(log: seq<Event>) {
    forall e :: e in log ==> !IsFault(e)
  }

  // ---- What a record names ----

  function ActiveCredentials(invitations: seq<InvitationRecord>): set<Resource> {
    set i | 0 <= i < |invitations| && invitations[i].state.InvitationActive? :: Credential(invitations[i].credential)
  }

  /** What a later cleanup of this record would still try to release. */
  function Outstanding(op: OperationRecord): set<Resource> {
    ActiveCredentials(op.invitations) +
    (if op.webServerOwned && !op.webServerStopped then {WebServer(op.id)} else {})
  }

  /** Every resource the record names, whether released or not. */
  function Named(op: OperationRecord): set<Resource> {
    (set i | 0 <= i < |op.invitations| :: Credential(op.invitations[i].credential)) +
    (if op.webServerOwned then {WebServer(op.id)} else {})
  }

  function Recorded(stored: Option<OperationRecord>): set<Resource> {
    if stored.Some? then Outstanding(stored.value) else {}
  }

  /** The event of writing this record. */
  function WroteOf(op: OperationRecord): Event {
    Wrote(op.state, Outstanding(op))
  }

  lemma NamedOutstanding(op: OperationRecord, r: Resource)
    requires r in Outstanding(op)
    ensures r in Named(op)
  {
  }

  // ---- How a record changes ----

  /** The record with every invitation of this credential marked revoked. */
  function MarkRevoked(invitations: seq<InvitationRecord>, credential: string): (marked: seq<InvitationRecord>)
    ensures |marked| == |invitations|
    ensures ActiveCredentials(marked) == ActiveCredentials(invitations) - {Credential(credential)}
  {
    var marked := seq(|invitations|, i requires 0 <= i < |invitations| =>
      if invitations[i].credential == credential then invitations[i].(state := InvitationRevoked) else invitations[i]);
    assert forall i :: 0 <= i < |marked| && marked[i].state.InvitationActive? ==> marked[i] == invitations[i];
    assert forall i :: 0 <= i < |marked| && invitations[i].credential != credential ==> marked[i] == invitations[i];
    marked
  }

  /** after is before with some invitations marked revoked. */
  ghost predicate SameButRevoked(before: seq<InvitationRecord>, after: seq<InvitationRecord>) {
    && |before| == |after|
    && forall i :: 0 <= i < |before| ==> after[i] == before[i] || after[i] == before[i].(state := InvitationRevoked)
  }

  /**
   Two records of one operation, after at least as far in its cleanup as before: they name the same, and nothing is
   outstanding in after that is not in before.
   */
  ghost predicate SameOperation(before: OperationRecord, after: OperationRecord) {
    && after.(invitations := before.invitations, webServerStopped := before.webServerStopped, state := before.state,
              lastProbe := before.lastProbe, updatedAt := before.updatedAt, residuals := before.residuals) == before
    && SameButRevoked(before.invitations, after.invitations)
    && (before.webServerStopped != after.webServerStopped ==> after.webServerStopped && before.webServerOwned)
  }

  /** The two records agree in all that a cleanup is about. */
  predicate SameResources(before: OperationRecord, after: OperationRecord) {
    after.(state := before.state, lastProbe := before.lastProbe, updatedAt := before.updatedAt,
           residuals := before.residuals) == before
  }

  /** The two records differ at most in the recorded probe and its time: reporting changed nothing else. */
  predicate OnlyProbeDiffers(before: OperationRecord, after: OperationRecord) {
    after.(lastProbe := before.lastProbe, updatedAt := before.updatedAt) == before
  }

  lemma SameOperationTransitive(a: OperationRecord, b: OperationRecord, c: OperationRecord)
    requires SameOperation(a, b) && SameOperation(b, c)
    ensures SameOperation(a, c)
  {
  }

  /** Cleaning up never makes anything outstanding that was not. */
  lemma SameOperationShrinks(before: OperationRecord, after: OperationRecord)
    requires SameOperation(before, after)
    ensures Outstanding(after) <= Outstanding(before)
    ensures Named(after) == Named(before)
  {
    forall r | r in ActiveCredentials(after.invitations) ensures r in ActiveCredentials(before.invitations) {
      var i :| 0 <= i < |after.invitations| && after.invitations[i].state.InvitationActive?
        && Credential(after.invitations[i].credential) == r;
      assert after.invitations[i] == before.invitations[i];
    }
    forall r | r in Named(before) ensures r in Named(after) {
      if i :| 0 <= i < |before.invitations| && Credential(before.invitations[i].credential) == r {
        assert after.invitations[i].credential == before.invitations[i].credential;
      }
    }
  }

  /** Adding an active invitation adds its credential to what is outstanding, and nothing else. */
  lemma AppendInvitation(op: OperationRecord, invitation: InvitationRecord)
    requires invitation.state.InvitationActive?
    ensures var more := op.(invitations := op.invitations + [invitation]);
      && Outstanding(more) == Outstanding(op) + {Credential(invitation.credential)}
      && Named(more) == Named(op) + {Credential(invitation.credential)}
  {
    var more := op.invitations + [invitation];
    assert forall i :: 0 <= i < |op.invitations| ==> more[i] == op.invitations[i];
    assert more[|op.invitations|] == invitation;
  }

  /** The record after the undo of r was confirmed. */
  function Freed(r: Resource, op: OperationRecord): OperationRecord {
    match r
    case WebServer(_) => op.(webServerStopped := true)
    case Credential(name) => op.(invitations := MarkRevoked(op.invitations, name))
  }

  lemma FreedShrinks(r: Resource, before: OperationRecord, op: OperationRecord)
    requires SameOperation(before, op) && r in Outstanding(op)
    ensures SameOperation(before, Freed(r, op)) && Outstanding(Freed(r, op)) == Outstanding(op) - {r}
  {
  }
}
