/**
 The sharing lifecycle (cc-deck/internal/share/service.go).

 A SharingService object stands for one machine: the state file, what is alive in Zellij, and the commands that
 work on both. Every call that changes something may succeed, return an error (with or without having taken
 effect, as the real call allows) or be the point at which the command is killed. A killed command stops there,
 so what a method promises for the outcome Crashed holds at every instant of every run.
 The answers of calls that only read (the state file, session lookup, endpoint configuration, endpoint probe, random
 labels) are arguments of the commands.
 */
module SharingService {
  import opened Wrappers
  import opened SharingModel
  import opened SharingAccounts
  import opened SharingCleanup

  /** How a call that changes something ended. */
  datatype Reply = Succeeded | Errored | Killed

  datatype Error =
    | LoadError | AlreadyShared | StaleResourcesRemain | CapabilitiesMissing | SessionRequired | SessionUnknown
    | SessionAbsent | EndpointUnresolved | RandomFailed | CallError | ProbeFailedError | ProbeInconclusive
    | InvalidEndpoint | NoActiveOperation | OtherWorkspace | InvalidRole | LabelTaken | NoCredentialName
    | LabelNotFound | CleanupIncomplete | Unverified

  datatype Outcome = Done | Failed(error: Error) | Crashed

  datatype SessionAnswer = Present | Absent | NoAnswer

  datatype ProbeAnswer = Verdict(result: ProbeResult) | Inconclusive {
    predicate Passed() {
      Verdict? && result.ProbeOk?
    }
  }

  datatype StartRequest = StartRequest(workspace: string, session: string, noVerify: bool)

  /** What the read-only calls of Start answer, in the order they are made. */
  datatype StartAnswers = StartAnswers(
    readable: bool, capabilities: bool, session: SessionAnswer, endpoint: Option<(string, string)>, id: Option<nat>,
    labels: Option<(string, string)>, probe: ProbeAnswer, endpointParses: bool)

  datatype InviteRequest = InviteRequest(workspace: string, inviteLabel: string, role: Role, noVerify: bool)

  datatype InviteAnswers = InviteAnswers(
    readable: bool, session: SessionAnswer, freshLabel: Option<string>, probe: ProbeAnswer, endpointParses: bool)

  datatype Invitation = Invitation(inviteLabel: string, credential: string, role: Role)

  datatype SharingStatus = SharingStatus(
    state: LifecycleState, lastProbe: Option<ProbeResult>, invitations: seq<InvitationRecord>,
    interactiveAvailable: bool, observerAvailable: bool, residuals: seq<Residual>)

  /** One step of a run: a command, or something else on the machine taking resources away. */
  datatype Command =
    | StartCommand(start: StartRequest, startAnswers: StartAnswers)
    | InviteCommand(invite: InviteRequest, inviteAnswers: InviteAnswers)
    | RevokeCommand(revokeReadable: bool, revokeWorkspace: string, revokeLabel: string)
    | StatusCommand(statusReadable: bool, session: SessionAnswer, probe: ProbeAnswer)
    | SnapshotCommand(snapshotReadable: bool)
    | StopCommand(stopReadable: bool, stopWorkspace: string)
    | Vanish(gone: set<Resource>)

  /** A step that reports on a share without evidence that its session is over. */
  predicate OnlyObserves(c: Command) {
    c.SnapshotCommand? || (c.StatusCommand? && !c.session.Absent?)
  }

  const INACTIVE_STATUS := SharingStatus(StateInactive, None, [], false, false, [])

  predicate Available(op: OperationRecord, role: Role) {
    op.state.StateActive? &&
    exists i :: 0 <= i < |op.invitations| && op.invitations[i].state.InvitationActive? && op.invitations[i].role == role
  }

  function StatusFromOperation(op: OperationRecord): SharingStatus {
    SharingStatus(
      op.state, op.lastProbe, op.invitations, Available(op, Interactive), Available(op, Observer), op.residuals)
  }

  /** The two recorded invitations, active and with different credentials, are the ones handed out. */
  predicate HandedOut(recorded: seq<InvitationRecord>, invitations: seq<Invitation>) {
    && |recorded| == 2 == |invitations|
    && (forall i :: 0 <= i < 2 ==> Grants(recorded[i], invitations[i]))
    && recorded[0].role.Interactive? && recorded[1].role.Observer?
    && recorded[0].credential != recorded[1].credential
  }

  predicate Shared(op: OperationRecord, invitations: seq<Invitation>) {
    op.state.StateActive? && HandedOut(op.invitations, invitations)
  }

  predicate Grants(recorded: InvitationRecord, i: Invitation) {
    recorded.state.InvitationActive? && i == Invitation(recorded.inviteLabel, recorded.credential, recorded.role)
  }

  /** The first invitation with this label. */
  predicate FirstLabelled(invitations: seq<InvitationRecord>, inviteLabel: string, i: nat) {
    && i < |invitations| && invitations[i].inviteLabel == inviteLabel
    && forall k :: 0 <= k < i ==> invitations[k].inviteLabel != inviteLabel
  }

  /** The record after the probe and the invitation of an Invite; lastProbe is the probe of the gate, if it ran. */
  predicate Invited(before: OperationRecord, after: OperationRecord, i: Invitation, lastProbe: Option<ProbeResult>) {
    && |after.invitations| == |before.invitations| + 1
    && after.invitations[..|before.invitations|] == before.invitations
    && Grants(after.invitations[|before.invitations|], i)
    && after == before.(
         invitations := after.invitations, updatedAt := after.updatedAt,
         lastProbe := if lastProbe.Some? then lastProbe else before.lastProbe)
  }

  /** Whatever becomes of an Invite, at most the probe and one more invitation differ. */
  ghost predicate AtMostInvited(before: OperationRecord, after: OperationRecord) {
    OnlyProbeDiffers(before, after) || exists i, lastProbe :: Invited(before, after, i, lastProbe)
  }

  lemma ProbedThenInvited(
    before: OperationRecord, probed: OperationRecord, after: OperationRecord, i: Invitation, probe: Option<ProbeResult>
  )
    requires OnlyProbeDiffers(before, probed) && probed.lastProbe == (if probe.Some? then probe else before.lastProbe)
    requires Invited(probed, after, i, None)
    ensures Invited(before, after, i, probe) && AtMostInvited(before, after)
  {
    assert Invited(before, after, i, probe);
  }

  /** The transitions of the path a healthy operation takes. */
  predicate Allowed(from: LifecycleState, to: LifecycleState) {
    match from
    case StateStarting => to.StateActive? || to.StateDegraded?
    case StateActive => to.StateStopping? || to.StateDegraded?
    case StateStopping => to.StateDegraded?
    case StateDegraded => to.StateStopping?
    case StateInactive => false
  }

  /** The operation a command holds in memory and updates in place. */
  class SharingOperation {
    const id: nat
    const workspace: string
    const session: string
    const endpointName: string
    const endpointURL: string
    const createdAt: int
    var invitations: seq<InvitationRecord>
    var webServerOwned: bool
    var webServerStopped: bool
    var lastProbe: Option<ProbeResult>
    var state: LifecycleState
    var updatedAt: int
    var residuals: seq<Residual>

    function Record(): OperationRecord
      reads this
    {
      OperationRecord(id, workspace, session, endpointName, endpointURL, invitations, webServerOwned,
                      webServerStopped, lastProbe, state, createdAt, updatedAt, residuals)
    }

    constructor FromRecord(r: OperationRecord)
      ensures Record() == r
    {
      id, workspace, session := r.id, r.workspace, r.session;
      endpointName, endpointURL, createdAt := r.endpointName, r.endpointURL, r.createdAt;
      invitations, webServerOwned, webServerStopped := r.invitations, r.webServerOwned, r.webServerStopped;
      lastProbe, state, updatedAt, residuals := r.lastProbe, r.state, r.updatedAt, r.residuals;
    }

    method Transition(next: LifecycleState, now: int) returns (ok: bool)
      modifies this
      ensures ok == Allowed(old(state), next)
      ensures Record() == if ok then old(Record()).(state := next, updatedAt := now) else old(Record())
    {
      ok := Allowed(state, next);
      if ok {
        state, updatedAt := next, now;
      }
    }

    method RevokeInvitations(credential: string)
      modifies this
      ensures Record() == old(Record()).(invitations := MarkRevoked(old(invitations), credential))
    {
      var i := 0;
      while i < |invitations|
        invariant 0 <= i <= |invitations| == |old(invitations)|
        invariant forall k :: 0 <= k < i ==> invitations[k] == MarkRevoked(old(invitations), credential)[k]
        invariant forall k :: i <= k < |invitations| ==> invitations[k] == old(invitations)[k]
        invariant Record() == old(Record()).(invitations := invitations)
      {
        if invitations[i].credential == credential {
          invitations := invitations[i := invitations[i].(state := InvitationRevoked)];
        }
        i := i + 1;
      }
    }

    /** Notes that a step of a teardown is done. */
    method Complete(step: CleanupStep, now: int)
      requires StepOutstanding(step, Record())
      modifies this
      ensures Record() == Completed(step, old(Record()), now)
    {
      match step {
        case RevokeStep(i) => invitations := invitations[i := invitations[i].(state := InvitationRevoked)];
        case StopServerStep => webServerStopped := true;
      }
      updatedAt := now;
    }

    /** Notes that a resource of this operation is gone. */
    method NoteReleased(r: Resource)
      modifies this
      ensures Record() == Freed(r, old(Record()))
    {
      match r {
        case WebServer(_) => webServerStopped := true;
        case Credential(name) => RevokeInvitations(name);
      }
    }
  }

  class SharingService {
    var stored: Option<OperationRecord>  // the state file
    var live: set<Resource>              // what Zellij currently honours or runs
    ghost var log: seq<Event>
    ghost var inFlight: Option<Resource> // acquired, and not yet in the state file
    ghost var charge: map<Resource, nat>

    /** The accounting, and that the state file names only resources cc-deck acquired. */
    ghost predicate Valid()
      reads this
    {
      && Accounted(live, Recorded(stored), inFlight, charge, log)
      && ReleasesOwnOnly(log)
      && (stored.Some? ==> forall r :: r in Named(stored.value) ==> Acquired(r) in log)
    }

    /** Valid between two commands. */
    ghost predicate Settled()
      reads this
    {
      Valid() && inFlight == None
    }

    /** Every live resource is outstanding in op, charged, or in hand; op names only acquired resources. */
    ghost predicate Covers(op: OperationRecord)
      reads this
    {
      && (forall r :: r in live ==> r in Outstanding(op) || r in charge || inFlight == Some(r))
      && (forall r :: r in Named(op) ==> Acquired(r) in log)
    }

    constructor ()
      ensures Settled() && stored == None && live == {} && log == []
    {
      stored, live, log, inFlight, charge := None, {}, [], None, map[];
    }

    // ---- Calls that change something ----

    /** An event that changes nothing that is accounted for. */
    ghost method Note(e: Event)
      requires Valid() && (e.AcquireFailed? || e.ServerRunning? || e.Unnamed? || e.WriteFailed?)
      modifies this`log
      ensures Valid() && log == old(log) + [e]
    {
      EventKeepsAccounts(live, Recorded(stored), inFlight, charge, log, e);
      ReleasesOwnOnlyAppend(log, e);
      log := log + [e];
    }

    /** The command is killed: what it had in hand is charged to the crash. */
    ghost method Die()
      requires Valid()
      modifies this`log, this`charge, this`inFlight
      ensures Settled()
      ensures log == old(log) + [Crash]
      ensures old(charge).Keys <= charge.Keys && (old(inFlight) == None ==> charge == old(charge))
    {
      ReleasesOwnOnlyAppend(log, Crash);
      if inFlight.Some? {
        ChargeKeepsAccounts(live, Recorded(stored), inFlight, charge, log, Crash, inFlight.value);
        charge := charge[inFlight.value := |log|];
      } else {
        EventKeepsAccounts(live, Recorded(stored), inFlight, charge, log, Crash);
      }
      log := log + [Crash];
      inFlight := None;
    }

    /** Nothing was forgotten that was not before. */
    twostate predicate NothingCharged()
      reads this
    {
      forall r :: r in charge ==> r in old(charge) && charge[r] == old(charge)[r]
    }

    /** The file now holds this record: what it lists is neither in hand nor forgotten any more. */
    ghost method NoteWritten(op: OperationRecord)
      requires Valid() && Covers(op)
      modifies this`log, this`inFlight, this`charge
      ensures Accounted(live, Outstanding(op), inFlight, charge, log) && ReleasesOwnOnly(log)
      ensures log == old(log) + [WroteOf(op)] && charge == old(charge) - Outstanding(op)
      ensures inFlight ==
        if old(inFlight).Some? && old(inFlight).value in Outstanding(op) then None else old(inFlight)
    {
      if inFlight.Some? && inFlight.value in Outstanding(op) {
        inFlight := None;
      }
      charge := charge - Outstanding(op);
      EventKeepsAccounts(live, Outstanding(op), inFlight, charge, log, WroteOf(op));
      ReleasesOwnOnlyAppend(log, WroteOf(op));
      log := log + [WroteOf(op)];
    }

    /**
     Replaces the state file. The last act of the real call is a chmod after the rename, so an error does not
     tell whether the file was replaced.
     */
    method Save(op: SharingOperation) returns (reply: Reply)
      requires Valid() && Covers(op.Record())
      modifies this
      ensures Valid() && live == old(live)
      ensures reply.Succeeded? ==>
        && stored == Some(op.Record()) && log == old(log) + [WroteOf(op.Record())]
        && charge == old(charge) - Outstanding(op.Record())
        && inFlight ==
           if old(inFlight).Some? && old(inFlight).value in Outstanding(op.Record()) then None else old(inFlight)
      ensures reply.Errored? ==>
        && (stored == old(stored) || stored == Some(op.Record()))
        && log == old(log) + [WriteFailed] && charge == old(charge) && inFlight == old(inFlight)
      ensures reply.Killed? ==> stored == old(stored) && Settled() && log == old(log) + [Crash]
      ensures old(inFlight) == None ==> NothingCharged()
    {
      var killed: bool, renamed: bool, failed: bool := *, *, *;
      if killed {
        Die();
        return Killed;
      }
      if failed {
        Note(WriteFailed);
        if renamed {
          stored := Some(op.Record());
        }
        return Errored;
      }
      NoteWritten(op.Record());
      stored := Some(op.Record());
      return Succeeded;
    }

    /** Removes the state file; a file that is not there counts as removed. */
    method Remove() returns (reply: Reply)
      requires Settled() && forall r :: r in live ==> r in charge
      modifies this`stored, this`log, this`charge, this`inFlight
      ensures Settled() && charge == old(charge)
      ensures reply.Succeeded? ==> stored == None && log == old(log)
      ensures reply.Errored? ==> stored == old(stored) && log == old(log) + [WriteFailed]
      ensures reply.Killed? ==> stored == old(stored) && log == old(log) + [Crash]
    {
      var killed: bool, failed: bool := *, *;
      if killed {
        Die();
        return Killed;
      }
      if failed {
        Note(WriteFailed);
        return Errored;
      }
      stored := None;
      return Succeeded;
    }

    /** Records in the log and the accounting that r has just come alive, with or without a usable reply. */
    ghost method Gain(r: Resource, replied: bool)
      requires Settled()
      modifies this`log, this`charge, this`inFlight
      ensures log == old(log) + [if replied then Acquired(r) else LostReply(r)]
      ensures Accounted(live + {r}, Recorded(stored), inFlight, charge, log) && ReleasesOwnOnly(log)
      ensures replied ==> inFlight == Some(r) && charge == old(charge) - {r}
      ensures !replied ==> inFlight == None && charge == old(charge)[r := |old(log)|]
    {
      var e := if replied then Acquired(r) else LostReply(r);
      ReleasesOwnOnlyAppend(log, e);
      if replied {
        AcquiringKeepsAccounts(live, Recorded(stored), charge, log, r);
        charge, inFlight := charge - {r}, Some(r);
      } else {
        ChargeKeepsAccounts(live, Recorded(stored), inFlight, charge, log, e, r);
        charge := charge[r := |log|];
      }
      log := log + [e];
    }

    /** What a call that was to acquire something leaves when it did not succeed. */
    twostate predicate AcquiredNothing()
      reads this
    {
      && Settled() && stored == old(stored) && old(live) <= live && old(charge).Keys <= charge.Keys
      && (forall r :: r in live - old(live) ==> r in charge)
      && exists e: Event :: (e.LostReply? || e.AcquireFailed? || e.Crash?) && log == old(log) + [e]
    }

    /** Creates a credential under a name that no live credential has. */
    method CreateToken() returns (reply: Reply, name: string)
      requires Settled()
      modifies this
      ensures Valid() && stored == old(stored)
      ensures reply.Succeeded? ==>
        && name != "" && Credential(name) !in old(live) && live == old(live) + {Credential(name)}
        && log == old(log) + [Acquired(Credential(name))]
        && inFlight == Some(Credential(name)) && charge == old(charge) - {Credential(name)}
      ensures !reply.Succeeded? ==> AcquiredNothing()
    {
      var killed: bool, created: bool, replied: bool := *, *, *;
      name := *;
      if killed {
        Die();
        return Killed, name;
      }
      if !created || name == "" || Credential(name) in live {
        Note(AcquireFailed);
        return Errored, name;
      }
      Gain(Credential(name), replied);
      live := live + {Credential(name)};
      return if replied then Succeeded else Errored, name;
    }

    /**
     Starts the web server unless one is running. The real call can start the server and then return an error,
     because the server did not become ready; started is then true as well.
     */
    method EnsureWebServer(share: nat) returns (reply: Reply, started: bool)
      requires Settled()
      modifies this
      ensures Valid() && stored == old(stored)
      ensures reply.Succeeded? && started ==>
        && live == old(live) + {WebServer(share)} && log == old(log) + [Acquired(WebServer(share))]
        && inFlight == Some(WebServer(share)) && charge == old(charge) - {WebServer(share)}
      ensures reply.Succeeded? && !started ==>
        live == old(live) && log == old(log) + [ServerRunning] && inFlight == None && charge == old(charge)
      ensures !reply.Succeeded? ==> AcquiredNothing()
      ensures reply.Errored? && started ==>
        log == old(log) + [LostReply(WebServer(share))] && WebServer(share) in live
    {
      var killed: bool, ready: bool := *, *;
      started := *;
      if killed {
        Die();
        return Killed, false;
      }
      if !started {
        Note(if ready then ServerRunning else AcquireFailed);
        return if ready then Succeeded else Errored, false;
      }
      Gain(WebServer(share), ready);
      live := live + {WebServer(share)};
      return if ready then Succeeded else Errored, true;
    }

    /** The outcome of a release, in the log and the accounts. */
    ghost method Lose(r: Resource, released: bool, forgetting: bool)
      requires Valid() && Acquired(r) in log && (inFlight == None || forgetting)
      modifies this`log, this`charge, this`inFlight
      ensures log == old(log) + [if released then Released(r) else CleanupFailed(r)]
      ensures Accounted(live - {r}, Recorded(stored), inFlight, charge, log) && ReleasesOwnOnly(log)
      ensures !released ==> Accounted(live, Recorded(stored), inFlight, charge, log)
      ensures charge == if !released && forgetting then old(charge)[r := |old(log)|] else old(charge)
      ensures inFlight == if old(inFlight) == Some(r) then None else old(inFlight)
    {
      var e := if released then Released(r) else CleanupFailed(r);
      ReleasesOwnOnlyAppend(log, e);
      if !released && forgetting {
        ChargeKeepsAccounts(live, Recorded(stored), inFlight, charge, log, e, r);
        charge := charge[r := |log|];
      } else {
        EventKeepsAccounts(live, Recorded(stored), inFlight, charge, log, e);
      }
      log := log + [e];
      if inFlight == Some(r) {
        inFlight := None;
      }
    }

    /**
     Revokes a credential, or stops the web server of a share. Revoking a credential Zellij does not have
     succeeds; an error does not tell whether the resource is gone. A caller that is about to forget the
     resource charges it to the error.
     */
    method Release(r: Resource, ghost forgetting: bool) returns (reply: Reply)
      requires Valid() && Acquired(r) in log
      requires inFlight == None || forgetting
      modifies this`live, this`log, this`charge, this`inFlight
      ensures Valid() && live <= old(live)
      ensures reply.Succeeded? ==>
        && live == old(live) - {r} && log == old(log) + [Released(r)] && charge == old(charge)
        && inFlight == if old(inFlight) == Some(r) then None else old(inFlight)
      ensures old(live) - {r} <= live
      ensures reply.Errored? ==>
        && log == old(log) + [CleanupFailed(r)]
        && charge == (if forgetting then old(charge)[r := |old(log)|] else old(charge))
        && inFlight == if old(inFlight) == Some(r) then None else old(inFlight)
      ensures reply.Killed? ==> live == old(live) && Settled() && log == old(log) + [Crash]
      ensures old(charge).Keys <= charge.Keys && (old(inFlight) == None && !forgetting ==> charge == old(charge))
    {
      var killed: bool, failed: bool, gone: bool := *, *, *;
      if killed {
        Die();
        return Killed;
      }
      Lose(r, !failed, forgetting);
      if !failed || gone {
        live := live - {r};
      }
      return if failed then Errored else Succeeded;
    }

    /** The clock. */
    static method Now() returns (t: int) {
      t := *;
    }

    /** Reads the state file. */
    method Load(readable: bool) returns (op: SharingOperation?)
      ensures op != null <==> readable && stored.Some?
      ensures op != null ==> fresh(op) && op.Record() == stored.value
    {
      if readable && stored.Some? {
        op := new SharingOperation.FromRecord(stored.value);
      } else {
        op := null;
      }
    }

    // ---- Start ----

    /**
     The state of a start in progress: the undo list holds exactly what the operation has acquired and not
     released, each of it alive, and nothing else alive is unaccounted for. The log was base when the start began.
     */
    ghost predicate Acquiring(op: SharingOperation, undo: seq<Resource>, base: seq<Event>)
      reads this, op
    {
      && Valid() && Covers(op.Record())
      && (forall r :: r in undo <==> r in Outstanding(op.Record()))
      && Distinct(undo)
      && (forall r :: r in undo ==> r in live)
      && (inFlight.Some? ==> inFlight.value in undo)
      && Starting(base, log, undo)
    }

    /** A checkpoint of a start has just been written. */
    ghost predicate Checkpointed(op: SharingOperation, undo: seq<Resource>, base: seq<Event>)
      reads this, op
    {
      Acquiring(op, undo, base) && inFlight == None && stored == Some(op.Record())
    }

    /** A start has ended without success; unless it was killed, it has undone what it acquired. */
    ghost predicate GaveUp(out: Outcome, saved: bool, base: seq<Event>)
      reads this
    {
      Settled() && !out.Done? && (out.Failed? ==> base <= log && StartUndone(log[|base|..], saved, stored, live))
    }

    /** A rollback that has run its undo list down to position i, with these cleanup calls. */
    ghost predicate Undoing(
      op: SharingOperation, before: OperationRecord, undo: seq<Resource>, i: nat, base: seq<Event>, since: seq<Event>
    )
      reads this, op
    {
      && Valid() && RolledBackTo(i, undo, before, op.Record(), since, live, charge, inFlight, log)
      && log == base + since
    }

    /** Undoes one step and notes its success on the operation. */
    method UndoStep(
      op: SharingOperation, undo: seq<Resource>, i: nat,
      ghost before: OperationRecord, ghost base: seq<Event>, ghost since: seq<Event>
    ) returns (reply: Reply)
      requires i < |undo| && Undoing(op, before, undo, i + 1, base, since)
      modifies this`live, this`log, this`charge, this`inFlight, op
      ensures old(live) - {undo[i]} <= live <= old(live)
      ensures reply.Killed? ==> Settled()
      ensures reply.Succeeded? ==> Undoing(op, before, undo, i, base, since + [Released(undo[i])])
      ensures reply.Errored? ==> Undoing(op, before, undo, i, base, since + [CleanupFailed(undo[i])])
    {
      NextUndo(i, undo, before, op.Record(), since, live, charge, inFlight, log);
      reply := Release(undo[i], true);
      match reply {
        case Killed =>
        case Errored =>
          Regroup(base, since, [CleanupFailed(undo[i])]);
          UndoNotConfirmed(
            i, undo, before, op.Record(), since, old(live), old(charge), old(inFlight), old(log), live, |old(log)|);
        case Succeeded =>
          Regroup(base, since, [Released(undo[i])]);
          UndoConfirmed(i, undo, before, op.Record(), since, old(live), old(charge), old(inFlight), old(log));
          op.NoteReleased(undo[i]);
      }
    }

    /** Runs the undo list, last step first: one cleanup call for each step, its success noted on the operation. */
    method UndoAll(op: SharingOperation, undo: seq<Resource>, ghost base: seq<Event>)
      returns (killed: bool, residuals: seq<Residual>, ghost calls: seq<Event>)
      requires Acquiring(op, undo, base)
      modifies this`live, this`log, this`charge, this`inFlight, op
      ensures live <= old(live) && forall r :: r in old(live) && r !in undo ==> r in live
      ensures if killed then Settled() else Undoing(op, old(op.Record()), undo, 0, old(log), calls)
      ensures !killed && residuals == [] ==> forall r :: CleanupFailed(r) !in calls
    {
      calls, residuals, killed := [], [], false;
      var i := |undo|;
      assert undo[..|undo|] == undo && log == log + [];
      while i > 0
        invariant 0 <= i <= |undo| && live <= old(live)
        invariant forall r :: r in old(live) && r !in undo ==> r in live
        invariant Undoing(op, old(op.Record()), undo, i, old(log), calls)
        invariant residuals == [] ==> forall r :: CleanupFailed(r) !in calls
        decreases i
      {
        i := i - 1;
        var reply := UndoStep(op, undo, i, old(op.Record()), old(log), calls);
        if reply.Killed? {
          return true, residuals, calls;
        }
        calls := calls + [if reply.Succeeded? then Released(undo[i]) else CleanupFailed(undo[i])];
        residuals := residuals + if reply.Errored? then [UndoFailed(undo[i])] else [];
      }
    }

    /**
     Undoes a start, last step first, with one cleanup call for each step. If the last write of the state file
     succeeds, either every undo succeeded and no record is left, or the record is degraded and lists as
     outstanding exactly the steps whose undo failed.
     */
    method Rollback(op: SharingOperation, undo: seq<Resource>, cause: Error, ghost base: seq<Event>)
      returns (out: Outcome, saved: bool)
      requires Acquiring(op, undo, base)
      modifies this, op
      ensures live <= old(live) && GaveUp(out, saved, base)
      ensures forall r :: r in old(live) && r !in undo ==> r in live
      ensures out == Failed(cause) || out.Crashed?
      ensures out.Failed? ==> Acquisitions(log[|base|..]) == undo
      ensures out.Failed? && saved && stored.Some? ==> SameOperation(old(op.Record()), stored.value)
    {
      var killed, residuals; ghost var calls;
      killed, residuals, calls := UndoAll(op, undo, base);
      if killed {
        return Crashed, false;
      }
      ghost var undone := op.Record();
      AllUndone(undo, old(op.Record()), undone, calls, live, charge, inFlight, log);
      ghost var tail;
      out, saved, tail := RollbackRecord(op, cause, residuals);
      if out.Failed? {
        UndoneInLog(base, old(log), undo, calls, tail);
        UndoneResult(undo, calls, old(op.Record()), undone, saved, stored, live, residuals);
      }
    }

    /** The end of a rollback: the record goes, or stays as degraded when anything went wrong. */
    method RollbackRecord(op: SharingOperation, cause: Error, residuals: seq<Residual>)
      returns (out: Outcome, saved: bool, ghost tail: seq<Event>)
      requires Settled() && (forall r :: r in live ==> r in charge)
      requires forall r :: r in Named(op.Record()) ==> Acquired(r) in log
      modifies this, op
      ensures Settled() && live == old(live) && log == old(log) + tail
      ensures out == Failed(cause) || out.Crashed?
      ensures forall e :: e in tail ==> e.Wrote? || e.WriteFailed? || e.Crash?
      ensures out.Failed? && saved && stored == None ==> residuals == []
      ensures out.Failed? && saved && stored.Some? ==> stored == Some(op.Record()) && op.state.StateDegraded?
      ensures SameResources(old(op.Record()), op.Record())
    {
      var left := residuals;
      tail := [];
      var reply := Remove();
      match reply {
        case Killed => return Crashed, false, [Crash];
        case Errored => left, tail := left + [RecordNotRemoved], [WriteFailed];
        case Succeeded =>
      }
      if left == [] {
        return Failed(cause), true, tail;
      }
      var now := Now();
      op.state, op.updatedAt, op.residuals := StateDegraded, now, left;
      reply := Save(op);
      tail := tail + [
        if reply.Killed? then Crash else if reply.Errored? then WriteFailed else WroteOf(op.Record())];
      out, saved := if reply.Killed? then Crashed else Failed(cause), reply.Succeeded?;
    }

    /** Writes what a start has acquired so far; a failed write undoes the start. */
    method Checkpoint(op: SharingOperation, undo: seq<Resource>, ghost base: seq<Event>)
      returns (out: Outcome, saved: bool)
      requires Acquiring(op, undo, base)
      modifies this, op
      ensures out.Done? ==>
        && Checkpointed(op, undo, base)
        && op.Record() == old(op.Record()) && live == old(live) && log == old(log) + [WroteOf(op.Record())]
      ensures !out.Done? ==> GaveUp(out, saved, base)
    {
      var reply := Save(op);
      match reply {
        case Succeeded =>
          StillStarting(base, old(log), undo, WroteOf(op.Record()));
          return Done, true;
        case Killed => return Crashed, false;
        case Errored =>
          StillStarting(base, old(log), undo, WriteFailed);
          out, saved := Rollback(op, undo, CallError, base);
      }
    }

    /** A call of a start returned an error: nothing was acquired by it, and the start is undone. */
    method GiveUp(op: SharingOperation, undo: seq<Resource>, ghost base: seq<Event>)
      returns (out: Outcome, saved: bool)
      requires Valid() && Covers(op.Record()) && inFlight == None && Distinct(undo)
      requires forall r :: r in undo <==> r in Outstanding(op.Record())
      requires forall r :: r in undo ==> r in live
      requires |log| > 0 && !IsCall(log[|log| - 1]) && !log[|log| - 1].Acquired?
      requires Starting(base, log[..|log| - 1], undo)
      modifies this, op
      ensures GaveUp(out, saved, base) && (out.Failed? ==> Acquisitions(log[|base|..]) == undo)
      ensures forall r :: r in old(live) && r !in undo ==> r in live
    {
      ghost var e := log[|log| - 1];
      assert log == log[..|log| - 1] + [e];
      StillStarting(base, log[..|log| - 1], undo, e);
      out, saved := Rollback(op, undo, CallError, base);
    }

    /** A start in progress, right after it has acquired r: the operation does not know it yet. */
    ghost predicate Holding(op: SharingOperation, undo: seq<Resource>, r: Resource, base: seq<Event>)
      reads this, op
    {
      && Valid() && inFlight == Some(r) && r in live && r !in undo
      && (forall q :: q in live ==> q in Outstanding(op.Record()) || q in charge || q == r)
      && (forall q :: q in Named(op.Record()) ==> Acquired(q) in log) && Acquired(r) in log
      && (forall q :: q in undo <==> q in Outstanding(op.Record()))
      && Distinct(undo) && (forall q :: q in undo ==> q in live)
      && Starting(base, log, undo + [r])
    }

    /** One credential of a start: created, pushed on the undo list, added to the record, checkpointed. */
    method MintInvitation(
      op: SharingOperation, undo: seq<Resource>, inviteLabel: string, role: Role, now: int, ghost base: seq<Event>
    ) returns (out: Outcome, saved: bool, undo': seq<Resource>, credential: string)
      requires Checkpointed(op, undo, base)
      modifies this, op
      ensures out.Done? ==>
        && Checkpointed(op, undo', base)
        && undo' == undo + [Credential(credential)] && Credential(credential) !in undo
        && Minted(old(op.Record()), op.Record()) && log == old(log) + MintTrace(op.Record())
        && op.invitations == old(op.invitations) +
             [InvitationRecord(inviteLabel, credential, role, InvitationActive, now)]
      ensures !out.Done? ==> GaveUp(out, saved, base)
    {
      undo', saved := undo, false;
      var reply;
      reply, credential := CreateToken();
      match reply {
        case Killed => out := Crashed;
        case Errored =>
          assert log[..|log| - 1] == old(log);
          out, saved := GiveUp(op, undo, base);
        case Succeeded =>
          StillStarting(base, old(log), undo, Acquired(Credential(credential)));
          undo' := undo + [Credential(credential)];
          out, saved := AddCredential(op, undo, inviteLabel, credential, role, now, base);
          TwoEvents(old(log), Acquired(Credential(credential)), WroteOf(op.Record()));
      }
    }

    /** The part of MintInvitation after the call. */
    method AddCredential(
      op: SharingOperation, undo: seq<Resource>, inviteLabel: string, credential: string, role: Role, now: int,
      ghost base: seq<Event>
    ) returns (out: Outcome, saved: bool)
      requires Holding(op, undo, Credential(credential), base)
      modifies this, op
      ensures out.Done? ==>
        && Checkpointed(op, undo + [Credential(credential)], base)
        && op.Record() == old(op.Record()).(invitations := old(op.invitations) +
             [InvitationRecord(inviteLabel, credential, role, InvitationActive, now)])
        && log == old(log) + [WroteOf(op.Record())]
      ensures !out.Done? ==> GaveUp(out, saved, base)
    {
      ghost var before := op.Record();
      op.invitations := op.invitations + [InvitationRecord(inviteLabel, credential, role, InvitationActive, now)];
      AppendInvitation(before, op.invitations[|op.invitations| - 1]);
      out, saved := Checkpoint(op, undo + [Credential(credential)], base);
    }

    /**
     The web server step of a start. When the call returns an error although it has started a server, that server stays
     alive, and no record lists it.
     */
    method AcquireWebServer(op: SharingOperation, ghost base: seq<Event>)
      returns (out: Outcome, saved: bool, undo: seq<Resource>, ghost lost: bool)
      requires Checkpointed(op, [], base) && !op.webServerOwned && !op.webServerStopped && op.invitations == []
      modifies this, op
      ensures out.Done? ==>
        && Checkpointed(op, undo, base) && undo == (if op.webServerOwned then [WebServer(op.id)] else [])
        && op.Record() == old(op.Record()).(webServerOwned := op.webServerOwned)
        && log == old(log) + [ServerEvent(op.Record()), WroteOf(op.Record())]
      ensures !out.Done? ==> GaveUp(out, saved, base)
      ensures lost ==>
        !out.Done? && WebServer(op.id) in live && (out.Failed? && saved ==> WebServer(op.id) !in Recorded(stored))
    {
      lost, undo, saved := false, [], false;
      var reply, started := EnsureWebServer(op.id);
      match reply {
        case Killed => out := Crashed;
        case Errored =>
          assert log[..|log| - 1] == old(log);
          lost := started;
          out, saved := GiveUp(op, undo, base);
        case Succeeded =>
          if started {
            StillStarting(base, old(log), [], Acquired(WebServer(op.id)));
            undo := [] + [WebServer(op.id)];
            out, saved := AddServer(op, base);
          } else {
            StillStarting(base, old(log), [], ServerRunning);
            out, saved := Checkpoint(op, [], base);
          }
          TwoEvents(old(log), ServerEvent(op.Record()), WroteOf(op.Record()));
      }
    }

    /** The part of AcquireWebServer after a call that started a server. */
    method AddServer(op: SharingOperation, ghost base: seq<Event>) returns (out: Outcome, saved: bool)
      requires Holding(op, [], WebServer(op.id), base)
      requires !op.webServerOwned && !op.webServerStopped && op.invitations == []
      modifies this, op
      ensures out.Done? ==>
        && Checkpointed(op, [] + [WebServer(op.id)], base)
        && op.Record() == old(op.Record()).(webServerOwned := true)
        && log == old(log) + [WroteOf(op.Record())]
      ensures !out.Done? ==> GaveUp(out, saved, base)
    {
      op.webServerOwned := true;
      assert Outstanding(op.Record()) == {WebServer(op.id)} == Named(op.Record());
      out, saved := Checkpoint(op, [] + [WebServer(op.id)], base);
    }

    // ---- Teardown ----

    /** A teardown that has made its first k steps. Nothing is charged: what is not cleaned up stays recorded. */
    ghost predicate TearingDown(op: SharingOperation, before: OperationRecord, k: nat, since: seq<Event>)
      reads this, op
    {
      Settled() && TornDownTo(k, before, op.Record(), since, live, charge, stored, log)
    }

    /** A teardown that was killed. */
    ghost predicate Interrupted(before: OperationRecord, base: seq<Event>, since: seq<Event>)
      reads this
    {
      && Settled() && stored.Some? && Underway(before, stored, since, live)
      && !NoFaults(since) && log == base + since
    }

    method PlanTeardown(op: SharingOperation) returns (steps: seq<CleanupStep>)
      ensures steps == TeardownPlan(op.Record())
    {
      steps := [];
      ghost var record := op.Record();
      var i := |op.invitations|;
      while i > 0
        invariant 0 <= i <= |op.invitations|
        invariant steps + RevokeSteps(record, i) == RevokeSteps(record, |record.invitations|)
      {
        i := i - 1;
        if op.invitations[i].state.InvitationActive? {
          steps := steps + [RevokeStep(i)];
        }
      }
      if op.webServerOwned && !op.webServerStopped {
        steps := steps + [StopServerStep];
      }
    }

    /** Makes one call of a teardown and notes its success on the operation. Without a name there is nothing to call. */
    method CallStep(
      op: SharingOperation, step: CleanupStep, ghost before: OperationRecord, ghost k: nat, ghost since: seq<Event>
    ) returns (reply: Reply, ghost e: Event)
      requires k < |TeardownPlan(before)| && step == TeardownPlan(before)[k] && TearingDown(op, before, k, since)
      modifies this`live, this`log, this`charge, this`inFlight, op
      ensures live <= old(live) && charge == old(charge) && log == old(log) + [e]
      ensures reply.Killed? ==> e == Crash && Settled() && stored.Some? && Underway(before, stored, since + [e], live)
      ensures !reply.Killed? ==>
        && TearingDown(op, before, k + 1, since + [e])
        && CallOf(e, step, before) && (reply.Succeeded? <==> e.Released?) && (reply.Errored? ==> IsFault(e))
      ensures !reply.Succeeded? ==> op.Record() == old(op.Record())
      ensures reply.Succeeded? ==> !StepOutstanding(step, op.Record())
      ensures forall other :: StepOutstanding(other, op.Record()) ==> StepOutstanding(other, old(op.Record()))
    {
      NextStep(k, before, op.Record(), since, live, charge, stored, log);
      var r := StepResource(step, op.Record());
      if r == Credential("") {
        Note(Unnamed);
        StepNotConfirmed(k, before, op.Record(), since, live, charge, stored, old(log), live, Unnamed);
        return Errored, Unnamed;
      }
      reply := Release(r, false);
      match reply {
        case Killed =>
          KilledUnderway(before, stored, since, live);
          e := Crash;
        case Errored =>
          e := CleanupFailed(r);
          StepNotConfirmed(k, before, op.Record(), since, old(live), charge, stored, old(log), live, e);
        case Succeeded =>
          e := Released(r);
          var now := Now();
          StepConfirmed(k, before, op.Record(), since, old(live), charge, stored, old(log), now);
          CompletedIsDone(step, op.Record(), now);
          op.Complete(step, now);
      }
    }

    /** Writes down the progress of a teardown. */
    method SaveProgress(op: SharingOperation, ghost before: OperationRecord, ghost k: nat, ghost since: seq<Event>)
      returns (reply: Reply, ghost e: Event)
      requires TearingDown(op, before, k, since)
      modifies this
      ensures live == old(live) && NothingCharged() && log == old(log) + [e]
      ensures reply.Killed? ==> e == Crash && Settled() && stored.Some? && Underway(before, stored, since + [e], live)
      ensures !reply.Killed? ==> TearingDown(op, before, k, since + [e])
      ensures reply.Errored? ==> e == WriteFailed
      ensures reply.Succeeded? ==> e == WroteOf(op.Record()) && stored == Some(op.Record())
    {
      SameOperationShrinks(before, op.Record());
      reply := Save(op);
      if reply.Killed? {
        e := Crash;
        KilledUnderway(before, stored, since, live);
      } else {
        e := if reply.Succeeded? then WroteOf(op.Record()) else WriteFailed;
        StepWritten(k, before, op.Record(), since, live, old(charge), old(stored), old(log), charge, stored, e);
      }
    }

    /**
     Makes one call of a teardown and writes down its success. A failure of either is a residual; without one, the step
     is off the record in the state file.
     */
    method RunStep(
      op: SharingOperation, step: CleanupStep, ghost before: OperationRecord, ghost k: nat, ghost since: seq<Event>
    ) returns (killed: bool, residual: Option<Residual>, ghost more: seq<Event>)
      requires k < |TeardownPlan(before)| && step == TeardownPlan(before)[k] && TearingDown(op, before, k, since)
      modifies this, op
      ensures live <= old(live) && NothingCharged() && log == old(log) + more && Settled()
      ensures if killed then stored.Some? && Underway(before, stored, since + more, live)
        else TearingDown(op, before, k + 1, since + more)
      ensures forall other :: StepOutstanding(other, op.Record()) ==> StepOutstanding(other, old(op.Record()))
      ensures killed || residual.Some? ==> !NoFaults(more)
      ensures !killed && residual == None ==> stored == Some(op.Record()) && !StepOutstanding(step, stored.value)
    {
      NextStep(k, before, op.Record(), since, live, charge, stored, log);
      var failure := match step
        case RevokeStep(i) => CredentialMayRemainActive(op.invitations[i].inviteLabel)
        case StopServerStep => RemoteClientsMayRemain;
      var reply; ghost var e;
      reply, e := CallStep(op, step, before, k, since);
      if !reply.Succeeded? {
        FaultIn([e], e);
        return reply.Killed?, Some(failure), [e];
      }
      ghost var written;
      reply, written := SaveProgress(op, before, k + 1, since + [e]);
      TwoEvents(since, e, written);
      TwoEvents(old(log), e, written);
      more := [e, written];
      if !reply.Succeeded? {
        FaultIn(more, written);
      }
      killed, residual := reply.Killed?, if reply.Succeeded? then None else Some(failure);
    }

    /** A teardown after k steps whose residuals explain what went wrong; the log was base when it began. */
    ghost predicate Progress(
      op: SharingOperation, before: OperationRecord, k: nat, residuals: seq<Residual>,
      base: seq<Event>, since: seq<Event>
    )
      reads this, op
    {
      && TearingDown(op, before, k, since) && Explained(residuals, k, before, op.Record(), since)
      && log == base + since
    }

    /** One step, with its failure added to the residuals. */
    method AdvanceTeardown(
      op: SharingOperation, step: CleanupStep, ghost before: OperationRecord, ghost k: nat,
      failures: seq<Residual>, ghost base: seq<Event>, ghost made: seq<Event>
    ) returns (killed: bool, residuals: seq<Residual>, ghost since: seq<Event>)
      requires k < |TeardownPlan(before)| && step == TeardownPlan(before)[k]
      requires Progress(op, before, k, failures, base, made)
      modifies this, op
      ensures live <= old(live) && NothingCharged()
      ensures if killed then Interrupted(before, base, since) else Progress(op, before, k + 1, residuals, base, since)
      ensures made <= since
    {
      ghost var previous := op.Record();
      var residual; ghost var more;
      killed, residual, more := RunStep(op, step, before, k, made);
      since := made + more;
      residuals := failures + if residual.Some? then [residual.value] else [];
      Regroup(base, made, more);
      if killed {
        NotFaultless(made, more);
      } else {
        ExplainedStep(failures, k, before, previous, made, residual, op.Record(), more);
      }
    }

    /** Makes every call of a teardown, whether or not earlier ones failed. */
    method RunSteps(
      op: SharingOperation, steps: seq<CleanupStep>, ghost before: OperationRecord,
      failures: seq<Residual>, ghost base: seq<Event>, ghost made: seq<Event>
    ) returns (killed: bool, residuals: seq<Residual>, ghost since: seq<Event>)
      requires steps == TeardownPlan(before) && Progress(op, before, 0, failures, base, made)
      modifies this, op
      ensures live <= old(live) && NothingCharged()
      ensures if killed then Interrupted(before, base, since)
        else Progress(op, before, |steps|, residuals, base, since)
      ensures made <= since
    {
      since, residuals, killed := made, failures, false;
      for k := 0 to |steps|
        invariant live <= old(live) && NothingCharged() && made <= since
        invariant Progress(op, before, k, residuals, base, since)
      {
        killed, residuals, since := AdvanceTeardown(op, steps[k], before, k, residuals, base, since);
        if killed {
          return;
        }
      }
    }

    /**
     Marks the operation as stopping, before anything is released, and plans the calls. The log was base when the
     cleanup of before began, and has had nothing but writes since.
     */
    method BeginTeardown(
      op: SharingOperation, ghost before: OperationRecord, ghost base: seq<Event>, ghost earlier: seq<Event>
    ) returns (killed: bool, residuals: seq<Residual>, steps: seq<CleanupStep>, ghost since: seq<Event>)
      requires SameResources(before, op.Record()) && Progress(op, before, 0, [], base, earlier)
      modifies this, op
      ensures live == old(live) && NothingCharged()
      ensures since == earlier + [
        if killed then Crash else if residuals == [] then Wrote(StateStopping, Outstanding(before)) else WriteFailed]
      ensures if killed then Interrupted(before, base, since) else Progress(op, before, 0, residuals, base, since)
      ensures !killed ==> steps == TeardownPlan(before)
    {
      var now := Now();
      ghost var previous := op.Record();
      op.state, op.updatedAt, op.residuals := StateStopping, now, [];
      SamePlan(before, op.Record());
      StaysTornDown(0, before, previous, earlier, live, charge, stored, log, op.Record());
      var reply; ghost var e;
      reply, e := SaveProgress(op, before, 0, earlier);
      since := earlier + [e];
      Regroup(base, earlier, [e]);
      killed, residuals := reply.Killed?, if reply.Errored? then [StoppingNotPersisted] else [];
      if !reply.Succeeded? {
        FaultIn(since, e);
      }
      steps := PlanTeardown(op);
    }

    /** Makes all cleanup calls for what is outstanding in op. */
    method CleanUp(
      op: SharingOperation, ghost before: OperationRecord, ghost base: seq<Event>, ghost earlier: seq<Event>
    ) returns (killed: bool, residuals: seq<Residual>, ghost since: seq<Event>)
      requires SameResources(before, op.Record()) && Progress(op, before, 0, [], base, earlier)
      modifies this, op
      ensures live <= old(live) && NothingCharged()
      ensures if killed then Interrupted(before, base, since)
        else Progress(op, before, |TeardownPlan(before)|, residuals, base, since)
      ensures StartsStopping(before, earlier, since)
    {
      var steps;
      killed, residuals, steps, since := BeginTeardown(op, before, base, earlier);
      if !killed {
        killed, residuals, since := RunSteps(op, steps, before, residuals, base, since);
      }
    }

    /** The end of a teardown: the record goes if nothing is left, and otherwise stays as degraded. */
    method FinishTeardown(
      op: SharingOperation, residuals: seq<Residual>, ghost before: OperationRecord, ghost base: seq<Event>,
      ghost made: seq<Event>
    ) returns (out: Outcome, saved: bool, ghost since: seq<Event>)
      requires Progress(op, before, |TeardownPlan(before)|, residuals, base, made)
      modifies this, op
      ensures live == old(live) && NothingCharged() && made <= since
      ensures out.Crashed? ==> !saved && Interrupted(before, base, since)
      ensures out.Done? ==>
        && Settled() && stored == None && since == made && log == base + since
        && CleanedUp(before, old(op.Record()), since) && Outstanding(old(op.Record())) == {}
        && forall r :: r in Outstanding(before) ==> Released(r) in since && r !in live
      ensures out.Failed? ==>
        && out.error == CleanupIncomplete && !NoFaults(since) && log == base + since
        && TearingDown(op, before, |TeardownPlan(before)|, since)
        && (saved ==> stored == Some(op.Record()) && op.state.StateDegraded?)
    {
      var left := residuals;
      since := made;
      if left == [] {
        NothingLeftOf(before, op.Record(), since);
        var reply := Remove();
        match reply {
          case Succeeded => return Done, true, since;
          case Killed =>
            KilledUnderway(before, stored, since, live);
            Regroup(base, since, [Crash]);
            return Crashed, false, since + [Crash];
          case Errored =>
            left := [RecordNotRemoved];
            StepWritten(
              |TeardownPlan(before)|, before, op.Record(), since, live, charge, stored, old(log), charge, stored,
              WriteFailed);
            Regroup(base, since, [WriteFailed]);
            since := since + [WriteFailed];
            FaultIn(since, WriteFailed);
        }
      }
      out, saved, since := SaveDegraded(op, left, before, base, since);
    }

    /** Keeps the record of an incomplete teardown. */
    method SaveDegraded(
      op: SharingOperation, residuals: seq<Residual>, ghost before: OperationRecord, ghost base: seq<Event>,
      ghost made: seq<Event>
    ) returns (out: Outcome, saved: bool, ghost since: seq<Event>)
      requires TearingDown(op, before, |TeardownPlan(before)|, made) && !NoFaults(made) && log == base + made
      modifies this, op
      ensures live == old(live) && NothingCharged() && made <= since
      ensures out.Crashed? ==> !saved && Interrupted(before, base, since)
      ensures !out.Crashed? ==>
        && out == Failed(CleanupIncomplete) && !NoFaults(since) && log == base + since
        && TearingDown(op, before, |TeardownPlan(before)|, since)
        && (saved ==> stored == Some(op.Record()) && op.state.StateDegraded?)
    {
      ghost var k, previous := |TeardownPlan(before)|, op.Record();
      var now := Now();
      op.state, op.updatedAt, op.residuals := StateDegraded, now, residuals;
      StaysTornDown(k, before, previous, made, live, charge, stored, log, op.Record());
      var reply; ghost var e;
      reply, e := SaveProgress(op, before, k, made);
      since := made + [e];
      Regroup(base, made, [e]);
      NotFaultless(made, [e]);
      out, saved := if reply.Killed? then Crashed else Failed(CleanupIncomplete), reply.Succeeded?;
    }

    /**
     Cleans up everything outstanding in op, writing down each success; before is op at the start of the cleanup, and
     earlier the writes since then. At every instant, also when it is killed, the calls made follow the plan, only
     outstanding resources were touched, and a record in the state file is of this operation, with every step that was
     called and written down off it. The record is removed if every call and write succeeded, and otherwise lists as
     outstanding exactly the failed calls.
     */
    method Teardown(
      op: SharingOperation, ghost before: OperationRecord, ghost base: seq<Event>, ghost earlier: seq<Event>
    ) returns (out: Outcome, saved: bool, ghost since: seq<Event>)
      requires SameResources(before, op.Record()) && Progress(op, before, 0, [], base, earlier)
      modifies this, op
      ensures Settled() && live <= old(live) && NothingCharged() && log == base + since
      ensures Underway(before, stored, since, live) && StartsStopping(before, earlier, since)
      ensures !out.Done? ==> Incomplete(before, stored, saved, since, live)
      ensures out.Done? ==>
        stored == None && forall r :: r in Outstanding(before) ==> Released(r) in since && r !in live
      ensures out.Failed? ==> out.error == CleanupIncomplete && CleanedUp(before, op.Record(), since)
      ensures out.Failed? && saved ==> stored == Some(op.Record()) && op.state.StateDegraded?
      ensures NoFaults(since) ==> out.Done?
    {
      var killed, residuals;
      killed, residuals, since := CleanUp(op, before, base, earlier);
      if killed {
        return Crashed, false, since;
      }
      out, saved, since := FinishTeardown(op, residuals, before, base, since);
    }

    /**
     Tears down an operation that is known to be over: first a degraded record is written, then the teardown begins.
     */
    method Reconcile(op: SharingOperation, diagnostic: string)
      returns (out: Outcome, saved: bool, ghost since: seq<Event>)
      requires Settled() && stored == Some(op.Record())
      modifies this, op
      ensures Settled() && live <= old(live) && NothingCharged() && log == old(log) + since
      ensures Underway(old(op.Record()), stored, since, live)
      ensures !out.Done? ==> Incomplete(old(op.Record()), stored, saved, since, live)
      ensures since != [] && (since[0] == Wrote(StateDegraded, old(Recorded(stored))) || IsFault(since[0]))
      ensures out.Done? ==>
        stored == None && forall r :: r in old(Recorded(stored)) ==> Released(r) in since && r !in live
      ensures out.Failed? ==> out.error == CleanupIncomplete && CleanedUp(old(op.Record()), op.Record(), since)
      ensures out.Failed? && saved ==> stored == Some(op.Record()) && op.state.StateDegraded?
      ensures NoFaults(since) ==> out.Done?
    {
      ghost var before := op.Record();
      BeginsTornDown(before, before, [], live, charge, stored, log);
      assert log + [] == log;
      var now := Now();
      op.state, op.residuals, op.updatedAt := StateDegraded, [Diagnostic(diagnostic)], now;
      StaysTornDown(0, before, before, [], live, charge, stored, log, op.Record());
      var reply; ghost var e;
      reply, e := SaveProgress(op, before, 0, []);
      assert [] + [e] == [e] && Outstanding(op.Record()) == Outstanding(before);
      if reply.Killed? {
        FaultIn([e], e);
        return Crashed, false, [e];
      }
      out, saved, since := Teardown(op, before, old(log), [e]);
    }

    // ---- The commands ----

    /** Creates the operation of a new share and its first record, before anything is acquired. */
    method NewOperation(req: StartRequest, a: StartAnswers) returns (out: Outcome, saved: bool, op: SharingOperation?)
      requires Settled() && stored == None
      modifies this
      ensures out.Done? <==> op != null
      ensures !out.Done? ==> live == old(live) && GaveUp(out, saved, old(log))
      ensures out.Done? ==>
        && fresh(op) && Checkpointed(op, [], old(log)) && log == old(log) + [WroteOf(op.Record())]
        && a.session.Present? && a.labels.Some? && op.session == req.session && op.state.StateStarting?
        && op.invitations == [] && !op.webServerOwned && !op.webServerStopped && op.lastProbe == None
    {
      op, saved := null, true;
      NothingToUndo(log, live);
      if !a.capabilities { return Failed(CapabilitiesMissing), true, null; }
      if req.session == "" { return Failed(SessionRequired), true, null; }
      if a.session.NoAnswer? { return Failed(SessionUnknown), true, null; }
      if a.session.Absent? { return Failed(SessionAbsent), true, null; }
      if a.endpoint == None { return Failed(EndpointUnresolved), true, null; }
      if a.id == None || a.labels == None { return Failed(RandomFailed), true, null; }
      var now := Now();
      op := new SharingOperation.FromRecord(OperationRecord(
        a.id.value, req.workspace, req.session, a.endpoint.value.0, a.endpoint.value.1, [], false, false, None,
        StateStarting, now, now, []));
      out, saved := FirstSave(op);
      if !out.Done? {
        op := null;
      }
    }

    /** The first write of a start; when it fails there is nothing to undo. */
    method FirstSave(op: SharingOperation) returns (out: Outcome, saved: bool)
      requires Settled() && stored == None && Outstanding(op.Record()) == {} == Named(op.Record())
      modifies this
      ensures live == old(live)
      ensures !out.Done? ==> GaveUp(out, saved, old(log))
      ensures out.Done? ==> Checkpointed(op, [], old(log)) && log == old(log) + [WroteOf(op.Record())]
    {
      NothingToUndo(log, live);
      var reply := Save(op);
      match reply {
        case Succeeded =>
          StillStarting(old(log), old(log), [], WroteOf(op.Record()));
          return Done, true;
        case Killed => return Crashed, false;
        case Errored =>
          StillStarting(old(log), old(log), [], WriteFailed);
          return Failed(CallError), false;
      }
    }

    /** Both credentials of a start. */
    method MintBoth(op: SharingOperation, undo: seq<Resource>, labels: (string, string), ghost base: seq<Event>)
      returns (
        out: Outcome, saved: bool, undo': seq<Resource>, invitations: seq<Invitation>, ghost mid: OperationRecord)
      requires Checkpointed(op, undo, base) && op.invitations == []
      modifies this, op
      ensures out.Done? ==>
        && Checkpointed(op, undo', base)
        && Minted(old(op.Record()), mid) && Minted(mid, op.Record())
        && log == old(log) + (MintTrace(mid) + MintTrace(op.Record()))
        && HandedOut(op.invitations, invitations)
      ensures !out.Done? ==> GaveUp(out, saved, base)
    {
      invitations, undo', mid := [], undo, op.Record();
      var now := Now();
      var interactive, observer;
      out, saved, undo', interactive := MintInvitation(op, undo, labels.0, Interactive, now, base);
      mid := op.Record();
      if !out.Done? { return; }
      assert Credential(interactive) in undo';
      out, saved, undo', observer := MintInvitation(op, undo', labels.1, Observer, now, base);
      if !out.Done? { return; }
      Regroup(old(log), MintTrace(mid), MintTrace(op.Record()));
      invitations := HandOut(op.invitations, labels, interactive, observer, now);
    }

    /** The invitations of a start, from the labels and credentials that were recorded. */
    static method HandOut(
      ghost recorded: seq<InvitationRecord>, labels: (string, string), interactive: string, observer: string,
      ghost now: int
    ) returns (invitations: seq<Invitation>)
      requires interactive != observer
      requires recorded == [] + [InvitationRecord(labels.0, interactive, Interactive, InvitationActive, now)]
        + [InvitationRecord(labels.1, observer, Observer, InvitationActive, now)]
      ensures HandedOut(recorded, invitations)
    {
      invitations := [Invitation(labels.0, interactive, Interactive), Invitation(labels.1, observer, Observer)];
    }

    /** The last steps of a start: the verification gate, then the active record. */
    method Activate(
      op: SharingOperation, undo: seq<Resource>, noVerify: bool, probe: ProbeAnswer, endpointParses: bool,
      ghost base: seq<Event>
    ) returns (out: Outcome, saved: bool)
      requires Checkpointed(op, undo, base) && op.state.StateStarting? && op.lastProbe == None
      modifies this, op
      ensures !out.Done? ==> GaveUp(out, saved, base)
      ensures out.Done? ==> endpointParses && (noVerify || probe.Passed())
      ensures out.Done? ==>
        && Settled() && stored == Some(op.Record()) && Outstanding(op.Record()) <= live
        && op.Record() == old(op.Record()).(
             state := StateActive, updatedAt := op.updatedAt,
             lastProbe := if noVerify then None else Some(probe.result))
        && log == old(log) + [WroteOf(op.Record())]
    {
      if !noVerify {
        if !probe.Passed() {
          out, saved := Rollback(op, undo, if probe.Inconclusive? then ProbeInconclusive else ProbeFailedError, base);
          return;
        }
        op.lastProbe := Some(probe.result);
      }
      var now := Now();
      var ok := op.Transition(StateActive, now);
      if endpointParses {
        out, saved := Checkpoint(op, undo, base);
      } else {
        out, saved := Rollback(op, undo, InvalidEndpoint, base);
      }
    }

    /**
     A start with no record in the way: first the server, then the two credentials, then the gate. If it gives up, it
     has undone what it acquired; if it goes through, it has made exactly its calls, with a checkpoint after each.
     */
    method StartFresh(req: StartRequest, a: StartAnswers)
      returns (out: Outcome, saved: bool, invitations: seq<Invitation>)
      requires Settled() && stored == None
      modifies this
      ensures Settled()
      ensures !out.Done? ==> invitations == [] && GaveUp(out, saved, old(log))
      ensures out.Done? ==> a.session.Present? && a.endpointParses && (req.noVerify || a.probe.Passed())
      ensures out.Done? ==>
        && stored.Some? && Shared(stored.value, invitations) && Outstanding(stored.value) <= live
        && stored.value.session == req.session
        && stored.value.lastProbe == (if req.noVerify then None else Some(a.probe.result))
        && log == old(log) + StartTrace(stored.value)
    {
      invitations := [];
      var op;
      out, saved, op := NewOperation(req, a);
      if !out.Done? { return; }
      ghost var r0 := op.Record();
      var undo; ghost var lost;
      out, saved, undo, lost := AcquireWebServer(op, old(log));
      if !out.Done? { return; }
      ghost var r1 := op.Record();
      var minted; ghost var r2;
      out, saved, undo, minted, r2 := MintBoth(op, undo, a.labels.value, old(log));
      if !out.Done? { return; }
      ghost var r3 := op.Record();
      out, saved := Activate(op, undo, req.noVerify, a.probe, a.endpointParses, old(log));
      if !out.Done? { return; }
      invitations := minted;
      TraceOfStart(r0, r1, r2, r3, op.Record());
      TraceRegrouped(old(log), r0, r1, r2, r3, op.Record());
    }

    /**
     Start. Residue of an earlier run is cleaned up first; a share that is active is never touched. A start that goes
     through makes sure of the web server, then creates the two credentials, with a checkpoint after each step, and
     nothing else. Invitations are handed out only for a live session, after the endpoint was verified (or verification
     was waived), and together with a stored record that lists exactly their credentials as active, all of them alive.
     A start that gives up has undone what it acquired, and keeps a degraded record of what it could not undo.
     */
    method Start(req: StartRequest, a: StartAnswers)
      returns (out: Outcome, saved: bool, invitations: seq<Invitation>, ghost began: bool, ghost cleaned: seq<Event>)
      requires Settled()
      modifies this
      ensures Settled()
      ensures !a.readable ==> out == Failed(LoadError)
      ensures !a.readable || (old(stored).Some? && old(stored).value.state.StateActive?) ==>
        stored == old(stored) && live == old(live) && log == old(log) && invitations == [] && !began
      ensures old(stored) == None ==> cleaned == [] && (began <==> a.readable)
      ensures invitations != [] ==>
        && out.Done? && a.session.Present? && (req.noVerify || a.probe.Passed())
        && stored.Some? && Shared(stored.value, invitations) && Outstanding(stored.value) <= live
        && log == old(log) + cleaned + StartTrace(stored.value)
      ensures out.Done? && invitations == [] ==>
        && old(stored).Some? && old(stored).value.state.StateActive?
        && (req.workspace == "" || req.workspace == old(stored).value.workspace)
        && (req.session == "" || req.session == old(stored).value.session)
      ensures began && !out.Done? ==> GaveUp(out, saved, old(log) + cleaned)
      ensures began && old(stored).Some? ==>
        CallsFollow(old(stored).value, cleaned) && forall r :: r in old(Recorded(stored)) ==> Released(r) in cleaned
      ensures a.readable && old(stored).Some? && !old(stored).value.state.StateActive? && !began ==>
        && !out.Done? && log == old(log) + cleaned && Incomplete(old(stored).value, stored, saved, cleaned, live)
    {
      invitations, saved, began, cleaned := [], false, false, [];
      var existing := Load(a.readable);
      if !a.readable {
        out := Failed(LoadError);
      } else if existing == null {
        assert log == old(log) + cleaned;
        began := true;
        out, saved, invitations := StartFresh(req, a);
      } else if existing.state.StateActive? {
        out := if
          (req.workspace == "" || req.workspace == existing.workspace) &&
          (req.session == "" || req.session == existing.session) then Done else Failed(AlreadyShared);
      } else {
        out, saved, invitations, began, cleaned := StartOver(existing, req, a);
      }
    }

    /** A start that finds the residue of an earlier run. */
    method StartOver(existing: SharingOperation, req: StartRequest, a: StartAnswers)
      returns (out: Outcome, saved: bool, invitations: seq<Invitation>, ghost began: bool, ghost cleaned: seq<Event>)
      requires Settled() && stored == Some(existing.Record())
      modifies this, existing
      ensures Settled()
      ensures !out.Done? ==> invitations == []
      ensures out.Done? ==>
        && a.session.Present? && (req.noVerify || a.probe.Passed()) && invitations != []
        && stored.Some? && Shared(stored.value, invitations) && Outstanding(stored.value) <= live
        && log == old(log) + cleaned + StartTrace(stored.value)
      ensures began && !out.Done? ==> GaveUp(out, saved, old(log) + cleaned)
      ensures began ==>
        CallsFollow(old(stored).value, cleaned) && forall r :: r in old(Recorded(stored)) ==> Released(r) in cleaned
      ensures !began ==>
        !out.Done? && log == old(log) + cleaned && Incomplete(old(stored).value, stored, saved, cleaned, live)
    {
      out, saved, cleaned := Reconcile(existing, "previous sharing operation was interrupted");
      invitations, began := [], out.Done?;
      if out.Done? {
        out, saved, invitations := StartFresh(req, a);
      } else if out.Failed? {
        out := Failed(StaleResourcesRemain);
      }
    }

    /** Writes down what a probe saw; whether the write succeeds does not matter to the caller. */
    method RecordProbe(op: SharingOperation, probe: Option<ProbeResult>) returns (killed: bool, ghost since: seq<Event>)
      requires Settled() && stored == Some(op.Record())
      modifies this, op
      ensures Settled() && live == old(live) && NothingCharged() && log == old(log) + since
      ensures forall e :: e in since ==> e == WroteOf(op.Record()) || e == WriteFailed || e == Crash
      ensures stored.Some? && OnlyProbeDiffers(old(op.Record()), stored.value)
      ensures OnlyProbeDiffers(old(op.Record()), op.Record())
      ensures !killed ==> op.lastProbe == if probe.Some? then probe else old(op.lastProbe)
    {
      killed, since := false, [];
      if probe.Some? {
        op.lastProbe := probe;
        op.updatedAt := Now();
        var reply := Save(op);
        killed := reply.Killed?;
        since := [if killed then Crash else if reply.Errored? then WriteFailed else WroteOf(op.Record())];
      }
    }

    /**
     Invite. The gate runs before the credential exists. On success the record gains exactly one invitation, whose
     credential is new and alive, and is otherwise as before but for the probe of the gate; if the credential cannot be
     handed out after all, it is revoked again in one call. Whatever happens, at most the probe and this one
     invitation change in the record.
     */
    method Invite(req: InviteRequest, a: InviteAnswers) returns (out: Outcome, invitation: Option<Invitation>)
      requires Settled()
      modifies this
      ensures Settled()
      ensures out.Done? <==> invitation.Some?
      ensures out.Done? ==>
        && a.readable && old(stored).Some? && old(stored).value.state.StateActive? && stored.Some?
        && a.session.Present? && !req.role.OtherRole? && (req.noVerify || a.probe.Passed())
        && var i := invitation.value;
           && Credential(i.credential) in live && Credential(i.credential) !in old(live)
           && (forall k :: 0 <= k < |old(stored).value.invitations| ==>
                 old(stored).value.invitations[k].inviteLabel != i.inviteLabel)
           && i.role == req.role && (req.inviteLabel != "" ==> i.inviteLabel == req.inviteLabel)
           && Invited(old(stored).value, stored.value, i, if req.noVerify then None else Some(a.probe.result))
           && Starting(old(log), log, [Credential(i.credential)])
      ensures out.Failed? ==> Starting(old(log), log, []) || exists r :: TakenBack(old(log), log, r)
      ensures live - old(live) <= Recorded(stored) + charge.Keys
      ensures stored.Some? <==> old(stored).Some?
      ensures stored.Some? ==> AtMostInvited(old(stored).value, stored.value)
      ensures !a.session.Present? || (!req.noVerify && !a.probe.Passed()) ==>
        live == old(live) && NothingCharged() && !out.Done?
    {
      invitation := None;
      NothingToUndo(log, live);
      if !a.readable { return Failed(LoadError), None; }
      var op := Load(a.readable);
      if op == null || !op.state.StateActive? { return Failed(NoActiveOperation), None; }
      if req.workspace != "" && req.workspace != op.workspace { return Failed(OtherWorkspace), None; }
      if a.session.NoAnswer? { return Failed(SessionUnknown), None; }
      if a.session.Absent? { return Failed(SessionAbsent), None; }
      if req.role.OtherRole? { return Failed(InvalidRole), None; }
      if req.inviteLabel == "" && a.freshLabel == None { return Failed(RandomFailed), None; }
      var name := if req.inviteLabel == "" then a.freshLabel.value else req.inviteLabel;
      if exists k :: 0 <= k < |op.invitations| && op.invitations[k].inviteLabel == name {
        return Failed(LabelTaken), None;
      }
      if !req.noVerify && a.probe.Inconclusive? { return Failed(ProbeInconclusive), None; }
      var probe := if req.noVerify then None else Some(a.probe.result);
      out, invitation := InviteBehindGate(op, name, req.role, probe, a.endpointParses);
    }

    /** The part of Invite from the verdict of the probe on. */
    method InviteBehindGate(
      op: SharingOperation, name: string, role: Role, probe: Option<ProbeResult>, endpointParses: bool
    ) returns (out: Outcome, invitation: Option<Invitation>)
      requires Settled() && stored == Some(op.Record())
      modifies this, op
      ensures Settled()
      ensures out.Done? <==> invitation.Some?
      ensures out.Done? ==>
        && stored.Some? && (probe.Some? ==> probe.value.ProbeOk?)
        && invitation == Some(Invitation(name, invitation.value.credential, role))
        && Credential(invitation.value.credential) in live && Credential(invitation.value.credential) !in old(live)
        && Invited(old(stored).value, stored.value, invitation.value, probe)
        && Starting(old(log), log, [Credential(invitation.value.credential)])
      ensures out.Failed? ==> Starting(old(log), log, []) || exists r :: TakenBack(old(log), log, r)
      ensures live - old(live) <= Recorded(stored) + charge.Keys
      ensures stored.Some?
      ensures AtMostInvited(old(stored).value, stored.value)
      ensures probe.Some? && probe.value.ProbeFailed? ==> live == old(live) && NothingCharged() && !out.Done?
    {
      NothingToUndo(log, live);
      var killed; ghost var since;
      killed, since := RecordProbe(op, probe);
      if killed { return Crashed, None; }
      StartingWithWrites(old(log), since);
      if probe.Some? && probe.value.ProbeFailed? { return Failed(ProbeFailedError), None; }
      ghost var probed := op.Record();
      ghost var credential;
      out, invitation, credential := AddInvitation(op, name, role, endpointParses, old(log));
      if stored.value.invitations != probed.invitations {
        ProbedThenInvited(old(stored).value, probed, stored.value, Invitation(name, credential, role), probe);
      }
    }

    /** The part of Invite after the gate. */
    method AddInvitation(
      op: SharingOperation, name: string, role: Role, endpointParses: bool, ghost base: seq<Event>
    ) returns (out: Outcome, invitation: Option<Invitation>, ghost credential: string)
      requires Settled() && stored.Some? && OnlyProbeDiffers(op.Record(), stored.value) && Starting(base, log, [])
      modifies this, op
      ensures Settled()
      ensures out.Done? <==> invitation.Some?
      ensures out.Done? ==>
        && invitation == Some(Invitation(name, credential, role))
        && Credential(credential) in live && Credential(credential) !in old(live)
        && stored == Some(op.Record()) && Starting(base, log, [Credential(credential)])
      ensures out.Failed? ==> Starting(base, log, []) || exists r :: TakenBack(base, log, r)
      ensures live - old(live) <= Recorded(stored) + charge.Keys
      ensures stored == old(stored) || (
        && stored == Some(op.Record())
        && Invited(old(op.Record()), op.Record(), Invitation(name, credential, role), None))
      ensures out.Done? ==> Invited(old(op.Record()), op.Record(), invitation.value, None)
    {
      invitation := None;
      var reply, name' := CreateToken();
      credential := name';
      if !reply.Succeeded? {
        if reply.Errored? {
          StillStarting(base, old(log), [], log[|old(log)|]);
        }
        return if reply.Killed? then Crashed else Failed(CallError), None, credential;
      }
      StillStarting(base, old(log), [], Acquired(Credential(credential)));
      assert [] + [Credential(credential)] == [Credential(credential)];
      if endpointParses {
        NoteInvitation(op, name, role, name');
        out := SaveInvitation(op, name', base);
        invitation := if out.Done? then Some(Invitation(name, name', role)) else None;
      } else {
        out := TakeBack(name', InvalidEndpoint, base);
      }
    }

    /** Writes down a credential that was just created and added to the operation. */
    method SaveInvitation(op: SharingOperation, credential: string, ghost base: seq<Event>) returns (out: Outcome)
      requires Valid() && inFlight == Some(Credential(credential)) && Acquired(Credential(credential)) in log
      requires Covers(op.Record()) && Credential(credential) in Outstanding(op.Record())
      requires Starting(base, log, [Credential(credential)])
      modifies this
      ensures Settled() && live <= old(live)
      ensures out.Done? ==>
        stored == Some(op.Record()) && live == old(live) && Starting(base, log, [Credential(credential)])
      ensures out.Failed? ==> TakenBack(base, log, Credential(credential))
      ensures stored == old(stored) || stored == Some(op.Record())
    {
      var reply := SaveCredential(op, credential, base);
      match reply {
        case Killed => out := Crashed;
        case Succeeded => out := Done;
        case Errored => out := TakeBack(credential, CallError, base);
      }
    }

    /** The write of SaveInvitation. */
    method SaveCredential(op: SharingOperation, credential: string, ghost base: seq<Event>) returns (reply: Reply)
      requires Valid() && inFlight == Some(Credential(credential)) && Acquired(Credential(credential)) in log
      requires Covers(op.Record()) && Credential(credential) in Outstanding(op.Record())
      requires Starting(base, log, [Credential(credential)])
      modifies this
      ensures Valid() && live == old(live) && (stored == old(stored) || stored == Some(op.Record()))
      ensures if reply.Errored? then inFlight == old(inFlight) else inFlight == None
      ensures reply.Succeeded? ==> stored == Some(op.Record())
      ensures !reply.Killed? ==>
        Starting(base, log, [Credential(credential)]) && Acquired(Credential(credential)) in log
    {
      reply := Save(op);
      if !reply.Killed? {
        var e := if reply.Succeeded? then WroteOf(op.Record()) else WriteFailed;
        StillStarting(base, old(log), [Credential(credential)], e);
      }
    }

    /** Adds a credential to the operation in memory. */
    method NoteInvitation(op: SharingOperation, name: string, role: Role, credential: string)
      requires Valid() && inFlight == Some(Credential(credential)) && Acquired(Credential(credential)) in log
      requires stored.Some? && OnlyProbeDiffers(op.Record(), stored.value)
      modifies op
      ensures Covers(op.Record()) && Credential(credential) in Outstanding(op.Record())
      ensures Invited(old(op.Record()), op.Record(), Invitation(name, credential, role), None)
    {
      var now := Now();
      ghost var before := op.Record();
      SamePlan(before, stored.value);
      op.invitations := op.invitations + [InvitationRecord(name, credential, role, InvitationActive, now)];
      AppendInvitation(before, op.invitations[|op.invitations| - 1]);
      op.updatedAt := now;
    }

    /** Revokes a credential that was just created and cannot be handed out. */
    method TakeBack(credential: string, cause: Error, ghost base: seq<Event>) returns (out: Outcome)
      requires Valid() && Starting(base, log, [Credential(credential)]) && Acquired(Credential(credential)) in log
      requires inFlight == Some(Credential(credential))
      modifies this`live, this`log, this`charge, this`inFlight
      ensures Settled() && live <= old(live)
      ensures out.Crashed? || (out == Failed(cause) && TakenBack(base, log, Credential(credential)))
    {
      var reply := Release(Credential(credential), true);
      if reply.Killed? {
        return Crashed;
      }
      var r := Credential(credential);
      OneCallTakesBack(base, old(log), r, if reply.Succeeded? then Released(r) else CleanupFailed(r));
      out := Failed(cause);
    }

    /**
     Revokes one invitation, the first with this label. The record changes only when Zellij confirmed, and only in this
     invitation and its time.
     */
    method Revoke(readable: bool, workspace: string, inviteLabel: string) returns (out: Outcome)
      requires Settled()
      modifies this
      ensures Settled() && live <= old(live) && NothingCharged()
      ensures stored == old(stored) || (old(stored).Some? && exists i: nat, now: int ::
        && FirstLabelled(old(stored).value.invitations, inviteLabel, i)
        && StepOutstanding(RevokeStep(i), old(stored).value)
        && stored == Some(Completed(RevokeStep(i), old(stored).value, now))
        && Credential(old(stored).value.invitations[i].credential) !in live)
      ensures out.Done? ==> readable && stored.Some? && exists i: nat ::
        FirstLabelled(stored.value.invitations, inviteLabel, i) && stored.value.invitations[i].state.InvitationRevoked?
    {
      var op := Load(readable);
      if !readable { return Failed(LoadError); }
      if op == null { return Failed(NoActiveOperation); }
      if workspace != "" && workspace != op.workspace { return Failed(OtherWorkspace); }
      var i := 0;
      while i < |op.invitations| && op.invitations[i].inviteLabel != inviteLabel
        invariant 0 <= i <= |op.invitations|
        invariant forall k :: 0 <= k < i ==> op.invitations[k].inviteLabel != inviteLabel
      {
        i := i + 1;
      }
      if i == |op.invitations| { return Failed(LabelNotFound); }
      assert FirstLabelled(op.invitations, inviteLabel, i);
      if op.invitations[i].state.InvitationRevoked? { return Done; }
      if op.invitations[i].credential == "" { return Failed(NoCredentialName); }
      out := RevokeAt(op, i);
      if stored != old(stored) || out.Done? {
        assert FirstLabelled(stored.value.invitations, inviteLabel, i);
      }
    }

    /** The part of Revoke that acts. */
    method RevokeAt(op: SharingOperation, i: nat) returns (out: Outcome)
      requires Settled() && stored == Some(op.Record()) && StepOutstanding(RevokeStep(i), op.Record())
      modifies this, op
      ensures Settled() && live <= old(live) && NothingCharged()
      ensures stored == old(stored) || (exists now: int ::
        && stored == Some(Completed(RevokeStep(i), old(stored).value, now))
        && Credential(old(stored).value.invitations[i].credential) !in live)
      ensures out.Done? ==> stored != old(stored)
    {
      var r := Credential(op.invitations[i].credential);
      NamedOutstanding(op.Record(), r);
      var reply := Release(r, false);
      if !reply.Succeeded? {
        return if reply.Killed? then Crashed else Failed(CallError);
      }
      var now := Now();
      CompletedIsDone(RevokeStep(i), op.Record(), now);
      SameOperationShrinks(op.Record(), Completed(RevokeStep(i), op.Record(), now));
      op.Complete(RevokeStep(i), now);
      assert op.invitations[i] != old(op.invitations)[i];
      reply := Save(op);
      out := match reply case Succeeded => Done case Errored => Failed(CallError) case Killed => Crashed;
    }

    /**
     Status. Only a session positively reported absent, or residue of an interrupted run, leads to a teardown.
     For an active share whose session is there or could not be asked for, whatever the probe says and whatever
     fails, nothing changes but the recorded probe and its time.
     */
    method Status(readable: bool, session: SessionAnswer, probe: ProbeAnswer)
      returns (out: Outcome, status: SharingStatus)
      requires Settled()
      modifies this
      ensures Settled() && live <= old(live) && NothingCharged()
      ensures OnlyShrunk(Recorded(stored), old(Recorded(stored)), live)
      ensures stored.Some? ==> old(stored).Some? && SameOperation(old(stored).value, stored.value)
      ensures (
        && readable && old(stored).Some? && !session.NoAnswer?
        && (session.Absent? || !old(stored).value.state.StateActive?)) ==>
        CleanedUpByReport(old(stored).value, out)
      ensures old(stored).Some? && (session.NoAnswer? || (session.Present? && old(stored).value.state.StateActive?)) ==>
        live == old(live) && stored.Some? && OnlyProbeDiffers(old(stored).value, stored.value)
      ensures session.NoAnswer? || !readable ==> stored == old(stored) && log == old(log)
      ensures (
        && readable && session.Present? && !out.Crashed?
        && old(stored).Some? && old(stored).value.state.StateActive?) ==>
        && (status.state.StateActive? || status.state.StateDegraded?)
        && (status.state.StateActive? <==> probe.Passed())
        && (out.Done? <==> status.state.StateActive?)
    {
      status := INACTIVE_STATUS;
      var op := Load(readable);
      if !readable { return Failed(LoadError), status; }
      if op == null { return Done, status; }
      status := StatusFromOperation(op.Record());
      if session.NoAnswer? {
        return Failed(Unverified), status.(state := StateDegraded);
      }
      if session.Absent? || !op.state.StateActive? {
        out := ReconcileForStatus(op, session.Absent?);
        status := if out.Done? then INACTIVE_STATUS else StatusFromOperation(op.Record());
        return;
      }
      if probe.Inconclusive? {
        return Failed(Unverified), status.(state := StateDegraded);
      }
      var killed; ghost var since;
      killed, since := RecordProbe(op, Some(probe.result));
      status := StatusFromOperation(op.Record());
      if probe.result.ProbeFailed? {
        status := status.(state := StateDegraded);
      }
      out := if killed then Crashed else if probe.result.ProbeFailed? then Failed(ProbeFailedError) else Done;
    }

    method ReconcileForStatus(op: SharingOperation, disappeared: bool) returns (out: Outcome)
      requires Settled() && stored == Some(op.Record())
      modifies this, op
      ensures Settled() && live <= old(live) && NothingCharged()
      ensures OnlyShrunk(Recorded(stored), old(Recorded(stored)), live)
      ensures CleanedUpByReport(old(stored).value, out)
    {
      var saved; ghost var since;
      out, saved, since := Reconcile(
        op, if disappeared then "canonical session disappeared" else "sharing operation is not active");
      assert log[|old(log)|..] == since;
    }

    /** A report has torn down this share, and says so exactly if nothing went wrong. */
    twostate predicate CleanedUpByReport(before: OperationRecord, out: Outcome)
      reads this
    {
      && old(log) <= log
      && var since := log[|old(log)|..];
         && Underway(before, stored, since, live)
         && (out.Done? ==>
               stored == None && forall r :: r in Outstanding(before) ==> Released(r) in since && r !in live)
         && (NoFaults(since) ==> out.Done?)
         && (out.Failed? ==> out.error == CleanupIncomplete && stored.Some?)
    }

    /** Reports the stored state, and does nothing else. */
    method Snapshot(readable: bool) returns (out: Outcome, status: SharingStatus)
      ensures out == if readable then Done else Failed(LoadError)
      ensures readable ==> status == if stored.Some? then StatusFromOperation(stored.value) else INACTIVE_STATUS
    {
      var op := Load(readable);
      if !readable { return Failed(LoadError), INACTIVE_STATUS; }
      out, status := Done, if op != null then StatusFromOperation(op.Record()) else INACTIVE_STATUS;
    }

    /**
     Stop. At every instant, also when it is killed, one call at most was made for each outstanding resource, in the
     order of the plan, nothing else was touched, and a record in the state file is of the same share with every step
     that was called and written down off it. If the last write succeeds, either nothing is left at all, or the record
     keeps as outstanding exactly the failed calls. With no fault, the share is gone.
     */
    method Stop(readable: bool, workspace: string) returns (out: Outcome, saved: bool, ghost since: seq<Event>)
      requires Settled()
      modifies this
      ensures Settled() && live <= old(live) && NothingCharged() && log == old(log) + since
      ensures old(stored).Some? ==> Underway(old(stored).value, stored, since, live)
      ensures stored.Some? <==> old(stored).Some? && !out.Done?
      ensures out.Done? ==> readable && stored == None && forall r :: r in old(Recorded(stored)) ==> r !in live
      ensures out == Failed(CleanupIncomplete) ==>
        old(stored).Some? && Incomplete(old(stored).value, stored, saved, since, live)
      ensures out.Failed? && out.error != CleanupIncomplete ==> stored == old(stored) && since == []
      ensures out == Failed(LoadError) <==> !readable
      ensures out == Failed(OtherWorkspace) <==>
        readable && old(stored).Some? && workspace != "" && workspace != old(stored).value.workspace
      ensures NoFaults(since) ==> out.Done? || out == Failed(LoadError) || out == Failed(OtherWorkspace)
    {
      saved, since := false, [];
      var op := Load(readable);
      if stored.Some? {
        ghost var record := stored.value;
        BeginsTornDown(record, record, [], live, charge, stored, log);
      }
      assert log + [] == log;
      if !readable { return Failed(LoadError), false, []; }
      if op == null { return Done, false, []; }
      if workspace != "" && workspace != op.workspace { return Failed(OtherWorkspace), false, []; }
      out, saved, since := Teardown(op, op.Record(), log, []);
    }

    // ---- Runs ----

    /** One step of a run; a killed command is simply over. */
    method Step(c: Command)
      requires Settled()
      modifies this
      ensures Settled()
      ensures OnlyObserves(c) && old(stored).Some? && old(stored).value.state.StateActive? ==>
        && live == old(live) && NothingCharged()
        && stored.Some? && OnlyProbeDiffers(old(stored).value, stored.value)
      ensures c.StopCommand? ==>
        live <= old(live) && NothingCharged() && OnlyShrunk(Recorded(stored), old(Recorded(stored)), live)
    {
      match c {
        case StartCommand(req, a) =>
          var out, saved, invitations; ghost var began, cleaned;
          out, saved, invitations, began, cleaned := Start(req, a);
        case InviteCommand(req, a) => var out, invitation := Invite(req, a);
        case RevokeCommand(readable, workspace, inviteLabel) => var out := Revoke(readable, workspace, inviteLabel);
        case StatusCommand(readable, session, probe) => var out, status := Status(readable, session, probe);
        case SnapshotCommand(readable) => var out, status := Snapshot(readable);
        case StopCommand(readable, workspace) =>
          var out, saved; ghost var since;
          out, saved, since := Stop(readable, workspace);
        case Vanish(gone) => live := live - gone;
      }
    }

    /**
     Every run, with any call failing and a crash possible before any effect: each live resource that the state file
     does not list as outstanding is charged to a log entry of its own, which comes after the resource was last
     acquired: a crash before any record listed it, a failed cleanup of it, or a lost reply for it. And whatever was
     released had been acquired by cc-deck before.
     */
    method Run(commands: seq<Command>)
      requires Settled()
      modifies this
      ensures Accounted(live, Recorded(stored), None, charge, log) && ReleasesOwnOnly(log)
      ensures forall r :: r in live && r !in Recorded(stored) ==> r in charge && Explains(log, charge[r], r)
      ensures |live - Recorded(stored)| == |ChargedEntries(live, Recorded(stored), charge)|
      ensures Settled()
    {
      for i := 0 to |commands|
        invariant Settled()
      {
        Step(commands[i]);
      }
      ForgottenResourcesAreBounded(live, Recorded(stored), charge, log);
    }

    /** Reporting on an active share, however often and with whatever probe results, leaves it as it is. */
    method Observe(commands: seq<Command>)
      requires Settled() && stored.Some? && stored.value.state.StateActive?
      requires forall c :: c in commands ==> OnlyObserves(c)
      modifies this
      ensures Settled() && live == old(live) && NothingCharged()
      ensures stored.Some? && OnlyProbeDiffers(old(stored).value, stored.value)
    {
      for i := 0 to |commands|
        invariant Settled() && live == old(live) && NothingCharged()
        invariant stored.Some? && OnlyProbeDiffers(old(stored).value, stored.value)
      {
        Step(commands[i]);
      }
    }

    /**
     Stop, repeated until one attempt leaves nothing or there are no more attempts; readable says of each attempt
     whether it can read the state file. An attempt that can, and that meets no fault, is the last one and leaves an
     empty store with every resource gone: if none is, each attempt has logged a fault or could not read the file. On
     the way, each attempt makes calls only for what is still outstanding, nothing is forgotten, and what any attempt
     has called and written down stays off the record.
     */
    method RepeatStop(readable: seq<bool>) returns (gone: bool, ghost tries: seq<Attempt>)
      requires Settled() && stored.Some?
      modifies this
      ensures Settled() && live <= old(live) && NothingCharged() && log == old(log) + Flatten(tries)
      ensures gone ==> stored == None && forall r :: r in old(Recorded(stored)) ==> r !in live
      ensures !gone ==>
        && |tries| == |readable| && stored.Some?
        && forall i :: 0 <= i < |tries| && readable[i] ==> !NoFaults(tries[i].since)
      ensures AttemptsOf(old(stored).value, tries, stored)
      ensures OnlyShrunk(Recorded(stored), old(Recorded(stored)), live)
    {
      gone, tries := false, [];
      ghost var first := stored.value;
      assert log + Flatten([]) == log;
      for i := 0 to |readable|
        invariant Settled() && stored.Some? && live <= old(live) && NothingCharged()
        invariant log == old(log) + Flatten(tries) && |tries| == i
        invariant forall k :: 0 <= k < i && readable[k] ==> !NoFaults(tries[k].since)
        invariant OnlyShrunk(Recorded(stored), old(Recorded(stored)), live)
        invariant AttemptsOf(first, tries, stored) && (i == 0 ==> stored.value == first)
      {
        ghost var attempt;
        ghost var recorded, alive := Recorded(stored), live;
        gone, attempt := TryStop(readable[i], first, tries);
        OnlyShrunkAgain(old(Recorded(stored)), recorded, Recorded(stored), alive, live);
        Regroup(old(log), Flatten(tries), attempt.since);
        tries := tries + [attempt];
        if gone {
          return;
        }
      }
    }

    /** One attempt of RepeatStop. */
    method TryStop(readable: bool, ghost first: OperationRecord, ghost tries: seq<Attempt>)
      returns (gone: bool, ghost attempt: Attempt)
      requires Settled() && AttemptsOf(first, tries, stored)
      requires stored.Some? && (tries == [] ==> stored.value == first)
      modifies this
      ensures Settled() && live <= old(live) && NothingCharged() && log == old(log) + attempt.since
      ensures gone ==> stored == None && forall r :: r in old(Recorded(stored)) ==> r !in live
      ensures !gone ==> stored.Some? && (readable ==> !NoFaults(attempt.since))
      ensures OnlyShrunk(Recorded(stored), old(Recorded(stored)), live)
      ensures AttemptsOf(first, tries + [attempt], stored)
      ensures Flatten(tries + [attempt]) == Flatten(tries) + attempt.since
    {
      ghost var found := stored.value;
      var out, saved; ghost var since;
      out, saved, since := Stop(readable, "");
      gone, attempt := out.Done?, Attempt(found, since);
      OneMoreAttempt(first, tries, found, since, stored);
    }
  }
}
