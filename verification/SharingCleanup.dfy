/**
 What a teardown and a rollback have done at each point (cc-deck/internal/share/service.go:116-148 and 570-651), in
 terms of the record before, the record now, and the events since.
 */
module SharingCleanup {
  import opened Wrappers
  import opened SharingModel

  // ---- The calls in a log ----

  /** The event of one cleanup step: a call to release something, or the finding that there is no name to call with. */
  predicate IsCall(e: Event) {
    e.Released? || e.CleanupFailed? || e.Unnamed?
  }

  function Calls(log: seq<Event>): seq<Event> {
    if log == [] then []
    else Calls(log[..|log| - 1]) + if IsCall(log[|log| - 1]) then [log[|log| - 1]] else []
  }

  function Acquisitions(log: seq<Event>): seq<Resource> {
    if log == [] then []
    else Acquisitions(log[..|log| - 1]) + if log[|log| - 1].Acquired? then [log[|log| - 1].r] else []
  }

  lemma OneMoreEvent(log: seq<Event>, e: Event)
    ensures Calls(log + [e]) == Calls(log) + if IsCall(e) then [e] else []
    ensures Acquisitions(log + [e]) == Acquisitions(log) + if e.Acquired? then [e.r] else []
  {
    assert (log + [e])[..|log|] == log;
  }

  lemma {:induction false} MoreEvents(log: seq<Event>, more: seq<Event>)
    ensures Calls(log + more) == Calls(log) + Calls(more)
    ensures Acquisitions(log + more) == Acquisitions(log) + Acquisitions(more)
    decreases |more|
  {
    if more == [] {
      assert log + more == log;
    } else {
      var front, last := more[..|more| - 1], more[|more| - 1];
      MoreEvents(log, front);
      assert log + more == log + front + [last];
      OneMoreEvent(log + front, last);
    }
  }

  /** A call in the log is found among the calls, after those before it. */
  lemma {:induction false} CallAt(log: seq<Event>, p: nat)
    requires p < |log| && IsCall(log[p])
    ensures |Calls(log[..p])| < |Calls(log)| && Calls(log)[|Calls(log[..p])|] == log[p]
  {
    var n := |log| - 1;
    if p < n {
      CallAt(log[..n], p);
      assert log[..n][..p] == log[..p];
    }
  }

  lemma {:induction false} OnlyWrites(log: seq<Event>)
    requires forall e :: e in log ==> e.Wrote? || e.WriteFailed? || e.Crash?
    ensures Calls(log) == [] && Acquisitions(log) == []
  {
    if log != [] {
      assert forall e :: e in log[..|log| - 1] ==> e in log;
      OnlyWrites(log[..|log| - 1]);
      assert log[|log| - 1] in log;
    }
  }

  lemma {:induction false} OnlyCalls(log: seq<Event>)
    requires forall e :: e in log ==> IsCall(e)
    ensures Calls(log) == log && Acquisitions(log) == []
  {
    if log != [] {
      var front, last := log[..|log| - 1], log[|log| - 1];
      assert log == front + [last];
      assert last in log && forall e :: e in front ==> e in log;
      OnlyCalls(front);
      OneMoreEvent(front, last);
    }
  }

  lemma {:induction false} CallsComeFrom(log: seq<Event>, e: Event)
    ensures e in Calls(log) <==> e in log && IsCall(e)
  {
    if log != [] {
      CallsComeFrom(log[..|log| - 1], e);
      assert log == log[..|log| - 1] + [log[|log| - 1]];
    }
  }

  lemma NotFaultless(since: seq<Event>, more: seq<Event>)
    ensures NoFaults(since + more) <==> NoFaults(since) && NoFaults(more)
  {
    assert forall e :: e in since + more <==> e in since || e in more;
  }

  // ---- The plan of a teardown ----

  /** One step of a teardown: revoke the credential of one invitation, or stop the web server. */
  datatype CleanupStep = RevokeStep(index: nat) | StopServerStep

  predicate StepOutstanding(step: CleanupStep, op: OperationRecord) {
    match step
    case RevokeStep(i) => i < |op.invitations| && op.invitations[i].state.InvitationActive?
    case StopServerStep => op.webServerOwned && !op.webServerStopped
  }

  function StepResource(step: CleanupStep, op: OperationRecord): Resource
    requires step.RevokeStep? ==> step.index < |op.invitations|
  {
    match step
    case RevokeStep(i) => Credential(op.invitations[i].credential)
    case StopServerStep => WebServer(op.id)
  }

  /** The revocations for the first i invitations, the last one first. */
  function RevokeSteps(op: OperationRecord, i: nat): seq<CleanupStep>
    requires i <= |op.invitations|
  {
    if i == 0 then []
    else
      (if op.invitations[i - 1].state.InvitationActive? then [RevokeStep(i - 1)] else []) + RevokeSteps(op, i - 1)
  }

  /** The steps of a teardown: the active invitations from the last to the first, then the web server. */
  function TeardownPlan(op: OperationRecord): seq<CleanupStep> {
    RevokeSteps(op, |op.invitations|) + if op.webServerOwned && !op.webServerStopped then [StopServerStep] else []
  }

  lemma {:induction false} RevokeStepsAreOutstanding(op: OperationRecord, i: nat)
    requires i <= |op.invitations|
    ensures forall step :: step in RevokeSteps(op, i) <==>
      step.RevokeStep? && step.index < i && op.invitations[step.index].state.InvitationActive?
    ensures forall j, k :: 0 <= j < k < |RevokeSteps(op, i)| ==> RevokeSteps(op, i)[j] != RevokeSteps(op, i)[k]
  {
    if i > 0 {
      RevokeStepsAreOutstanding(op, i - 1);
    }
  }

  /** The plan has exactly the outstanding steps, none twice. */
  lemma PlanIsExact(op: OperationRecord)
    ensures forall step :: step in TeardownPlan(op) <==> StepOutstanding(step, op)
    ensures forall j, k :: 0 <= j < k < |TeardownPlan(op)| ==> TeardownPlan(op)[j] != TeardownPlan(op)[k]
  {
    RevokeStepsAreOutstanding(op, |op.invitations|);
    var revokes, plan := RevokeSteps(op, |op.invitations|), TeardownPlan(op);
    var stops: seq<CleanupStep> := if op.webServerOwned && !op.webServerStopped then [StopServerStep] else [];
    assert plan == revokes + stops;
    forall step ensures step in plan <==> StepOutstanding(step, op) {
      assert step in plan <==> step in revokes || step in stops;
    }
    forall j, k | 0 <= j < k < |plan| ensures plan[j] != plan[k] {
      assert plan[j] == revokes[j] && revokes[j] in revokes;
    }
  }

  // ---- A teardown in progress ----

  predicate CleanupOf(e: Event, r: Resource) {
    e == Released(r) || e == CleanupFailed(r)
  }

  /** The event is the call of this step. */
  predicate CallOf(e: Event, step: CleanupStep, before: OperationRecord) {
    StepOutstanding(step, before)
    && var r := StepResource(step, before);
    if r == Credential("") then e == Unnamed else CleanupOf(e, r)
  }

  /** The calls made so far are those of the first steps of the plan, one for each, in order. */
  ghost predicate CallsFollow(before: OperationRecord, since: seq<Event>) {
    var steps, calls := TeardownPlan(before), Calls(since);
    |calls| <= |steps| && forall j :: 0 <= j < |calls| ==> CallOf(calls[j], steps[j], before)
  }

  /** The first k steps have been made, and each of them is outstanding exactly if its call did not succeed. */
  ghost predicate MadeUpTo(k: nat, before: OperationRecord, after: OperationRecord, since: seq<Event>) {
    var steps, calls := TeardownPlan(before), Calls(since);
    && SameOperation(before, after) && CallsFollow(before, since) && |calls| == k
    && forall j :: 0 <= j < |steps| ==>
         (StepOutstanding(steps[j], after) <==> j >= k || !calls[j].Released?)
  }

  /**
   after is what remains of before when each outstanding step had exactly one call, in the order of the plan: what is
   still outstanding failed or has no name to revoke, and what is not was confirmed gone.
   */
  ghost predicate CleanedUp(before: OperationRecord, after: OperationRecord, since: seq<Event>) {
    MadeUpTo(|TeardownPlan(before)|, before, after, since)
  }

  /** The j-th call succeeded, and writing that down right after it did too. */
  ghost predicate WrittenDown(since: seq<Event>, j: nat) {
    exists p: nat ::
      p + 1 < |since| && since[p].Released? && since[p + 1].Wrote? && |Calls(since[..p])| == j
  }

  /** A record in the state file is of this operation, and every step that was written down is off it. */
  ghost predicate StoredFollows(before: OperationRecord, stored: Option<OperationRecord>, since: seq<Event>) {
    stored.Some? ==>
      && SameOperation(before, stored.value)
      && forall j :: 0 <= j < |TeardownPlan(before)| && WrittenDown(since, j) ==>
           !StepOutstanding(TeardownPlan(before)[j], stored.value)
  }

  /** The events are those of a cleanup that touches nothing but the given resources. */
  ghost predicate OnlyCleansUp(since: seq<Event>, resources: set<Resource>) {
    forall e :: e in since ==>
      e.Wrote? || e.WriteFailed? || e.Crash? || e.Unnamed? || ((e.Released? || e.CleanupFailed?) && e.r in resources)
  }

  /** A cleanup took from what was outstanding, in the state file, only resources that are gone. */
  ghost predicate OnlyShrunk(recorded: set<Resource>, before: set<Resource>, live: set<Resource>) {
    recorded <= before && forall r :: r in before ==> r in recorded || r !in live
  }

  /** What holds of a teardown of before at every instant, also when it is killed. */
  ghost predicate Underway(
    before: OperationRecord, stored: Option<OperationRecord>, since: seq<Event>, live: set<Resource>
  ) {
    && CallsFollow(before, since) && StoredFollows(before, stored, since)
    && OnlyCleansUp(since, Outstanding(before)) && OnlyShrunk(Recorded(stored), Outstanding(before), live)
  }

  /**
   A teardown of before that has made its first k steps and logged since, leaving the record op. Whatever is live
   is still outstanding in op or was charged before.
   */
  ghost predicate TornDownTo(
    k: nat, before: OperationRecord, op: OperationRecord, since: seq<Event>,
    live: set<Resource>, charge: map<Resource, nat>, stored: Option<OperationRecord>, log: seq<Event>
  ) {
    && stored.Some? && Underway(before, stored, since, live) && MadeUpTo(k, before, op, since)
    && (forall r :: r in live ==> r in Outstanding(op) || r in charge)
    && (forall r :: r in Outstanding(before) ==> r in Outstanding(op) || r !in live)
    && (forall r :: Released(r) in since ==> r !in live)
    && (forall r :: r in Named(before) ==> Acquired(r) in log)
  }

  /** The record after one step succeeded. */
  function Completed(step: CleanupStep, op: OperationRecord, now: int): OperationRecord
    requires StepOutstanding(step, op)
  {
    match step
    case RevokeStep(i) =>
      op.(invitations := op.invitations[i := op.invitations[i].(state := InvitationRevoked)], updatedAt := now)
    case StopServerStep => op.(webServerStopped := true, updatedAt := now)
  }

  /** Of all steps, exactly this one is no longer outstanding, and its resource at most is no longer listed. */
  lemma CompletedIsDone(step: CleanupStep, op: OperationRecord, now: int)
    requires StepOutstanding(step, op)
    ensures var after := Completed(step, op, now);
      && SameOperation(op, after)
      && (forall other :: StepOutstanding(other, after) <==> StepOutstanding(other, op) && other != step)
      && Outstanding(op) <= Outstanding(after) + {StepResource(step, op)}
  {
    var after := Completed(step, op, now);
    forall r | r in Outstanding(op) ensures r in Outstanding(after) + {StepResource(step, op)} {
      if r in ActiveCredentials(op.invitations) {
        var k :| 0 <= k < |op.invitations| && op.invitations[k].state.InvitationActive?
          && Credential(op.invitations[k].credential) == r;
        assert step == RevokeStep(k) || after.invitations[k] == op.invitations[k];
      }
    }
  }

  /** An event that is not a write after a call leaves what is written down as it was. */
  lemma NothingWrittenDown(since: seq<Event>, e: Event, j: nat)
    requires !e.Wrote? && WrittenDown(since + [e], j)
    ensures WrittenDown(since, j)
  {
    var all := since + [e];
    var p: nat :| p + 1 < |all| && all[p].Released? && all[p + 1].Wrote? && |Calls(all[..p])| == j;
    assert all[..p] == since[..p];
  }

  /** What is written down was called, and the call succeeded. */
  lemma WrittenDownWasReleased(since: seq<Event>, j: nat)
    requires WrittenDown(since, j)
    ensures j < |Calls(since)| && Calls(since)[j].Released?
  {
    var p: nat :| p + 1 < |since| && since[p].Released? && since[p + 1].Wrote? && |Calls(since[..p])| == j;
    CallAt(since, p);
  }

  lemma StoredStillFollows(before: OperationRecord, stored: Option<OperationRecord>, since: seq<Event>, e: Event)
    requires StoredFollows(before, stored, since) && !e.Wrote?
    ensures StoredFollows(before, stored, since + [e])
  {
    if stored.Some? {
      forall j | 0 <= j < |TeardownPlan(before)| && WrittenDown(since + [e], j)
        ensures !StepOutstanding(TeardownPlan(before)[j], stored.value)
      {
        NothingWrittenDown(since, e, j);
      }
    }
  }

  /** A record that reflects all calls reflects those that were written down. */
  lemma CurrentFollows(k: nat, before: OperationRecord, op: OperationRecord, since: seq<Event>, e: Event)
    requires MadeUpTo(k, before, op, since) && !IsCall(e)
    ensures MadeUpTo(k, before, op, since + [e]) && StoredFollows(before, Some(op), since + [e])
  {
    OneMoreEvent(since, e);
    forall j | 0 <= j < |TeardownPlan(before)| && WrittenDown(since + [e], j)
      ensures !StepOutstanding(TeardownPlan(before)[j], op)
    {
      WrittenDownWasReleased(since + [e], j);
    }
  }

  /** The resource of the next step is outstanding and was acquired. */
  lemma NextStep(
    k: nat, before: OperationRecord, op: OperationRecord, since: seq<Event>,
    live: set<Resource>, charge: map<Resource, nat>, stored: Option<OperationRecord>, log: seq<Event>
  )
    requires k < |TeardownPlan(before)| && TornDownTo(k, before, op, since, live, charge, stored, log)
    ensures var step := TeardownPlan(before)[k];
      && StepOutstanding(step, before) && StepOutstanding(step, op)
      && StepResource(step, op) == StepResource(step, before)
      && StepResource(step, op) in Outstanding(before) && Acquired(StepResource(step, op)) in log
    ensures forall r :: r in Named(op) ==> Acquired(r) in log
  {
    var step := TeardownPlan(before)[k];
    PlanIsExact(before);
    assert step in TeardownPlan(before);
    SameOperationShrinks(before, op);
  }

  /** The record reflects one more call. */
  lemma OneMoreMade(
    k: nat, before: OperationRecord, op: OperationRecord, since: seq<Event>, e: Event, after: OperationRecord
  )
    requires k < |TeardownPlan(before)| && MadeUpTo(k, before, op, since) && CallOf(e, TeardownPlan(before)[k], before)
    requires SameOperation(before, after)
    requires forall step :: StepOutstanding(step, after) <==>
      StepOutstanding(step, op) && !(step == TeardownPlan(before)[k] && e.Released?)
    ensures MadeUpTo(k + 1, before, after, since + [e])
  {
    PlanIsExact(before);
    OneMoreEvent(since, e);
    var steps, calls, calls' := TeardownPlan(before), Calls(since), Calls(since + [e]);
    assert calls' == calls + [e];
    forall j | 0 <= j < |calls'| ensures CallOf(calls'[j], steps[j], before) {
      assert j < k ==> calls'[j] == calls[j];
    }
    forall j | 0 <= j < |steps| ensures StepOutstanding(steps[j], after) <==> j >= k + 1 || !calls'[j].Released? {
      assert StepOutstanding(steps[j], op) <==> j >= k || !calls[j].Released?;
      assert j != k ==> steps[j] != steps[k];
    }
  }

  /** A confirmed call completes its step. */
  lemma StepConfirmed(
    k: nat, before: OperationRecord, op: OperationRecord, since: seq<Event>,
    live: set<Resource>, charge: map<Resource, nat>, stored: Option<OperationRecord>, log: seq<Event>, now: int
  )
    requires k < |TeardownPlan(before)| && TornDownTo(k, before, op, since, live, charge, stored, log)
    requires StepOutstanding(TeardownPlan(before)[k], op)
    requires StepResource(TeardownPlan(before)[k], op) != Credential("")
    ensures var step := TeardownPlan(before)[k];
      var done := Released(StepResource(step, op));
      TornDownTo(k + 1, before, Completed(step, op, now), since + [done], live - {done.r}, charge, stored, log + [done])
  {
    var step := TeardownPlan(before)[k];
    var done := Released(StepResource(step, op));
    NextStep(k, before, op, since, live, charge, stored, log);
    CompletedIsDone(step, op, now);
    SameOperationTransitive(before, op, Completed(step, op, now));
    OneMoreMade(k, before, op, since, done, Completed(step, op, now));
    StoredStillFollows(before, stored, since, done);
  }

  /** A failed call, or one that cannot be made for lack of a name, leaves its step outstanding. */
  lemma StepNotConfirmed(
    k: nat, before: OperationRecord, op: OperationRecord, since: seq<Event>,
    live: set<Resource>, charge: map<Resource, nat>, stored: Option<OperationRecord>, log: seq<Event>,
    live': set<Resource>, e: Event
  )
    requires k < |TeardownPlan(before)| && TornDownTo(k, before, op, since, live, charge, stored, log) && live' <= live
    requires CallOf(e, TeardownPlan(before)[k], before) && !e.Released?
    ensures TornDownTo(k + 1, before, op, since + [e], live', charge, stored, log + [e])
  {
    NextStep(k, before, op, since, live, charge, stored, log);
    OneMoreMade(k, before, op, since, e, op);
    StoredStillFollows(before, stored, since, e);
  }

  /** A write, or a write that failed with or without having taken effect, does not undo the progress. */
  lemma StepWritten(
    k: nat, before: OperationRecord, op: OperationRecord, since: seq<Event>,
    live: set<Resource>, charge: map<Resource, nat>, stored: Option<OperationRecord>, log: seq<Event>,
    charge': map<Resource, nat>, stored': Option<OperationRecord>, e: Event
  )
    requires TornDownTo(k, before, op, since, live, charge, stored, log)
    requires (stored' == Some(op) && e.Wrote?) || ((stored' == stored || stored' == Some(op)) && e == WriteFailed)
    requires charge' == if e.Wrote? then charge - Outstanding(op) else charge
    ensures TornDownTo(k, before, op, since + [e], live, charge', stored', log + [e])
  {
    CurrentFollows(k, before, op, since, e);
    SameOperationShrinks(before, op);
    if stored' == stored && !e.Wrote? {
      StoredStillFollows(before, stored, since, e);
    }
  }

  /** A kill leaves the state file as it is. */
  lemma KilledUnderway(
    before: OperationRecord, stored: Option<OperationRecord>, since: seq<Event>, live: set<Resource>
  )
    requires Underway(before, stored, since, live)
    ensures Underway(before, stored, since + [Crash], live) && !NoFaults(since + [Crash])
  {
    OneMoreEvent(since, Crash);
    StoredStillFollows(before, stored, since, Crash);
    assert Crash in since + [Crash] && IsFault(Crash);
  }

  /** Changes of the record beside the cleanup do not matter to it. */
  lemma SameProgress(
    k: nat, before: OperationRecord, op: OperationRecord, since: seq<Event>, after: OperationRecord
  )
    requires MadeUpTo(k, before, op, since) && SameResources(op, after)
    ensures MadeUpTo(k, before, after, since) && Outstanding(after) == Outstanding(op)
  {
    assert forall step :: StepOutstanding(step, after) == StepOutstanding(step, op);
  }

  /** A plan is about what is outstanding, whatever else is in the record. */
  lemma SamePlan(before: OperationRecord, other: OperationRecord)
    requires SameResources(before, other)
    ensures TeardownPlan(before) == TeardownPlan(other) && Outstanding(before) == Outstanding(other)
    ensures Named(before) == Named(other)
  {
    SameRevokeSteps(before, other, |before.invitations|);
  }

  lemma {:induction false} SameRevokeSteps(before: OperationRecord, other: OperationRecord, i: nat)
    requires SameResources(before, other) && i <= |before.invitations|
    ensures RevokeSteps(before, i) == RevokeSteps(other, i)
  {
    if i > 0 {
      SameRevokeSteps(before, other, i - 1);
    }
  }

  /** When no step is outstanding any more, nothing is, and every release was confirmed. */
  lemma NothingLeft(before: OperationRecord, after: OperationRecord, since: seq<Event>)
    requires CleanedUp(before, after, since)
    requires forall step :: step in TeardownPlan(before) ==> !StepOutstanding(step, after)
    ensures Outstanding(after) == {}
    ensures forall r :: r in Outstanding(before) ==> Released(r) in since
  {
    PlanIsExact(before);
    var steps, calls := TeardownPlan(before), Calls(since);
    forall step | StepOutstanding(step, before)
      ensures !StepOutstanding(step, after) && Released(StepResource(step, before)) in since
    {
      var j :| 0 <= j < |steps| && steps[j] == step;
      assert StepOutstanding(steps[j], after) <==> !calls[j].Released?;
      assert CallOf(calls[j], steps[j], before);
      CallsComeFrom(since, calls[j]);
    }
    forall i | 0 <= i < |after.invitations| ensures !after.invitations[i].state.InvitationActive? {
      assert StepOutstanding(RevokeStep(i), after) ==> StepOutstanding(RevokeStep(i), before);
    }
    assert StepOutstanding(StopServerStep, after) ==> StepOutstanding(StopServerStep, before);
    forall r | r in Outstanding(before) ensures Released(r) in since {
      if r in ActiveCredentials(before.invitations) {
        var i :| 0 <= i < |before.invitations| && before.invitations[i].state.InvitationActive?
          && Credential(before.invitations[i].credential) == r;
        assert StepOutstanding(RevokeStep(i), before);
      } else {
        assert StepOutstanding(StopServerStep, before);
      }
    }
  }

  lemma NothingCalled(since: seq<Event>)
    requires Calls(since) == []
    ensures forall j: nat :: !WrittenDown(since, j)
  {
    forall j: nat ensures !WrittenDown(since, j) {
      if WrittenDown(since, j) {
        WrittenDownWasReleased(since, j);
      }
    }
  }

  /** A teardown that has not made any call yet. */
  lemma BeginsTornDown(
    before: OperationRecord, op: OperationRecord, since: seq<Event>, live: set<Resource>, charge: map<Resource, nat>,
    stored: Option<OperationRecord>, log: seq<Event>
  )
    requires SameResources(before, op) && stored.Some? && SameResources(before, stored.value)
    requires forall e :: e in since ==> e.Wrote? || e.WriteFailed?
    requires forall r :: r in live ==> r in Outstanding(op) || r in charge
    requires forall r :: r in Named(op) ==> Acquired(r) in log
    ensures TornDownTo(0, before, op, since, live, charge, stored, log)
  {
    OnlyWrites(since);
    PlanIsExact(before);
    SamePlan(before, op);
    SamePlan(before, stored.value);
    NothingCalled(since);
    PlanIsExact(op);
    forall j | 0 <= j < |TeardownPlan(before)| ensures StepOutstanding(TeardownPlan(before)[j], op) {
      assert TeardownPlan(op)[j] in TeardownPlan(op);
    }
  }

  /** Changes of the record beside the cleanup do not matter to it. */
  lemma StaysTornDown(
    k: nat, before: OperationRecord, op: OperationRecord, since: seq<Event>, live: set<Resource>,
    charge: map<Resource, nat>, stored: Option<OperationRecord>, log: seq<Event>, after: OperationRecord
  )
    requires TornDownTo(k, before, op, since, live, charge, stored, log) && SameResources(op, after)
    ensures TornDownTo(k, before, after, since, live, charge, stored, log)
  {
    SameProgress(k, before, op, since, after);
  }

  /** The residuals of a teardown say whether anything went wrong so far: none means that every step is complete. */
  ghost predicate Explained(
    residuals: seq<Residual>, k: nat, before: OperationRecord, op: OperationRecord, since: seq<Event>
  ) {
    && k <= |TeardownPlan(before)|
    && (residuals == [] ==> forall j :: 0 <= j < k ==> !StepOutstanding(TeardownPlan(before)[j], op))
    && (residuals != [] ==> !NoFaults(since))
  }

  lemma ExplainedStep(
    residuals: seq<Residual>, k: nat, before: OperationRecord, op: OperationRecord, since: seq<Event>,
    residual: Option<Residual>, op': OperationRecord, more: seq<Event>
  )
    requires k < |TeardownPlan(before)| && Explained(residuals, k, before, op, since)
    requires forall step :: StepOutstanding(step, op') ==> StepOutstanding(step, op)
    requires if residual == None then !StepOutstanding(TeardownPlan(before)[k], op') else !NoFaults(more)
    ensures Explained(
      residuals + if residual.Some? then [residual.value] else [], k + 1, before, op', since + more)
  {
    NotFaultless(since, more);
  }

  lemma FaultIn(since: seq<Event>, e: Event)
    requires e in since && IsFault(e)
    ensures !NoFaults(since)
  {
  }

  /** What a cleanup of before that did not come to an end leaves, and exactly so if its last write succeeded. */
  ghost predicate Incomplete(
    before: OperationRecord, stored: Option<OperationRecord>, saved: bool, since: seq<Event>, live: set<Resource>
  ) {
    && stored.Some? && Underway(before, stored, since, live)
    && (saved ==> stored.value.state.StateDegraded? && CleanedUp(before, stored.value, since))
  }

  lemma TwoEvents(since: seq<Event>, e: Event, f: Event)
    ensures since + [e] + [f] == since + [e, f]
  {
  }

  lemma Regroup(a: seq<Event>, b: seq<Event>, c: seq<Event>)
    ensures a + b + c == a + (b + c)
  {
  }

  /** After the earlier writes, stopping was written before anything else, or a fault was logged instead. */
  predicate StartsStopping(before: OperationRecord, earlier: seq<Event>, since: seq<Event>) {
    && earlier < since
    && (since[|earlier|] == Wrote(StateStopping, Outstanding(before)) || IsFault(since[|earlier|]))
  }

  /** Without residuals after all steps nothing is outstanding, and all of it is gone. */
  lemma NothingLeftOf(before: OperationRecord, op: OperationRecord, since: seq<Event>)
    requires CleanedUp(before, op, since) && Explained([], |TeardownPlan(before)|, before, op, since)
    ensures Outstanding(op) == {} && forall r :: r in Outstanding(before) ==> Released(r) in since
  {
    NothingLeft(before, op, since);
  }

  // ---- Several teardowns of one operation ----

  /** One attempt at a teardown: the record it found, and what it logged. */
  datatype Attempt = Attempt(before: OperationRecord, since: seq<Event>)

  function Flatten(tries: seq<Attempt>): seq<Event> {
    if tries == [] then [] else Flatten(tries[..|tries| - 1]) + tries[|tries| - 1].since
  }

  /**
   Each attempt made calls only for what its record listed, and what any of them called and wrote down is off the record
   that is stored now.
   */
  ghost predicate AllFollow(tries: seq<Attempt>, stored: Option<OperationRecord>) {
    forall t :: t in tries ==> CallsFollow(t.before, t.since) && StoredFollows(t.before, stored, t.since)
  }

  /** One more attempt keeps the progress of the earlier ones. */
  lemma LaterAttemptKeepsProgress(
    tries: seq<Attempt>, stored: OperationRecord, since: seq<Event>, stored': Option<OperationRecord>
  )
    requires AllFollow(tries, Some(stored))
    requires CallsFollow(stored, since) && StoredFollows(stored, stored', since)
    ensures AllFollow(tries + [Attempt(stored, since)], stored')
    ensures Flatten(tries + [Attempt(stored, since)]) == Flatten(tries) + since
  {
    var t' := Attempt(stored, since);
    assert (tries + [t'])[..|tries|] == tries;
    forall t | t in tries ensures StoredFollows(t.before, stored', t.since) {
      if stored'.Some? {
        SameOperationTransitive(t.before, stored, stored'.value);
      }
    }
  }

  /** The record each attempt found reflects all that the attempts before it called and wrote down. */
  ghost predicate EachFollows(tries: seq<Attempt>) {
    forall j :: 0 <= j < |tries| ==> AllFollow(tries[..j], Some(tries[j].before))
  }

  /** A step that some attempt called and wrote down is in the plan of no later attempt. */
  ghost predicate NothingRunsAgain(tries: seq<Attempt>) {
    forall i, j, n: nat ::
      (0 <= i < j < |tries| && n < |TeardownPlan(tries[i].before)| && WrittenDown(tries[i].since, n)) ==>
        TeardownPlan(tries[i].before)[n] !in TeardownPlan(tries[j].before)
  }

  /**
   The attempts began with this record, each found what the earlier ones left of it, and what any of them called and
   wrote down is off the record that is stored now and is not run again.
   */
  ghost predicate AttemptsOf(first: OperationRecord, tries: seq<Attempt>, stored: Option<OperationRecord>) {
    && (tries != [] ==> tries[0].before == first)
    && EachFollows(tries) && NothingRunsAgain(tries) && AllFollow(tries, stored)
    && (stored.Some? ==> SameOperation(first, stored.value))
  }

  lemma OneMoreAttempt(
    first: OperationRecord, tries: seq<Attempt>, found: OperationRecord, since: seq<Event>,
    stored': Option<OperationRecord>
  )
    requires AttemptsOf(first, tries, Some(found)) && (tries == [] ==> found == first)
    requires CallsFollow(found, since) && StoredFollows(found, stored', since)
    ensures AttemptsOf(first, tries + [Attempt(found, since)], stored')
    ensures Flatten(tries + [Attempt(found, since)]) == Flatten(tries) + since
  {
    LaterAttemptKeepsProgress(tries, found, since, stored');
    LaterAttemptFollows(tries, found, since);
    if stored'.Some? {
      SameOperationTransitive(first, found, stored'.value);
    }
  }

  lemma LaterAttemptFollows(tries: seq<Attempt>, found: OperationRecord, since: seq<Event>)
    requires EachFollows(tries) && AllFollow(tries, Some(found))
    ensures EachFollows(tries + [Attempt(found, since)]) && NothingRunsAgain(tries + [Attempt(found, since)])
  {
    var all := tries + [Attempt(found, since)];
    forall j | 0 <= j < |all| ensures AllFollow(all[..j], Some(all[j].before)) {
      assert all[..j] == tries[..j];
      assert j == |tries| ==> tries[..j] == tries;
    }
    forall i, j, n: nat | 0 <= i < j < |all| && n < |TeardownPlan(all[i].before)| && WrittenDown(all[i].since, n)
      ensures TeardownPlan(all[i].before)[n] !in TeardownPlan(all[j].before)
    {
      assert all[..j][i] in all[..j];
      PlanIsExact(all[j].before);
    }
  }

  lemma OnlyShrunkAgain(
    first: set<Resource>, before: set<Resource>, after: set<Resource>, alive: set<Resource>, live: set<Resource>
  )
    requires OnlyShrunk(before, first, alive) && OnlyShrunk(after, before, live) && live <= alive
    ensures OnlyShrunk(after, first, live)
  {
  }

  // ---- A start, and its rollback ----

  predicate Distinct(undo: seq<Resource>) {
    forall i, j :: 0 <= i < j < |undo| ==> undo[i] != undo[j]
  }

  /** Since base, the start has acquired exactly what is on its undo list, and has released nothing. */
  ghost predicate Starting(base: seq<Event>, log: seq<Event>, undo: seq<Resource>) {
    base <= log && Acquisitions(log[|base|..]) == undo && Calls(log[|base|..]) == []
  }

  lemma StillStarting(base: seq<Event>, log: seq<Event>, undo: seq<Resource>, e: Event)
    requires Starting(base, log, undo) && !IsCall(e)
    ensures Starting(base, log + [e], if e.Acquired? then undo + [e.r] else undo)
  {
    assert (log + [e])[|base|..] == log[|base|..] + [e];
    OneMoreEvent(log[|base|..], e);
  }

  /**
   The undo list has been run from its end down to position i: each of these entries had one cleanup call, the
   last entry first, and is outstanding exactly if that call failed; each earlier entry is outstanding and untouched.
   */
  ghost predicate UndoneTo(undo: seq<Resource>, i: nat, outstanding: set<Resource>, since: seq<Event>) {
    && i <= |undo| && |since| == |undo| - i
    && (forall j :: i <= j < |undo| ==> CleanupOf(since[|undo| - 1 - j], undo[j]))
    && (forall e :: e in since ==> IsCall(e))
    && (forall r :: r in outstanding ==> r in undo)
    && (forall r :: r in undo[..i] ==> r in outstanding && Released(r) !in since && CleanupFailed(r) !in since)
    && (forall r :: r in undo[i..] ==>
          && (r in outstanding <==> CleanupFailed(r) in since)
          && (Released(r) in since <==> CleanupFailed(r) !in since))
  }

  lemma UndoneStep(undo: seq<Resource>, i: nat, outstanding: set<Resource>, since: seq<Event>, ok: bool)
    requires Distinct(undo) && i < |undo| && UndoneTo(undo, i + 1, outstanding, since)
    ensures ok ==> UndoneTo(undo, i, outstanding - {undo[i]}, since + [Released(undo[i])])
    ensures !ok ==> UndoneTo(undo, i, outstanding, since + [CleanupFailed(undo[i])])
  {
    assert undo[..i + 1] == undo[..i] + [undo[i]] && undo[i..] == [undo[i]] + undo[i + 1..];
    assert undo[i] !in undo[..i] && undo[i] !in undo[i + 1..];
    assert undo[i] in undo[..i + 1];
  }

  /**
   A rollback of before that has run its undo list down to position i. The entries still to be run are the only
   live resources without a charge.
   */
  ghost predicate RolledBackTo(
    i: nat, undo: seq<Resource>, before: OperationRecord, op: OperationRecord, since: seq<Event>,
    live: set<Resource>, charge: map<Resource, nat>, inFlight: Option<Resource>, log: seq<Event>
  ) {
    && Distinct(undo) && SameOperation(before, op) && UndoneTo(undo, i, Outstanding(op), since)
    && (forall r :: r in Named(before) ==> Acquired(r) in log)
    && (forall r :: r in live ==> r in undo[..i] || r in charge)
    && (inFlight.Some? ==> inFlight.value in undo[..i])
    && (forall r :: Released(r) in since ==> r !in live)
  }

  lemma NextUndo(
    i: nat, undo: seq<Resource>, before: OperationRecord, op: OperationRecord, since: seq<Event>,
    live: set<Resource>, charge: map<Resource, nat>, inFlight: Option<Resource>, log: seq<Event>
  )
    requires i < |undo| && RolledBackTo(i + 1, undo, before, op, since, live, charge, inFlight, log)
    ensures undo[i] in Outstanding(op) && Acquired(undo[i]) in log
  {
    assert undo[i] in undo[..i + 1];
    SameOperationShrinks(before, op);
  }

  /** One more undo, confirmed: r is gone and the record says so. */
  lemma UndoConfirmed(
    i: nat, undo: seq<Resource>, before: OperationRecord, op: OperationRecord, since: seq<Event>,
    live: set<Resource>, charge: map<Resource, nat>, inFlight: Option<Resource>, log: seq<Event>
  )
    requires i < |undo| && RolledBackTo(i + 1, undo, before, op, since, live, charge, inFlight, log)
    ensures var done := Released(undo[i]);
      RolledBackTo(i, undo, before, Freed(undo[i], op), since + [done], live - {undo[i]}, charge,
                   if inFlight == Some(undo[i]) then None else inFlight, log + [done])
  {
    NextUndo(i, undo, before, op, since, live, charge, inFlight, log);
    FreedShrinks(undo[i], before, op);
    UndoneStep(undo, i, Outstanding(op), since, true);
    assert undo[..i + 1] == undo[..i] + [undo[i]];
  }

  /** One more undo, failed: r stays outstanding in the record and carries a charge. */
  lemma UndoNotConfirmed(
    i: nat, undo: seq<Resource>, before: OperationRecord, op: OperationRecord, since: seq<Event>,
    live: set<Resource>, charge: map<Resource, nat>, inFlight: Option<Resource>, log: seq<Event>,
    live': set<Resource>, at: nat
  )
    requires i < |undo| && RolledBackTo(i + 1, undo, before, op, since, live, charge, inFlight, log) && live' <= live
    ensures var failed := CleanupFailed(undo[i]);
      RolledBackTo(i, undo, before, op, since + [failed], live', charge[undo[i] := at],
                   if inFlight == Some(undo[i]) then None else inFlight, log + [failed])
  {
    UndoneStep(undo, i, Outstanding(op), since, false);
    assert undo[..i + 1] == undo[..i] + [undo[i]];
  }

  /**
   What a rollback of these steps with these calls leaves, when its last write succeeded: no record, with every step
   undone, or a degraded record that lists as outstanding exactly the steps whose undo failed.
   */
  ghost predicate RollbackResult(
    undo: seq<Resource>, calls: seq<Event>, saved: bool, stored: Option<OperationRecord>, live: set<Resource>
  ) {
    && |calls| == |undo|
    && (forall j :: 0 <= j < |undo| ==> CleanupOf(calls[|undo| - 1 - j], undo[j]))
    && (saved && stored == None ==> forall r :: r in undo ==> Released(r) in calls && r !in live)
    && (saved && stored.Some? ==>
          && stored.value.state.StateDegraded?
          && (forall r :: r in Outstanding(stored.value) <==> r in undo && CleanupFailed(r) in calls)
          && (forall r :: r in undo ==> (Released(r) in calls <==> CleanupFailed(r) !in calls)))
  }

  /** A start that logged these events and gave up has undone each thing that it acquired, the last one first. */
  ghost predicate StartUndone(
    since: seq<Event>, saved: bool, stored: Option<OperationRecord>, live: set<Resource>
  ) {
    RollbackResult(Acquisitions(since), Calls(since), saved, stored, live)
  }

  /** After the whole undo list nothing that is alive lacks a charge. */
  lemma AllUndone(
    undo: seq<Resource>, before: OperationRecord, undone: OperationRecord, calls: seq<Event>,
    live: set<Resource>, charge: map<Resource, nat>, inFlight: Option<Resource>, log: seq<Event>
  )
    requires RolledBackTo(0, undo, before, undone, calls, live, charge, inFlight, log)
    ensures inFlight == None && forall r :: r in live ==> r in charge
    ensures SameOperation(before, undone) && forall r :: r in Named(undone) ==> Acquired(r) in log
  {
    SameOperationShrinks(before, undone);
  }

  lemma UndoneResult(
    undo: seq<Resource>, calls: seq<Event>, before: OperationRecord, undone: OperationRecord, saved: bool,
    stored: Option<OperationRecord>, live: set<Resource>, residuals: seq<Residual>
  )
    requires UndoneTo(undo, 0, Outstanding(undone), calls) && forall r :: Released(r) in calls ==> r !in live
    requires SameOperation(before, undone) && (residuals == [] ==> forall r :: CleanupFailed(r) !in calls)
    requires saved && stored == None ==> residuals == []
    requires saved && stored.Some? ==> stored.value.state.StateDegraded? && SameResources(undone, stored.value)
    ensures RollbackResult(undo, calls, saved, stored, live)
    ensures saved && stored.Some? ==> SameOperation(before, stored.value)
  {
    assert undo[0..] == undo;
  }

  /** The log of a start whose undo list was run, with writes after it. */
  lemma UndoneInLog(base: seq<Event>, log: seq<Event>, undo: seq<Resource>, calls: seq<Event>, tail: seq<Event>)
    requires Starting(base, log, undo) && (forall e :: e in calls ==> IsCall(e))
    requires forall e :: e in tail ==> e.Wrote? || e.WriteFailed? || e.Crash?
    ensures base <= log + calls + tail
    ensures Acquisitions((log + calls + tail)[|base|..]) == undo && Calls((log + calls + tail)[|base|..]) == calls
  {
    OnlyCalls(calls);
    OnlyWrites(tail);
    SinceBase(base, log, calls);
    SinceBase(base, log + calls, tail);
    MoreEvents(log[|base|..], calls);
    MoreEvents((log + calls)[|base|..], tail);
  }

  lemma SinceBase(base: seq<Event>, log: seq<Event>, more: seq<Event>)
    requires base <= log
    ensures base <= log + more && (log + more)[|base|..] == log[|base|..] + more
  {
  }

  /** The web server step of a start that went through. */
  function ServerEvent(op: OperationRecord): Event {
    if op.webServerOwned then Acquired(WebServer(op.id)) else ServerRunning
  }

  /** What a start that went through has done, one checkpoint after each step. */
  function StartTrace(op: OperationRecord): seq<Event>
    requires |op.invitations| == 2
  {
    var server := if op.webServerOwned then {WebServer(op.id)} else {};
    var first, second := Credential(op.invitations[0].credential), Credential(op.invitations[1].credential);
    [ Wrote(StateStarting, {}),
      ServerEvent(op), Wrote(StateStarting, server),
      Acquired(first), Wrote(StateStarting, server + {first}),
      Acquired(second), Wrote(StateStarting, server + {first, second}),
      Wrote(StateActive, server + {first, second})]
  }

  /** One credential of a start more in the record. */
  ghost predicate Minted(before: OperationRecord, after: OperationRecord) {
    && |after.invitations| == |before.invitations| + 1
    && after == before.(invitations := before.invitations + [after.invitations[|before.invitations|]])
    && after.invitations[|before.invitations|].state.InvitationActive?
  }

  function MintTrace(after: OperationRecord): seq<Event>
    requires after.invitations != []
  {
    [Acquired(Credential(after.invitations[|after.invitations| - 1].credential)), WroteOf(after)]
  }

  /** The checkpoints of a start, put together. */
  lemma TraceOfStart(
    r0: OperationRecord, r1: OperationRecord, r2: OperationRecord, r3: OperationRecord, r4: OperationRecord
  )
    requires r0.invitations == [] && !r0.webServerOwned && !r0.webServerStopped && r0.state.StateStarting?
    requires r1 == r0.(webServerOwned := r1.webServerOwned) && Minted(r1, r2) && Minted(r2, r3)
    requires r4.state.StateActive? && SameResources(r3, r4)
    ensures |r4.invitations| == 2
    ensures [WroteOf(r0)] + ([ServerEvent(r1), WroteOf(r1)] + (MintTrace(r2) + (MintTrace(r3) + [WroteOf(r4)]))) ==
      StartTrace(r4)
  {
    AppendInvitation(r1, r2.invitations[0]);
    AppendInvitation(r2, r3.invitations[1]);
    assert Outstanding(r0) == {} && Outstanding(r4) == Outstanding(r3);
    var server := if r1.webServerOwned then {WebServer(r1.id)} else {};
    var first, second := Credential(r2.invitations[0].credential), Credential(r3.invitations[1].credential);
    assert Outstanding(r1) == server && r3.invitations[0] == r2.invitations[0];
    assert Outstanding(r2) == server + {first};
    assert Outstanding(r3) == server + {first, second};
  }

  lemma TraceRegrouped(
    log: seq<Event>, r0: OperationRecord, r1: OperationRecord, r2: OperationRecord, r3: OperationRecord,
    r4: OperationRecord
  )
    requires r2.invitations != [] && r3.invitations != []
    ensures log + [WroteOf(r0)] + [ServerEvent(r1), WroteOf(r1)] + (MintTrace(r2) + MintTrace(r3)) + [WroteOf(r4)] ==
      log + ([WroteOf(r0)] + ([ServerEvent(r1), WroteOf(r1)] + (MintTrace(r2) + (MintTrace(r3) + [WroteOf(r4)]))))
  {
  }

  /** A start that has not written or acquired anything has nothing to undo. */
  lemma NothingToUndo(log: seq<Event>, live: set<Resource>)
    ensures StartUndone(log[|log|..], true, None, live) && Starting(log, log, [])
  {
    assert log[|log|..] == [];
  }

  lemma StartingWithWrites(log: seq<Event>, writes: seq<Event>)
    requires forall e :: e in writes ==> e.Wrote? || e.WriteFailed? || e.Crash?
    ensures Starting(log, log + writes, [])
  {
    OnlyWrites(writes);
    assert (log + writes)[|log|..] == writes;
  }

  /** What was acquired since base has had its one cleanup call, and nothing else happened to it. */
  ghost predicate TakenBack(base: seq<Event>, log: seq<Event>, r: Resource) {
    && base <= log && Acquisitions(log[|base|..]) == [r]
    && |Calls(log[|base|..])| == 1 && CleanupOf(Calls(log[|base|..])[0], r)
  }

  lemma OneCallTakesBack(base: seq<Event>, log: seq<Event>, r: Resource, e: Event)
    requires Starting(base, log, [r]) && CleanupOf(e, r)
    ensures TakenBack(base, log + [e], r)
  {
    SinceBase(base, log, [e]);
    OneMoreEvent(log[|base|..], e);
  }
}
