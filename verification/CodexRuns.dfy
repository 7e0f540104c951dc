/**
 Concurrent hooks of Codex sessions in the shared daemon (cc-deck/internal/cmd/hook.go:517-543 and 440-463, over the
 pane map of PaneMap.dfy).

 A hook loads the pane map without the lock and resolves its event by it; later, under the lock, it writes its
 session's mapping back; then it sends the event; and the hook of a SessionEnd then removes the mapping. Other hooks
 do the same in between, any hook may be killed between two steps, and mappings expire. A map that cannot be read is
 taken for an empty one. One update here stands for the whole locked update of PaneMap.dfy, which no other update
 overlaps.
 */
module CodexRuns {
  import opened Wrappers
  import opened CodexAttribution

  type PaneMap = map<SessionID, Mapping>
  type HookId = nat

  /** The client a session is bound to; its profile does not matter. */
  function Bound(paneMap: PaneMap, sessionID: SessionID): Option<Mapping> {
    if sessionID != "" && sessionID in paneMap && paneMap[sessionID].clientPID > 0
    then Some(paneMap[sessionID].(profile := "")) else None
  }

  /** The client of an attribution. */
  function ClientOf(att: Attribution): Mapping {
    Recorded(att).(profile := "")
  }

  function Seen(paneMap: PaneMap, readable: bool): PaneMap {
    if readable then paneMap else map[]
  }

  /** What a hook has still to do. */
  datatype Phase = Forgetting | Recording | Sending | Ending

  /** bound is the binding of the session when the hook loaded the map, and seen what the load showed of it. */
  datatype Hook = Hook(e: HookEvent, att: Attribution, bound: Option<Mapping>, seen: Option<Mapping>, phase: Phase)

  datatype State = State(paneMap: PaneMap, hooks: map<HookId, Hook>, sent: seq<Hook>)

  datatype Label =
    | Begin(e: HookEvent, readable: bool)   // loads the map and resolves the event
    | Update(ok: bool, readable: bool)      // not ok: no lock, nothing to write, or the write failed
    | Send
    | Die
    | Expire(sessionID: SessionID)

  type Step = (HookId, Label)

  /** What an attributed event has to do first, if anything. */
  function FirstPhase(e: HookEvent, att: Attribution): Option<Phase> {
    if att.forget && e.sessionID != "" then Some(Forgetting)
    else if !att.Delivers() then None
    else if e.sessionID != "" && att.clientPID > 0 && !IsEnd(e) then Some(Recording)
    else Some(Sending)
  }

  function Over(s: State, h: HookId): State {
    s.(hooks := s.hooks - {h})
  }

  function At(s: State, h: HookId, p: Phase): State
    requires h in s.hooks
  {
    s.(hooks := s.hooks[h := s.hooks[h].(phase := p)])
  }

  /** The map after the update of a hook. Without an entry to remove, removing writes nothing. */
  function Updated(paneMap: PaneMap, hook: Hook, readable: bool): PaneMap {
    if hook.phase.Recording? then Seen(paneMap, readable)[hook.e.sessionID := Recorded(hook.att)]
    else if readable then paneMap - {hook.e.sessionID}
    else paneMap
  }

  /** One step of hook h, or of the passing of time. A step that is not enabled changes nothing. */
  function Apply(s: State, step: Step): State {
    var (h, l) := step;
    match l
    case Expire(sessionID) => s.(paneMap := s.paneMap - {sessionID})
    case Begin(e, readable) =>
      if h in s.hooks then s
      else
        var att := Resolve(e, Seen(s.paneMap, readable));
        var first := FirstPhase(e, att);
        if first == None then s
        else
          var seen := Bound(Seen(s.paneMap, readable), e.sessionID);
          s.(hooks := s.hooks[h := Hook(e, att, Bound(s.paneMap, e.sessionID), seen, first.value)])
    case Update(ok, readable) =>
      if h !in s.hooks || s.hooks[h].phase.Sending? then s
      else
        var s' := if ok then s.(paneMap := Updated(s.paneMap, s.hooks[h], readable)) else s;
        if s.hooks[h].phase.Recording? then At(s', h, Sending) else Over(s', h)
    case Send =>
      if h !in s.hooks || !s.hooks[h].phase.Sending? then s
      else
        var s' := s.(sent := s.sent + [s.hooks[h]]);
        if IsEnd(s.hooks[h].e) && s.hooks[h].e.sessionID != "" then At(s', h, Ending) else Over(s', h)
    case Die => Over(s, h)
  }

  const START := State(map[], map[], [])

  function Run(steps: seq<Step>): State {
    if steps == [] then START else Apply(Run(steps[..|steps| - 1]), steps[|steps| - 1])
  }

  // ---- What holds of every hook ----

  /**
   A hook of a start may do anything to its session. Any other hook never forgets; if the load showed a binding, the
   event goes to that client, alive in its pane, and the hook writes back that client.
   */
  ghost predicate SoundHook(hook: Hook) {
    && (hook.phase.Forgetting? ==> IsStart(hook.e))
    && (hook.phase.Recording? ==> hook.e.sessionID != "" && hook.att.clientPID > 0 && !IsEnd(hook.e))
    && (hook.phase.Ending? ==> IsEnd(hook.e))
    && (!hook.phase.Forgetting? ==> hook.att.Delivers())
    && (!IsStart(hook.e) && hook.seen.Some? ==>
          ClientOf(hook.att) == hook.seen.value && Live(hook.seen.value, hook.e.process))
  }

  ghost predicate Inv(s: State) {
    && (forall h :: h in s.hooks ==> SoundHook(s.hooks[h]))
    && (forall hook :: hook in s.sent ==> SoundHook(hook))
  }

  lemma ResolvesSound(e: HookEvent, paneMap: PaneMap, bound: Option<Mapping>)
    requires FirstPhase(e, Resolve(e, paneMap)).Some?
    ensures var att := Resolve(e, paneMap);
      SoundHook(Hook(e, att, bound, Bound(paneMap, e.sessionID), FirstPhase(e, att).value))
  {
  }

  lemma StepKeepsInv(s: State, step: Step)
    requires Inv(s)
    ensures Inv(Apply(s, step))
  {
    if step.1.Begin? {
      var e, seen := step.1.e, Seen(s.paneMap, step.1.readable);
      if FirstPhase(e, Resolve(e, seen)).Some? {
        ResolvesSound(e, seen, Bound(s.paneMap, e.sessionID));
      }
    }
  }

  lemma {:induction false} RunKeepsInv(steps: seq<Step>)
    ensures Inv(Run(steps))
  {
    if steps != [] {
      RunKeepsInv(steps[..|steps| - 1]);
      StepKeepsInv(Run(steps[..|steps| - 1]), steps[|steps| - 1]);
    }
  }

  // ---- What should happen to bindings and events ----

  predicate IsOrdinary(e: HookEvent) {
    !IsStart(e) && !IsEnd(e)
  }

  /** The event is delivered exactly if the process is the client the session is bound to, and then to its pane. */
  predicate RightAttribution(att: Attribution, m: Mapping, process: Option<Process>) {
    && (att.Delivers() <==> Live(m, process))
    && (att.Delivers() ==> ClientOf(att) == m)
  }

  /**
   A step is right if an event other than a start that finds its session bound is attributed to that client or dropped,
   if an ordinary event changes no binding except that it gives one to a session that it found without one and that
   still has none, and if no hook changes the binding of another session.
   */
  ghost predicate RightStep(s: State, step: Step) {
    var (h, l) := step;
    match l
    case Begin(e, readable) =>
      var bound := Bound(s.paneMap, e.sessionID);
      !IsStart(e) && bound.Some? ==>
        RightAttribution(Resolve(e, Seen(s.paneMap, readable)), bound.value, e.process)
    case Update(ok, readable) =>
      h in s.hooks && !s.hooks[h].phase.Sending? ==>
        && (IsOrdinary(s.hooks[h].e) ==> OwnBindingIsRight(s, h, step))
        && forall other :: other != s.hooks[h].e.sessionID ==>
             Bound(Apply(s, step).paneMap, other) == Bound(s.paneMap, other)
    case _ => true
  }

  ghost predicate OwnBindingIsRight(s: State, h: HookId, step: Step)
    requires h in s.hooks
  {
    var sessionID := s.hooks[h].e.sessionID;
    var before, after := Bound(s.paneMap, sessionID), Bound(Apply(s, step).paneMap, sessionID);
    after == before || (before == None && s.hooks[h].seen == None)
  }

  ghost predicate RightRun(steps: seq<Step>) {
    forall k :: 0 <= k < |steps| ==> RightStep(Run(steps[..k]), steps[k])
  }

  // ---- When it does ----

  /** The binding of the hook's session is still what the hook saw, or has become what the hook will write. */
  predicate StillCurrent(s: State, hook: Hook) {
    var bound := Bound(s.paneMap, hook.e.sessionID);
    bound == hook.seen || bound == Some(ClientOf(hook.att))
  }

  /**
   A step is clean if a load that matters shows the binding, or discovery happens to agree with it; if an ordinary hook
   writes only what is still current; and if the map is read for a write, unless no other session is bound.
   */
  ghost predicate CleanStep(s: State, step: Step) {
    var (h, l) := step;
    match l
    case Begin(e, readable) =>
      var bound := Bound(s.paneMap, e.sessionID);
      !IsStart(e) && bound.Some? ==> readable || RightAttribution(Discover(e), bound.value, e.process)
    case Update(ok, readable) =>
      h in s.hooks && s.hooks[h].phase.Recording? && ok ==>
        && (IsOrdinary(s.hooks[h].e) ==> StillCurrent(s, s.hooks[h]))
        && (readable || forall other :: other != s.hooks[h].e.sessionID ==> Bound(s.paneMap, other) == None)
    case _ => true
  }

  ghost predicate CleanRun(steps: seq<Step>) {
    forall k :: 0 <= k < |steps| ==> CleanStep(Run(steps[..k]), steps[k])
  }

  lemma ResolvesByBinding(e: HookEvent, paneMap: PaneMap)
    requires !IsStart(e) && Bound(paneMap, e.sessionID).Some?
    ensures RightAttribution(Resolve(e, paneMap), Bound(paneMap, e.sessionID).value, e.process)
  {
  }

  /** A load that fails leaves it to discovery. */
  lemma UnreadableMeansDiscovery(e: HookEvent)
    ensures Resolve(e, map[]) == Discover(e)
  {
  }

  lemma StepIsRightExactlyIfClean(s: State, step: Step)
    requires Inv(s)
    ensures RightStep(s, step) <==> CleanStep(s, step)
  {
    var (h, l) := step;
    match l {
      case Begin(e, readable) =>
        UnreadableMeansDiscovery(e);
        if !IsStart(e) && Bound(s.paneMap, e.sessionID).Some? {
          ResolvesByBinding(e, s.paneMap);
        }
      case Update(ok, readable) =>
        if h in s.hooks && !s.hooks[h].phase.Sending? {
          UpdateIsRightExactlyIfClean(s, h, ok, readable);
        }
      case _ =>
    }
  }

  lemma UpdateIsRightExactlyIfClean(s: State, h: HookId, ok: bool, readable: bool)
    requires Inv(s) && h in s.hooks && !s.hooks[h].phase.Sending?
    ensures RightStep(s, (h, Update(ok, readable))) <==> CleanStep(s, (h, Update(ok, readable)))
  {
    var hook := s.hooks[h];
    var own := hook.e.sessionID;
    var after := Apply(s, (h, Update(ok, readable))).paneMap;
    if ok && hook.phase.Recording? {
      assert Bound(after, own) == Some(ClientOf(hook.att));
      forall other | other != own
        ensures Bound(after, other) == if readable then Bound(s.paneMap, other) else None
      {
      }
    } else {
      forall other | other != own ensures Bound(after, other) == Bound(s.paneMap, other) {
      }
    }
  }

  /**
   Over every run of overlapping hooks: bindings and events are right if and only if every step is clean.
   */
  lemma BindingsAreRightExactlyIfClean(steps: seq<Step>)
    ensures RightRun(steps) <==> CleanRun(steps)
  {
    forall k | 0 <= k < |steps| ensures RightStep(Run(steps[..k]), steps[k]) <==> CleanStep(Run(steps[..k]), steps[k]) {
      RunKeepsInv(steps[..k]);
      StepIsRightExactlyIfClean(Run(steps[..k]), steps[k]);
    }
  }

  // ---- What right runs keep ----

  lemma OneMoreStep(steps: seq<Step>, step: Step)
    ensures Run(steps + [step]) == Apply(Run(steps), step)
    ensures CleanRun(steps + [step]) <==> CleanRun(steps) && CleanStep(Run(steps), step)
  {
    var all := steps + [step];
    SamePrefixes(steps, step);
    assert forall k :: 0 <= k < |steps| ==> CleanStep(Run(all[..k]), all[k]) == CleanStep(Run(steps[..k]), steps[k]);
    assert all[..|steps|] == steps && all[|steps|] == step;
    assert CleanRun(all) ==> CleanStep(Run(all[..|steps|]), all[|steps|]);
  }

  lemma SamePrefixes(steps: seq<Step>, step: Step)
    ensures var all := steps + [step];
      all[..|steps|] == steps && forall k :: 0 <= k < |steps| ==> all[..k] == steps[..k] && all[k] == steps[k]
  {
  }

  /** A run, apart from its last step. */
  lemma LastStep(steps: seq<Step>) returns (front: seq<Step>, last: Step)
    requires steps != []
    ensures steps == front + [last] && Run(steps) == Apply(Run(front), last)
    ensures CleanRun(steps) <==> CleanRun(front) && CleanStep(Run(front), last)
  {
    front, last := steps[..|steps| - 1], steps[|steps| - 1];
    assert steps == front + [last];
    OneMoreStep(front, last);
  }

  lemma CleanIsRight(steps: seq<Step>, step: Step)
    requires CleanStep(Run(steps), step)
    ensures RightStep(Run(steps), step)
  {
    RunKeepsInv(steps);
    StepIsRightExactlyIfClean(Run(steps), step);
  }

  /** The step is by the start or the end of the session, or lets its mapping expire. */
  predicate MayUnbind(s: State, step: Step, sessionID: SessionID) {
    || step.1 == Expire(sessionID)
    || (step.1.Update? && step.0 in s.hooks
        && s.hooks[step.0].e.sessionID == sessionID && !IsOrdinary(s.hooks[step.0].e))
  }

  /** Otherwise a right step leaves a bound session bound to its client. */
  lemma OnlyStartEndOrExpiryUnbinds(s: State, step: Step, sessionID: SessionID)
    requires RightStep(s, step) && Bound(s.paneMap, sessionID).Some? && !MayUnbind(s, step, sessionID)
    ensures Bound(Apply(s, step).paneMap, sessionID) == Bound(s.paneMap, sessionID)
  {
    if step.1.Update? && step.0 in s.hooks && s.hooks[step.0].e.sessionID == sessionID {
      assert IsOrdinary(s.hooks[step.0].e);
    }
  }

  /** No step in this stretch of a run, from position from on, may unbind the session. */
  ghost predicate NothingUnbinds(steps: seq<Step>, from: nat, sessionID: SessionID) {
    forall k :: from <= k < |steps| ==> !MayUnbind(Run(steps[..k]), steps[k], sessionID)
  }

  lemma {:induction false} BindingIsKept(steps: seq<Step>, from: nat, sessionID: SessionID)
    requires CleanRun(steps) && from <= |steps| && NothingUnbinds(steps, from, sessionID)
    requires Bound(Run(steps[..from]).paneMap, sessionID).Some?
    ensures Bound(Run(steps).paneMap, sessionID) == Bound(Run(steps[..from]).paneMap, sessionID)
    decreases |steps|
  {
    if from == |steps| {
      assert steps[..from] == steps;
    } else {
      var front, last := LastStep(steps);
      NothingUnbindsFront(front, last, from, sessionID);
      BindingIsKept(front, from, sessionID);
      CleanIsRight(front, last);
      OnlyStartEndOrExpiryUnbinds(Run(front), last, sessionID);
    }
  }

  lemma NothingUnbindsFront(front: seq<Step>, last: Step, from: nat, sessionID: SessionID)
    requires from <= |front| && NothingUnbinds(front + [last], from, sessionID)
    ensures NothingUnbinds(front, from, sessionID) && (front + [last])[..from] == front[..from]
    ensures !MayUnbind(Run(front), last, sessionID)
  {
    var all := front + [last];
    SamePrefixes(front, last);
    assert !MayUnbind(Run(all[..|front|]), all[|front|], sessionID);
    forall k | from <= k < |front| ensures !MayUnbind(Run(front[..k]), front[k], sessionID) {
      assert !MayUnbind(Run(all[..k]), all[k], sessionID);
    }
  }

  /**
   While a session stays bound, over any overlapping hooks of any sessions, processes exiting and ids being reused: the
   hook of an event other than a start goes on exactly if the process with the recorded id still is the client with the
   recorded start time in the recorded pane, and then its event is for that client.
   */
  lemma EventsGoToTheBoundClientOrNowhere(
    steps: seq<Step>, from: nat, h: HookId, e: HookEvent, readable: bool
  )
    requires CleanRun(steps + [(h, Begin(e, readable))]) && from <= |steps| && NothingUnbinds(steps, from, e.sessionID)
    requires Bound(Run(steps[..from]).paneMap, e.sessionID).Some? && !IsStart(e) && h !in Run(steps).hooks
    ensures var m, s' := Bound(Run(steps[..from]).paneMap, e.sessionID).value, Run(steps + [(h, Begin(e, readable))]);
      && (h in s'.hooks <==> Live(m, e.process))
      && (h in s'.hooks ==> s'.hooks[h].bound == Some(m) && ClientOf(s'.hooks[h].att) == m)
  {
    OneMoreStep(steps, (h, Begin(e, readable)));
    BindingIsKept(steps, from, e.sessionID);
    BeginsForBoundClient(Run(steps), h, e, readable);
  }

  lemma BeginsForBoundClient(s: State, h: HookId, e: HookEvent, readable: bool)
    requires CleanStep(s, (h, Begin(e, readable))) && Bound(s.paneMap, e.sessionID).Some?
    requires !IsStart(e) && h !in s.hooks
    ensures var m, s' := Bound(s.paneMap, e.sessionID).value, Apply(s, (h, Begin(e, readable)));
      && (h in s'.hooks <==> Live(m, e.process))
      && (h in s'.hooks ==> s'.hooks[h].bound == Some(m) && ClientOf(s'.hooks[h].att) == m)
  {
    NeverForgets(e, Seen(s.paneMap, readable));
    UnreadableMeansDiscovery(e);
    if readable {
      ResolvesByBinding(e, s.paneMap);
    }
  }

  lemma NeverForgets(e: HookEvent, paneMap: PaneMap)
    requires !IsStart(e)
    ensures !Resolve(e, paneMap).forget
  {
  }

  /**
   The hook of an event other than a start, whose session was bound when it loaded, has the client it was bound to.
   */
  ghost predicate ForBoundClient(hook: Hook) {
    !IsStart(hook.e) && hook.bound.Some? ==>
      hook.att.Delivers() && ClientOf(hook.att) == hook.bound.value && Live(hook.bound.value, hook.e.process)
  }

  /**
   In a clean run every event that was sent, other than a start, of a session that was bound when its hook loaded the
   map, went to the client of that binding, in its pane; so a process that reuses the id of the client gets nothing.
   */
  lemma {:induction false} SentEventsWentToTheBoundClient(steps: seq<Step>)
    requires CleanRun(steps)
    ensures forall h :: h in Run(steps).hooks ==> ForBoundClient(Run(steps).hooks[h])
    ensures forall hook :: hook in Run(steps).sent ==> ForBoundClient(hook)
  {
    if steps != [] {
      var front, last := LastStep(steps);
      SentEventsWentToTheBoundClient(front);
      StaysForBoundClient(Run(front), last);
    }
  }

  lemma StaysForBoundClient(s: State, step: Step)
    requires CleanStep(s, step)
    requires forall h :: h in s.hooks ==> ForBoundClient(s.hooks[h])
    requires forall hook :: hook in s.sent ==> ForBoundClient(hook)
    ensures forall h :: h in Apply(s, step).hooks ==> ForBoundClient(Apply(s, step).hooks[h])
    ensures forall hook :: hook in Apply(s, step).sent ==> ForBoundClient(hook)
  {
    var (h, l) := step;
    if l.Begin? && h !in s.hooks && !IsStart(l.e) && Bound(s.paneMap, l.e.sessionID).Some? {
      BeginsForBoundClient(s, h, l.e, l.readable);
      NeverForgets(l.e, Seen(s.paneMap, l.readable));
    }
  }

  /** The client of a binding still is in the directory and Codex home that the event comes from. */
  predicate InPlace(e: HookEvent)
    requires e.process.Some? && e.process.value.client.Some?
  {
    e.process.value.client.value.dir == e.cwd && e.process.value.client.value.codexHome == e.codexHome
  }

  /**
   What a start that reads the map does, when nothing comes between its load and its write: a client that it discovers
   takes the session over; failing that, a live client keeps it if it still is where the event comes from, and loses it
   otherwise; and without a live client nothing changes.
   */
  lemma StartRebindsKeepsOrForgets(s: State, h: HookId, e: HookEvent)
    requires h !in s.hooks && IsStart(e) && e.sessionID != ""
    requires Discover(e).reason.Discovered? ==> Discover(e).clientPID > 0
    ensures var before, found := Bound(s.paneMap, e.sessionID), Discover(e);
      var begun := Apply(s, (h, Begin(e, true)));
      Bound(Apply(begun, (h, Update(true, true))).paneMap, e.sessionID) ==
        if found.reason.Discovered? then Some(ClientOf(found))
        else if before.Some? && Live(before.value, e.process) && !InPlace(e) then None
        else before
  {
    var b := Binding(e, s.paneMap);
    var att := Resolve(e, s.paneMap);
    assert b.Some? ==> Live(b.value, e.process) == Live(Bound(s.paneMap, e.sessionID).value, e.process);
    assert att.Delivers() ==> att.clientPID > 0;
  }

  // ---- Hooks that do not overlap with a change of their session ----

  /** The step changes the binding of the session on purpose, or gives it its first one. */
  predicate Disturbs(s: State, step: Step, sessionID: SessionID) {
    || MayUnbind(s, step, sessionID)
    || (step.1.Update? && step.0 in s.hooks
        && s.hooks[step.0].e.sessionID == sessionID && Bound(s.paneMap, sessionID) == None)
  }

  /** The position of the step that began the hook. */
  function BegunAt(steps: seq<Step>, h: HookId): (i: nat)
    requires h in Run(steps).hooks
    ensures i < |steps|
  {
    var front := steps[..|steps| - 1];
    if h in Run(front).hooks then BegunAt(front, h) else |front|
  }

  /** Something has disturbed the hook's session since the hook loaded the map. */
  ghost predicate Overtaken(steps: seq<Step>, h: HookId)
    requires h in Run(steps).hooks
  {
    exists k :: BegunAt(steps, h) < k < |steps| && Disturbs(Run(steps[..k]), steps[k], Run(steps).hooks[h].e.sessionID)
  }

  predicate Reads(l: Label) {
    l.Begin? || l.Update? ==> l.readable
  }

  /** Every load can read the map, and no ordinary hook that was overtaken writes. */
  ghost predicate NothingOverlaps(steps: seq<Step>) {
    forall k :: 0 <= k < |steps| ==>
      && Reads(steps[k].1)
      && (WritesOrdinary(Run(steps[..k]), steps[k]) ==> !Overtaken(steps[..k], steps[k].0))
  }

  predicate WritesOrdinary(s: State, step: Step) {
    && step.1.Update? && step.1.ok && step.0 in s.hooks
    && s.hooks[step.0].phase.Recording? && IsOrdinary(s.hooks[step.0].e)
  }

  /** A clean step that does not disturb a session leaves its binding, if it has one or not. */
  lemma UndisturbedIsUnchanged(s: State, step: Step, sessionID: SessionID)
    requires RightStep(s, step) && !Disturbs(s, step, sessionID)
    ensures Bound(Apply(s, step).paneMap, sessionID) == Bound(s.paneMap, sessionID)
  {
    if Bound(s.paneMap, sessionID).Some? {
      OnlyStartEndOrExpiryUnbinds(s, step, sessionID);
    }
  }

  lemma HooksStay(s: State, step: Step, h: HookId)
    requires h in Apply(s, step).hooks && h in s.hooks
    ensures Apply(s, step).hooks[h] == s.hooks[h].(phase := Apply(s, step).hooks[h].phase)
    ensures Apply(s, step).hooks[h].phase.Recording? ==> s.hooks[h].phase.Recording?
  {
  }

  /** An ordinary hook that has not been overtaken is still current. */
  lemma {:induction false} CurrentUnlessOvertaken(steps: seq<Step>, h: HookId)
    requires CleanRun(steps) && forall k :: 0 <= k < |steps| ==> Reads(steps[k].1)
    requires h in Run(steps).hooks && Run(steps).hooks[h].phase.Recording? && !Overtaken(steps, h)
    ensures StillCurrent(Run(steps), Run(steps).hooks[h])
    decreases |steps|
  {
    var front, last := LastStep(steps);
    if h in Run(front).hooks {
      HooksStay(Run(front), last, h);
      OvertakenStays(front, last, h);
      CurrentUnlessOvertaken(front, h);
      CleanIsRight(front, last);
      UndisturbedIsUnchanged(Run(front), last, Run(front).hooks[h].e.sessionID);
    } else {
      JustBegunIsCurrent(Run(front), last, h);
    }
  }

  lemma OvertakenStays(front: seq<Step>, last: Step, h: HookId)
    requires h in Run(front + [last]).hooks && h in Run(front).hooks
    requires Run(front + [last]).hooks[h].e == Run(front).hooks[h].e
    ensures Overtaken(front, h) ==> Overtaken(front + [last], h)
    ensures Disturbs(Run(front), last, Run(front).hooks[h].e.sessionID) ==> Overtaken(front + [last], h)
  {
    var sessionID := Run(front).hooks[h].e.sessionID;
    BegunBefore(front, last, h);
    SamePrefixes(front, last);
    if Overtaken(front, h) {
      var k :| BegunAt(front, h) < k < |front| && Disturbs(Run(front[..k]), front[k], sessionID);
      OvertakenAt(front + [last], h, k);
    }
    if Disturbs(Run(front), last, sessionID) {
      OvertakenAt(front + [last], h, |front|);
    }
  }

  lemma OvertakenAt(steps: seq<Step>, h: HookId, k: nat)
    requires h in Run(steps).hooks && BegunAt(steps, h) < k < |steps|
    requires Disturbs(Run(steps[..k]), steps[k], Run(steps).hooks[h].e.sessionID)
    ensures Overtaken(steps, h)
  {
  }

  lemma BegunBefore(front: seq<Step>, last: Step, h: HookId)
    requires h in Run(front + [last]).hooks && h in Run(front).hooks
    ensures BegunAt(front + [last], h) == BegunAt(front, h)
  {
    assert (front + [last])[..|front|] == front;
  }

  lemma JustBegunIsCurrent(s: State, step: Step, h: HookId)
    requires h !in s.hooks && h in Apply(s, step).hooks && Reads(step.1)
    ensures StillCurrent(Apply(s, step), Apply(s, step).hooks[h])
  {
  }

  /**
   So bindings and events are right in every run in which the map can always be read and in which no start, end or
   expiry of a session, and no first binding of it, comes between the load and the write of an ordinary hook of it.
   */
  lemma {:induction false} RunsWithoutOverlapAreRight(steps: seq<Step>)
    requires NothingOverlaps(steps)
    ensures CleanRun(steps) && RightRun(steps)
  {
    if steps != [] {
      var front, last := LastStep(steps);
      NothingOverlapsFront(front, last);
      RunsWithoutOverlapAreRight(front);
      if WritesOrdinary(Run(front), last) {
        CurrentUnlessOvertaken(front, last.0);
      }
    }
    BindingsAreRightExactlyIfClean(steps);
  }

  lemma NothingOverlapsFront(front: seq<Step>, last: Step)
    requires NothingOverlaps(front + [last])
    ensures NothingOverlaps(front) && Reads(last.1) && forall k :: 0 <= k < |front| ==> Reads(front[k].1)
    ensures WritesOrdinary(Run(front), last) ==> !Overtaken(front, last.0)
  {
    var all := front + [last];
    SamePrefixes(front, last);
    assert Reads(all[|front|].1) && (WritesOrdinary(Run(all[..|front|]), all[|front|]) ==> !Overtaken(front, last.0));
    forall k | 0 <= k < |front|
      ensures Reads(front[k].1) && (WritesOrdinary(Run(front[..k]), front[k]) ==> !Overtaken(front[..k], front[k].0))
    {
      assert Reads(all[k].1) && (WritesOrdinary(Run(all[..k]), all[k]) ==> !Overtaken(all[..k], all[k].0));
    }
  }

  // ---- What goes wrong otherwise ----

  /**
   Whatever has happened to the binding since an ordinary hook loaded it, an end or a rebinding included, the hook's
   write puts the old client back.
   */
  lemma LateWriteRestoresTheOldClient(s: State, h: HookId, readable: bool)
    requires Inv(s) && h in s.hooks && s.hooks[h].phase.Recording?
    requires IsOrdinary(s.hooks[h].e) && s.hooks[h].seen.Some?
    ensures Bound(Apply(s, (h, Update(true, readable))).paneMap, s.hooks[h].e.sessionID) == s.hooks[h].seen
  {
  }

  /** For a bound session, a load leads every event right, whatever processes there are, if and only if it can read. */
  lemma OnlyReadableLoadsAreAlwaysRight(e: HookEvent, paneMap: PaneMap, readable: bool)
    requires !IsStart(e) && Bound(paneMap, e.sessionID).Some?
    ensures (forall process: Option<Process>, listing: Option<seq<Process>> ::
        RightAttribution(
          Resolve(e.(process := process, listing := listing), Seen(paneMap, readable)),
          Bound(paneMap, e.sessionID).value, process)) <==> readable
  {
    var m := Bound(paneMap, e.sessionID).value;
    if readable {
      forall process: Option<Process>, listing: Option<seq<Process>>
        ensures RightAttribution(Resolve(e.(process := process, listing := listing), paneMap), m, process)
      {
        ResolvesByBinding(e.(process := process, listing := listing), paneMap);
      }
    } else {
      var client := Client("", "", Some((m.paneID, m.zellijSession)), true, "");
      var process := Some(Process(m.clientPID, m.clientStart, Some(client)));
      var noListing: Option<seq<Process>> := None;
      UnreadableMeansDiscovery(e.(process := process, listing := noListing));
      assert !RightAttribution(Resolve(e.(process := process, listing := noListing), map[]), m, process);
    }
  }

  // ---- Both, reached ----

  const OLD := Process(1, 10, Some(Client("dir", "home", Some((1, "z")), true, "")))
  const NEW := Process(2, 20, Some(Client("dir", "home", Some((2, "z")), true, "")))

  function MappingOf(p: Process): Mapping {
    Mapping(p.pid, "z", p.pid, p.start, "")
  }

  function SomeEvent(name: string, listed: Process, process: Option<Process>): HookEvent {
    HookEvent(name, "s", "dir", "home", process, Some([listed]))
  }

  lemma DiscoversTheListed(name: string, listed: Process, process: Option<Process>)
    requires listed == OLD || listed == NEW
    ensures var e := SomeEvent(name, listed, process);
      Discover(e) == Attribution(listed.pid, "z", "", Discovered, listed.pid, listed.start, false)
  {
    var e := SomeEvent(name, listed, process);
    assert [listed][..0] == [];
    assert MatchCount([], "dir", "home") == 0;
    assert Matches(listed, "dir", "home");
    assert MatchCount([listed], "dir", "home") == 1;
    assert LastMatch([listed], "dir", "home") == listed;
  }

  /**
   The session starts in the old client; an event of it is resolved; the session is then started in the new client.
   */
  lemma ARebindingOvertakesAnEvent() returns (steps: seq<Step>)
    ensures var s := Run(steps);
      && Bound(s.paneMap, "s") == Some(MappingOf(NEW))
      && 1 in s.hooks && s.hooks[1].phase.Recording? && IsOrdinary(s.hooks[1].e)
      && s.hooks[1].e.sessionID == "s" && s.hooks[1].seen == Some(MappingOf(OLD))
  {
    var start := SomeEvent("SessionStart", OLD, None);
    var tool := SomeEvent("PreToolUse", OLD, Some(OLD));
    var restart := SomeEvent("SessionStart", NEW, Some(OLD));
    DiscoversTheListed("SessionStart", OLD, None);
    DiscoversTheListed("SessionStart", NEW, Some(OLD));
    steps := StartIn([], 0, start, OLD);
    steps := EventIn(steps, 1, tool, MappingOf(OLD));
    steps := StartIn(steps, 2, restart, NEW);
  }

  /** The load of an ordinary event of a bound session. */
  lemma EventIn(steps: seq<Step>, h: HookId, e: HookEvent, m: Mapping) returns (more: seq<Step>)
    requires h !in Run(steps).hooks && IsOrdinary(e) && e.sessionID in Run(steps).paneMap && e.sessionID != ""
    requires Run(steps).paneMap[e.sessionID] == m && m.profile == "" && m.clientPID > 0 && Live(m, e.process)
    ensures Run(more).paneMap == Run(steps).paneMap
    ensures Run(more).hooks == Run(steps).hooks[h := Hook(e, Cached(m), Some(m), Some(m), Recording)]
  {
    EventIsCached(Run(steps), h, e, m);
    OneMoreStep(steps, (h, Begin(e, true)));
    more := steps + [(h, Begin(e, true))];
  }

  /** An ordinary event of a bound session whose client is there. */
  lemma EventIsCached(s: State, h: HookId, e: HookEvent, m: Mapping)
    requires h !in s.hooks && IsOrdinary(e) && e.sessionID in s.paneMap && e.sessionID != ""
    requires s.paneMap[e.sessionID] == m && m.profile == "" && m.clientPID > 0 && Live(m, e.process)
    ensures var s' := Apply(s, (h, Begin(e, true)));
      && s'.paneMap == s.paneMap && s'.hooks == s.hooks[h := Hook(e, Cached(m), Some(m), Some(m), Recording)]
  {
    assert Resolve(e, s.paneMap) == Cached(m);
  }

  /** The start of the session in a client, from its load to its write. */
  lemma StartIn(steps: seq<Step>, h: HookId, e: HookEvent, p: Process) returns (more: seq<Step>)
    requires h !in Run(steps).hooks && e.sessionID == "s" && e.event == "SessionStart" && p.pid > 0
    requires Discover(e) == Attribution(p.pid, "z", "", Discovered, p.pid, p.start, false)
    ensures Run(more).paneMap == Run(steps).paneMap["s" := MappingOf(p)]
    ensures Run(more).hooks - {h} == Run(steps).hooks
    ensures forall g :: g in Run(steps).hooks ==> g in Run(more).hooks && Run(more).hooks[g] == Run(steps).hooks[g]
    ensures forall g :: g in Run(more).hooks ==> g == h || g in Run(steps).hooks
  {
    OneMoreStep(steps, (h, Begin(e, true)));
    var begun := steps + [(h, Begin(e, true))];
    OneMoreStep(begun, (h, Update(true, true)));
    StartRebinds(Run(steps), h, e);
    more := begun + [(h, Update(true, true))];
    OthersStay(Run(more).hooks, Run(steps).hooks, h);
  }

  lemma OthersStay(after: map<HookId, Hook>, before: map<HookId, Hook>, h: HookId)
    requires after - {h} == before
    ensures forall g :: g in before ==> g in after && after[g] == before[g]
    ensures forall g :: g in after ==> g == h || g in before
  {
    assert forall g :: g in after && g != h ==> g in after - {h} && (after - {h})[g] == after[g];
  }

  /** A start that discovers a client binds the session to it, whatever it was bound to. */
  lemma StartRebinds(s: State, h: HookId, e: HookEvent)
    requires h !in s.hooks && IsStart(e) && e.sessionID != ""
    requires Discover(e).reason.Discovered? && Discover(e).clientPID > 0
    ensures var s' := Apply(Apply(s, (h, Begin(e, true))), (h, Update(true, true)));
      && s'.paneMap == s.paneMap[e.sessionID := Recorded(Discover(e))] && s'.hooks - {h} == s.hooks
  {
    assert Resolve(e, s.paneMap) == Discover(e);
    var begun := Apply(s, (h, Begin(e, true)));
    assert begun.hooks == s.hooks[h := begun.hooks[h]] && begun.hooks[h].phase.Recording?;
    assert s.hooks[h := begun.hooks[h]] - {h} == s.hooks;
  }

  /** The write of the event, after the rebinding, binds the session to the old client again. */
  lemma AnOrdinaryEventUndoesARebinding() returns (steps: seq<Step>)
    ensures Bound(Run(steps).paneMap, "s") == Some(MappingOf(NEW))
    ensures Bound(Run(steps + [(1, Update(true, true))]).paneMap, "s") == Some(MappingOf(OLD))
  {
    steps := ARebindingOvertakesAnEvent();
    OneMoreStep(steps, (1, Update(true, true)));
    RunKeepsInv(steps);
    LateWriteRestoresTheOldClient(Run(steps), 1, true);
  }
}
