/**
 Permission prompts of a sidebar session, counted per agent (cc-zellij-plugin/src/session.rs:243-366 and
 cc-zellij-plugin/src/pipe_handler.rs:116-136).
 */
module SessionPrompts {
  import opened Wrappers

  datatype WaitReason = Permission | Notification

  datatype Activity = Init | Working | Waiting(reason: WaitReason) | Idle | DoneActivity | AgentDone

  const BLOCKED := Waiting(Permission)

  datatype HookOutcome = Changed | Unchanged | Absorbed

  /** The activity an event stands for, if it has one. */
  function HookEventToActivity(event: string): Option<Activity> {
    if event == "SessionStart" then Some(Init)
    else if event in {"PreToolUse", "PostToolUse", "PostToolUseFailure", "UserPromptSubmit", "SubagentStart"}
    then Some(Working)
    else if event == "PermissionRequest" then Some(BLOCKED)
    else if event == "PermissionReply" then Some(Working)
    else if event == "Stop" then Some(DoneActivity)
    else if event == "SubagentStop" then Some(AgentDone)
    else None
  }

  // ---- Specification ----

  datatype SessionState = SessionState(activity: Activity, prompts: map<string, nat>, doneAttended: bool)

  predicate IsDone(a: Activity) {
    a.DoneActivity? || a.AgentDone?
  }

  /** The state after a transition, and whether the activity changed. */
  function Transitioned(s: SessionState, next: Activity): (SessionState, bool) {
    if next.AgentDone? && s.activity.Working? then (s, false)
    else if s.activity == next then (s, false)
    else (s.(activity := next, doneAttended := s.doneAttended && !(IsDone(s.activity) && !IsDone(next))), true)
  }

  function CountOf(prompts: map<string, nat>, agent: string): nat {
    if agent in prompts then prompts[agent] else 0
  }

  function DrainOne(prompts: map<string, nat>, agent: string): map<string, nat> {
    if agent !in prompts then prompts
    else if prompts[agent] <= 1 then prompts - {agent}
    else prompts[agent := prompts[agent] - 1]
  }

  /** The events that answer the prompts of every agent. */
  predicate ClearsAll(event: string) {
    event in {"Stop", "UserPromptSubmit", "SessionStart"}
  }

  /** The events that answer one prompt of the agent that emits them. */
  predicate Answers(event: string, activity: Activity) {
    event == "PermissionReply" || (event in {"PostToolUse", "PostToolUseFailure"} && activity.Working?)
  }

  function Prompted(prompts: map<string, nat>, event: string, activity: Activity, agent: string): map<string, nat> {
    var asked := if activity == BLOCKED then prompts[agent := CountOf(prompts, agent) + 1] else prompts;
    if ClearsAll(event) then map[]
    else if event == "SubagentStop" then asked - {agent}
    else if Answers(event, activity) then DrainOne(asked, agent)
    else asked
  }

  ghost predicate NoZeroCounts(prompts: map<string, nat>) {
    forall agent :: agent in prompts ==> prompts[agent] > 0
  }

  /** The sum of all counts. */
  ghost function Total(prompts: map<string, nat>): nat {
    if prompts == map[] then 0
    else
      var agent :| agent in prompts;
      prompts[agent] + Total(prompts - {agent})
  }

  lemma TotalSplits(prompts: map<string, nat>, agent: string)
    requires agent in prompts
    ensures Total(prompts) == prompts[agent] + Total(prompts - {agent})
  {
    var first :| agent in prompts && first in prompts && Total(prompts) == prompts[first] + Total(prompts - {first});
    if first != agent {
      var rest := prompts - {first};
      TotalSplits(rest, agent);
      TotalSplits(prompts - {agent}, first);
      assert rest - {agent} == prompts - {agent} - {first};
    }
  }

  lemma TotalUpdates(prompts: map<string, nat>, agent: string, count: nat)
    ensures Total(prompts[agent := count]) == Total(prompts) - CountOf(prompts, agent) + count
    ensures Total(prompts - {agent}) == Total(prompts) - CountOf(prompts, agent)
  {
    var updated := prompts[agent := count];
    TotalSplits(updated, agent);
    assert updated - {agent} == prompts - {agent};
    if agent in prompts {
      TotalSplits(prompts, agent);
    } else {
      assert prompts - {agent} == prompts;
    }
  }

  /** Some agent is blocked exactly if the sum is positive. */
  lemma TotalPositive(prompts: map<string, nat>)
    ensures Total(prompts) > 0 <==> exists agent :: agent in prompts && prompts[agent] > 0
  {
    forall agent | agent in prompts && prompts[agent] > 0 ensures Total(prompts) > 0 {
      TotalSplits(prompts, agent);
    }
    if Total(prompts) > 0 && prompts != map[] {
      var first :| first in prompts && Total(prompts) == prompts[first] + Total(prompts - {first});
      if prompts[first] == 0 {
        TotalPositive(prompts - {first});
      }
    }
  }

  ghost function Applied(s: SessionState, event: string, activity: Activity, agent: string)
    : (SessionState, HookOutcome)
  {
    var s' := s.(prompts := Prompted(s.prompts, event, activity, agent));
    if Total(s'.prompts) > 0 then
      if s.activity != BLOCKED then (Transitioned(s', BLOCKED).0, Changed) else (s', Absorbed)
    else
      var (after, changed) := Transitioned(s', activity);
      (after, if changed then Changed else Unchanged)
  }

  // ---- The session object ----

  class Session {
    var activity: Activity
    var pendingPrompts: map<string, nat>
    var doneAttended: bool

    function State(): SessionState
      reads this
    {
      SessionState(activity, pendingPrompts, doneAttended)
    }

    constructor ()
      ensures State() == SessionState(Init, map[], false)
    {
      activity, pendingPrompts, doneAttended := Init, map[], false;
    }

    method Transition(next: Activity) returns (changed: bool)
      modifies this
      ensures (State(), changed) == Transitioned(old(State()), next)
    {
      if next.AgentDone? && activity.Working? {
        return false;
      }
      if activity == next {
        return false;
      }
      if IsDone(activity) && !IsDone(next) {
        doneAttended := false;
      }
      activity := next;
      return true;
    }

    method PendingPromptCount() returns (total: nat)
      ensures total == Total(pendingPrompts)
    {
      total := 0;
      var left := pendingPrompts;
      while left != map[]
        invariant total + Total(left) == Total(pendingPrompts)
        decreases |left|
      {
        var agent :| agent in left;
        TotalSplits(left, agent);
        assert left.Keys == (left - {agent}).Keys + {agent};
        total, left := total + left[agent], left - {agent};
      }
    }

    /** The bookkeeping of one event. */
    method UpdatePrompts(event: string, nominal: Activity, agent: string)
      modifies this`pendingPrompts
      ensures pendingPrompts == Prompted(old(pendingPrompts), event, nominal, agent)
    {
      if nominal == BLOCKED {
        pendingPrompts := pendingPrompts[agent := (if agent in pendingPrompts then pendingPrompts[agent] else 0) + 1];
      }
      if event == "Stop" || event == "UserPromptSubmit" || event == "SessionStart" {
        pendingPrompts := map[];
      } else if event == "SubagentStop" {
        pendingPrompts := pendingPrompts - {agent};
      } else if
        event == "PermissionReply" ||
        (nominal.Working? && (event == "PostToolUse" || event == "PostToolUseFailure"))
      {
        if agent in pendingPrompts {
          var count := if pendingPrompts[agent] > 0 then pendingPrompts[agent] - 1 else 0;
          pendingPrompts := if count == 0 then pendingPrompts - {agent} else pendingPrompts[agent := count];
        }
      }
    }

    /** Applies a hook event; agent is "" for the main agent. */
    method ApplyHook(event: string, nominal: Activity, agent: string) returns (outcome: HookOutcome)
      modifies this
      ensures (State(), outcome) == Applied(old(State()), event, nominal, agent)
    {
      UpdatePrompts(event, nominal, agent);
      var total := PendingPromptCount();
      if total > 0 {
        if activity != BLOCKED {
          var changed := Transition(BLOCKED);
          return Changed;
        }
        return Absorbed;
      }
      var changed := Transition(nominal);
      return if changed then Changed else Unchanged;
    }
  }

  // ---- Waiting exactly while somebody is blocked ----

  /**
   After any mapped event, whatever the activity was before, the session waits for permission exactly if some agent
   has an outstanding prompt; and no stored count is zero.
   */
  lemma WaitingIffSomebodyIsBlocked(s: SessionState, event: string, agent: string)
    requires NoZeroCounts(s.prompts) && HookEventToActivity(event).Some?
    ensures var s' := Applied(s, event, HookEventToActivity(event).value, agent).0;
      && NoZeroCounts(s'.prompts)
      && (s'.activity == BLOCKED <==> s'.prompts != map[])
      && (s'.activity == BLOCKED <==> exists a :: CountOf(s'.prompts, a) > 0)
  {
    var activity := HookEventToActivity(event).value;
    var prompts := Prompted(s.prompts, event, activity, agent);
    TotalPositive(prompts);
    assert prompts != map[] ==> exists a :: a in prompts;
    if activity == BLOCKED {
      assert agent in prompts;
    }
    var s' := Applied(s, event, activity, agent).0;
    if s'.prompts != map[] {
      var a :| a in s'.prompts;
      assert CountOf(s'.prompts, a) > 0;
    }
  }

  /**
   The outcome of a mapped event tells exactly whether the activity changed, and whether the event was absorbed because
   somebody is still blocked. The mark that a finished session was looked at goes exactly when it is no longer finished.
   */
  lemma OutcomeIsExact(s: SessionState, event: string, agent: string)
    requires NoZeroCounts(s.prompts) && HookEventToActivity(event).Some?
    ensures var (s', outcome) := Applied(s, event, HookEventToActivity(event).value, agent);
      && (outcome.Changed? <==> s'.activity != s.activity)
      && (outcome.Absorbed? <==> s.activity == BLOCKED && s'.activity == BLOCKED)
      && (s'.doneAttended <==> s.doneAttended && (IsDone(s.activity) ==> IsDone(s'.activity)))
  {
    var activity := HookEventToActivity(event).value;
    WaitingIffSomebodyIsBlocked(s, event, agent);
    TotalPositive(Prompted(s.prompts, event, activity, agent));
  }

  /** One event of a run: its name and the agent that emits it. */
  datatype Event = Event(name: string, agent: string)

  ghost predicate AllMapped(h: seq<Event>) {
    forall e :: e in h ==> HookEventToActivity(e.name).Some?
  }

  /** The state of a new session after a history of mapped events. */
  ghost function After(h: seq<Event>): SessionState
    requires AllMapped(h)
  {
    if h == [] then SessionState(Init, map[], false)
    else Applied(After(h[..|h| - 1]), h[|h| - 1].name, HookEventToActivity(h[|h| - 1].name).value, h[|h| - 1].agent).0
  }

  /** In every state a new session can reach, it waits for permission exactly while some agent is blocked. */
  lemma {:induction false} ReachableStatesWaitIffBlocked(h: seq<Event>)
    requires AllMapped(h)
    ensures NoZeroCounts(After(h).prompts)
    ensures After(h).activity == BLOCKED <==> exists a :: CountOf(After(h).prompts, a) > 0
  {
    if h != [] {
      ReachableStatesWaitIffBlocked(h[..|h| - 1]);
      assert h[|h| - 1] in h;
      WaitingIffSomebodyIsBlocked(After(h[..|h| - 1]), h[|h| - 1].name, h[|h| - 1].agent);
    }
  }

  /** The session waits for permission exactly while some agent has an outstanding prompt, and no count is zero. */
  ghost predicate WaitsWhileBlocked(s: SessionState) {
    NoZeroCounts(s.prompts) && (s.activity == BLOCKED <==> s.prompts != map[])
  }

  /**
   A plain transition, such as the one to Idle for a SessionEnd of a live pane, does not look at the prompts. From
   any state that waits while blocked, it leads to such a state exactly when no prompt is outstanding.
   */
  lemma PlainTransitionsKeepItExactlyWithoutPrompts(s: SessionState, next: Activity)
    requires WaitsWhileBlocked(s) && next != BLOCKED
    ensures WaitsWhileBlocked(Transitioned(s, next).0) <==> s.prompts == map[]
  {
  }

  /** From any state with counts, whatever plain transitions did to its activity, the next mapped event repairs it. */
  lemma NextEventRepairs(s: SessionState, next: Activity, event: string, agent: string)
    requires NoZeroCounts(s.prompts) && HookEventToActivity(event).Some?
    ensures WaitsWhileBlocked(Applied(Transitioned(s, next).0, event, HookEventToActivity(event).value, agent).0)
  {
    WaitingIffSomebodyIsBlocked(Transitioned(s, next).0, event, agent);
  }

  /**
   It does happen: a session that was asked once and then ended on a live pane is idle with the prompt outstanding.
   */
  lemma PlainTransitionsDoNotKeepIt()
    ensures var blocked := After([Event("PermissionRequest", "")]);
      WaitsWhileBlocked(blocked) && !WaitsWhileBlocked(Transitioned(blocked, Idle).0)
  {
    var h := [Event("PermissionRequest", "")];
    assert h[..0] == [] && After(h[..0]).prompts == map[];
    ReachableStatesWaitIffBlocked(h);
    assert "" in After(h).prompts;
  }

  // ---- The count of one agent over a history ----

  /** What one event does to the balance of an agent: one prompt more, one answered, or nothing. */
  function Delta(e: Event, agent: string): int {
    if e.agent != agent then 0
    else if e.name == "PermissionRequest" then 1
    else if e.name in {"PermissionReply", "PostToolUse", "PostToolUseFailure"} then -1
    else 0
  }

  predicate Clears(e: Event, agent: string) {
    ClearsAll(e.name) || (e.name == "SubagentStop" && e.agent == agent)
  }

  /** The requests minus the answers of an agent from position from on. */
  function Net(h: seq<Event>, agent: string, from: nat): int
    requires from <= |h|
    decreases |h| - from
  {
    if from == |h| then 0 else Delta(h[from], agent) + Net(h, agent, from + 1)
  }

  /** The position after the last event that cleared the agent. */
  function SinceClear(h: seq<Event>, agent: string): (k: nat)
    ensures k <= |h|
  {
    if h == [] then 0
    else if Clears(h[|h| - 1], agent) then |h|
    else SinceClear(h[..|h| - 1], agent)
  }

  lemma {:induction false} NetAppend(h: seq<Event>, e: Event, agent: string, from: nat)
    requires from <= |h|
    ensures Net(h + [e], agent, from) == Net(h, agent, from) + Delta(e, agent)
    decreases |h| - from
  {
    if from < |h| {
      assert (h + [e])[from] == h[from];
      NetAppend(h, e, agent, from + 1);
    } else {
      assert (h + [e])[from] == e;
    }
  }

  /** The prompts after a history are those before its last event, updated by that event. */
  lemma PromptsAfter(h: seq<Event>, e: Event)
    requires AllMapped(h + [e])
    ensures AllMapped(h) && HookEventToActivity(e.name).Some?
    ensures After(h + [e]).prompts == Prompted(After(h).prompts, e.name, HookEventToActivity(e.name).value, e.agent)
  {
    assert (h + [e])[..|h|] == h;
    assert e in h + [e] && forall x :: x in h ==> x in h + [e];
  }

  lemma PromptedCount(prompts: map<string, nat>, e: Event, agent: string)
    requires HookEventToActivity(e.name).Some?
    ensures CountOf(Prompted(prompts, e.name, HookEventToActivity(e.name).value, e.agent), agent) ==
      if Clears(e, agent) then 0
      else if CountOf(prompts, agent) + Delta(e, agent) < 0 then 0
      else CountOf(prompts, agent) + Delta(e, agent)
  {
  }

  /** The count of one agent is untouched by other agents, but for the events that clear everybody. */
  lemma CountAfterOneEvent(h: seq<Event>, e: Event, agent: string)
    requires AllMapped(h + [e]) && AllMapped(h)
    ensures CountOf(After(h + [e]).prompts, agent) ==
      if Clears(e, agent) then 0
      else if CountOf(After(h).prompts, agent) + Delta(e, agent) < 0 then 0
      else CountOf(After(h).prompts, agent) + Delta(e, agent)
  {
    PromptsAfter(h, e);
    PromptedCount(After(h).prompts, e, agent);
  }

  /**
   For every agent and every history, the agent's count is the greatest surplus of requests over answers among all
   suffixes of its history since it was last cleared, the empty suffix among them.
   */
  lemma {:induction false} CountIsGreatestSuffix(h: seq<Event>, agent: string)
    requires AllMapped(h)
    ensures forall k :: SinceClear(h, agent) <= k <= |h| ==> Net(h, agent, k) <= CountOf(After(h).prompts, agent)
    ensures exists k :: SinceClear(h, agent) <= k <= |h| && Net(h, agent, k) == CountOf(After(h).prompts, agent)
  {
    if h == [] {
      assert Net(h, agent, 0) == 0;
    } else {
      var front, e := h[..|h| - 1], h[|h| - 1];
      assert h == front + [e];
      CountIsGreatestSuffix(front, agent);
      CountAfterOneEvent(front, e, agent);
      assert Net(h, agent, |h|) == 0;
      if !Clears(e, agent) {
        forall k | SinceClear(h, agent) <= k < |h|
          ensures Net(h, agent, k) == Net(front, agent, k) + Delta(e, agent)
        {
          NetAppend(front, e, agent, k);
        }
        var best :|
          SinceClear(front, agent) <= best <= |front| &&
          Net(front, agent, best) == CountOf(After(front).prompts, agent);
        assert Net(h, agent, best) == Net(front, agent, best) + Delta(e, agent);
      }
    }
  }

  lemma PromptedTotal(prompts: map<string, nat>, event: string, activity: Activity, agent: string)
    ensures Total(Prompted(prompts, event, activity, agent)) <= Total(prompts) + 1
  {
    var asked := if activity == BLOCKED then prompts[agent := CountOf(prompts, agent) + 1] else prompts;
    TotalUpdates(prompts, agent, CountOf(prompts, agent) + 1);
    TotalUpdates(asked, agent, if CountOf(asked, agent) > 0 then CountOf(asked, agent) - 1 else 0);
  }

  /** The sum of all counts never exceeds the number of events, so 32 bits hold it for fewer than 2^32 events. */
  lemma {:induction false} TotalIsBounded(h: seq<Event>)
    requires AllMapped(h)
    ensures Total(After(h).prompts) <= |h|
  {
    if h != [] {
      var front, e := h[..|h| - 1], h[|h| - 1];
      assert h == front + [e];
      TotalIsBounded(front);
      PromptsAfter(front, e);
      PromptedTotal(After(front).prompts, e.name, HookEventToActivity(e.name).value, e.agent);
    }
  }
}
