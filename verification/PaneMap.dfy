/**
 The session-to-pane cache shared by all hooks (cc-deck/internal/cmd/hook.go:92-277).

 A hook that has to change its session's entry first looks without the lock, then takes the lock, loads the whole
 map (dropping expired entries), looks again, changes its own key and writes the whole map back. Hooks run
 concurrently, may be killed at any point, and may fail to get the lock or to write. A map that cannot be read or
 decoded is taken for an empty one.
 */
module PaneMap {
  import opened Wrappers

  type SessionID = string

  datatype PaneEntry = PaneEntry(
    paneID: nat, zellijSession: string, updatedAt: int, clientPID: nat, clientStart: int, profile: string)

  const TTL_SECONDS := 12 * 3600
  const REFRESH_SECONDS := 3600

  predicate Expired(e: PaneEntry, now: int) {
    e.updatedAt < now - TTL_SECONDS
  }

  /** The entries a load at this time returns. */
  function Loaded(file: map<SessionID, PaneEntry>, now: int): map<SessionID, PaneEntry> {
    map k | k in file && !Expired(file[k], now) :: file[k]
  }

  function Seen(file: map<SessionID, PaneEntry>, now: int, readable: bool): map<SessionID, PaneEntry> {
    if readable then Loaded(file, now) else map[]
  }

  /** The entry already says what is wanted and is recent enough not to be rewritten. */
  predicate Fresh(cur: Option<PaneEntry>, want: PaneEntry, now: int) {
    && cur.Some? && cur.value.updatedAt != 0
    && cur.value.(updatedAt := want.updatedAt) == want
    && now - cur.value.updatedAt < REFRESH_SECONDS
  }

  datatype Update = Record(sessionID: SessionID, entry: PaneEntry, now: int) | Remove(sessionID: SessionID)

  /** Whether the update has nothing to do on a map in which its session has this entry. */
  predicate NothingToDo(u: Update, cur: Option<PaneEntry>) {
    match u
    case Record(_, entry, now) => Fresh(cur, entry, now)
    case Remove(_) => cur == None
  }

  function Updated(u: Update, m: map<SessionID, PaneEntry>): map<SessionID, PaneEntry> {
    match u
    case Record(sessionID, entry, now) => m[sessionID := entry.(updatedAt := now)]
    case Remove(sessionID) => m - {sessionID}
  }

  type HookId = nat

  datatype Phase = Unlocked | WantLock | Locked | Holding(snapshot: map<SessionID, PaneEntry>, loadedAt: int) | Over

  datatype Hook = Hook(update: Update, phase: Phase)

  datatype State = State(file: map<SessionID, PaneEntry>, lock: Option<HookId>, hooks: map<HookId, Hook>)

  datatype Label =
    | Spawn(update: Update) | Look(now: int, readable: bool) | TakeLock | GiveUp
    | Load(now: int, readable: bool) | Write(ok: bool) | Die

  function At(s: State, h: HookId, p: Phase): State
    requires h in s.hooks
  {
    s.(hooks := s.hooks[h := s.hooks[h].(phase := p)])
  }

  function Freed(s: State, h: HookId): State {
    if s.lock == Some(h) then s.(lock := None) else s
  }

  /** One step of hook h. A step that is not enabled changes nothing. */
  function Apply(s: State, h: HookId, l: Label): State {
    if l.Spawn? then
      if h in s.hooks then s else s.(hooks := s.hooks[h := Hook(l.update, Unlocked)])
    else if h !in s.hooks then s
    else if l.Die? then Freed(At(s, h, Over), h)
    else
      var u := s.hooks[h].update;
      match (s.hooks[h].phase, l)
      case (Unlocked, Look(now, readable)) =>
        At(s, h, if NothingToDo(u, Get(Seen(s.file, now, readable), u.sessionID)) then Over else WantLock)
      case (WantLock, TakeLock) => if s.lock.Some? then s else At(s, h, Locked).(lock := Some(h))
      case (WantLock, GiveUp) => At(s, h, Over)
      case (Locked, Load(now, readable)) =>
        var m := Seen(s.file, now, readable);
        if NothingToDo(u, Get(m, u.sessionID)) then Freed(At(s, h, Over), h) else At(s, h, Holding(m, now))
      case (Holding(m, _), Write(ok)) =>
        var over := Freed(At(s, h, Over), h);
        if ok then over.(file := Updated(u, m)) else over
      case _ => s
  }

  ghost predicate Inv(s: State) {
    forall h :: h in s.hooks ==>
      && (s.hooks[h].phase.Locked? || s.hooks[h].phase.Holding? ==> s.lock == Some(h))
      && (s.hooks[h].phase.Holding? ==> s.hooks[h].phase.snapshot == Loaded(s.file, s.hooks[h].phase.loadedAt))
  }

  /** The step reads the map as it is, if it loads it to change it. */
  predicate Reads(l: Label) {
    l.Load? ==> l.readable
  }

  predicate ReadableRun(steps: seq<(HookId, Label)>) {
    forall k :: 0 <= k < |steps| ==> Reads(steps[k].1)
  }

  lemma StepKeepsInv(s: State, h: HookId, l: Label)
    requires Inv(s) && Reads(l)
    ensures Inv(Apply(s, h, l))
  {
  }

  const START := State(map[], None, map[])

  function Run(steps: seq<(HookId, Label)>): State {
    if steps == [] then START
    else Apply(Run(steps[..|steps| - 1]), steps[|steps| - 1].0, steps[|steps| - 1].1)
  }

  lemma {:induction false} RunKeepsInv(steps: seq<(HookId, Label)>)
    requires ReadableRun(steps)
    ensures Inv(Run(steps))
  {
    if steps != [] {
      RunKeepsInv(steps[..|steps| - 1]);
      StepKeepsInv(Run(steps[..|steps| - 1]), steps[|steps| - 1].0, steps[|steps| - 1].1);
    }
  }

  /**
   In every run in which the map can be read, a step of one session's hook leaves every other session's entry as it is,
   except that an entry which was expired when the hook loaded the map may be gone; and a write that succeeds makes the
   session's own entry what the hook wanted.
   */
  lemma NoUpdateLosesAnotherSessionsEntry(steps: seq<(HookId, Label)>, h: HookId, l: Label, other: SessionID)
    requires ReadableRun(steps) && h in Run(steps).hooks && !l.Spawn?
    ensures var s := Run(steps);
      var before, after, p := Get(s.file, other), Get(Apply(s, h, l).file, other), s.hooks[h].phase;
      if other == s.hooks[h].update.sessionID && p.Holding? && l == Write(true) then
        after == match s.hooks[h].update
          case Record(_, entry, now) => Some(entry.(updatedAt := now))
          case Remove(_) => None
      else
        || after == before
        || (after == None && before.Some? && p.Holding? && Expired(before.value, p.loadedAt))
  {
    RunKeepsInv(steps);
  }

  /**
   What an unreadable map does: the write that follows the load keeps the other sessions' unexpired entries exactly when
   the map was read, or there were none.
   */
  lemma OthersSurviveExactlyIfRead(s: State, h: HookId, now: int, readable: bool)
    requires h in s.hooks && s.hooks[h].phase.Locked?
    requires !NothingToDo(s.hooks[h].update, Get(Seen(s.file, now, readable), s.hooks[h].update.sessionID))
    ensures var after, own := Apply(Apply(s, h, Load(now, readable)), h, Write(true)), s.hooks[h].update.sessionID;
      (forall k: SessionID :: k != own && k in Loaded(s.file, now) ==> Get(after.file, k) == Get(s.file, k)) <==>
        readable || (forall k :: k in Loaded(s.file, now) ==> k == own)
  {
    var after, u := Apply(Apply(s, h, Load(now, readable)), h, Write(true)), s.hooks[h].update;
    assert after.file == Updated(u, Seen(s.file, now, readable));
    if k :| !readable && k in Loaded(s.file, now) && k != u.sessionID {
      assert Get(after.file, k) != Get(s.file, k);
    }
  }

  /**
   A hook that finds nothing to do is right: its session's entry says what it wanted and is recent, or is gone or
   expired as it wanted.
   */
  lemma SkippedUpdateIsInPlace(s: State, h: HookId, l: Label)
    requires h in s.hooks && (s.hooks[h].phase.Unlocked? || s.hooks[h].phase.Locked?)
    requires (l.Look? || l.Load?) && l.readable && Apply(s, h, l).hooks[h].phase.Over?
    ensures Apply(s, h, l).file == s.file
    ensures match s.hooks[h].update
      case Record(sessionID, entry, now) =>
        && sessionID in s.file
        && now - s.file[sessionID].updatedAt < REFRESH_SECONDS && !Expired(s.file[sessionID], l.now)
        && entry.(updatedAt := s.file[sessionID].updatedAt) == s.file[sessionID]
      case Remove(sessionID) => sessionID !in s.file || Expired(s.file[sessionID], l.now)
  {
    assert NothingToDo(s.hooks[h].update, Get(Loaded(s.file, l.now), s.hooks[h].update.sessionID));
  }
}
