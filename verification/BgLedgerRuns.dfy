/**
 Concurrent hooks of background jobs (cc-deck/internal/cmd/claude_bg_attribution.go:507-647, with the locks of
 cc-deck/internal/cmd/hook.go:183-211).

 Many hooks run at once, each for one job. A hook takes the lock of its job, decides, and then touches the shared
 ledger file only by taking the ledger lock, loading the whole file, changing its own key and writing the whole
 file back. Any hook may be killed between any two of these steps; the kernel then frees its locks. A lock may
 turn out to be unavailable, a write may fail, and a file that cannot be read or decoded is taken for an empty one.
 */
module BgLedgerRuns {
  import opened Wrappers
  import opened BgLedger

  type Job = string
  type HookId = nat

  /**
   What a hook has decided. known is the entry of its job in the file, as far as the hook has seen or written it.
   */
  datatype Work = Work(att: Attribution, event: string, known: Option<Entry>, next: Option<Entry>)

  /** How far a hook has come. last is false for the write of the intent, and true for the write after the sends. */
  datatype Phase =
    | Waiting                                                      // for the lock of its job
    | Deciding
    | Storing(w: Work, last: bool)                                 // for the ledger lock
    | LedgerHeld(w: Work, last: bool)
    | Merging(w: Work, last: bool, snapshot: map<Job, Entry>)      // the file is loaded
    | Sending(w: Work, done: nat, remaining: seq<RowRelease>)
    | Delivering(w: Work)

  datatype Hook = Hook(job: Job, event: string, sessionID: string, phase: Phase)

  /**
   The machine. rows holds, for each job, the rows to which an event of the job was delivered, and for which since
   then neither a release was sent successfully nor a SessionEnd was processed.
   */
  datatype State = State(
    file: map<Job, Entry>, jobLocks: map<Job, HookId>, ledgerLock: Option<HookId>, hooks: map<HookId, Hook>,
    rows: map<Job, set<Terminal>>)

  datatype Label =
    | Spawn(job: Job, event: string, sessionID: string)
    | LockJob
    | LockUnavailable        // of the job or of the ledger, after the timeout
    | Decide(att: Attribution, now: int, readable: bool)
    | LockLedger
    | Load(readable: bool)
    | Commit(ok: bool)
    | Send(outcome: SendOutcome)
    | EndSends
    | Deliver
    | Die

  /** What a load returns. */
  function Seen(file: map<Job, Entry>, readable: bool): map<Job, Entry> {
    if readable then file else map[]
  }

  function Rows(s: State, job: Job): set<Terminal> {
    if job in s.rows then s.rows[job] else {}
  }

  function WithPhase(s: State, h: HookId, p: Phase): State
    requires h in s.hooks
  {
    s.(hooks := s.hooks[h := s.hooks[h].(phase := p)])
  }

  /** The hook is over; whatever locks it holds are free. */
  function Gone(s: State, h: HookId): State
    requires h in s.hooks
  {
    var job := s.hooks[h].job;
    s.(hooks := s.hooks - {h},
       jobLocks := if Get(s.jobLocks, job) == Some(h) then s.jobLocks - {job} else s.jobLocks,
       ledgerLock := if s.ledgerLock == Some(h) then None else s.ledgerLock)
  }

  function WithoutRow(s: State, job: Job, t: Terminal): State {
    s.(rows := s.rows[job := Rows(s, job) - {t}])
  }

  function Put(m: map<Job, Entry>, job: Job, e: Option<Entry>): map<Job, Entry> {
    if e.Some? then m[job := e.value] else m - {job}
  }

  function AppendLeft(remaining: seq<RowRelease>, left: Option<RowRelease>): seq<RowRelease> {
    if left.Some? then remaining + [left.value] else remaining
  }

  /** The state after one send that left this of its release. */
  function Sent(
    s: State, h: HookId, w: Work, done: nat, remaining: seq<RowRelease>, r: RowRelease, left: Option<RowRelease>
  ): State
    requires h in s.hooks
  {
    WithPhase(
      if left == None then WithoutRow(s, s.hooks[h].job, r.at) else s, h,
      Sending(w, done + 1, AppendLeft(remaining, left)))
  }

  /** The phase after the intent is on disk, or did not have to be written. */
  function AfterIntent(w: Work): Phase {
    if w.next.Some? && w.next.value.pending != [] then Sending(w, 0, []) else Delivering(w)
  }

  /** After a write that did not happen: without its intent on disk a hook neither sends nor delivers anything. */
  function AfterFailedWrite(s: State, h: HookId, w: Work, last: bool): State
    requires h in s.hooks
  {
    if last then WithPhase(s, h, Delivering(w)) else Gone(s, h)
  }

  /** One step of hook h. A step that is not enabled changes nothing. */
  function Apply(s: State, h: HookId, l: Label): State {
    if l.Spawn? then
      if h in s.hooks then s else s.(hooks := s.hooks[h := Hook(l.job, l.event, l.sessionID, Waiting)])
    else if h !in s.hooks then s
    else if l.Die? then Gone(s, h)
    else
      var hook := s.hooks[h];
      match (hook.phase, l)
      case (Waiting, LockJob) =>
        if hook.job in s.jobLocks then s
        else WithPhase(s, h, Deciding).(jobLocks := s.jobLocks[hook.job := h])
      case (Waiting, LockUnavailable) => Gone(s, h)
      case (Deciding, Decide(att, now, readable)) =>
        var known := Get(Seen(s.file, readable), hook.job);
        var intent := Plan(known, att, hook.sessionID, hook.event, now);
        var w := Work(att, hook.event, known, intent.next);
        WithPhase(s, h, if intent.write then Storing(w, false) else AfterIntent(w))
      case (Storing(w, last), LockLedger) =>
        if s.ledgerLock.Some? then s else WithPhase(s, h, LedgerHeld(w, last)).(ledgerLock := Some(h))
      case (Storing(w, last), LockUnavailable) => AfterFailedWrite(s, h, w, last)
      case (LedgerHeld(w, last), Load(readable)) => WithPhase(s, h, Merging(w, last, Seen(s.file, readable)))
      case (Merging(w, last, snapshot), Commit(ok)) =>
        var s' := s.(ledgerLock := None);
        if !ok then AfterFailedWrite(s', h, w, last)
        else
          var stored := s'.(file := Put(snapshot, hook.job, w.next));
          var w' := w.(known := w.next);
          if last then WithPhase(stored, h, Delivering(w'))
          else
            var processed :=
              if IsEnd(w.event) && w.att.Delivers() then WithoutRow(stored, hook.job, w.att.at) else stored;
            WithPhase(processed, h, AfterIntent(w'))
      case (Sending(w, done, remaining), Send(o)) =>
        if w.next == None || done >= |w.next.value.pending| then s
        else
          var r := w.next.value.pending[done];
          Sent(s, h, w, done, remaining, r, AfterSend(w.att, r, o))
      case (Sending(w, done, remaining), EndSends) =>
        if w.next == None || done < |w.next.value.pending| then s
        else WithPhase(s, h, Storing(w.(next := Finish(w.next.value, remaining)), true))
      case (Delivering(w), Deliver) =>
        var over := Gone(s, h);
        if !w.att.Delivers() then over
        else if IsEnd(w.event) then WithoutRow(over, hook.job, w.att.at)
        else over.(rows := over.rows[hook.job := Rows(over, hook.job) + {w.att.at}])
      case _ => s
  }

  const START := State(map[], map[], None, map[], map[])

  function Run(steps: seq<(HookId, Label)>): State {
    if steps == [] then START
    else Apply(Run(steps[..|steps| - 1]), steps[|steps| - 1].0, steps[|steps| - 1].1)
  }

  // ---- The invariant ----

  /** The row is remembered by e, unless the hook is processing the SessionEnd of that row. */
  ghost predicate KeepsRow(w: Work, e: Option<Entry>, t: Terminal) {
    Covered(e, t) || (IsEnd(w.event) && w.att.Delivers() && t == w.att.at)
  }

  /** A hook that will deliver to a row owns it in e. */
  ghost predicate OwnsTarget(w: Work, e: Option<Entry>) {
    w.att.Delivers() && !IsEnd(w.event) ==> Owns(e, w.att.at)
  }

  /** A hook that waits to store, or is storing: its next entry forgets none of the rows. */
  ghost predicate SoundWrite(w: Work, last: bool, e: Option<Entry>, rows: set<Terminal>) {
    && w.known == e && WellFormedOption(w.next) && OwnsTarget(w, w.next)
    && (forall t :: t in rows ==> if last then Covered(w.next, t) else KeepsRow(w, w.next, t))
    && (last ==> OwnsTarget(w, e))
  }

  /** A hook in the middle of its sends: each row is the owner's, or among what is left or still to be tried. */
  ghost predicate SoundSends(w: Work, done: nat, remaining: seq<RowRelease>, e: Option<Entry>, rows: set<Terminal>) {
    && w.known == e == w.next && e.Some? && done <= |e.value.pending| && WellFormed(e.value) && OwnsTarget(w, e)
    && Thinned(e.value.pending[..done], remaining)
    && forall t :: t in rows ==> Remembered(e.value, done, remaining, t)
  }

  /** Where the row at t is remembered while the releases from done on remain to be tried. */
  ghost predicate Remembered(e: Entry, done: nat, remaining: seq<RowRelease>, t: Terminal)
    requires done <= |e.pending|
  {
    Owns(Some(e), t) || (exists r :: r in remaining && r.at == t) || (exists r :: r in e.pending[done..] && r.at == t)
  }

  /** remaining is a selection of tried, in order, with at most the retry times and counts changed. */
  ghost predicate Thinned(tried: seq<RowRelease>, remaining: seq<RowRelease>) {
    && (forall j :: 0 <= j < |remaining| ==>
          remaining[j].attempts <= MAX_ATTEMPTS && ContainsRelease(tried, remaining[j]))
    && (forall j, k :: 0 <= j < k < |remaining| ==> !SameRow(remaining[j], remaining[k]))
  }

  ghost predicate SoundPhase(p: Phase, e: Option<Entry>, rows: set<Terminal>, file: map<Job, Entry>) {
    match p
    case Waiting => true
    case Deciding => true
    case Storing(w, last) => SoundWrite(w, last, e, rows)
    case LedgerHeld(w, last) => SoundWrite(w, last, e, rows)
    case Merging(w, last, snapshot) => SoundWrite(w, last, e, rows) && snapshot == file
    case Sending(w, done, remaining) => SoundSends(w, done, remaining, e, rows)
    case Delivering(w) => OwnsTarget(w, e)
  }

  /** A hook past the lock of its job holds it, and one that is merging holds the ledger lock. */
  ghost predicate HoldsLocks(s: State, h: HookId)
    requires h in s.hooks
  {
    && (!s.hooks[h].phase.Waiting? ==> Get(s.jobLocks, s.hooks[h].job) == Some(h))
    && (s.hooks[h].phase.LedgerHeld? || s.hooks[h].phase.Merging? ==> s.ledgerLock == Some(h))
  }

  ghost predicate SoundHook(s: State, h: HookId)
    requires h in s.hooks
  {
    HoldsLocks(s, h) && SoundPhase(s.hooks[h].phase, Get(s.file, s.hooks[h].job), Rows(s, s.hooks[h].job), s.file)
  }

  ghost predicate RowsCovered(s: State) {
    forall job, t :: t in Rows(s, job) ==> Covered(Get(s.file, job), t)
  }

  ghost predicate Inv(s: State) {
    && RowsCovered(s)
    && (forall job :: job in s.file ==> WellFormed(s.file[job]))
    && (forall h :: h in s.hooks ==> SoundHook(s, h))
  }

  // ---- Every step keeps the invariant ----

  /**
   What a step of h leaves alone: the other hooks, the entries and rows of other jobs, the locks others hold; and
   the file as a whole unless h holds the ledger lock, and its job's part of the state unless h holds that lock.
   */
  ghost predicate Undisturbed(s: State, s': State, h: HookId, job: Job) {
    && (forall g :: g in s'.hooks && g != h ==> g in s.hooks && s'.hooks[g] == s.hooks[g])
    && (forall j :: j != job ==> Get(s'.file, j) == Get(s.file, j) && Rows(s', j) == Rows(s, j))
    && (forall j, g :: g != h && Get(s.jobLocks, j) == Some(g) ==> Get(s'.jobLocks, j) == Some(g))
    && (s.ledgerLock.Some? && s.ledgerLock != Some(h) ==> s'.ledgerLock == s.ledgerLock)
    && (s'.file != s.file ==> s.ledgerLock == Some(h))
    && (s'.file != s.file || Rows(s', job) != Rows(s, job) ==> Get(s.jobLocks, job) == Some(h))
  }

  /** The other hooks stay sound. */
  lemma OthersStaySound(s: State, s': State, h: HookId, job: Job, g: HookId)
    requires Inv(s) && Undisturbed(s, s', h, job) && g in s'.hooks && g != h
    ensures SoundHook(s', g)
  {
    assert SoundHook(s, g);
    if s.hooks[g].job == job && !s.hooks[g].phase.Waiting? {
      assert Get(s.jobLocks, job) == Some(g);
      assert s'.file == s.file && Rows(s', job) == Rows(s, job);
    }
  }

  /** Assembles the invariant of the new state from what concerns h and its job. */
  lemma InvFrom(s: State, s': State, h: HookId, job: Job)
    requires Inv(s) && Undisturbed(s, s', h, job)
    requires h in s'.hooks ==> SoundHook(s', h)
    requires forall t :: t in Rows(s', job) ==> Covered(Get(s'.file, job), t)
    requires WellFormedOption(Get(s'.file, job))
    ensures Inv(s')
  {
    forall j, t | t in Rows(s', j) ensures Covered(Get(s'.file, j), t) {
      if j != job {
        assert t in Rows(s, j) && Get(s'.file, j) == Get(s.file, j);
      }
    }
    forall j | j in s'.file ensures WellFormed(s'.file[j]) {
      if j != job {
        assert Get(s'.file, j) == Get(s.file, j);
        assert j in s.file;
      }
    }
    forall g | g in s'.hooks ensures SoundHook(s', g) {
      if g != h {
        OthersStaySound(s, s', h, job, g);
      }
    }
  }

  lemma WellFormedAt(s: State, job: Job)
    requires Inv(s)
    ensures WellFormedOption(Get(s.file, job))
  {
  }

  lemma GoneKeepsInv(s: State, h: HookId)
    requires Inv(s) && h in s.hooks
    ensures Inv(Gone(s, h))
  {
    WellFormedAt(s, s.hooks[h].job);
    InvFrom(s, Gone(s, h), h, s.hooks[h].job);
  }

  /** A step that only moves h to another phase, where it is sound again. */
  lemma PhaseStepKeepsInv(s: State, h: HookId, p: Phase)
    requires Inv(s) && h in s.hooks && !s.hooks[h].phase.Waiting? && !p.LedgerHeld? && !p.Merging?
    requires SoundPhase(p, Get(s.file, s.hooks[h].job), Rows(s, s.hooks[h].job), s.file)
    ensures Inv(WithPhase(s, h, p))
  {
    assert SoundHook(s, h);
    WellFormedAt(s, s.hooks[h].job);
    InvFrom(s, WithPhase(s, h, p), h, s.hooks[h].job);
  }

  /** What a decision leads to is sound: the plan forgets no row, and owns the row it will deliver to. */
  lemma DecideKeepsInv(s: State, h: HookId, att: Attribution, now: int)
    requires Inv(s) && h in s.hooks && s.hooks[h].phase.Deciding?
    ensures Inv(Apply(s, h, Decide(att, now, true)))
  {
    var hook := s.hooks[h];
    var e := Get(s.file, hook.job);
    var intent := Plan(e, att, hook.sessionID, hook.event, now);
    var w := Work(att, hook.event, e, intent.next);
    WellFormedAt(s, hook.job);
    PlanIsWellFormed(e, att, hook.sessionID, hook.event, now);
    forall t ensures t in Rows(s, hook.job) ==> KeepsRow(w, intent.next, t) {
      PlanKeepsRows(e, att, hook.sessionID, hook.event, now, t);
    }
    PlanKeepsRows(e, att, hook.sessionID, hook.event, now, att.at);
    var p := if intent.write then Storing(w, false) else AfterIntent(w);
    PhaseStepKeepsInv(s, h, p);
  }

  /** With the intent on disk, the hook goes on to send or to deliver. */
  lemma AfterIntentIsSound(w: Work, rows: set<Terminal>, file: map<Job, Entry>)
    requires w.known == w.next && WellFormedOption(w.next) && OwnsTarget(w, w.next)
    requires forall t :: t in rows ==> Covered(w.next, t)
    ensures SoundPhase(AfterIntent(w), w.next, rows, file)
  {
    if AfterIntent(w).Sending? {
      var pending := w.next.value.pending;
      assert pending[..0] == [] && pending[0..] == pending;
    }
  }

  lemma FailedWriteKeepsInv(s: State, h: HookId, w: Work, last: bool)
    requires Inv(s) && h in s.hooks
    requires var p := s.hooks[h].phase; p == Storing(w, last) || (p.Merging? && p.w == w && p.last == last)
    ensures Inv(AfterFailedWrite(if s.hooks[h].phase.Merging? then s.(ledgerLock := None) else s, h, w, last))
  {
    assert SoundHook(s, h);
    var s0 := if s.hooks[h].phase.Merging? then s.(ledgerLock := None) else s;
    if last {
      WellFormedAt(s, s.hooks[h].job);
      OwnStepKeepsInv(s, WithPhase(s0, h, Delivering(w)), h, Delivering(w));
    } else {
      assert Gone(s0, h) == Gone(s, h);
      GoneKeepsInv(s, h);
    }
  }

  /** The state in which the merged map has just replaced the file. */
  function Written(s: State, h: HookId, w: Work, snapshot: map<Job, Entry>, p: Phase): State
    requires h in s.hooks
  {
    WithPhase(s.(ledgerLock := None, file := Put(snapshot, s.hooks[h].job, w.next)), h, p)
  }

  lemma LastWriteKeepsInv(s: State, h: HookId, w: Work, snapshot: map<Job, Entry>)
    requires Inv(s) && h in s.hooks && s.hooks[h].phase == Merging(w, true, snapshot)
    ensures Inv(Written(s, h, w, snapshot, Delivering(w.(known := w.next))))
  {
    assert SoundHook(s, h);
    InvFrom(s, Written(s, h, w, snapshot, Delivering(w.(known := w.next))), h, s.hooks[h].job);
  }

  /** A step in which h, holding the locks it needs, moves to phase p and changes the entry or the rows of its job. */
  lemma OwnStepKeepsInv(s: State, s': State, h: HookId, p: Phase)
    requires Inv(s) && h in s.hooks && !s.hooks[h].phase.Waiting? && !p.LedgerHeld? && !p.Merging?
    requires s'.hooks == s.hooks[h := s.hooks[h].(phase := p)] && s'.jobLocks == s.jobLocks
    requires s'.ledgerLock == s.ledgerLock || s.ledgerLock == Some(h)
    requires s'.file == s.file || s.ledgerLock == Some(h)
    requires forall j :: j != s.hooks[h].job ==> Get(s'.file, j) == Get(s.file, j) && Rows(s', j) == Rows(s, j)
    requires forall t :: t in Rows(s', s.hooks[h].job) ==> Covered(Get(s'.file, s.hooks[h].job), t)
    requires WellFormedOption(Get(s'.file, s.hooks[h].job))
    requires SoundPhase(p, Get(s'.file, s.hooks[h].job), Rows(s', s.hooks[h].job), s'.file)
    ensures Inv(s')
  {
    assert SoundHook(s, h);
    InvFrom(s, s', h, s.hooks[h].job);
  }

  /** The state in which the intent has just been written. */
  function IntentWritten(s: State, h: HookId, w: Work, snapshot: map<Job, Entry>): State
    requires h in s.hooks
  {
    var stored := Written(s, h, w, snapshot, AfterIntent(w.(known := w.next)));
    if IsEnd(w.event) && w.att.Delivers() then WithoutRow(stored, s.hooks[h].job, w.att.at) else stored
  }

  lemma IntentCommit(s: State, h: HookId, w: Work, snapshot: map<Job, Entry>)
    requires h in s.hooks && s.hooks[h].phase == Merging(w, false, snapshot)
    ensures Apply(s, h, Commit(true)) == IntentWritten(s, h, w, snapshot)
  {
  }

  lemma IntentWriteKeepsInv(s: State, h: HookId, w: Work, snapshot: map<Job, Entry>)
    requires Inv(s) && h in s.hooks && s.hooks[h].phase == Merging(w, false, snapshot)
    ensures Inv(IntentWritten(s, h, w, snapshot))
  {
    assert SoundHook(s, h);
    var w' := w.(known := w.next);
    var s' := IntentWritten(s, h, w, snapshot);
    AfterIntentIsSound(w', Rows(s', s.hooks[h].job), s'.file);
    OwnStepKeepsInv(s, s', h, AfterIntent(w'));
  }

  lemma CommitKeepsInv(s: State, h: HookId, ok: bool)
    requires Inv(s) && h in s.hooks && s.hooks[h].phase.Merging?
    ensures Inv(Apply(s, h, Commit(ok)))
  {
    var Merging(w, last, snapshot) := s.hooks[h].phase;
    if !ok {
      FailedWriteKeepsInv(s, h, w, last);
    } else if last {
      LastWriteKeepsInv(s, h, w, snapshot);
    } else {
      IntentCommit(s, h, w, snapshot);
      IntentWriteKeepsInv(s, h, w, snapshot);
    }
  }

  /** One more send leaves every row remembered, except the one that was released. */
  lemma SendRemembers(e: Entry, done: nat, remaining: seq<RowRelease>, left: Option<RowRelease>, t: Terminal)
    requires done < |e.pending| && Remembered(e, done, remaining, t)
    requires left.Some? ==> left.value.at == e.pending[done].at
    requires left == None ==> t != e.pending[done].at
    ensures Remembered(e, done + 1, if left.Some? then remaining + [left.value] else remaining, t)
  {
    assert e.pending[done..] == [e.pending[done]] + e.pending[done + 1..];
    var remaining' := if left.Some? then remaining + [left.value] else remaining;
    assert forall x :: x in remaining ==> x in remaining';
    assert left.Some? ==> left.value in remaining';
  }

  /** What a send can leave of a release: nothing, or the same row with an admissible count of attempts. */
  ghost predicate LeftOf(r: RowRelease, left: Option<RowRelease>) {
    left.Some? ==> SameRow(r, left.value) && left.value.attempts <= MAX_ATTEMPTS
  }

  lemma AfterSendLeaves(att: Attribution, r: RowRelease, o: SendOutcome)
    requires r.attempts <= MAX_ATTEMPTS
    ensures LeftOf(r, AfterSend(att, r, o))
  {
  }

  lemma SendThins(e: Entry, done: nat, remaining: seq<RowRelease>, left: Option<RowRelease>)
    requires WellFormed(e) && done < |e.pending| && Thinned(e.pending[..done], remaining)
    requires LeftOf(e.pending[done], left)
    ensures Thinned(e.pending[..done + 1], AppendLeft(remaining, left))
  {
    var tried := e.pending[..done + 1];
    forall x | ContainsRelease(e.pending[..done], x) ensures ContainsRelease(tried, x) && !SameRow(x, e.pending[done]) {
      var k :| 0 <= k < done && SameRow(e.pending[..done][k], x);
      assert SameRow(tried[k], x) && !SameRow(e.pending[k], e.pending[done]);
    }
    assert left.Some? ==> SameRow(tried[done], left.value);
  }

  lemma SendStaysSound(
    w: Work, done: nat, remaining: seq<RowRelease>, e: Option<Entry>, rows: set<Terminal>, left: Option<RowRelease>
  )
    requires SoundSends(w, done, remaining, e, rows) && done < |e.value.pending| && LeftOf(e.value.pending[done], left)
    ensures SoundSends(
      w, done + 1, AppendLeft(remaining, left), e, if left == None then rows - {e.value.pending[done].at} else rows)
  {
    SendThins(e.value, done, remaining, left);
    forall t | t in rows && (left == None ==> t != e.value.pending[done].at)
      ensures Remembered(e.value, done + 1, AppendLeft(remaining, left), t)
    {
      SendRemembers(e.value, done, remaining, left, t);
    }
  }

  lemma SentKeepsInv(
    s: State, h: HookId, w: Work, done: nat, remaining: seq<RowRelease>, r: RowRelease, left: Option<RowRelease>
  )
    requires Inv(s) && h in s.hooks && s.hooks[h].phase == Sending(w, done, remaining)
    requires w.next.Some? && done < |w.next.value.pending| && r == w.next.value.pending[done] && LeftOf(r, left)
    ensures Inv(Sent(s, h, w, done, remaining, r, left))
  {
    assert SoundHook(s, h);
    WellFormedAt(s, s.hooks[h].job);
    SendStaysSound(w, done, remaining, Get(s.file, s.hooks[h].job), Rows(s, s.hooks[h].job), left);
    OwnStepKeepsInv(s, Sent(s, h, w, done, remaining, r, left), h, Sending(w, done + 1, AppendLeft(remaining, left)));
  }

  lemma SendKeepsInv(s: State, h: HookId, o: SendOutcome)
    requires Inv(s) && h in s.hooks && s.hooks[h].phase.Sending?
    ensures Inv(Apply(s, h, Send(o)))
  {
    var Sending(w, done, remaining) := s.hooks[h].phase;
    assert SoundHook(s, h);
    if done < |w.next.value.pending| {
      var r := w.next.value.pending[done];
      assert r in w.next.value.pending;
      AfterSendLeaves(w.att, r, o);
      SentKeepsInv(s, h, w, done, remaining, r, AfterSend(w.att, r, o));
    }
  }

  lemma EndSendsKeepsInv(s: State, h: HookId)
    requires Inv(s) && h in s.hooks && s.hooks[h].phase.Sending?
    ensures Inv(Apply(s, h, EndSends))
  {
    var hook := s.hooks[h];
    var Sending(w, done, remaining) := hook.phase;
    assert SoundHook(s, h);
    var e := w.next.value;
    if done == |e.pending| {
      assert e.pending[..done] == e.pending && e.pending[done..] == [];
      FinishIsWellFormed(e, remaining);
      PhaseStepKeepsInv(s, h, Storing(w.(next := Finish(e, remaining)), true));
    }
  }

  lemma DeliverKeepsInv(s: State, h: HookId)
    requires Inv(s) && h in s.hooks && s.hooks[h].phase.Delivering?
    ensures Inv(Apply(s, h, Deliver))
  {
    var hook := s.hooks[h];
    assert SoundHook(s, h);
    WellFormedAt(s, hook.job);
    InvFrom(s, Apply(s, h, Deliver), h, hook.job);
  }

  lemma LockJobKeepsInv(s: State, h: HookId)
    requires Inv(s) && h in s.hooks && s.hooks[h].phase.Waiting?
    ensures Inv(Apply(s, h, LockJob))
  {
    WellFormedAt(s, s.hooks[h].job);
    InvFrom(s, Apply(s, h, LockJob), h, s.hooks[h].job);
  }

  lemma LockLedgerKeepsInv(s: State, h: HookId)
    requires Inv(s) && h in s.hooks && s.hooks[h].phase.Storing?
    ensures Inv(Apply(s, h, LockLedger))
  {
    assert SoundHook(s, h);
    WellFormedAt(s, s.hooks[h].job);
    InvFrom(s, Apply(s, h, LockLedger), h, s.hooks[h].job);
  }

  lemma LoadKeepsInv(s: State, h: HookId)
    requires Inv(s) && h in s.hooks && s.hooks[h].phase.LedgerHeld?
    ensures Inv(Apply(s, h, Load(true)))
  {
    assert SoundHook(s, h);
    WellFormedAt(s, s.hooks[h].job);
    InvFrom(s, Apply(s, h, Load(true)), h, s.hooks[h].job);
  }

  lemma SpawnKeepsInv(s: State, h: HookId, l: Label)
    requires Inv(s) && l.Spawn?
    ensures Inv(Apply(s, h, l))
  {
    WellFormedAt(s, l.job);
    InvFrom(s, Apply(s, h, l), h, l.job);
  }

  lemma UnavailableKeepsInv(s: State, h: HookId)
    requires Inv(s) && h in s.hooks
    ensures Inv(Apply(s, h, LockUnavailable))
  {
    match s.hooks[h].phase {
      case Waiting => GoneKeepsInv(s, h);
      case Storing(w, last) => FailedWriteKeepsInv(s, h, w, last);
      case _ =>
    }
  }

  /** The step reads the file as it is, if it reads it. */
  predicate Reads(l: Label) {
    l.Decide? || l.Load? ==> l.readable
  }

  predicate ReadableRun(steps: seq<(HookId, Label)>) {
    forall k :: 0 <= k < |steps| ==> Reads(steps[k].1)
  }

  lemma StepKeepsInv(s: State, h: HookId, l: Label)
    requires Inv(s) && Reads(l)
    ensures Inv(Apply(s, h, l))
  {
    if l.Spawn? {
      SpawnKeepsInv(s, h, l);
    } else if h in s.hooks {
      var p := s.hooks[h].phase;
      match l {
        case Die => GoneKeepsInv(s, h);
        case LockUnavailable => UnavailableKeepsInv(s, h);
        case LockJob => if p.Waiting? { LockJobKeepsInv(s, h); }
        case Decide(att, now, _) => if p.Deciding? { DecideKeepsInv(s, h, att, now); }
        case LockLedger => if p.Storing? { LockLedgerKeepsInv(s, h); }
        case Load(_) => if p.LedgerHeld? { LoadKeepsInv(s, h); }
        case Commit(ok) => if p.Merging? { CommitKeepsInv(s, h, ok); }
        case Send(o) => if p.Sending? { SendKeepsInv(s, h, o); }
        case EndSends => if p.Sending? { EndSendsKeepsInv(s, h); }
        case Deliver => if p.Delivering? { DeliverKeepsInv(s, h); }
      }
    }
  }

  // ---- The sends of one hook, one after the other ----

  /** The state after these sends of hook h. */
  function SendAll(s: State, h: HookId, outcomes: seq<SendOutcome>): State {
    if outcomes == [] then s
    else Apply(SendAll(s, h, outcomes[..|outcomes| - 1]), h, Send(outcomes[|outcomes| - 1]))
  }

  /** Sending one by one leaves what the loop over the pending releases computes. */
  lemma {:induction false} SendsLeaveRemaining(s: State, h: HookId, w: Work, outcomes: seq<SendOutcome>)
    requires h in s.hooks && s.hooks[h].phase == Sending(w, 0, [])
    requires w.next.Some? && |outcomes| <= |w.next.value.pending|
    ensures var n := |outcomes|;
      && h in SendAll(s, h, outcomes).hooks
      && SendAll(s, h, outcomes).hooks[h] ==
         s.hooks[h].(phase := Sending(w, n, Remaining(w.att, w.next.value.pending[..n], outcomes)))
  {
    if outcomes != [] {
      var n := |outcomes| - 1;
      var pending := w.next.value.pending;
      SendsLeaveRemaining(s, h, w, outcomes[..n]);
      OneSend(SendAll(s, h, outcomes[..n]), h, w, n, Remaining(w.att, pending[..n], outcomes[..n]), outcomes[n]);
      assert pending[..n + 1][..n] == pending[..n];
    }
  }

  lemma OneSend(s: State, h: HookId, w: Work, n: nat, remaining: seq<RowRelease>, o: SendOutcome)
    requires h in s.hooks && s.hooks[h].phase == Sending(w, n, remaining)
    requires w.next.Some? && n < |w.next.value.pending|
    ensures h in Apply(s, h, Send(o)).hooks
    ensures Apply(s, h, Send(o)).hooks[h] ==
      s.hooks[h].(phase := Sending(w, n + 1, AppendLeft(remaining, AfterSend(w.att, w.next.value.pending[n], o))))
  {
  }

  /** So after all sends the hook goes on to store the entry with exactly those releases pending. */
  lemma SendsThenStore(s: State, h: HookId, w: Work, outcomes: seq<SendOutcome>)
    requires h in s.hooks && s.hooks[h].phase == Sending(w, 0, [])
    requires w.next.Some? && |outcomes| == |w.next.value.pending|
    ensures var s' := Apply(SendAll(s, h, outcomes), h, EndSends);
      h in s'.hooks && s'.hooks[h].phase ==
        Storing(w.(next := Finish(w.next.value, Remaining(w.att, w.next.value.pending, outcomes))), true)
  {
    SendsLeaveRemaining(s, h, w, outcomes);
    assert w.next.value.pending[..|outcomes|] == w.next.value.pending;
  }

  // ---- The promises ----

  lemma {:induction false} RunKeepsInv(steps: seq<(HookId, Label)>)
    requires ReadableRun(steps)
    ensures Inv(Run(steps))
  {
    if steps != [] {
      RunKeepsInv(steps[..|steps| - 1]);
      StepKeepsInv(Run(steps[..|steps| - 1]), steps[|steps| - 1].0, steps[|steps| - 1].1);
    }
  }

  /**
   In every run in which the file can be read, at every instant, every row to which a hook of a job delivered an event
   is the owner's row or a pending release in the job's stored entry, until its release was sent or its SessionEnd
   processed.
   */
  lemma NoRowIsForgotten(steps: seq<(HookId, Label)>, job: Job, t: Terminal)
    requires ReadableRun(steps) && t in Rows(Run(steps), job)
    ensures Covered(Get(Run(steps).file, job), t)
  {
    RunKeepsInv(steps);
  }

  // ---- Every stored entry is well-formed, whether or not the file could always be read ----

  ghost predicate WellFormedPhase(p: Phase) {
    match p
    case Storing(w, _) => WellFormedOption(w.next)
    case LedgerHeld(w, _) => WellFormedOption(w.next)
    case Merging(w, _, snapshot) => WellFormedOption(w.next) && WellFormedFile(snapshot)
    case Sending(w, done, remaining) =>
      && w.next.Some? && done <= |w.next.value.pending| && WellFormed(w.next.value)
      && Thinned(w.next.value.pending[..done], remaining)
    case _ => true
  }

  ghost predicate WellFormedFile(file: map<Job, Entry>) {
    forall job :: job in file ==> WellFormed(file[job])
  }

  ghost predicate AllWellFormed(s: State) {
    WellFormedFile(s.file) && forall h :: h in s.hooks ==> WellFormedPhase(s.hooks[h].phase)
  }

  /** What is left after all sends makes a well-formed entry. */
  lemma FinishIsWellFormed(e: Entry, remaining: seq<RowRelease>)
    requires WellFormed(e) && Thinned(e.pending, remaining)
    ensures WellFormedOption(Finish(e, remaining))
  {
    forall r | r in remaining ensures !OwnRow(e, r) {
      var j :| 0 <= j < |remaining| && remaining[j] == r;
      var k :| 0 <= k < |e.pending| && SameRow(e.pending[k], remaining[j]);
      assert e.pending[k] in e.pending;
    }
  }

  lemma AfterIntentIsWellFormed(w: Work)
    requires WellFormedOption(w.next)
    ensures WellFormedPhase(AfterIntent(w))
  {
    if AfterIntent(w).Sending? {
      assert w.next.value.pending[..0] == [];
    }
  }

  lemma DecideIsWellFormed(s: State, h: HookId, att: Attribution, now: int, readable: bool)
    requires AllWellFormed(s) && h in s.hooks && s.hooks[h].phase.Deciding?
    ensures var s' := Apply(s, h, Decide(att, now, readable));
      h in s'.hooks && WellFormedPhase(s'.hooks[h].phase)
  {
    var hook := s.hooks[h];
    var known := Get(Seen(s.file, readable), hook.job);
    var intent := Plan(known, att, hook.sessionID, hook.event, now);
    PlanIsWellFormed(known, att, hook.sessionID, hook.event, now);
    AfterIntentIsWellFormed(Work(att, hook.event, known, intent.next));
  }

  lemma CommitIsWellFormed(s: State, h: HookId, ok: bool)
    requires AllWellFormed(s) && h in s.hooks && s.hooks[h].phase.Merging?
    ensures var s' := Apply(s, h, Commit(ok));
      h in s'.hooks ==> WellFormedPhase(s'.hooks[h].phase)
  {
    var w := s.hooks[h].phase.w;
    AfterIntentIsWellFormed(w.(known := w.next));
  }

  lemma SendIsWellFormed(s: State, h: HookId, o: SendOutcome)
    requires AllWellFormed(s) && h in s.hooks && s.hooks[h].phase.Sending?
    ensures var s' := Apply(s, h, Send(o));
      h in s'.hooks && WellFormedPhase(s'.hooks[h].phase)
  {
    var Sending(w, done, remaining) := s.hooks[h].phase;
    if done < |w.next.value.pending| {
      var r := w.next.value.pending[done];
      assert r in w.next.value.pending;
      AfterSendLeaves(w.att, r, o);
      SendThins(w.next.value, done, remaining, AfterSend(w.att, r, o));
    }
  }

  lemma EndSendsIsWellFormed(s: State, h: HookId)
    requires AllWellFormed(s) && h in s.hooks && s.hooks[h].phase.Sending?
    ensures var s' := Apply(s, h, EndSends);
      h in s'.hooks && WellFormedPhase(s'.hooks[h].phase)
  {
    var Sending(w, done, remaining) := s.hooks[h].phase;
    if done == |w.next.value.pending| {
      assert w.next.value.pending[..done] == w.next.value.pending;
      FinishIsWellFormed(w.next.value, remaining);
    }
  }

  /** The other steps. */
  lemma QuietStepIsWellFormed(s: State, h: HookId, l: Label)
    requires AllWellFormed(s) && h in s.hooks && h in Apply(s, h, l).hooks
    requires !l.Decide? && !l.Commit? && !l.Send? && !l.EndSends?
    ensures WellFormedPhase(Apply(s, h, l).hooks[h].phase)
  {
  }

  lemma StepIsWellFormed(s: State, h: HookId, l: Label)
    requires AllWellFormed(s) && h in s.hooks && h in Apply(s, h, l).hooks
    ensures WellFormedPhase(Apply(s, h, l).hooks[h].phase)
  {
    var p := s.hooks[h].phase;
    match l {
      case Decide(att, now, readable) => if p.Deciding? { DecideIsWellFormed(s, h, att, now, readable); }
      case Commit(ok) => if p.Merging? { CommitIsWellFormed(s, h, ok); }
      case Send(o) => if p.Sending? { SendIsWellFormed(s, h, o); }
      case EndSends => if p.Sending? { EndSendsIsWellFormed(s, h); }
      case _ => QuietStepIsWellFormed(s, h, l);
    }
  }

  lemma StepKeepsWellFormed(s: State, h: HookId, l: Label)
    requires AllWellFormed(s)
    ensures AllWellFormed(Apply(s, h, l))
  {
    var s' := Apply(s, h, l);
    if h in s.hooks && h in s'.hooks {
      StepIsWellFormed(s, h, l);
    }
    FileStaysWellFormed(s, h, l);
    OnlyOwnHookMoves(s, h, l);
  }

  lemma FileStaysWellFormed(s: State, h: HookId, l: Label)
    requires AllWellFormed(s)
    ensures WellFormedFile(Apply(s, h, l).file)
  {
    if h in s.hooks && s.hooks[h].phase.Merging? && l == Commit(true) {
      assert WellFormedPhase(s.hooks[h].phase);
      CommitWrites(s, h);
    } else {
      OnlyCommitWrites(s, h, l);
    }
  }

  lemma OnlyOwnHookMoves(s: State, h: HookId, l: Label)
    ensures forall g :: g in Apply(s, h, l).hooks && g != h ==> g in s.hooks && Apply(s, h, l).hooks[g] == s.hooks[g]
    ensures h in Apply(s, h, l).hooks && h !in s.hooks ==> Apply(s, h, l).hooks[h].phase == Waiting
  {
  }

  lemma {:induction false} RunKeepsWellFormed(steps: seq<(HookId, Label)>)
    ensures AllWellFormed(Run(steps))
  {
    if steps != [] {
      RunKeepsWellFormed(steps[..|steps| - 1]);
      StepKeepsWellFormed(Run(steps[..|steps| - 1]), steps[|steps| - 1].0, steps[|steps| - 1].1);
    }
  }

  /** In every run, also one in which loads failed, every stored entry is well-formed. */
  lemma EveryStoredEntryIsWellFormed(steps: seq<(HookId, Label)>, job: Job)
    requires job in Run(steps).file
    ensures WellFormed(Run(steps).file[job])
  {
    RunKeepsWellFormed(steps);
  }

  lemma CommitWrites(s: State, h: HookId)
    requires h in s.hooks && s.hooks[h].phase.Merging?
    ensures Apply(s, h, Commit(true)).file == Put(s.hooks[h].phase.snapshot, s.hooks[h].job, s.hooks[h].phase.w.next)
  {
  }

  lemma OnlyCommitWrites(s: State, h: HookId, l: Label)
    requires !(h in s.hooks && s.hooks[h].phase.Merging? && l == Commit(true))
    ensures Apply(s, h, l).file == s.file
  {
  }

  /** No step of a hook changes the entry of another job, under any interleaving with other hooks. */
  lemma OtherJobsKeepTheirEntries(steps: seq<(HookId, Label)>, h: HookId, l: Label, job: Job)
    requires ReadableRun(steps) && h in Run(steps).hooks && Run(steps).hooks[h].job != job && !l.Spawn?
    ensures Get(Apply(Run(steps), h, l).file, job) == Get(Run(steps).file, job)
  {
    if Run(steps).hooks[h].phase.Merging? && l == Commit(true) {
      DecisionsAreCurrent(steps, h);
    } else {
      OnlyCommitWrites(Run(steps), h, l);
    }
  }

  /** When a hook writes, the entry in the file is still the one it decided on, and then the one it wrote. */
  lemma DecisionsAreCurrent(steps: seq<(HookId, Label)>, h: HookId)
    requires ReadableRun(steps) && h in Run(steps).hooks && Run(steps).hooks[h].phase.Merging?
    ensures var s, hook := Run(steps), Run(steps).hooks[h];
      && Get(s.file, hook.job) == hook.phase.w.known
      && hook.phase.snapshot == s.file
      && Apply(s, h, Commit(true)).file == Put(s.file, hook.job, hook.phase.w.next)
  {
    RunKeepsInv(steps);
    assert SoundHook(Run(steps), h);
  }

  /**
   What an unreadable file does: the write that follows the load keeps the entries of the other jobs exactly when the
   file was read, or no other job had an entry.
   */
  lemma OthersSurviveExactlyIfRead(s: State, h: HookId, readable: bool)
    requires h in s.hooks && s.hooks[h].phase.LedgerHeld?
    ensures var after, job := Apply(Apply(s, h, Load(readable)), h, Commit(true)), s.hooks[h].job;
      (forall j: Job :: j != job ==> Get(after.file, j) == Get(s.file, j)) <==>
        readable || (forall j :: j in s.file ==> j == job)
  {
    var loaded := Apply(s, h, Load(readable));
    var job, w := s.hooks[h].job, s.hooks[h].phase.w;
    assert loaded.hooks[h] == s.hooks[h].(phase := Merging(w, s.hooks[h].phase.last, Seen(s.file, readable)));
    CommitWrites(loaded, h);
    if j :| !readable && j in s.file && j != job {
      assert Get(Put(map[], job, w.next), j) != Get(s.file, j);
    }
  }

  /** The entry of its job that is on disk once a hook that has decided has written its intent, if it has to. */
  function Intended(s: State, h: HookId): Option<Entry>
    requires h in s.hooks
  {
    if s.hooks[h].phase.Storing? then s.hooks[h].phase.w.next else Get(s.file, s.hooks[h].job)
  }

  /**
   What an unreadable file does to the rows of the hook's own job: the intent still covers them all exactly when the
   file was read, or the hook has nothing to write, or the only row is the one it will deliver to.
   */
  lemma OwnRowsSurviveExactlyIfRead(s: State, h: HookId, att: Attribution, now: int, readable: bool)
    requires Inv(s) && h in s.hooks && s.hooks[h].phase.Deciding?
    ensures var job, event, s' := s.hooks[h].job, s.hooks[h].event, Apply(s, h, Decide(att, now, readable));
      var w := Work(att, event, Get(Seen(s.file, readable), job), None);
      && h in s'.hooks
      && ((forall t :: t in Rows(s, job) ==> KeepsRow(w, Intended(s', h), t)) <==>
          readable || !att.Delivers() || IsEnd(event) || forall t :: t in Rows(s, job) ==> t == att.at)
  {
    var hook := s.hooks[h];
    var known := Get(Seen(s.file, readable), hook.job);
    var intent := Plan(known, att, hook.sessionID, hook.event, now);
    var w := Work(att, hook.event, known, intent.next);
    var s' := Apply(s, h, Decide(att, now, readable));
    assert s'.hooks[h].phase == if intent.write then Storing(w, false) else AfterIntent(w);
    if readable {
      WellFormedAt(s, hook.job);
      forall t | t in Rows(s, hook.job) ensures KeepsRow(w, Intended(s', h), t) {
        PlanKeepsRows(known, att, hook.sessionID, hook.event, now, t);
      }
    } else if att.Delivers() && !IsEnd(hook.event) {
      assert intent == Intent(Some(Entry(att.at, hook.sessionID, now, false, [])), true);
    } else {
      assert !intent.write;
    }
  }

  /** Two hooks of one job are never both past its lock. */
  lemma OneHookPerJob(steps: seq<(HookId, Label)>, g: HookId, h: HookId)
    requires ReadableRun(steps)
    requires g in Run(steps).hooks && h in Run(steps).hooks && Run(steps).hooks[g].job == Run(steps).hooks[h].job
    requires !Run(steps).hooks[g].phase.Waiting? && !Run(steps).hooks[h].phase.Waiting?
    ensures g == h
  {
    RunKeepsInv(steps);
    assert SoundHook(Run(steps), g) && SoundHook(Run(steps), h);
  }
}
