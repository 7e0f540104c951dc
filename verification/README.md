# cc-deck: verified models

cc-deck runs coding agents in Zellij sessions. This Dafny project models the parts of it whose mistakes are hard to see
in a test, and proves what they promise, for all inputs and over all runs:

- **Sharing** (`SharingModel.dfy`, `SharingAccounts.dfy`, `SharingCleanup.dfy`, `SharingService.dfy`). A share acquires a
  web server and credentials step by step, checkpoints each step to a state file, undoes a failed start in reverse order,
  and lets later commands finish what an earlier one left. `SharingService` is one machine: its state file, what is alive
  in Zellij, and the commands. Every call that changes something may succeed, fail with or without having taken effect,
  or be where the command is killed. A log records each call to Zellij and each write of the state file, with what the
  written record lists. The accounting (`Accounted`) says of each live resource that the state file lists it, that the
  running command has it in hand, or that it is charged to its own entry of the log, which comes after the resource was
  last acquired: a kill before any record listed it, a failed cleanup of it, or a lost reply. `SharingCleanup` says what
  a teardown and a rollback have done at each point, in terms of that log.
- **Background job rows** (`BgLedger.dfy`, `BgLedgerRuns.dfy`). Each hook of a job decides where its sidebar row belongs,
  writes its intent to a ledger shared by all jobs, releases rows left behind, and delivers its event. `BgLedger` has what
  one hook computes, `BgLedgerRuns` any number of hooks interleaved, with two levels of locks, kills and failing writes.
- **Pane map** (`PaneMap.dfy`). The session-to-pane cache that all hooks change under a lock.
- **Codex attribution** (`CodexAttribution.dfy`, `CodexRuns.dfy`). Which terminal client an event of the shared daemon
  belongs to, and how the bindings of sessions to clients fare while hooks overlap, processes start and exit, and process
  ids are reused.
- **Permission prompts** (`SessionPrompts.dfy`) and **fading** (`Fade.dfy`). The per-agent prompt counts of a sidebar
  session, and the 64-bit integer arithmetic of its indicator color.
- **Domain groups and the proxy whitelist** (`DomainGroups.dfy`, `EreSyntax.dfy`, `Whitelist.dfy`, `WhitelistBars.dfy`).
  Expansion of groups that include each other, reduction by wildcards, and the regular expressions the proxy searches for.
- **Process arguments** (`ProcArgs.dfy`), **profile directory** (`ConfigDir.dfy`), **shell quoting** (`ShQuote.dfy`).

Code that changes state is modelled by methods with loops and mutable fields, each proved against a specification
function or predicate, and the lemmas are about those. What a call outside the model answers (a probe, a process listing,
a clock, a lock, a file system call) is an argument or an arbitrary choice.

## Where the code does less than its documentation

Each of these is modelled as the code behaves, and the proofs say exactly how far the promise goes.

- A start that gets an error from the call that starts the web server undoes nothing for it, although the call may report
  that it had started one (service.go:165-168). The same holds for a credential created by a call that returns an error.
  Such resources are charged to a lost reply; without lost replies only kills and failed cleanups lose track of anything
  (`WithoutLostRepliesOnlyCrashesAndFailedCleanupsForget`).
- Saving the state file ends with a change of its mode after the rename (state.go:74-77), so a failed save may have
  replaced the file. `SharingService.Save` allows both.
- A hook of a Codex event loads the pane map without the lock and writes its session's binding back later (hook.go:517-543).
  So an ordinary event that was loaded before a session is started in another client, or ends, and written after, binds
  the session to its old client again (`LateWriteRestoresTheOldClient`, reached in `AnOrdinaryEventUndoesARebinding`). And
  when the map cannot be read, an event of a bound session goes to whatever discovery finds, and is bound to that
  (`UnreadableMeansDiscovery`, `OnlyReadableLoadsAreAlwaysRight`). `BindingsAreRightExactlyIfClean` is the exact condition.
- A ledger or a pane map that exists but cannot be read or decoded is taken for an empty one, and the next write then
  drops everybody else's entries (`OthersSurviveExactlyIfRead`, in both modules), and a hook's own pending rows
  (`OwnRowsSurviveExactlyIfRead`). The promises of `BgLedgerRuns` and `PaneMap` are about runs in which the files can be
  read, except that stored entries are well-formed in every run.
- A `SessionEnd` for a pane that is still there makes the session idle without looking at its prompts
  (controller/hooks.rs:45). Such a transition keeps the session waiting while somebody is blocked exactly when nobody is
  (`PlainTransitionsKeepItExactlyWithoutPrompts`), and the next mapped event repairs it (`NextEventRepairs`).
- Groups are marked as visited and never unmarked, so a group that two others include is reported as a cycle
  (`SharedIncludeIsAnError`). Expansion succeeds exactly on trees (`SucceedsExactlyOnTrees`).
- Only dots are escaped in whitelist lines. A bar in an entry splits its line into branches, and an entry that a wildcard
  seems to cover can then admit more than the wildcard. For lists of entries whose only special characters are dots and
  bars, with wildcards without bars, the exact condition is proved (`PreservesExactlyIfBranchesAreAbsorbed`). Other
  special characters, such as a backslash before a dot, can make a dropped entry admit more in the same way; for them
  only the sufficient condition of `ReductionPreservesAdmittedHosts` is proved.
- A link of an isolated entry that cannot be read is passed over without an error and stays (`EntriesAfterRun`), so a
  second run may still remove it (`SecondRunChangesNothing` says exactly when it does not).

## Model

| member | source | states |
|---|---|---|
| SharingAccounts.EventKeepsAccounts | cc-deck/internal/share/service.go:106-241 | An event that neither acquires a charged resource nor records the one in hand disturbs no charge |
| SharingAccounts.ChargeKeepsAccounts | cc-deck/internal/share/service.go:344-358 | A failed revocation, a lost reply, or a kill with the resource in hand can carry the charge of that resource, and disturbs no other charge |
| SharingAccounts.ForgottenResourcesAreBounded | cc-deck/internal/share/service.go:106-241 | Between commands, live resources that the record does not list as outstanding are as many as the log entries they are charged to, each a kill, a failed cleanup or a lost reply |
| SharingAccounts.WithoutLostRepliesOnlyCrashesAndFailedCleanupsForget | cc-deck/internal/share/service.go:106-241 | A forgotten resource whose creation was never answered by an error is charged to an entry after its last acquisition: the failed cleanup of that very resource, or a kill; no record written since the failure, or since the acquisition, lists it |
| SharingAccounts.NeverAcquiredMeansLostReply | cc-deck/internal/share/service.go:165-187 | A forgotten resource that was never acquired is charged to the lost reply that created it |
| SharingAccounts.ALostReplyForgets | cc-deck/internal/share/service.go:165-168 | A log in which that happens, without any kill or failed cleanup |
| SharingModel.MarkRevoked | cc-deck/internal/share/service.go:120-126 | Takes exactly one credential off the active ones |
| SharingModel.SameOperationShrinks | cc-deck/internal/share/service.go:581-615 | Progress of a cleanup never makes anything outstanding that was not, and never changes what the record names |
| SharingModel.AppendInvitation | cc-deck/internal/share/service.go:195-198 | A new record adds exactly its own credential to what is outstanding |
| SharingCleanup.PlanIsExact | cc-deck/internal/share/service.go:585-629 | A teardown plans exactly the outstanding steps, none twice |
| SharingCleanup.CompletedIsDone | cc-deck/internal/share/service.go:596-613 | Noting a success takes exactly that step off, and at most its resource off what is listed |
| SharingCleanup.WrittenDownWasReleased | cc-deck/internal/share/service.go:604-611 | Only a step whose call succeeded is ever written down as done |
| SharingCleanup.NothingLeft | cc-deck/internal/share/service.go:630-636 | When every planned step had its call and none is outstanding any more, nothing is, and every release was confirmed |
| SharingCleanup.LaterAttemptKeepsProgress | cc-deck/internal/share/service.go:498-515 | What any earlier attempt called and wrote down stays off the record through a later one |
| SharingCleanup.OneMoreAttempt | cc-deck/internal/share/service.go:498-515 | Each attempt found what the earlier ones left, and no step that one of them wrote down is in the plan of a later one |
| SharingCleanup.UndoneInLog | cc-deck/internal/share/service.go:127-136 | In the log of a start that was undone, the acquisitions are the undo list and the cleanup calls are those of the rollback |
| SharingCleanup.TraceOfStart | cc-deck/internal/share/service.go:159-241 | The checkpoints of a start add up to the trace: a write after each acquisition, listing all that was acquired so far |
| SharingService.SharingOperation.Transition | cc-deck/internal/share/model.go:116-133 | Sets state and time exactly along the allowed path, and otherwise nothing |
| SharingService.SharingOperation.RevokeInvitations | cc-deck/internal/share/service.go:120-126 | Marks revoked every invitation of the credential and changes nothing else |
| SharingService.SharingService.Save | cc-deck/internal/share/service.go:152-157 | The file holds the record and nothing listed in it is in hand any more, or an error leaves open whether it does, or a kill changes nothing; the accounts hold in each case |
| SharingService.SharingService.UndoAll | cc-deck/internal/share/service.go:127-136 | Runs the undo list last step first, one cleanup call for each entry, each entry then outstanding exactly if its call failed |
| SharingService.SharingService.Rollback | cc-deck/internal/share/service.go:128-148 | Every acquisition of the start has one cleanup call, the last first; if the last write succeeds, either all were undone and no record is left, or a degraded record of the same operation lists as outstanding exactly those whose undo failed |
| SharingService.SharingService.Checkpoint | cc-deck/internal/share/service.go:149-157 | After a success the record on disk is the operation and nothing is in hand; after a failure the start is undone |
| SharingService.SharingService.MintInvitation | cc-deck/internal/share/service.go:184-201 | Adds one active invitation with a new credential to record, undo list and disk; otherwise the start is undone |
| SharingService.SharingService.AcquireWebServer | cc-deck/internal/share/service.go:165-183 | The record says the server is owned exactly when the call said that it started one, and is written right after; otherwise the start is undone, but a server whose start was answered by an error stays alive and unlisted |
| SharingService.SharingService.MintBoth | cc-deck/internal/share/service.go:184-219 | Exactly two credentials are created, interactive first, each written down before the next, and the record lists the ones handed out |
| SharingService.SharingService.Activate | cc-deck/internal/share/service.go:221-240 | Becomes active only after the endpoint was verified or verification was waived, with everything outstanding alive; otherwise the start is undone |
| SharingService.SharingService.StartFresh | cc-deck/internal/share/service.go:73-241 | A start that goes through has made exactly its calls, with a checkpoint after each; a start that gives up has undone what it acquired, and exactly what it could not undo stays recorded |
| SharingService.SharingService.Start | cc-deck/internal/share/service.go:48-246 | Never touches an active share; hands out invitations only for a live session behind the gate and together with a record listing exactly their live credentials as active; a failed start undoes; residue is released before a start begins, one call for each, and a failed cleanup of residue leaves exactly its failed calls |
| SharingService.SharingService.RecordProbe | cc-deck/internal/share/service.go:468-478 | Changes at most the recorded probe and its time, in memory and on disk |
| SharingService.SharingService.Invite | cc-deck/internal/share/service.go:290-362 | Success adds exactly one invitation with a new live credential under an unused label and changes nothing else but the probe; without a live session and a passed gate nothing is created; a credential that cannot be handed out is revoked again in one call |
| SharingService.SharingService.Revoke | cc-deck/internal/share/service.go:364-402 | Changes at most the state of the first invitation with this label and the time of the record, and only if its credential is gone; success means it is revoked |
| SharingService.SharingService.PlanTeardown | cc-deck/internal/share/service.go:581-629 | The loop gives the plan: outstanding invitations from last to first, then the web server |
| SharingService.SharingService.BeginTeardown | cc-deck/internal/share/service.go:571-580 | Stopping is on disk before anything is released, or a residual says that it is not |
| SharingService.SharingService.RunStep | cc-deck/internal/share/service.go:594-634 | One call for one step and one write for its success; without a residual the step is off the record in the state file, and a residual means a fault |
| SharingService.SharingService.CleanUp | cc-deck/internal/share/service.go:570-634 | Each outstanding step has exactly one call, in the order of the plan; killed or not, calls and stored record follow the plan |
| SharingService.SharingService.Teardown | cc-deck/internal/share/service.go:570-651 | At every instant the stored record is of this operation with every written step off it; the record goes if nothing failed, and otherwise keeps as outstanding exactly the failed calls; without a fault it succeeds |
| SharingService.SharingService.Reconcile | cc-deck/internal/share/service.go:559-568 | A degraded record is the first write, or a fault is logged instead; then the same guarantees as a teardown hold |
| SharingService.SharingService.Status | cc-deck/internal/share/service.go:404-466 | With the session there or not answering, an active share keeps everything but its probe and its time under any probe result; only a session reported absent, or residue, is cleaned up, with the guarantees of a teardown |
| SharingService.SharingService.Snapshot | cc-deck/internal/share/service.go:480-496 | Reports the stored record and does nothing else |
| SharingService.SharingService.Stop | cc-deck/internal/share/service.go:498-515 | At every instant, killed or not, at most one call was made for each outstanding step in the order of the plan, and a stored record is of the same share with every written step off it; after a last write that succeeds nothing is left or exactly the failed calls are outstanding; without a fault the share is gone |
| SharingService.SharingService.RepeatStop | cc-deck/internal/share/service.go:498-515 | Repeated stops converge: if nothing emptied the store, each attempt that could read it logged a fault; the first attempt finds the stored record and each later one what the earlier ones left, calls only what is still listed there, and never runs again a step that was written down |
| SharingService.SharingService.Observe | cc-deck/internal/share/service.go:404-496 | Any sequence of reports on an active share, with any probe results and faults, leaves all but the probe and its time as it was |
| SharingService.SharingService.Run | cc-deck/internal/share/service.go:48-651 | Over every run with any call failing and a kill before any effect, each live unlisted resource has its own log entry that explains it and comes after its last acquisition, and nothing was released that this tool had not acquired, the web server included |
| BgLedger.GroupViewers | cc-deck/internal/cmd/claude_bg_attribution.go:339-351 | Sorts the viewers into terminals, none twice, and counts those outside |
| BgLedger.ChooseViewer | cc-deck/internal/cmd/claude_bg_attribution.go:366-372 | Picks a parked viewer if there is one and the first otherwise |
| BgLedger.ResolveBackground | cc-deck/internal/cmd/claude_bg_attribution.go:332-382 | Delivers exactly when all viewers share one Zellij terminal, with the exact case for every other reason, and reports every terminal viewed |
| BgLedger.LeavesExactlyUnviewedRows | cc-deck/internal/cmd/claude_bg_attribution.go:451-497 | A row is left behind if and only if the job is known not to be viewed there, or ends elsewhere; the owner afterwards is the terminal delivered to, or the old one while it is or may be viewed |
| BgLedger.KeepPending | cc-deck/internal/cmd/claude_bg_attribution.go:594-602 | Builds the pending list that the next two rows are about |
| BgLedger.KeptCovers | cc-deck/internal/cmd/claude_bg_attribution.go:588-602 | A pending release is dropped only as the owner's own row or as a duplicate |
| BgLedger.KeptIsWellFormed | cc-deck/internal/cmd/claude_bg_attribution.go:588-602 | What is kept has no duplicate and not the owner's own row |
| BgLedger.PlanKeepsRows | cc-deck/internal/cmd/claude_bg_attribution.go:578-604 | No intent forgets a row, save the one whose SessionEnd is delivered, and a hook that will deliver owns its row in the intent |
| BgLedger.PlanIsWellFormed | cc-deck/internal/cmd/claude_bg_attribution.go:451-498 | An intent formed from a well-formed entry is well-formed |
| BgLedger.NeverReleasesAViewedRow | cc-deck/internal/cmd/claude_bg_attribution.go:658-668 | No row is released where a viewer is |
| BgLedger.OnlySentReleasesGo | cc-deck/internal/cmd/claude_bg_attribution.go:613-633 | Of the pending rows exactly those stay that were not attempted or whose send failed, and those not attempted stay as they were |
| BgLedger.SendReleases | cc-deck/internal/cmd/claude_bg_attribution.go:613-633 | The loop leaves the list that the previous row is about |
| BgLedger.BackoffIsBounded | cc-deck/internal/cmd/claude_bg_attribution.go:622-628 | The delay doubles with each attempt, is at least one second and never over 32, with at most six attempts counted |
| BgLedgerRuns.StepKeepsInv | cc-deck/internal/cmd/claude_bg_attribution.go:507-647 | Every step of every hook keeps the invariant that ties locks, decisions, sends and rows to the stored entries |
| BgLedgerRuns.NoRowIsForgotten | cc-deck/internal/cmd/claude_bg_attribution.go:572-644 | At every instant of every interleaving, a delivered row is the owner's or pending in the job's stored entry until its release is sent or its SessionEnd processed |
| BgLedgerRuns.EveryStoredEntryIsWellFormed | cc-deck/internal/cmd/claude_bg_attribution.go:583-640 | In every run every stored entry is released only with pending rows, has no duplicate and not its own row pending, and counts at most six attempts |
| BgLedgerRuns.OtherJobsKeepTheirEntries | cc-deck/internal/cmd/claude_bg_attribution.go:412-436 | No step of a hook changes another job's entry |
| BgLedgerRuns.DecisionsAreCurrent | cc-deck/internal/cmd/claude_bg_attribution.go:513-524 | When a hook writes, the stored entry is still the one it decided on |
| BgLedgerRuns.OneHookPerJob | cc-deck/internal/cmd/claude_bg_attribution.go:513-524 | Two hooks of one job are never both past the job's lock |
| BgLedgerRuns.SendsThenStore | cc-deck/internal/cmd/claude_bg_attribution.go:613-640 | Sending one release after the other ends in storing the entry with exactly the releases that the loop leaves |
| BgLedgerRuns.OwnRowsSurviveExactlyIfRead | cc-deck/internal/cmd/claude_bg_attribution.go:578-604 | The intent of a hook covers all rows of its job if and only if the file was read, or there is nothing to write, or the only row is the one it will deliver to |
| BgLedgerRuns.OthersSurviveExactlyIfRead | cc-deck/internal/cmd/claude_bg_attribution.go:422-450 | After a load that failed, the write keeps the other jobs' entries exactly if there are none |
| PaneMap.StepKeepsInv | cc-deck/internal/cmd/hook.go:183-211 | Only the holder of the lock has a snapshot, and it is the current file without its expired entries |
| PaneMap.NoUpdateLosesAnotherSessionsEntry | cc-deck/internal/cmd/hook.go:246-277 | No update changes another session's entry, except that one expired at the load may go; a write that succeeds makes the session's own entry what was wanted |
| PaneMap.SkippedUpdateIsInPlace | cc-deck/internal/cmd/hook.go:226-273 | A hook that skips the write is right: the entry already says what it wanted and is under an hour old, or is gone or expired |
| PaneMap.OthersSurviveExactlyIfRead | cc-deck/internal/cmd/hook.go:106-122 | After a load that failed, the write keeps the others' unexpired entries exactly if there are none |
| CodexAttribution.DiscoverClient | cc-deck/internal/cmd/codex_attribution.go:462-505 | One pass over the listing gives what discovery specifies |
| CodexAttribution.DiscoveryReachesTheOwner | cc-deck/internal/cmd/codex_attribution.go:462-505 | A discovered delivery reaches the owner whenever the owner matches, because nobody else does |
| CodexRuns.StepKeepsInv | cc-deck/internal/cmd/codex_attribution.go:428-458 | Every hook that is not a start and whose load showed a binding has that client, alive in its pane, and no other hook ever forgets |
| CodexRuns.BindingsAreRightExactlyIfClean | cc-deck/internal/cmd/hook.go:517-543 | Over every run of overlapping hooks: events go to the bound client or nowhere, and ordinary events change no binding and no other session's, if and only if every load that matters shows the binding and every ordinary hook writes only what is still current |
| CodexRuns.RunsWithoutOverlapAreRight | cc-deck/internal/cmd/hook.go:517-543 | So it is in every run in which the map can be read and no start, end, expiry or first binding of a session comes between the load and the write of an ordinary hook of it |
| CodexRuns.BindingIsKept | cc-deck/internal/cmd/hook.go:517-543 | In a clean run a bound session keeps its client until a start, an end or an expiry of that session |
| CodexRuns.EventsGoToTheBoundClientOrNowhere | cc-deck/internal/cmd/codex_attribution.go:428-458 | While it does, the hook of an event other than a start goes on exactly if the process of the recorded id is still that client in that pane, and then its event is for that client |
| CodexRuns.SentEventsWentToTheBoundClient | cc-deck/internal/cmd/codex_attribution.go:507-537 | In a clean run every event sent, other than a start, of a session that was bound went to that client, with its start time, in its pane; a process that reuses the id gets nothing |
| CodexRuns.OnlyReadableLoadsAreAlwaysRight | cc-deck/internal/cmd/hook.go:106-122 | For a bound session a load leads to the right client, whatever processes there are, if and only if it can read the map |
| CodexRuns.LateWriteRestoresTheOldClient | cc-deck/internal/cmd/hook.go:528-540 | Whatever happened to a binding since an ordinary hook loaded it, the hook's write puts the old client back |
| CodexRuns.AnOrdinaryEventUndoesARebinding | cc-deck/internal/cmd/hook.go:517-543 | A run in which that happens: start, event, start in another client, write of the event |
| CodexRuns.StartRebindsKeepsOrForgets | cc-deck/internal/cmd/codex_attribution.go:446-457 | What a start does, from load to write: a discovered client takes the session over, a live client in place keeps it, a live client elsewhere loses it, and otherwise nothing changes |
| SessionPrompts.Session.Transition | cc-zellij-plugin/src/session.rs:245-278 | Sets the state that the specification gives and reports whether it changed |
| SessionPrompts.Session.PendingPromptCount | cc-zellij-plugin/src/session.rs:285-288 | The sum of all counts, in whatever order they are visited |
| SessionPrompts.Session.ApplyHook | cc-zellij-plugin/src/session.rs:310-366 | State and outcome are those of the specification |
| SessionPrompts.WaitingIffSomebodyIsBlocked | cc-zellij-plugin/src/session.rs:290-366 | After any mapped event, from any activity, the session waits exactly if some agent has a prompt outstanding, and no count is zero |
| SessionPrompts.OutcomeIsExact | cc-zellij-plugin/src/session.rs:347-365 | The outcome tells exactly whether the activity changed and whether the event was absorbed |
| SessionPrompts.ReachableStatesWaitIffBlocked | cc-zellij-plugin/src/pipe_handler.rs:118-136 | The same in every state a new session reaches by mapped events of any agents |
| SessionPrompts.PlainTransitionsKeepItExactlyWithoutPrompts | cc-zellij-plugin/src/session.rs:245-278 | From every state that waits while blocked, a plain transition to another activity leads to such a state if and only if no prompt is outstanding |
| SessionPrompts.NextEventRepairs | cc-zellij-plugin/src/session.rs:310-366 | After any plain transition the next mapped event makes the session wait exactly while somebody is blocked |
| SessionPrompts.PlainTransitionsDoNotKeepIt | cc-zellij-plugin/src/session.rs:245-278 | A reachable witness: asked once, then idle with the prompt outstanding |
| SessionPrompts.CountAfterOneEvent | cc-zellij-plugin/src/session.rs:318-345 | One event changes an agent's count only by that agent's own request or answer, or by an event that clears everybody |
| SessionPrompts.CountIsGreatestSuffix | cc-zellij-plugin/src/session.rs:318-345 | The count is the greatest surplus of requests over answers among the suffixes of the agent's history since it was cleared |
| SessionPrompts.TotalIsBounded | cc-zellij-plugin/src/session.rs:285-288 | The total never exceeds the number of events, so its 32 bits hold it for fewer than 2^32 events |
| Fade.Isqrt | cc-zellij-plugin/src/session.rs:112-124 | Terminates, stays within 64 bits and returns the exact floor of the root, for every 64-bit argument |
| Fade.SqrtRatio1024 | cc-zellij-plugin/src/session.rs:99-110 | Stays within 64 bits and computes the ratio that the next rows are about |
| Fade.RatioIsMonotone | cc-zellij-plugin/src/session.rs:99-110 | The ratio is at most 1024 and never falls |
| Fade.RatioIsCompleteExactlyAtTheEnd | cc-zellij-plugin/src/session.rs:99-110 | It is 1024 exactly from the end of the fade on, so the cap never decides |
| Fade.RatioIsExact | cc-zellij-plugin/src/session.rs:99-110 | Without saturation it is the exact floor of 1024 times the root of the fraction |
| Fade.LerpChannelMoves | cc-zellij-plugin/src/session.rs:128-135 | A channel moves monotonically from its start to its end and hits both |
| Fade.FadeMovesMonotonically | cc-zellij-plugin/src/session.rs:80-97 | Every channel of every activity moves monotonically between the base and the end color, starting and arriving exactly there |
| DomainGroups.Expansion.ExpandRecursive | cc-deck/internal/network/domains.go:48-65 | The walk with the shared visited set is the specified walk, result and visited names alike |
| DomainGroups.Expansion.ResolveUserGroup | cc-deck/internal/network/domains.go:67-91 | The loop over the includes is the walk over the list, after the built-in base and the own domains |
| DomainGroups.ExpandGroup | cc-deck/internal/network/domains.go:43-46 | Terminates on every configuration and returns what the following rows are about |
| DomainGroups.RouteIsVisited | cc-deck/internal/network/domains.go:48-91 | In a walk that succeeds every include route leads to a known group that was new to the walk |
| DomainGroups.OnlyRoute | cc-deck/internal/network/domains.go:48-52 | In a walk that succeeds no two routes lead to one group |
| DomainGroups.StopHasCause | cc-deck/internal/network/domains.go:48-65 | Every error names a group that a route leads to and that is unknown, already visited, or led to by a second route |
| DomainGroups.SucceedsExactlyOnTrees | cc-deck/internal/network/domains.go:43-91 | Success if and only if every group led to exists and no two include routes lead to the same group |
| DomainGroups.CollectsReachableGroups | cc-deck/internal/network/domains.go:67-91 | A success returns as a set exactly the own domains, with the built-in base where extended, of all groups led to |
| DomainGroups.CyclesAreErrors | cc-deck/internal/network/domains.go:48-52 | Every reachable include cycle is an error |
| DomainGroups.SharedIncludeIsAnError | cc-deck/internal/network/domains.go:48-52 | A shared include is reported as circular in a configuration in which no group leads back to itself |
| Whitelist.WildcardDedup | cc-deck/internal/network/domains.go:160-203 | The loops compute the reduction that the next rows are about |
| Whitelist.IsCoveredByWildcard | cc-deck/internal/network/domains.go:205-222 | True exactly if some wildcard covers the domain, in whatever order they are visited |
| Whitelist.KeptMembers | cc-deck/internal/network/domains.go:178-203 | Kept are exactly the wildcards and the entries no wildcard covers |
| Whitelist.KeptInOrder | cc-deck/internal/network/domains.go:178-203 | Kept entries stand in the order of their first occurrence, so none comes twice |
| Whitelist.GenerateWhitelist | cc-deck/internal/compose/proxy.go:38-50 | The loop and the join give one terminated line for each entry |
| Whitelist.WhitelistAdmits | cc-deck/internal/compose/proxy.go:38-50 | The text admits a host exactly if the line of one of its entries does |
| Whitelist.PlainEntryAdmits | cc-deck/internal/compose/proxy.go:52-57 | The line of a plain entry, read as an extended regular expression and searched for, admits exactly the base name and its subdomains |
| Whitelist.ReductionPreservesAdmittedHosts | cc-deck/internal/network/domains.go:160-222 | The reduced list admits exactly the hosts of the original list whenever the subdomains it drops are plain, whatever the other entries are |
| WhitelistBars.EntryAdmitsBranches | cc-deck/internal/compose/proxy.go:52-57 | The line of an entry with bars admits exactly what one of its branches finds: the first at the start or behind a dot, the last at the end, the others anywhere |
| WhitelistBars.PreservesExactlyIfBranchesAreAbsorbed | cc-deck/internal/network/domains.go:160-222 | For every list of entries plain up to bars, with plain wildcards: the reduced list admits the same hosts if and only if each branch of a dropped entry that is not tied to the end is absorbed by a branch of a kept entry |
| WhitelistBars.PreservesExactlyWithoutBars | cc-deck/internal/network/domains.go:160-222 | Among such entries, no list loses a host if and only if no entry dropped as a subdomain has a bar |
| Whitelist.ExpandAll | cc-deck/internal/network/domains.go:93-113 | Expands groups, passes literals on and reduces, or returns the first error |
| Whitelist.WhitelistAdmitsWhatWasAskedFor | cc-deck/internal/network/domains.go:93-113 | From names to hosts: the generated whitelist admits a host exactly if it is, or is below, a literal asked for or a domain of a group led to |
| ProcArgs.ParseProcArgs2 | cc-deck/internal/procinfo/procargs.go:29-92 | The loops compute the parse that the next rows are about, for every buffer |
| ProcArgs.RoundTrip | cc-deck/internal/procinfo/procargs.go:20-92 | The parser inverts the documented layout for any path, padding, arguments, environment and ending |
| ProcArgs.EnvironmentComesBack | cc-deck/internal/procinfo/procargs.go:74-90 | With distinct keys the environment read back has exactly these keys and values |
| ProcArgs.CutInArguments | cc-deck/internal/procinfo/procargs.go:29-72 | Every buffer cut before the zero byte of the last argument is reported as truncated, with exactly what came through of the arguments |
| ProcArgs.CameIsWholeThenPart | cc-deck/internal/procinfo/procargs.go:56-72 | What comes through is the arguments whose zero byte is there, and the part of the next one unless the cut is right behind a zero byte |
| ProcArgs.CutInEnvironment | cc-deck/internal/procinfo/procargs.go:74-92 | Cut later, all arguments and the whole variables come back, and the cut is reported exactly if it falls inside a variable |
| ConfigDir.ConfigDirectory.SyncEntry | cc-deck/internal/profile/configdir.go:43-94 | One entry becomes what the synchronisation specifies, or a failure leaves it alone or without its old link |
| ConfigDir.ConfigDirectory.PrepareSharedDir | cc-deck/internal/profile/configdir.go:14-97 | A run without an error synchronises every entry and warns about exactly the real files in the way; a run with one stops at an entry with the earlier ones done; real files are never changed |
| ConfigDir.EntriesAfterRun | cc-deck/internal/profile/configdir.go:43-97 | Isolated entries are not linked to their default target unless their link could not be read, the others are linked or real with a warning, foreign names are untouched |
| ConfigDir.SecondRunChangesNothing | cc-deck/internal/profile/configdir.go:43-97 | A second run without an error returns the same warnings, and changes nothing if and only if it too cannot read the links that the first run could not read |
| ShQuote.QuotedStringIsRead | cc-deck/internal/profile/wrapper.go:98-104 | Wherever a word is read, the quoted string adds exactly its characters, whatever they are and whatever follows |
| ShQuote.QuotedStringIsOneWord | cc-deck/internal/profile/wrapper.go:98-104 | Alone or before a blank, a line end or an operator it is exactly the single word |
| ShQuote.CommandLineIsReadBack | cc-deck/internal/profile/sync.go:431-437 | Every line of plain words, quoted strings, assignments of quoted strings, operators and redirections is read as exactly their tokens |
| ShQuote.ExportLineIsCommand | cc-deck/internal/profile/claude.go:95-97 | The lines that set a variable are such lines, for every variable name that needs no quotes |
| ShQuote.MkdirLineIsCommand | cc-deck/internal/profile/sync.go:328-329 | The lines that create directories are such lines |
| ShQuote.CheckLineIsCommand | cc-deck/internal/profile/sync.go:431-437 | The line that appends a block unless the marker is there is such a line |
| ShQuote.ProgramLinesAreReadBack | cc-deck/internal/profile/sync.go:431-437 | So whatever strings are quoted in these lines, each comes back as one word, and the redirections and operators between them stay what they are |
| ShQuote.CheckLineTokens | cc-deck/internal/profile/sync.go:431-437 | The tokens of the appending line, in order |

## Left out

- SharingService.SharingService.Status: the texts of residuals are reduced to their kinds; what is added to a report only is not modelled.
- SharingService.SharingService.CreateToken: a name Zellij returns is taken to be new among the live credentials; labels, secrets and invitation URLs are arguments.
- BgLedgerRuns.NoRowIsForgotten: a row is a pane of a Zellij session, not a triple with the agent session, because a hook killed between writing its intent and delivering leaves the entry naming a session the row never showed.
- BgLedgerRuns.Apply: what a hook does between its locks is a state machine over its steps, not one imperative method, so that kills and other hooks can come between any two; the loops inside it are the methods of BgLedger.
- BgLedger.ResolveBackground: how viewers are found and host processes recognised; the viewer's environment path without a verified worker, which delivers without a ledger.
- CodexAttribution.Resolve: how a process's arguments, directory and environment make it a client (parseCodexArgs, isSharedDaemon, toClient); a process carries the result. Payloads that carry the client's environment, and the filter on profile names.
- CodexRuns.Apply: the loss of a mapping by age is a step of the run, not a clock, and one update stands for the whole locked update of PaneMap, which no other update overlaps.
- CodexRuns.BindingIsKept: hooks outside the daemon that store a mapping without a client for the same session count as an expiry.
- SharingService.SharingService.EnsureWebServer: each share has a web server of its own in the model, while Zellij has one; so that only an own server is stopped is a claim about calls. If the server of a share vanished and the user started another one, stopping the share stops that one.
- SessionPrompts.Session.PendingPromptCount: counts are unbounded; TotalIsBounded says when 32 bits suffice. Timestamps of a session are not modelled.
- Whitelist.ReductionPreservesAdmittedHosts: letter case is compared as it stands; the proxy may fold both sides. A host is any text, also one that no name service knows.
- WhitelistBars.PreservesExactlyIfBranchesAreAbsorbed: special characters other than dots and bars, and wildcards with bars, because a line with them means something only in the full syntax of the proxy's regular expressions.
- EreSyntax.Parse: repetition, brackets and unescaped dots do not parse; lines with them, or with blanks and comment signs, admit whatever an arbitrary function says.
- ProcArgs.ParseProcArgs2: byte order is little-endian only; the Linux block parsers of the same file only split at zero bytes.
- ConfigDir.ConfigDirectory.PrepareSharedDir: the relative path between the directories is an argument, and the two directories are different; file modes are not modelled.
- ShQuote.Unquoted: double quotes, expansions, patterns and comments outside single quotes are not followed.
- ShQuote.CommandLineIsReadBack: the lines of cc-deck/internal/profile/sync.go:333-339 and 390, which put quoted strings next to patterns, brackets or expansions. QuotedStringIsRead holds of the quoted strings in them.
- The five layers of the endpoint probe, the calls to Zellij and podman, HTTP, TLS and DNS: a probe answers with a verdict or none.
- Locks, rename and the JSON and YAML encodings: a lock is exclusive with a timeout, a file is replaced as a whole.
- Commands, tables, prompts, installer, workspace commands, the plugin controller and sidebar: plumbing with easy claims only.
- clearedVars, checkClearedSources and the script templates: set arithmetic and text with easy claims only.
- Color distance in profiles, voice text, layout strings and configuration field checks: floating point or low value.
