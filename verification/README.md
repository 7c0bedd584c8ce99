# A verified model of tmux-agent's stateful core

The project models, in Dafny, the parts of tmux-agent whose correctness spans
several functions, processes or scans, and proves what they promise over every
run.  Each part follows the form of its source: procedures that change state in
place are classes and methods proved against a specification function or a
transition relation; decisions are functions; promises over runs are lemmas
about those functions and relations.

| part | modules |
|---|---|
| Handoff delivery: concurrent receivers, one claim ledger, one lock, crashes and lost answers at any step; what senders are told; the sender's audit | HandoffProtocol, HandoffDelivery, HandoffSender, SenderAudit |
| Goal outcomes, acknowledgements and visibility across scanner and daemon | AgentModel, Scanner, Acknowledgement, Transports, TransportChoice, Daemon, DaemonRuns, DoneRuns, GoalRuns, Aggregate |
| Confirmation of inferred idleness | Stabilize |
| Following growing logs | Lines, Rollout, ClaudeChild |
| Retention and linking of Codex threads over parent links that may be cyclic | ParentLinks, Retention, Ownership, LinkingRules |
| Display order of the agent forest | Sorting, Ordering, Forest |
| Civil time and shell quoting | CivilTime, ShellQuote |
| The two selection links of the managed installation | Update |

`dafny verify dfyconfig.toml` checks everything.

## Where the code promises less than it seems to

Each of these is stated exactly: a lemma says when the code meets the promise,
and a concrete case shows where it does not.

- RFC 3339 section 5.6 lets UTC be written with a lower-case `z`; the timestamp
  reader refuses it (`CivilTime.ParsesExactInstant`, `CivilTime.LowerCaseZuluIsRefused`).
- A complete line that is not UTF-8 stops a rollout follower for as long as that
  follower lives.  Opening one fails while such a line is in its tail; a follower
  that goes stale is dropped and its file may be opened again from a new tail
  (`Rollout.OpensExactly`, `Rollout.StalledForItsLifetime`, `Rollout.UndecodableLineStalls`).
- Looking for a claim file treats a failure as absence.  A claim missed in that way
  can lead to a second paste under its ID exactly when something under that ID may
  have typed already.  Without such a miss under an ID input happens at most once
  under it, whatever is missed under other IDs
  (`HandoffDelivery.MissedClaimsPasteAgain`, `HandoffDelivery.PastingTwiceHappens`,
  `HandoffDelivery.AtMostOneInputPerId`).
- The sending account binds an ID to its content only while its record is retained
  and can be looked for.  A record is forgotten once 200 others are not older, which
  the one just written can be if the clock stepped back
  (`SenderAudit.ReboundExactly`, `SenderAudit.Rebind`, `SenderAudit.ForgottenExactly`,
  `SenderAudit.SendMany`, `SenderAudit.NewestIsKept`).
- A successful update need not leave `current` at the requested version: an older
  request succeeds without moving it, and so does a request for the running
  version when there is no `current` link but a manager exists
  (`Update.SuccessSelects`, `Update.SucceedWithoutCurrent`).
- Submissions of two receivers overlap exactly when one is handed over after a crash
  or a lost tmux client orphaned another one and before tmux ran that one
  (`HandoffDelivery.OverlapNeedsAnOrphan`, `HandoffDelivery.OverlapHappens`).

## Assumptions

- Agent IDs are distinct within a snapshot, thread IDs are distinct, and rendering
  `remote/<alias>/<id>` and `<host>/codex-thread/<id>` is injective.
- The scan clock is positive and strictly increasing; every incoming record has
  `attention == attention(state, seen)`.
- The audit and delivery locks are granted to one process at a time.
- The request digest is injective, so the digested request stands for it.
- Exit status 2 comes only from a peer that never ran the operation.
- Processes crash, but file operations that were acknowledged stay: power loss that
  reverts an unsynced removal is not a step.
- A log file only grows between polls unless a lemma says otherwise.  Only
  `ClaudeChild.PollingReadsTheWhole` assumes that a transcript's stamp changes exactly
  when its length does; `ClaudeChild.EveryPollIsOneReading` does not.
- Titles, addresses and directories are compared in their normalised form.

## Model

| member | source | states |
|---|---|---|
| HandoffProtocol.SameFingerprint | src/handoff.rs:805-815 | requests share a digest if and only if they differ in nothing but the working override |
| HandoffProtocol.NextKeepsSafety | src/handoff.rs:720-803 | every step of every process, of tmux and of the failing environment keeps one ID safe: whatever may type under it is covered by its claim and alone; only a claim of this very ID missed after something may have typed is excluded |
| HandoffProtocol.SettlingSeals | src/handoff.rs:732-748 | an answer that confirms or leaves open seals its ID: it has a claim and nobody is on the way to typing under it, whatever was missed before |
| HandoffProtocol.NextKeepsSealed | src/handoff.rs:732-748 | a sealed ID stays sealed as long as its claim is not missed |
| HandoffProtocol.RunKeepsSafety | src/handoff.rs:720-803 | an ID stays safe over any sequence of events, crashes and lost messages included, in which no claim of it is missed harmfully |
| HandoffProtocol.RunKeepsInv | src/handoff.rs:720-803 | lock, command, terminal and ledger invariants and the truth of every answer hold after any sequence of events, missed claims included |
| HandoffDelivery.AtMostOneInputPerId | src/handoff.rs:720-803 | over every run the terminal gets input at most once under an ID none of whose claims is missed harmfully, whatever happens under other IDs; so requests that share it and differ never both paste |
| HandoffDelivery.MissedClaimsPasteAgain | src/handoff.rs:731-733 | a claim missed because looking for it failed can be followed by a second paste if and only if something under its ID may have typed already |
| HandoffDelivery.PastingTwiceHappens | src/handoff.rs:731-733 | a run from the initial state with two pastes under one ID |
| HandoffDelivery.OneProcessSubmits | src/handoff.rs:992-1017 | over every run one process at a time is between lock and answer; of two commands in flight one was orphaned by a crash or a lost tmux client earlier in the run |
| HandoffDelivery.OverlapNeedsAnOrphan | src/handoff.rs:771-791 | in a run two commands are ever in flight together if and only if one is handed over after another was orphaned and before tmux ran that one |
| HandoffDelivery.OrphansDoOverlap | src/handoff.rs:771-791 | from any state with two fresh requests, a crash makes their submissions overlap |
| HandoffDelivery.OverlapHappens | src/handoff.rs:771-791 | such a run from the initial state |
| HandoffDelivery.ConfirmedWasSubmitted | src/handoff.rs:602-643 | a sender told Delivered or Duplicate: a whole submission under the ID carries this recipient and text, now and for ever, in every run; Delivered names this attempt, Duplicate means it typed nothing |
| HandoffDelivery.ConfirmedIsHonest | src/handoff.rs:602-643 | and it is the only input under the ID, as long as no claim of that ID is missed harmfully |
| HandoffDelivery.FailedTypesNothing | src/handoff.rs:602-643 | a sender told Failed or Incompatible: this attempt never typed and never will, even if claims are missed |
| HandoffDelivery.AnsweredIdIsNeverTypedAgain | src/handoff.rs:732-748 | from the step that confirms a handoff or leaves it open no attempt under the ID gains the ability to type, as long as that claim is not missed afterwards: retries are harmless |
| HandoffDelivery.ReceivingAccount.Deliver | src/handoff.rs:720-803 | the receiving procedure is a run of the protocol and ends in exactly the outcome the prior claim, the request and the failures determine |
| HandoffDelivery.ReceivingAccount.Examine | src/handoff.rs:731-748 | under the lock: an unreadable or different claim is refused, a Delivered one is a duplicate, a Pending one uncertain, and none of them types; one that cannot be looked for counts as missing |
| HandoffDelivery.ReceivingAccount.ClaimAndSubmit | src/handoff.rs:749-803 | from a missing or missed claim: durable Pending before anything is staged, then the outcome of a fresh delivery |
| HandoffDelivery.ReceivingAccount.StageAndSubmit | src/handoff.rs:754-803 | a refusal before the command releases the claim; afterwards nothing does but a guard refusal |
| HandoffDelivery.ReceivingAccount.Submit | src/handoff.rs:771-803 | whole answer, ledger and terminal after the command, for every effect of tmux and every lost report |
| HandoffDelivery.DeliveryTable | src/handoff.rs:720-803 | confirmed as new if and only if the whole text was typed, reported and recorded; as a duplicate if and only if a readable claim says so; uncertain if and only if something may have typed and nothing better is known; refused otherwise; and when the terminal is touched |
| HandoffDelivery.ClaimTable | src/handoff.rs:731-803 | what is left of the claim: untouched without the lock, behind a visible claim or when it cannot be written; released by a refusal after that; otherwise Pending until recorded as Delivered |
| HandoffSender.ToldExactly | src/handoff.rs:602-643 | over every run a sender has a status if and only if some event told it: Delivered or Duplicate by hearing its handoff confirmed, Failed by a rejection, Incompatible by a refused version or a peer without the operation, Unconfirmed by an open answer or a lost exchange |
| HandoffSender.UndisturbedIsDelivered | src/handoff.rs:720-803 | after any run that left the lock free and the ID unclaimed, a delivery disturbed by nothing types once, records that, and tells its sender Delivered |
| HandoffSender.ClaimedIdIsAnswered | src/handoff.rs:731-748 | sending again under a claimed ID types nothing: delivered content is told Duplicate, an interrupted one Unconfirmed, other content Failed |
| HandoffSender.RefusedAtOnce | src/handoff.rs:662-693 | a request of another version is told Incompatible and an invalid one Failed, with claims, terminal and lock untouched |
| SenderAudit.Sender.Send | src/handoff.rs:555-597 | refuses, unchanged, if a visible record is unreadable or binds the ID to other content; stops at a failed first write, which may have landed; otherwise reports Delivered if and only if its ID was confirmed as new, Duplicate if and only if as a duplicate, Failed if and only if rejected, Incompatible if and only if unsupported or a usage exit, and Unconfirmed for every other end of the exchange |
| SenderAudit.RefusedExactly | src/handoff.rs:557-567 | while the audit can be written, a send is refused if and only if the visible record of its ID is unreadable or differs in content or machine; the same content goes out again |
| SenderAudit.Sender.CleanUp | src/handoff.rs:1036-1043 | removes only records with 200 others not older by modification time; when complete leaves no more than 200, none older than a removed one |
| SenderAudit.NewestIsKept | src/handoff.rs:1036-1043 | a record newer than all others survives every write, the one just written included |
| SenderAudit.ForgottenExactly | src/handoff.rs:1036-1043 | after a write that succeeds a record is gone if and only if 200 others are newer, up to equal times |
| SenderAudit.ReboundExactly | src/handoff.rs:557-567 | a retained binding is replaced if and only if a send of other content could not look for it and its first write landed |
| SenderAudit.Rebind | src/handoff.rs:557-567 | two sends from the empty audit after which an ID is bound to the second content |
| SenderAudit.SendMany | src/handoff.rs:1036-1043 | 201 sends from the empty audit after which the first is forgotten |
| SenderAudit.LostOnlyWhenCrowded | src/handoff.rs:512-597 | a send loses a binding only if one of its two writes found 200 others at least as new |
| SenderAudit.RetainedBindingIsKept | src/handoff.rs:512-597 | over every run of sends, while its record is retained an ID stays bound to one content and everything sent under it has that content |
| SenderAudit.Sender.WriteSent | src/handoff.rs:1032-1068 | what a write may leave, whether it fails before or after landing, while listing or while removing |
| Scanner.ScanRecord | src/scanner.rs:324-360 | a scanned record keeps its ID and state, is seen if visible, and has an outcome pending only if first observed now or pending before |
| Scanner.LastLookDecides | src/scanner.rs:680-699 | over any number of scans, an idle agent is Done exactly when it last stopped out of sight and was not visible since |
| Scanner.PendingExactly | src/scanner.rs:701-750 | over any number of scans an outcome is pending if and only if some scan announced one, other than the known one or the first of an active agent, and none since pursued a goal or found the agent turned active; it is dated by the last such scan |
| Acknowledgement.ApplyAcknowledgements | src/daemon.rs:964-1035 | the loop lays acknowledgements over each record and forgets exactly those that an active, pursuing or different report clears; what that shows is stated in DoneRuns |
| Acknowledgement.AcknowledgeRecords | src/daemon.rs:1037-1058 | marks the one target read and reports what has to be persisted |
| TransportChoice.ResolvesExactly | src/daemon.rs:871-962 | which transport an agent resolves to: the first serving its session if all that do share a pane, none if a completely known session is not served, else the only one on its connection, else the only one that fits by name; ambiguous if and only if several compete |
| Transports.SameResolution | src/daemon.rs:871-938 | resolution depends on routes only, so acknowledging never changes it |
| Transports.ObserveRemoteAgents | src/daemon.rs:815-855 | the loop gives every agent the entry its transport and its past decide, and no other entries |
| Daemon.StepKeepsValid | src/daemon.rs:170-412 | after every operation the index has the aliases of the peers and an entry exactly for each agent that resolves to one transport |
| DaemonRuns.RunKeepsValid | src/daemon.rs:170-412 | the same over every run of operations |
| DaemonRuns.RemoteIsPublished | src/daemon.rs:774-813 | a remote record is published as reported, but for visibility, focus target, caption and seen mark when one transport shows it |
| DaemonRuns.PublicationReplaces | src/daemon.rs:170-267 | each publication replaces the records of its origin and no others; a lost peer loses records and index |
| DaemonRuns.RevisionTellsChanges | src/daemon.rs:170-412 | the revision rises by one whenever anything but acknowledgements changes, except when an acknowledgement was not saved |
| DaemonRuns.AcknowledgingBumpsLocal | src/daemon.rs:268-389 | the local revision rises if and only if a local agent was among those acknowledged |
| DaemonRuns.UseTimesExactly | src/daemon.rs:390-461 | use times are those recorded for agents still known; only using a known top-level agent records one |
| DaemonRuns.NamespacingKeepsLinks | src/daemon.rs:742-752 | records of two peers never share an ID, and parent links inside a report are kept |
| DaemonRuns.VisibleIdleIsNeverDone | src/daemon.rs:774-855 | after every run an idle remote agent visible through its one transport is not shown as Done |
| DaemonRuns.MarkAllLeavesNothingUnread | src/daemon.rs:323-388 | marking everything unread leaves no completion and no pending outcome on a non-active agent, transport overlay included |
| DaemonRuns.TargetsExactly | src/daemon.rs:1070-1083 | an agent is a target if and only if it is published as idle and Done, or not active with a finished goal pending |
| DaemonRuns.SecondMarkAllFindsNothing | src/daemon.rs:323-388 | a second call with nothing in between has no targets |
| DaemonRuns.MarkAllSkipsActive | src/daemon.rs:1070-1083 | working and blocked agents are left as they were |
| DaemonRuns.AcknowledgedStaysQuiet | src/daemon.rs:209-388 | once an idle agent is acknowledged, alone or by mark-all-read, no later snapshot shows it Done until a report reopens it, across reconnects and transports coming and going |
| DaemonRuns.NoNewsNeverDone | src/daemon.rs:209-388 | the same judged by reports alone: none active, none pursuing a goal, none with an outcome other than the one acknowledged |
| DaemonRuns.PersistedStaysQuiet | src/daemon.rs:127-168 | acknowledgements persisted before a restart keep an idle agent from being shown as Done, at once and over the whole run, until a report reopens it |
| DaemonRuns.ReopeningMeans | src/daemon.rs:964-1028 | which reports reopen: pursuing ones; active ones unless they carry the acknowledged outcome as pending; others only with a dated outcome that differs from the acknowledged one, or is pending when none was acknowledged |
| DoneRuns.ReopeningFrees | src/daemon.rs:964-1028 | a report that reopens makes the daemon forget completion and outcome |
| DoneRuns.RemembersExactly | src/daemon.rs:1037-1058 | an acknowledgement is remembered if and only if the agent was idle or had a dated outcome pending, with that date, whether or not it could be saved |
| DoneRuns.AcknowledgingMarks | src/daemon.rs:1037-1058 | an acknowledged record is seen, shown so, has nothing pending, and is otherwise as before |
| DoneRuns.ReportIsShown | src/daemon.rs:964-1035 | a published record differs from its report only in being read: not pending if pursued or acknowledged, seen only if idle and acknowledged |
| DoneRuns.StartIsShown | src/daemon.rs:127-168 | the first snapshot after a restart is shown in the same way under the persisted acknowledgements |
| DoneRuns.UnacknowledgedIsDone | src/daemon.rs:964-1035 | over every run an idle agent last reported as Done is published as Done, unless it was acknowledged after the start or its last reopening report, or one transport shows it |
| DoneRuns.FinishedOutOfSightIsDone | src/daemon.rs:815-855 | over every run a remote agent reported idle after active is published as Done ever after, while its one transport does not show it to the user, no report replaces it and it is not acknowledged |
| DoneRuns.FirstReportKeepsSeen | src/daemon.rs:843-853 | an agent seen for the first time through one transport counts as seen if and only if its peer says so or the user looks at it |
| GoalRuns.StartIsOrdered | src/daemon.rs:127-168 | a daemon and scanner just started, under records and acknowledgements persisted before the first scan, satisfy what the runs assume |
| GoalRuns.RunKeepsOrder | src/scanner.rs:701-750 | scanner, snapshots in flight and acknowledgements stay dated consistently over every run |
| GoalRuns.AcknowledgedOutcomeStaysSilent | src/daemon.rs:964-1058 | an acknowledged terminal outcome is pending in no later published snapshot, whatever scans were in flight |
| GoalRuns.NewOutcomeStaysPending | src/scanner.rs:701-750 | a new outcome is published as pending and stays so until acknowledged, an inactive-to-active turn, a newer goal or disappearance |
| Aggregate.Aggregate.constructor | src/daemon.rs:127-168 | starts valid, with persisted acknowledgements laid over the first snapshot |
| Aggregate.Aggregate.PublishLocal | src/daemon.rs:170-208 | is the publication step and reports whether agents, host, server or transports changed |
| Aggregate.Aggregate.PublishRemote | src/daemon.rs:209-252 | is the peer publication step, with acknowledged agents indexed as seen |
| Aggregate.Aggregate.PeerError | src/daemon.rs:253-267 | drops a peer's records and index together |
| Aggregate.Aggregate.Acknowledge | src/daemon.rs:268-322 | is the acknowledging step; answers whether the agent is known and whether saving failed |
| Aggregate.Aggregate.MarkAllRead | src/daemon.rs:323-389 | acknowledges exactly the unread agents of the merged snapshot and counts them |
| Aggregate.Aggregate.MarkUsed | src/daemon.rs:390-413 | records the use of a known top-level agent only |
| Aggregate.Aggregate.PruneLastUsed | src/daemon.rs:445-461 | keeps the use times of exactly the known agents |
| Aggregate.Aggregate.Merge | src/daemon.rs:414-430 | the merged list has every published record once and nothing else |
| Aggregate.Aggregate.Snapshot | src/daemon.rs:414-434 | every published record once, in display order by last use |
| Stabilize.StateTracker.StabilizeObservation | src/detect/stabilize.rs:48-140 | the shown detection and the count left behind, for every detection, previous record and freshness |
| Stabilize.StateTracker.Retain | src/detect/stabilize.rs:142-144 | forgets exactly the IDs that are gone |
| Stabilize.CountIsQuietCount | src/detect/stabilize.rs:104-134 | while shown active, the count is the number of fresh quiet observations since anything else |
| Stabilize.SecondFreshQuietTurnsIdle | src/detect/stabilize.rs:104-134 | an active agent turns idle on inferred evidence exactly at the second such observation; replays neither count nor reset |
| Stabilize.OtherKindsRestartTheCount | src/detect/stabilize.rs:80-112 | other evidence is shown at once and restarts the count; a request to preserve holds the previous state and restarts it too |
| Stabilize.PreservingShows | src/detect/stabilize.rs:77-101 | a request to preserve shows the previous state, evidence and goal, an idle process without any, and says why |
| Stabilize.QuietShows | src/detect/stabilize.rs:103-139 | quiet evidence about an agent not shown active is shown as it is; when held back, the reason says for what |
| Stabilize.OtherAgentInheritsNothing | src/detect/stabilize.rs:73-76 | a record of another agent counts as no previous record |
| Stabilize.IdentityChangeInheritsNothing | src/detect/stabilize.rs:57-79 | from an identity change on, the run is as if nothing had been observed before |
| Rollout.CachedRollout.Open | src/codex.rs:70-83 | a follower exists if and only if its first refresh succeeds |
| Rollout.OpensExactly | src/codex.rs:70-155 | opening succeeds if and only if the file is empty, shows no line boundary in its tail, or is UTF-8 from that boundary on |
| Rollout.CachedRollout.Refresh | src/codex.rs:85-155 | one refresh consumes the complete decodable lines from its position and succeeds if and only if what is left is the UTF-8 start of a line |
| Rollout.CachedRollout.ReadLines | src/codex.rs:110-155 | the read loop equals the recursive reading, line by line |
| Rollout.AnyScheduleReadsTheWhole | src/codex.rs:70-155 | once opened, any schedule of refreshes over any growing contents leaves the state of one reading from the initial tail offset |
| Rollout.WholeIsOneFold | src/codex.rs:85-155 | one reading folds the complete lines up to the first undecodable one; it reads all of them if and only if all are UTF-8 |
| Rollout.StalledForItsLifetime | src/codex.rs:110-114 | a follower that stands before a complete undecodable line stays there through every later refresh of the growing file |
| Rollout.UndecodableLineStalls | src/codex.rs:110-114 | a follower opened on a good line that never reads a complete event line |
| Rollout.LifecycleIsDecisive | src/codex.rs:143-151 | the folded lifecycle is the last event among those with the greatest timestamp, and none exists exactly when no line has one |
| Rollout.LastEventIsGreatest | src/codex.rs:128-130 | the last event time is the greatest of the start and all timestamps |
| Rollout.FinishedExactly | src/codex.rs:157-168 | read off the lines: finished at its last lifecycle event if that ended the turn, else thirty minutes after the greatest time once these are over, else not at all |
| Rollout.TruncationStartsOver | src/codex.rs:88-93 | a file found shorter is followed again from its new tail |
| Rollout.FinishIsStable | src/codex.rs:157-168 | a reported finish keeps its time while nothing is appended |
| Lines.CompleteLinesCover | src/codex.rs:110-120 | splitting into complete lines loses only an unfinished last line |
| ClaudeChild.ChildCache.RefreshChild | src/claude.rs:378-497 | one poll shows and caches what cache, file and clock determine: nothing for a missing file, a forgotten entry for a special one, and an entry that agrees with what is shown; no other path is touched |
| ClaudeChild.ChildCache.ReadLines | src/claude.rs:436-482 | the line loop equals the recursive reading, stopping before the first event later than now |
| ClaudeChild.PollingReadsTheWhole | src/claude.rs:378-497 | polling a growing file, stamped anew exactly when it grows, under a non-decreasing clock shows at every poll the fold of this child's due events in the complete lines from the first tail offset on, and nothing if there are none |
| ClaudeChild.EveryPollIsOneReading | src/claude.rs:378-497 | whatever becomes of modification times, every poll of a file only appended to shows the fold of the due events from the tail offset of some poll so far |
| ClaudeChild.StartsOver | src/claude.rs:410-416 | a poll that finds another file, a shorter one, or one rewritten without growth shows the fold from the tail, and keeps the old entry if it does not find the child there |
| ClaudeChild.ReadExtends | src/claude.rs:456-462 | going on later from a postponed event neither loses nor repeats an event |
| ClaudeChild.WholeIsOneFold | src/claude.rs:436-482 | one reading folds this child's events before the first later than now, and waits for that one |
| ClaudeChild.LatestDecides | src/claude.rs:463-482 | the child is finished exactly when its latest event ends the turn |
| ClaudeChild.ShownIsFinished | src/claude.rs:463-496 | so a child is shown if and only if an event of it is due, and as finished if and only if the latest of these ends the turn |
| ClaudeChild.StartedAtLastTurn | src/claude.rs:466-482 | the start is the time of the last event that began a turn, skipped events aside |
| Retention.ThreadTracker.Retain | src/codex.rs:240-274 | keeps exactly the unexpired rollouts and those reached from one by parent links, among those present |
| Retention.UnexpiredMeans | src/codex.rs:244-249 | a rollout is unexpired if and only if it runs, or finished less than the retention ago |
| Retention.ThreadTracker.RequiredAncestors | src/codex.rs:240-254 | the walk ends on cyclic links and finds exactly the tracked threads above unexpired ones |
| Retention.ThreadTracker.Climb | src/codex.rs:247-253 | one climb stops at an untracked or already walked parent and leaves the set upward closed |
| Retention.KeptIsUpwardClosed | src/codex.rs:240-262 | the tracked parent of a kept thread is kept |
| Retention.KeptIsLeast | src/codex.rs:240-262 | nothing else is kept: any upward-closed set with the unexpired threads contains the kept ones |
| Ownership.IsSubagentDescendantOf | src/codex/ownership.rs:571-599 | ends on any record graph; true if and only if the ancestor is one or more parent links above |
| Ownership.PreferredAgentPathOwner | src/codex/ownership.rs:253-290 | true if and only if the thread is an eligible candidate and every other one started earlier, or at the same time with a lower score |
| Ownership.Find | src/codex/ownership.rs:428-516 | a search returns the only matching record, or tells none from several |
| Ownership.UnambiguousThreadParents | src/codex/ownership.rs:406-422 | exactly the threads claimed by one record, with that record |
| Ownership.Linker.LinkOne | src/codex/ownership.rs:161-199 | one thread is attached, given a record of its own or left waiting, with the whole new state |
| Ownership.Linker.LinkThreadSubagents | src/codex/ownership.rs:129-206 | the loop ends, for any metadata, in the result of passes until nothing moves |
| Ownership.EachThreadIsLinkedAtMostOnce | src/codex/ownership.rs:157-205 | one call links no thread twice and none that remains |
| Ownership.LinkingEndsAtFixpoint | src/codex/ownership.rs:201-204 | on exit one more pass would link no remaining thread |
| Ownership.LinkedThreadsAreShown | src/codex/ownership.rs:129-206 | every thread remains or is linked to a record that carries it; a remaining one whose parent is linked waits for a record that is gone |
| Ownership.AttachesBelowTheParent | src/codex/ownership.rs:428-516 | a thread is attached only to a Codex record one or more links below its parent that carries this thread or none; an unclaimed one only when no such record carries it |
| LinkingRules.AttachesExactly | src/codex/ownership.rs:428-569 | a thread is attached to the one record below its parent that carries it; else to the one child that it alone is like in directory, name and start within two minutes; else to the one such record further below; to none if the first kind that exists has several |
| LinkingRules.ParentExactly | src/codex/ownership.rs:160-180 | the parent is the record that alone claims the parent thread, else the one linked to it, else, at the top, the one root record in its directory started within ten seconds |
| LinkingRules.LinkedRecordShows | src/codex/ownership.rs:339-404 | the record a thread is linked to carries its ID and start, shows it finished if it is, and else as the process does or working below the parent |
| LinkingRules.ThreadsInOrder | src/codex/ownership.rs:155 | threads are linked by depth, one if unknown, then by start |
| Ownership.ReparentedMovesOneChild | src/codex/ownership.rs:208-251 | reparenting moves at most one unclaimed child of the same parent and changes nothing else |
| LinkingRules.ReparentsExactly | src/codex/ownership.rs:208-251 | a child process moves below a thread if and only if the thread has no process and this is the one child it started |
| LinkingRules.MovedChildGoesToLatest | src/codex/ownership.rs:208-308 | linking moves a child only below the sibling running at its start that started last, by score among equals |
| Ownership.ThreadsDoNotShareRecords | src/codex/ownership.rs:129-206 | after a call no two threads are linked to one record |
| Ownership.PassKeepsSound | src/codex/ownership.rs:208-251 | links keep leading to records that carry their thread, through attaching, inserting and reparenting |
| Sorting.StableSortSorts | src/model.rs:506-509 | sorting by a total preorder sorts |
| Sorting.StableSortIsStable | src/model.rs:506-509 | items that compare equal keep their order |
| Ordering.SortAgentCoherent | src/model.rs:525-550 | the agent comparison is a total preorder |
| Ordering.SortSubagentCoherent | src/model.rs:552-571 | the sibling comparison is a total preorder |
| Ordering.SortedIsByUrgency | src/model.rs:525-550 | blocked, finished, working, idle; an idle one was changed or used no earlier than any idle one after it |
| Ordering.TiesByPlace | src/model.rs:538-543 | agents of equal urgency are listed by host, session, window and pane, strings compared character by character |
| Ordering.SiblingsRunningFirst | src/model.rs:552-571 | running siblings before finished ones, each by start and then by ID |
| Forest.SortAgentsByLastUsed | src/model.rs:483-523 | the result is the walk from the roots followed by what it never reached, a permutation of the input |
| Forest.Flattening.AppendTree | src/model.rs:573-589 | the in-place walk is the specified depth-first walk and ends on any graph |
| Forest.Flattening.AppendRest | src/model.rs:515-519 | every record the walk missed is appended once |
| Forest.Partition | src/model.rs:484-505 | splits records into roots and children lists, missing parents counting as roots |
| Forest.FlattenPermutes | src/model.rs:483-523 | flattening lists every record exactly once on any parent graph, cycles and self-parents included |
| Forest.FlattenIsPreorder | src/model.rs:483-589 | on acyclic links it is the preorder of the sorted forest: the roots are the records without a listed parent, the siblings those that name one parent, both in display order, every subtree contiguous |
| Forest.AcyclicMeansNoCycles | src/model.rs:490-503 | the acyclicity used above holds exactly when no record is reached from itself by parent links |
| CivilTime.EpochIsDayZero | src/codex.rs:717-725 | 1970-01-01 is day 0 |
| CivilTime.NextDayIsOneMore | src/codex.rs:717-725 | each Gregorian successor day counts one more, in every year |
| CivilTime.CountsDays | src/codex.rs:717-725 | the formula counts successor days from any date |
| CivilTime.StrictlyMonotone | src/codex.rs:717-725 | earlier dates have smaller counts |
| CivilTime.ParseRfc3339Ms | src/codex.rs:670-707 | the index-advancing reader computes the specified reading |
| CivilTime.ParsesExactInstant | src/codex.rs:670-707 | every RFC 3339 date-time is read as its exact instant, refused before the epoch or with a lower-case z |
| CivilTime.LowerCaseZuluIsRefused | src/codex.rs:690-700 | a valid date-time that is refused |
| CivilTime.AcceptsOnly | src/codex.rs:670-715 | whatever is accepted has six numbers at the places of a date-time, digits after a point, and a `Z` or an offset |
| CivilTime.MillisAreExact | src/codex.rs:681-689 | fractions of any length are truncated to milliseconds exactly |
| ShellQuote.JoinRoundTrip | src/config.rs:209-219 | POSIX word splitting of the joined line gives back the arguments |
| ShellQuote.JoinIsInjective | src/config.rs:213-219 | different argument lists never join to the same line |
| Update.DataDirectory.PerformUpdate | src/update.rs:389-498 | with a failure or kill possible at every step: the outcome and the whole directory afterwards as the failing steps decide them, within what an update may do; and the outcome when nothing fails |
| Update.DataDirectory.PerformRollback | src/update.rs:574-619 | the same for a rollback |
| Update.DataDirectory.ActivateAndRestart | src/update.rs:650-690 | succeeds if and only if no step fails or dies; restores the previous target and says so if and only if a step after activation fails and restoring does not; reports a failed restoration if and only if restoring failed |
| Update.UpdateLeavesIsStep | src/update.rs:389-498 | whatever fails, what an update comes to and leaves is one of its steps |
| Update.UpdatedExactly | src/update.rs:389-498 | an update replaces the version if and only if the request is newer and a lifecycle controller and none of the steps it needs fails, each named |
| Update.RolledBackExactly | src/update.rs:574-619 | the same for a rollback to another installed version |
| Update.AnnouncesFirst | src/update.rs:437-490 | nothing is fetched, published or activated before INSTALLING is written, which stays until the activated version is reported ready |
| Update.FailedActivation | src/update.rs:664-690 | a failure after activation restores the previous target and says so, or leaves the new one and says that |
| Update.FailureMovesExactly | src/update.rs:664-690 | a failed operation moves current if and only if it activated, a later step failed and restoring failed; it is then at the requested version and reported so |
| Update.RestoringKeepsCurrent | src/update.rs:664-690 | in a run no failure of an operation whose restoring activation does not fail moves current |
| Update.CurrentIsLastSuccess | src/update.rs:389-690 | over every run in which restoring never fails and nothing is killed, current is what the last successful update or rollback selected |
| Update.UpdateNeverLowers | src/update.rs:389-498 | no update, failed and killed ones included, leaves current at an older version |
| Update.DataDirectory.EnsureManagerFromCurrent | src/update.rs:621-647 | a missing manager starts at the current version, only if that is a lifecycle controller |
| Update.DataDirectory.ActivateManagerIfNewer | src/update.rs:233-244 | the manager only moves up, and is at least the candidate on success |
| Update.SuccessSelects | src/update.rs:389-498 | read off the step that PerformUpdate takes: success leaves current at the requested version if and only if that was newer or already selected |
| Update.SucceedWithoutCurrent | src/update.rs:414-422 | a sequence of updates from an empty directory whose last one succeeds and leaves no current link |
| Update.SuccessWithoutCurrent | src/update.rs:414-422 | the same step is admitted from every directory with a manager and no current link |
| Update.RepeatUpdate | src/update.rs:389-498 | whatever failed or was killed in an update, repeating it without failures ends at the requested version |
| Update.KillLeaves | src/update.rs:650-690 | read off both steps: what current, manager and status may be after a kill |
| Update.DataDirectory.Run | src/update.rs:297-385 | each command is one step of a run under its plan of failures, its failure written to the status file when that write succeeds, and a failed restoration reported only if restoring failed |
| Update.RollbackSelects | src/update.rs:574-619 | read off the step that PerformRollback takes: success leaves current at the requested version and the manager alone |
| Update.FailurePreserves | src/update.rs:668-688 | read off both steps: a failure leaves current at its previous target, or at the requested version when restoring is reported as failed |
| Update.ManagerNeverDecreases | src/update.rs:233-244 | over every run the manager never goes down |
| Update.ManagerCoversUpdates | src/update.rs:233-244 | after any run the manager is at least every version ever updated to |
| Update.OutcomesAreHonest | src/update.rs:389-690 | over every run, kills included, current is where the outcomes say |
| Update.ReadyStaysTrue | src/update.rs:650-690 | over every run, kills included, a READY status names the version current selects, if it selects one |

## Left out

- Foreign I/O: tmux commands, SSH and Mosh, process listing, sockets, async tasks, downloads, archive extraction, checksums and clocks are parameters or success/failure choices.
- JSON, terminal detectors and agent names: parsed events, detections, name normalisation and agent-path scores are arbitrary parameters.
- Handoff text, target filters, staged buffers and wording; the identity checks of `validate_against_snapshot` are one accepting or refusing choice per scan.
- The descriptive fields of sent records, and the resolution of targets and routes before a send.
- Peer status records, watch channels, revision broadcasting and the persistence of acknowledgements on publication, and reloading them after a daemon restart.
- Subagent linking and the other changes scanners make to a record after `goal_lifecycle` are not part of GoalRuns.
- Hash-map iteration order is an arbitrary choice; records with equal keys are sorted stably.
- Discovery, metadata reading and length bookkeeping of rollout files beyond which paths were dropped: when a dropped or unopened file is opened again is not modelled.
- Acyclicity of the parent graph after linking: the code does not enforce it for arbitrary metadata.
- Root matching ignores the check that a record's state is working, blocked, idle or unknown, since every state is one of these.
- The install lock with its stale-lock recovery is taken as granted; selection paths that are not managed links make the first read fail, which is one of the failure choices.
- Integer widths: timestamps, sizes and counters are unbounded; saturation at 64 bits is not modelled.
- CivilTime.ParsesExactInstant: strings are ASCII; non-ASCII input is not modelled.
- User interface, transcript rendering, doctor output, CLI parsing and help text.
