# Verification of pavis

Pavis is a reverse proxy whose configuration is compiled into sealed `.pvs` artifacts, published to a
relay, fetched by agents inside the proxies and swapped in at run time. This project models the parts of
that path that carry its guarantees, as state machines, classes and functions, and proves what they keep.

| file | models |
|---|---|
| `RelayStorage.dfy`, `RelayRecovery.dfy`, `RelayProcess.dfy` | the relay's durable storage: every storage step of a publish, of repair and of startup, with failures and crashes between any two; and the object that performs them |
| `Distribution.dfy` | one relay process: concurrent publishes and conditional, long-polling requests |
| `AgentFsm.dfy`, `Agent.dfy`, `AgentMemory.dfy` | the agent's fetch/verify/apply state machine, the event loop around it, and what it remembers having applied |
| `Listeners.dfy` | listeners and the printed text by which a reload compares them |
| `Predicates.dfy` | normalization of route predicates |
| `Pvs.dfy` | the artifact container: encoder, verifier of a buffer, streaming verifier of a file |
| `Router.dfy` | zones and host tables, and request lookup in them |
| `HistoryNames.dfy`, `Etag.dfy` | history file names and the directory scan; entity tags between relay and agent |
| `RetryBudget.dfy`, `Backoff.dfy` | the shared compare-and-swap budget; retry delays |
| `Validation.dfy` | two cross-entity configuration checks |
| `Schedule.dfy` | the load generator's schedule and counters |
| `Common.dfy` | shared types |

`dafny verify dfyconfig.toml` checks everything.

**How to read it.** A machine is a total function `Step` on a state and a label; a run is any sequence of
labels, so lemmas about runs cover every interleaving, failure and clock reading. Libraries (SHA-256, rkyv,
the regular-expression engines, PVS verification inside relay and agent) are function values, constrained only
by the laws a lemma names. Methods and classes are proved equal to the machines' functions.

**Where code and documentation part.** The code is followed, and the difference is stated as a lemma.

- `docs/specs/relay-protocol.md`, section 5, promises that a crash during publish leaves the old or the new
  last-known-good (LKG) artifact. That fails in exactly one window, between the two LKG renames over an
  existing LKG with other bytes: the relay restarts with the new bytes under the old version
  (`OldOrNewExactlyOutsideTheLkgWindow`). The next publish heals it (`PublishHeals`).
- Section 7 of the same document promises the current artifact's ETag on a 204. A long poll can answer with an
  older one, when a publish lands between its snapshot and its registration
  (`PublishBeforeRegistrationIsMissed`) or its deadline between an update and the notification
  (`AnswerBeforeNotificationIsStale`); `StaleNoContentExactlyWhen` says which answers are stale.
- Metadata can state the checksum and length of another artifact than the one beside it: in the LKG after that
  crash window (`WindowMislabels`), in the history after half a write over an orphan
  (`OverwrittenOrphanIsMislabelled`). `MetadataDescribesExactlyWhen` is
  the exact condition over all runs; an acknowledged publish always meets it (`AcknowledgedPublishIsDescribed`).
- A publish answered with an error can still be what the next start serves (`RejectedPublishSurfaces`).
- The comments on predicate normalization promise deduplication and structural equality checks. Only adjacent
  equals are removed, and only after a sort by cost. `DuplicateFreeExactlyWhenSeparable` says when no duplicate
  is left, `SameNormalFormExactlyWhenSameGroup` and `SameNormalFormAcrossExactlyWhen` when two groups have the
  same normal form; `DuplicatesSurvive` and `NormalFormIsNotCanonical` are counterexamples. The cost sum is 16
  bits wide:
  `ExactExactlyWhenSumsSurvive` says when that does not matter, `FlatteningOutgrowsTheBound` that normalization
  itself can leave the simple bound of 257 children.
- `docs/specs/runtime-config-fsm.md` says the runtime must not re-apply an artifact with the same checksum.
  After a 410 answer it does so three times (`ResyncAppliesThreeTimes`), and after a failing update callback
  once the rejection is over (`FailedApplicationIsRepeated`); conversely an artifact that is not being served
  can be discarded as already applied, so that a relay rolled back to it is ignored (`RollbackIsIgnored`).
  `VerifiedUpdateIsAppliedExactlyWhen` is the exact condition for all runs.
- The same document has conditional fetches carry the last applied tag. The code prefers the last rejected one
  (`FetchCarries`), with the effect that against a relay back at the served artifact the agent polls without
  any delay until the rejection ends (`RejectedTagSpins`, `SpinEnds`).
- The same document sends a failed verification or application back to fetching. The code always waits for a
  timer first (`TimerExactlyAfterFailure`, `FailureWaitsForTimer`).
- Its section 6 lifts a rejection on an applied artifact only if that is the rejected one. The code lifts it
  whenever any artifact is applied (`OtherApplicationLifts`); `RejectionHoldsExactlyUnlessLifted` is the exact
  condition.
- Its section 8 resets the backoff on every delivered artifact. The code does not when the artifact goes to
  verification (`AttemptsExactly`, `DeliveryKeepsAttempts`).
- The encoder has no size limit and the loader has one, so loading undoes encoding exactly up to 100 MiB
  (`LoadUndoesEncode`).
- The reload check guards updates and not the bootstrap from the agent's LKG.
  `BootstrapKeepsBootPartExactlyWhen` says when the boot-time settings survive it, and
  `StartupSettingsAreLockedOut` that otherwise no artifact with the settings the process was started with is
  ever accepted again.
- A reservation in the retry budget can be refused with room to spare, because its load is relaxed and may
  return a value from before the counter came down (`StaleLoadRefuses`, `DecisionsAreJustified`).

## Model

| member | source | states |
|---|---|---|
| RelayStorage.RunKeepsInv | crates/pavis-relay/src/runtime.rs:333-389 | after any run of publishes, failed storage steps, crashes and restarts: LKG artifact and metadata are recoverable together, every stored artifact passed verification and the size limit, history agrees with the LKG version |
| RelayStorage.StepKeepsInv | crates/pavis-relay/src/storage/lkg.rs:29-110 | every single storage step of publish, repair and startup keeps that invariant and never lowers the durable version |
| RelayStorage.DurableVersionNeverDecreases | crates/pavis-relay/src/storage/lkg.rs:29-41 | no continuation of any run lowers the LKG version on disk |
| RelayStorage.ServedVersionNeverDecreases | crates/pavis-relay/src/app.rs:36-107 | the version served at any point of a run is never above one served later, restarts included |
| RelayStorage.StartupGivesUpOnlyOnIoError | crates/pavis-relay/src/app.rs:36-107 | a startup gives up only if a storage step of that very startup failed; no reachable disk makes it fail by its contents |
| RelayStorage.ServedArtifactsWerePublished | crates/pavis-relay/src/app.rs:36-107 | what is served, and what a start would load, was accepted by an earlier publish and still verifies and fits |
| RelayStorage.GivesUpExactlyWhen | crates/pavis-relay/src/app.rs:36-107 | a failing storage step ends a startup, except while a lone artifact is replaced, which is then given up, and except its removal, which is ignored |
| RelayStorage.RunKeepsOrigins | crates/pavis-relay/src/runtime.rs:333-389 | over every run, every metadata file on disk is that of an accepted artifact: the one of the publish that wrote it |
| RelayStorage.MetadataDescribesExactlyWhen | crates/pavis-relay/src/storage/lkg.rs:29-41 | over every run, metadata in LKG or history states the checksum and size of the artifact it was written for, so it describes the one beside it if and only if that one has the same |
| RelayRecovery.RestartServes | crates/pavis-relay/src/storage/lkg.rs:71-110 | after any run, a start without I/O errors serves: LKG files both present or both absent, memory equal to them, `state.json` in agreement |
| RelayRecovery.RestartOfPair | crates/pavis-relay/src/app.rs:36-107 | a start from a complete LKG serves exactly that LKG |
| RelayRecovery.RestartOfEmptyLkg | crates/pavis-relay/src/app.rs:36-107 | a start without LKG serves nothing at version 0 and leaves the history alone |
| RelayRecovery.RestartOfLoneArtifact | crates/pavis-relay/src/storage/lkg.rs:71-110 | an LKG artifact without metadata is replaced, both files, by the newest complete history entry |
| RelayRecovery.RestartOfStrayArtifact | crates/pavis-relay/src/storage/lkg.rs:81-91 | without a complete history entry it is removed |
| RelayRecovery.RestartOfLoneMetadata | crates/pavis-relay/src/storage/lkg.rs:77-80 | LKG metadata without its artifact: both files are taken from the history entry it names |
| RelayRecovery.RestartOfLostMetadata | crates/pavis-relay/src/storage/lkg.rs:77-80 | without that entry the startup gives up |
| RelayRecovery.PublishHistory | crates/pavis-relay/src/storage/history.rs:20-33 | the whole disk after a complete or an aborted history write |
| RelayRecovery.AcknowledgedPublishIsDescribed | crates/pavis-relay/src/runtime.rs:350-355 | after an acknowledged publish from any reachable state the LKG is the artifact, and its metadata the artifact's checksum and length, the next version and the time |
| RelayRecovery.WindowMislabels | crates/pavis-relay/src/storage/lkg.rs:29-41 | counterexample: after a crash between the two renames the metadata describes the artifact before |
| RelayRecovery.OverwrittenOrphanIsMislabelled | crates/pavis-relay/src/storage/history.rs:20-33 | counterexample: half a history write over an orphan leaves its old metadata beside the new artifact |
| RelayRecovery.PublishPrefix | crates/pavis-relay/src/runtime.rs:333-389 | the disk after each number of completed steps of one publish |
| RelayRecovery.CrashOutcome | crates/pavis-relay/src/runtime.rs:333-389 | for a crash after every step of a publish from a coherent disk: what the restart serves, what the LKG is, and which versions are orphans |
| RelayRecovery.OldOrNewExactlyOutsideTheLkgWindow | crates/pavis-relay/src/storage/lkg.rs:29-41 | the restart serves exactly the old or exactly the new state if and only if the crash was not between the two LKG renames over a different existing LKG |
| RelayRecovery.PublishHeals | crates/pavis-relay/src/runtime.rs:333-389 | from every reachable state, mislabelled LKG included, a publish without failures ends coherent at the next version |
| RelayRecovery.AcknowledgedExactlyWhenPromoted | crates/pavis-relay/src/runtime.rs:333-389 | a publish is acknowledged if and only if history and LKG were written and synced; otherwise the served snapshot is unchanged |
| RelayRecovery.RejectedPublishSurfaces | crates/pavis-relay/src/storage/lkg.rs:29-94 | for every pattern of failures of a rejected publish, the first one included, exactly what the next start serves |
| RelayRecovery.SettleIsARun | crates/pavis-relay/src/runtime.rs:333-389 | running an operation to its end is a run of the machine |
| RelayProcess.MaxHistoryVersion | crates/pavis-relay/src/storage/lkg.rs:96-99 | the greatest listed version, none exactly for an empty history |
| RelayProcess.Relay.AppendToHistory | crates/pavis-relay/src/storage/history.rs:20-33 | performs the machine's history steps, or stops where it stops |
| RelayProcess.Relay.PromoteToLkg | crates/pavis-relay/src/storage/lkg.rs:29-41 | performs the machine's promotion steps |
| RelayProcess.Relay.StoreAndCommit | crates/pavis-relay/src/runtime.rs:356-389 | history, LKG, state file and memory of an accepted publish, as the machine has them; refused exactly when not promoted |
| RelayProcess.Relay.PublishBytes | crates/pavis-relay/src/runtime.rs:333-389 | accepted exactly when within the limit (0 for none), framed and archived; success exactly when promoted, and then the answer and the LKG metadata are the next version, the time, the checksum and the length of exactly the artifact stored; the refusals told apart, memory unchanged on error; ends where the machine ends for every pattern of failures |
| RelayProcess.Relay.Recover | crates/pavis-relay/src/storage/lkg.rs:101-110 | reads and promotes a history entry as the machine does |
| RelayProcess.Relay.RepairLkg | crates/pavis-relay/src/storage/lkg.rs:71-94 | performs the machine's repair, up to loading or giving up, for every pattern of failing reads, listings and writes |
| RelayProcess.Relay.RemoveArtifact | crates/pavis-relay/src/storage/lkg.rs:87-91 | the last resort: fails only when the path cannot be looked up |
| RelayProcess.Relay.LoadLkgFiles | crates/pavis-relay/src/app.rs:36-107 | loads exactly when both files are there, within the limit, or neither; what is loaded in each case |
| RelayProcess.Relay.Install | crates/pavis-relay/src/app.rs:36-107 | the end of startup as the machine has it: `state.json` rewritten when it disagrees, an unframed artifact refused, no other file touched |
| RelayProcess.Relay.InitState | crates/pavis-relay/src/app.rs:36-107 | performs the machine's startup; on success memory is the LKG on disk, or version 0 and nothing, `state.json` agrees, and what is served fits and is framed |
| Distribution.RunKeepsInv | crates/pavis-relay/src/runtime.rs:297-398 | the joint invariant of snapshot, history, publish lock and all clients over every interleaving |
| Distribution.PublishesAreConsecutive | crates/pavis-relay/src/runtime.rs:297-389 | acknowledged publishes get consecutive versions, the monotonicity check never refuses, and with the lock free the snapshot is the history entry of its version and history has no gaps |
| Distribution.PublishedArtifactsNeverChange | crates/pavis-relay/src/runtime.rs:391-398 | whatever happens later, the artifact of a published version stays the same |
| Distribution.ResponsesAreFaithful | crates/pavis-relay/src/handlers.rs:154-218 | a 200 carries a published artifact under its own tag, different from the one sent; 204 and 304 only if a snapshot taken during the request had the tag sent |
| Distribution.ClientVersionsIncrease | crates/pavis-relay/src/handlers.rs:154-218 | a client that sends the tag of its last 200 sees strictly increasing versions |
| Distribution.NoWakeupIsLostAfterRegistration | crates/pavis-relay/src/handlers.rs:154-218 | between publishes, a waiting request that was not woken registered under the current checksum |
| Distribution.StaleNoContentExactlyWhen | crates/pavis-relay/src/handlers.rs:184-208 | with no notification owed, a 204 is stale if and only if the request registered under another tag than its snapshot's; with one owed, a request registered under its own tag is answered stale if and only if the checksum has moved on, and one registered under another is spared only by an update that brought its own back |
| Distribution.LabelsAreFaithful | crates/pavis-relay/src/handlers.rs:90-97 | the relay's tags tell checksums apart, as that condition needs |
| Distribution.AnswerBeforeNotificationIsStale | crates/pavis-relay/src/runtime.rs:297-331 | counterexample: a deadline between update and notification ends in a 204 under the old tag |
| Distribution.OwedNeedNotBeStale | crates/pavis-relay/src/runtime.rs:297-331 | a request that asks after the update is up to date although a notification is owed |
| Distribution.NoContentComesFromExpiry | crates/pavis-relay/src/handlers.rs:184-208 | a 204 comes from a deadline and nothing else, with the tag of the last snapshot |
| Distribution.PublishBeforeRegistrationIsMissed | crates/pavis-relay/src/handlers.rs:154-218 | counterexample: a publish between snapshot and registration ends in a 204 under the old tag |
| Distribution.NextRequestCatchesUp | crates/pavis-relay/src/handlers.rs:154-218 | the next request with an old tag is answered at once with the current artifact |
| Distribution.TurnedAwayExactlyWhen | crates/pavis-relay/src/handlers.rs:154-170 | 503 if and only if not ready at the check, 400 if and only if ready and the wait over 60 s |
| Distribution.FirstAnswerExactlyWhen | crates/pavis-relay/src/handlers.rs:172-184 | over every run, the answer at the first snapshot: the current artifact without a tag or with another; for the current tag a wait, or a 304 without time or long polling |
| Distribution.WokenAnswerExactlyWhen | crates/pavis-relay/src/handlers.rs:184-208 | over every run, a woken request gets the current artifact if and only if its tag is another one, and goes on waiting otherwise |
| Distribution.AnswersComeFrom | crates/pavis-relay/src/handlers.rs:154-218 | the four steps that can finish a request |
| Distribution.PublishTakesEffect | crates/pavis-relay/src/runtime.rs:297-331 | the steps of a stored publish make it the snapshot and the history entry of the next version, ready and acknowledged, and wake a waiting request if and only if the checksum has changed |
| Distribution.TakingRemembers | crates/pavis-relay/src/handlers.rs:154-218 | a client remembers the tag and version of each 200 and of nothing else |
| Distribution.FreshRelayAnswers | crates/pavis-relay/src/runtime.rs:297-331 | a relay started on an artifact serves it to the first request, one started on none answers 503 |
| Distribution.GetConfig | crates/pavis-relay/src/handlers.rs:154-218 | for every sequence of snapshots: 503 if and only if not ready, 400 if and only if ready and the wait is over 60 s; another tag or none gets the first snapshot; the current tag gets 304 when there is nothing to wait for, else the first changed snapshot, else 204 |
| AgentFsm.Fsm.TickInPlace | crates/pavis/src/agent/fsm.rs:260-452 | performs the transition function on the object's fields, effects included |
| AgentFsm.RejectionHoldsExactlyUnlessLifted | crates/pavis/src/agent/fsm.rs:260-452 | before its time to live is over a rejection is in force throughout a run if and only if no resync answer, application or other failure occurs; as long as it is, the artifact is not verified again |
| AgentFsm.RejectionStep | crates/pavis/src/agent/fsm.rs:260-452 | the same for a single event |
| AgentFsm.OtherApplicationLifts | crates/pavis/src/agent/fsm.rs:260-452 | applying one artifact lifts the rejection of another |
| AgentFsm.AttemptsExactly | crates/pavis/src/agent/fsm.rs:260-452 | the attempt counter after any event: one more on a failure, zero on the events that reset it, else unchanged |
| AgentFsm.DeliveryKeepsAttempts | crates/pavis/src/agent/fsm.rs:260-452 | a failed verification right after a delivery backs off with the attempts from before it |
| AgentFsm.RejectionExpires | crates/pavis/src/agent/fsm.rs:69-82 | a delivery of the rejected artifact is verified if and only if the time to live is over |
| AgentFsm.RejectionLasts | crates/pavis/src/agent/fsm.rs:69-82 | a failed verification or application rejects the artifact for 600000 ms: its next delivery is verified if and only if those are over |
| AgentFsm.ObservedExactly | crates/pavis/src/agent/fsm.rs:260-452 | the observed version is that of the last applied artifact |
| AgentFsm.OutageBacksOff | crates/pavis/src/agent/fsm.rs:260-452 | in an outage of any length and at any clock readings delays are scheduled for consecutive attempts, saturating at 32 bits |
| AgentFsm.FetchCarries | crates/pavis/src/agent/fsm.rs:36-67 | exactly which tag a fetch carries, from the context before the event, and exactly when that is the applied one |
| AgentFsm.TimerExactlyAfterFailure | crates/pavis/src/agent/fsm.rs:260-452 | a timer is scheduled if and only if a fetch, a verification or an application failed, and then nothing else |
| AgentFsm.Fsm.ConditionalEtag | crates/pavis/src/agent/fsm.rs:36-67 | the tag of the next fetch and the countdown of forced unconditional ones |
| Agent.ChangedFields | crates/pavis-core/src/runtime/reload.rs:17-57 | comparing texts finds exactly the boot-time parts that differ, each under its name, in order |
| Agent.PrintingTellsPartsApart | crates/pavis-core/src/runtime/reload.rs:23-37 | equal printed texts if and only if equal parts, for all five |
| Agent.BootstrapServesExactlyWhen | crates/pavis/src/agent/driver.rs:392-424 | over every run until the first swap: an LKG that bootstrap can serve is served under its own tag; otherwise the startup configuration, under none |
| Agent.BootstrapKeepsBootPartExactlyWhen | crates/pavis/src/agent/driver.rs:392-424 | bootstrap keeps the startup's boot-time settings if and only if it serves no LKG or one that agrees with them |
| Agent.StartupSettingsAreLockedOut | crates/pavis/src/agent/driver.rs:646-703 | otherwise, over every run, every artifact with those settings is refused and none served |
| Listeners.FingerprintIdentifiesListener | crates/pavis-core/src/runtime/reload.rs:46-58 | equal fingerprints if and only if equal listeners, whatever pipes names and paths contain |
| Listeners.NoClosedTextBehindAPipe | crates/pavis-core/src/runtime/reload.rs:46-58 | no TLS text begins behind a pipe of another TLS text |
| Listeners.TlsTextInjective | crates/pavis-core/src/runtime/listener.rs:37-58 | the printed TLS settings determine them |
| Agent.ConfigAgent.Verify | crates/pavis/src/agent/driver.rs:646-703 | accepted if and only if checksum, verification, decoding, boot-time settings and every step succeed; what is left in the staging file on each failure |
| Agent.ConfigAgent.Apply | crates/pavis/src/agent/driver.rs:705-763 | swapped if and only if the staged file reads, decodes, builds and is renamed; staging file, LKG file and served configuration in each case |
| Agent.ConfigAgent.BootstrapFromLkg | crates/pavis/src/agent/driver.rs:392-424 | a tag is remembered if and only if the LKG loads, verifies, decodes and passes the checks; then it is that file's and its configuration is served; otherwise nothing changes |
| Agent.RunKeepsInv | crates/pavis/src/agent/driver.rs:426-563 | over every run: one thing outstanding and no fetch concurrent or lost; boot-time settings as bootstrap left them; the LKG file is its initial content or an artifact the relay delivered that verified, and after an apply it decodes to what is served under the current tag |
| Agent.LoopReturnsToWaiting | crates/pavis/src/agent/driver.rs:426-549 | from every reachable state the loop waits again, on a fetch or a timer but not both, after at most six internal steps |
| AgentMemory.QuietRunDeduplicates | crates/pavis/src/agent/fsm.rs:260-452 | without 410 answers and callback failures no artifact is applied twice in a row and a verified one is applied exactly when it is not the one served |
| AgentMemory.RunKeepsLog | crates/pavis/src/agent/fsm.rs:260-452 | over every run the remembered tag, the served tag and the forced fetches are those read off the log of resync answers, acknowledgements, fetches and swaps |
| AgentMemory.RememberedMeaning | crates/pavis/src/agent/fsm.rs:260-452 | the remembered tag is that of the last acknowledgement that counts with no resync answer behind it, else what bootstrap left |
| AgentMemory.UpToDateMeaning | crates/pavis/src/agent/fsm.rs:260-452 | when memory is up to date, without recursion |
| AgentMemory.VerifiedUpdateIsAppliedExactlyWhen | crates/pavis/src/agent/fsm.rs:260-452 | for all runs: a verified artifact is discarded if and only if remembered; the served one is re-applied if and only if memory is not up to date; one not served is discarded only then |
| AgentMemory.RollbackIsIgnored | crates/pavis/src/agent/driver.rs:705-763 | after a swap whose callback fails, a delivery of the artifact remembered before is discarded |
| AgentMemory.FailedApplicationIsRepeated | crates/pavis/src/agent/driver.rs:705-763 | the artifact of that swap is applied again once its rejection is over |
| AgentMemory.FailureWaitsForTimer | crates/pavis/src/agent/driver.rs:426-549 | over every run, a failed verification or application leaves the agent waiting on a timer, with no fetch sent |
| AgentMemory.RejectedTagSpins | crates/pavis/src/agent/fsm.rs:36-67 | over any number of rounds before a rejection ends, deliveries of the served artifact are verified, discarded and answered by a poll for the rejected tag |
| AgentMemory.SpinEnds | crates/pavis/src/agent/fsm.rs:36-76 | the first round after it asks with the applied tag again |
| AgentMemory.AcceptableArtifactIsApplied | crates/pavis/src/agent/driver.rs:646-763 | an artifact that passes every check becomes LKG and served configuration, and the agent fetches again |
| AgentMemory.RememberedArtifactIsDiscarded | crates/pavis/src/agent/fsm.rs:260-452 | a delivered artifact remembered as applied changes nothing but the staging file |
| AgentMemory.ResyncAppliesThreeTimes | crates/pavis/src/agent/fsm.rs:260-452 | after a 410 answer any acceptable artifact is applied in each of the next three rounds, at any clock readings, and discarded in the fourth |
| AgentMemory.CallbackFailureForgets | crates/pavis/src/agent/driver.rs:705-763 | a callback failing after the swap leaves the artifact served, not remembered, and rejected for the time to live |
| Predicates.NormalizeTree | crates/pavis-core/src/runtime/matcher.rs:136-143 | the executable traversal computes the normalization function |
| Predicates.NormalizeGroup | crates/pavis-core/src/runtime/matcher.rs:145-213 | the seven steps for a group, loop included, compute the normalization function |
| Predicates.NormalizeKeepsMeaning | crates/pavis-core/src/runtime/matcher.rs:136-223 | same truth value under every valuation, for every tree and every cost function |
| Predicates.NormalizeIsNormal | crates/pavis-core/src/runtime/matcher.rs:126-223 | results obey the normal-form grammar at every depth |
| Predicates.FixedExactlyWhenNormal | crates/pavis-core/src/runtime/matcher.rs:126-223 | the grammar is exact: a tree is unchanged if and only if it is normal |
| Predicates.Idempotent | crates/pavis-core/src/runtime/matcher.rs:126-135 | normalizing twice is normalizing once |
| Predicates.DuplicateFreeExactlyWhenSeparable | crates/pavis-core/src/runtime/matcher.rs:166-170 | sort and dedup remove all duplicates if and only if no other predicate of the same cost stands between two equal ones |
| Predicates.NormalGroupDuplicates | crates/pavis-core/src/runtime/matcher.rs:145-213 | the same condition, for the children of a normalized group |
| Predicates.SameSortExactlyWhenSameCostClasses | crates/pavis-core/src/runtime/matcher.rs:166-167 | two child lists sort alike if and only if they agree within every cost |
| Predicates.SameDedupExactlyWhenSameRuns | crates/pavis-core/src/runtime/matcher.rs:166-170 | sort and dedup give two lists the same result if and only if they agree within every cost up to repeats next to each other |
| Predicates.SameRegroupExactlyWhenSameGroup | crates/pavis-core/src/runtime/matcher.rs:145-213 | the same for whole groups of normalized children: both absorbed, or equal runs at every cost |
| Predicates.SameNormalFormExactlyWhenSameGroup | crates/pavis-core/src/runtime/matcher.rs:8-15 | two groups of one connective have the same normal form if and only if their normalized children are the same in that sense |
| Predicates.SameNormalFormAcrossExactlyWhen | crates/pavis-core/src/runtime/matcher.rs:8-15 | an And and an Or group have the same normal form if and only if both end in the same constant or single predicate, or one is the other's only child |
| Predicates.DuplicatesSurvive | crates/pavis-core/src/runtime/matcher.rs:8-15 | a duplicate that normalization keeps |
| Predicates.NormalFormIsNotCanonical | crates/pavis-core/src/runtime/matcher.rs:8-15 | equivalent trees with different normal forms |
| Predicates.ExactNodeExactlyWhenSurvives | crates/pavis-core/src/runtime/matcher.rs:226-239 | with exact children, the 16-bit cost of a group is exact if and only if its sum fits or is still capped modulo 2^16 |
| Predicates.ExactExactlyWhenSumsSurvive | crates/pavis-core/src/runtime/matcher.rs:226-239 | a tree's cost is exact in every part if and only if that holds of every group |
| Predicates.FittingCostIsExact | crates/pavis-core/src/runtime/matcher.rs:226-239 | exact in every part if no group's sum reaches 2^16 |
| Predicates.NarrowCostIsExact | crates/pavis-core/src/runtime/matcher.rs:226-239 | corollary: exact in every part if no group has more than 257 children |
| Predicates.CostlyGroupCost | crates/pavis-core/src/runtime/matcher.rs:226-239 | the wrapped cost of groups of any width |
| Predicates.FlatteningOutgrowsTheBound | crates/pavis-core/src/runtime/matcher.rs:149-156 | normalization can merge two narrow groups into one beyond that width |
| Predicates.LeafCosts | crates/pavis-core/src/runtime/matcher.rs:59-100 | 1 for a method, a whole value or presence, 2 for a prefix, 10 for a regular expression, 0 for a constant; a negation costs its child |
| Predicates.CheapTestsComeFirst | crates/pavis-core/src/runtime/matcher.rs:166-170 | in every normal form no prefix test stands before a cheaper leaf of its group, and no regular expression before any other leaf |
| Pvs.Encode | crates/pavis-pvs/src/write.rs:10-33 | magic, version 0, algorithm 1, the payload's digest, twenty zeros, the payload |
| Pvs.HeaderRoundTrip | crates/pavis-pvs/src/read.rs:27-48 | parsing undoes serializing every header |
| Pvs.ParseHeaderInjective | crates/pavis-pvs/src/read.rs:27-48 | the parsed fields determine all 64 bytes |
| Pvs.AcceptsExactlyFrames | crates/pavis-pvs/src/verify.rs:129-158 | accepted if and only if the frame of a payload of at most 100 MiB, which is unique |
| Pvs.AcceptsExactlyBytes | crates/pavis-pvs/src/verify.rs:129-158 | accepted if and only if 64 to 64 + 104857600 bytes with magic `PAVS`, version 0, algorithm 1, zero reserved bytes and the digest of the rest |
| Pvs.FirstComplaint | crates/pavis-pvs/src/verify.rs:129-216 | the error for every other buffer, in order of precedence, with what it reports |
| Pvs.HeaderDamageIsNamed | crates/pavis-pvs/src/verify.rs:189-216 | changing any one header byte is refused, with the error of its field |
| Pvs.PayloadDamageNeedsCollision | crates/pavis-pvs/src/verify.rs:148-155 | another payload under the header is accepted exactly on a digest collision |
| Pvs.ReadPayload | crates/pavis-pvs/src/verify.rs:257-276 | for every sequence of read sizes the loop collects the file and its digest, or stops at the limit |
| Pvs.ReadVerifiedFile | crates/pavis-pvs/src/verify.rs:218-287 | same header, bytes and error as the whole buffer for a stable file; never accepts what the buffer check refuses, even if the file changed size; a length out of range is reported as such; an I/O error only on a failing system call |
| Pvs.LoadUndoesEncode | crates/pavis-pvs/src/verify.rs:179-187 | encode then load is the identity if and only if the archive has at most 100 MiB |
| Pvs.LoadsExactlyWhen | crates/pavis-pvs/src/verify.rs:179-187 | loaded if and only if the buffer verifies and the payload passes the archive check and deserializes; corrupt if and only if it verifies and does not |
| HistoryNames.ParseUndoesName | crates/pavis-relay/src/storage/history.rs:97-114 | a name parses to a version if and only if it is that version's name and the version is below 10^10 |
| HistoryNames.NameDigits | crates/pavis-relay/src/storage/history.rs:97-114 | the names of a version: its ten decimal digits and `.pvs` or `.meta.json` |
| HistoryNames.KindsAreDisjoint | crates/pavis-relay/src/storage/history.rs:97-149 | artifact, metadata and temporary names are never taken for one another |
| HistoryNames.ScanHistory | crates/pavis-relay/src/storage/history.rs:66-95 | the two sets are exactly the versions named in the directory, in any order of entries |
| HistoryNames.ListHistoryVersions | crates/pavis-relay/src/storage/history.rs:35-43 | the versions with both files, ascending and without repeats |
| HistoryNames.FindCorruptVersions | crates/pavis-relay/src/storage/history.rs:56-64 | the versions with exactly one file |
| HistoryNames.FindOrphanedVersions | crates/pavis-relay/src/storage/history.rs:45-54 | the complete versions above the current one |
| HistoryNames.ScanSeesTheDisk | crates/pavis-relay/src/storage/history.rs:66-114 | the scan of a directory reports the storage model's versions, halves and orphans, except those past ten digits |
| Etag.ChecksumForBytes | crates/pavis-relay/src/storage/metadata.rs:16-25 | the loop prints the digest's label |
| Etag.HexDigits | crates/pavis-relay/src/storage/metadata.rs:16-25 | two lower-case digits a byte, the high half first |
| Etag.TrimMeaning | crates/pavis-relay/src/handlers.rs:48-88 | trimming takes away exactly the spaces and tabs at both ends |
| Etag.BareChecksumGetsThePrefix | crates/pavis-relay/src/handlers.rs:90-97 | a stored checksum without prefix, in any case, makes the same tag |
| Etag.RelayReads | crates/pavis-relay/src/handlers.rs:48-88 | read as a digest's tag if and only if, spaces apart, one quoted label of it in any letter case |
| Etag.RelayReadsOnlyDigests | crates/pavis-relay/src/handlers.rs:48-88 | every tag read is some digest's canonical label |
| Etag.AgentReads | crates/pavis/src/agent/driver.rs:811-833 | the same for the agent, which also takes the bare label |
| Etag.LabelsIdentifyDigests | crates/pavis-relay/src/storage/metadata.rs:16-25 | equal labels if and only if equal digests |
| Etag.TagsTravel | crates/pavis-relay/src/handlers.rs:90-101 | relay to agent to relay: the tag survives, and matches the current one exactly when the digests are equal |
| Etag.BareLabelIsOnlyForTheAgent | crates/pavis-relay/src/handlers.rs:64-67 | the one difference between the two readers |
| Router.CompileZones | crates/pavis/src/router.rs:56-119 | fails exactly on a path pattern that does not compile; otherwise looking any request up zone by zone is the first-match scan |
| Router.FirstMatchMeaning | crates/pavis/src/router.rs:3-7 | the reference scan returns the least matching index, or there is none |
| Router.MatchesMeaning | crates/pavis/src/router/matcher.rs:228-340 | a route matches exactly the requests whose path equals, extends or matches its own, whose verb is any, the one or one of its list up to case, and whose headers meet every predicate, kind by kind |
| Router.ReferenceMeaning | crates/pavis/src/router/matcher.rs:85-213 | the reference selection, said of the configuration: every earlier route of that host, and every host before it, admits the request in no route |
| Router.SelectionIsUnique | crates/pavis/src/router/matcher.rs:85-213 | that determines the answer |
| Router.LastNamedMeaning | crates/pavis/src/router.rs:120-138 | the greatest index of a virtual host with that name and no star in it |
| Router.WildcardHitMeaning | crates/pavis/src/router/matcher.rs:181-210 | the first fitting wildcard host with a route for the request |
| Router.Build | crates/pavis/src/router.rs:48-138 | the host tables hold the last virtual host of each name and the wildcard hosts in order |
| Router.ScanLinear | crates/pavis/src/router/matcher.rs:99-138 | the first hit of a linear zone |
| Router.TryMatch | crates/pavis/src/router/matcher.rs:95-169 | the walk over a virtual host's zones finds its first matching route |
| Router.MatchWildcards | crates/pavis/src/router/matcher.rs:181-210 | the first hit among the wildcard hosts that fit, in order |
| Router.MatchRequest | crates/pavis/src/router/matcher.rs:85-213 | the route selected is the first that admits the request, in the last virtual host of the requested name, else in the first wildcard host that fits and has one; none if and only if no fitting host has one |
| Router.SuffixPatternMeaning | crates/pavis/src/router/matcher.rs:183-190 | which hosts `*.name` fits |
| Router.PrefixPatternMeaning | crates/pavis/src/router/matcher.rs:191-196 | which hosts `name.*` fits, for every pattern that reaches this branch |
| Router.OtherPatternMeaning | crates/pavis/src/router/matcher.rs:181-198 | `*` fits every request; every other pattern needs a host, and one with the star elsewhere must be that host |
| Router.NormalizeHostMeaning | crates/pavis/src/router/matcher.rs:215-225 | a closed bracket gives the address inside; any other host is cut at its first colon |
| RetryBudget.CounterIsExact | crates/pavis/src/retry.rs:18-64 | in every interleaving the counter is what live guards hold, won but unrecorded swaps included, at most 33554432, never wrapped |
| RetryBudget.AllDroppedMeansZero | crates/pavis/src/retry.rs:58-64 | with all guards dropped the counter is zero |
| RetryBudget.DecisionsAreJustified | crates/pavis/src/retry.rs:37-55 | for a load of any past value: refused if and only if that value leaves no room, won if and only if it is still the counter's; a grant always fits, a refusal against the live bytes takes an older value |
| RetryBudget.StaleLoadRefuses | crates/pavis/src/retry.rs:37-55 | a refusal with the whole budget free |
| RetryBudget.RecordMatchesSwap | crates/pavis/src/retry.rs:47-53 | recording adds what the swap added |
| RetryBudget.BudgetGuard.TryAdd | crates/pavis/src/retry.rs:37-55 | the loop against any interference between loads and swaps: decided in the first round without room or without movement, both sides grow alike, nothing changes on refusal |
| RetryBudget.BudgetGuard.Release | crates/pavis/src/retry.rs:58-64 | dropping gives back exactly what is held |
| Backoff.BackoffIsExact | crates/pavis/src/retry.rs:199-224 | saturating delays equal the documented formula over unbounded integers, capped at 64 bits; only linear backoff can reach that cap |
| Backoff.BackoffGrows | crates/pavis/src/retry.rs:199-224 | delays never shrink from attempt to attempt |
| Backoff.FirstBackoffs | crates/pavis/src/retry.rs:199-224 | the first three delays of each strategy |
| Backoff.Pacer.NextDelay | crates/pavis-relay/src/pipeline/backoff.rs:21-26 | the k-th delay after a reset is the base for k = 0 and min(base * 2^k, max) after |
| Backoff.Pacer.Reset | crates/pavis-relay/src/pipeline/backoff.rs:17-19 | the next delay is the first again |
| Backoff.PublishWithRetry | crates/pavis-relay/src/pipeline/artifact.rs:69-96 | stops at the first success, after at most max_attempts + 1 publishes, sleeping the doubling delays; exactly when its 32-bit counter overflows |
| Backoff.AgentDelayRange | crates/pavis/src/agent/fsm.rs:464-480 | the capped exponential to within a tenth for every attempt, each value in range occurring for some draw |
| Backoff.AgentDelays | crates/pavis/src/agent/fsm.rs:464-480 | 250 ms doubled for each attempt, 5 s from the sixth on, and a tenth of jitter |
| Validation.CollectNeeds | crates/pavis-core/src/validate.rs:153-193 | the first pass: first hopeless upstream, or exactly the names that need rewrites |
| Validation.ValidateSni | crates/pavis-core/src/validate.rs:139-219 | accepted if and only if no upstream is hopeless and none needing rewrites is forwarded to without a literal host; the upstream named is at fault, in any map order |
| Validation.RefusedMeaning | crates/pavis-core/src/validate.rs:139-219 | which upstreams are refused, in terms of TLS settings, endpoints, routes and rewrites |
| Validation.ValidatePorts | crates/pavis-core/src/validate.rs:221-263 | accepted if and only if all ports differ; otherwise the first repeat with its one predecessor |
| Validation.BoundsMeaning | crates/pavis-core/src/validate.rs:221-263 | all ports differ: among listeners, and those from the admin and metrics ports that are on |
| Schedule.InsideTheRun | crates/pavis-benchkit/src/bin/bench-loadgen.rs:365-378 | a request is inside the run if and only if its index is below rate * seconds |
| Schedule.NoDrift | crates/pavis-benchkit/src/bin/bench-loadgen.rs:365-372 | each deadline is less than a nanosecond before its ideal time, and deadlines are in order |
| Schedule.Issue | crates/pavis-benchkit/src/bin/bench-loadgen.rs:351-417 | exactly rate * seconds requests at their deadlines; 64-bit overflow exactly when rate * seconds * 10^9 does not fit |
| Schedule.CountersAgree | crates/pavis-benchkit/src/bin/bench-loadgen.rs:351-472 | in every interleaving: scheduled = dropped + spawned (+ the one being decided), in flight at most connections, answers at most sent at most spawned, latencies those of successes |
| Schedule.NothingIsLost | crates/pavis-benchkit/src/bin/bench-loadgen.rs:427-472 | with nothing in flight every request is answered, every success sampled, every permit back |
| Schedule.DropMeansSaturated | crates/pavis-benchkit/src/bin/bench-loadgen.rs:392-414 | a slot is dropped if and only if all connections are in use |

## Left out

- RelayStorage: renames are atomic and reach the disk in program order; torn writes, temporary files and path containment checks are not modelled, versions are assumed to stay below 10^10, the names of ten digits that a scan reads back, and the size limit does not change between restarts.
- Distribution: a handler runs to its answer; cancellation of a request by its client is not modelled, nor is `publish_auto`, which is dead code.
- Agent.RunKeepsInv: the agent's staging write is one atomic step, as its own write-then-rename makes it; metrics, logging and `poll_once` are not modelled.
- Predicates.ExactExactlyWhenSumsSurvive: the 16-bit sum wraps, as in builds without overflow checks; where they are on, the same sums panic.
- RetryBudget.BudgetGuard.TryAdd: its loads return the latest value; older ones are in the step model behind `DecisionsAreJustified`.
- Listeners: an address is its printed text, which leaves out the flow label of an IPv6 socket address; which characters print as they are is a parameter.
- AgentFsm: time is an integer number of milliseconds; durations of timers appear only in `Backoff`.
- Etag: lower-casing is that of ASCII, which is all a label contains; whitespace is space and tab, which is all a header value can contain.
- Router: predicate statistics are not modelled; text is a sequence of characters, so the byte limit on header regexes counts characters.
- Backoff.PublishWithRetry: what follows the overflow of its counter (a panic or a wrap to zero, by build profile) is not modelled.
- Validation: the other checks of `validate_runtime`, which look at one entity at a time.
- Schedule: latency percentiles and the sixteen shards they are collected from.
- HTTP servers and clients, TLS, configuration codecs and ingestion, admin endpoints, telemetry and command-line tools: input and output around the logic above.
