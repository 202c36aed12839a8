# Verified models of the Wooblay gate

Wooblay puts a gate between AI agents and the systems they act on. Runs of agents are scheduled and
paused, tool calls are judged by policy rules and held for human approval, capability tokens are
counted, and every decision ends up as a signed receipt in a hash chain. This project models those
parts in Dafny 4.11 and proves the properties a user of the gate relies on.

Check everything with `dafny verify dfyconfig.toml`.

## How the model is laid out

| file | what it models |
|---|---|
| `RunModel.dfy` | runs, the transition table, the numbered event log, the timeline check |
| `Scheduler.dfy` | which pending runs a pass picks, stated without the memo map, and the two caps |
| `Orchestrator.dfy` | the orchestrator as a class over the run, event and capability tables; the schedule pass |
| `RunLogRace.dfy` | status changes of one run that overlap: read, row write and event append as separate steps |
| `ScheduleRace.dfy` | schedule passes that overlap: count, list, look at a workspace, check and write as separate steps |
| `LoopDetection.dfy` | run creation as overlapping detect / create requests |
| `ReceiptChain.dfy` | receipt verification and tamper evidence |
| `Ledger.dfy` | the append-only ledger as a class, reading it back, and the three link checkers |
| `Capability.dfy`, `ActionClass.dfy` | capability validation, status writes and quarantine as interleaved steps; action patterns |
| `DeferredApproval.dfy` | deferred tool calls, approval checks and reviewers as interleaved steps, and the two services as classes |
| `ReviewReceipts.dfy` | whether an approval's row and its receipt agree when reviews overlap |
| `Gateway.dfy`, `GatewayRace.dfy` | idempotency keys, replay and the result cache, for requests one after another and overlapping |
| `RateLimiter.dfy` | the request counter map, its window reset and its sweep |
| `SseRewriter.dfy`, `Csv.dfy`, `Shell.dfy`, `Strings.dfy` | the chunked SSE rewriter, the CSV report, the shell text of the `gh pr` commands |
| `Policy.dfy`, `PolicyRace.dfy` | first-match policy evaluation and rule creation, one after another and overlapping |

Services that change state are classes whose methods follow the code statement by statement; each
method is tied to a function or predicate on the tables. Protocols with awaits between their reads and
writes are step relations: every database call is one atomic step, and any number of requests overlap.
The bounds are then in terms of the number of requests in flight. Where both forms exist
(`DeferredApproval`), lemmas show that an uninterrupted request is one particular run of the steps.

Hashing, signing and JSON are parameters with stated laws: SHA-256 over canonical JSON is a function
`digest` from bodies to strings, and results that depend on it name the two bodies that would have to
collide.
Times, database answers that may come in several orders, simulation verdicts and upstream results are
parameters too.

## Findings about the code

- **A paused run past its deadline blocks the scheduler.** `checkTimeouts` asks for paused -> failed,
  which `RUN_TRANSITIONS` does not contain. `Orchestrator.SchedulePass` fails if and only if such a run
  exists, and every later pass fails as well as long as it stays paused (`Orchestrator.StuckStays`). Four
  ordinary operations on an empty database lead there (`Orchestrator.PausedRunBlocksEveryPass`).
- **The memo key `__global__` is an ordinary workspace name.** The per-workspace cap holds for every
  database over a set of workspace names if and only if that name is not among them
  (`Scheduler.CapSafeIff`).
- **The queue is cut before the workspace cap is applied**, so a pass can leave slots free beside work
  (`Scheduler.FreeSlotBesideWork`). It does so if and only if the window brings too many runs of one
  workspace and a run behind it is of a workspace the window does not fill (`Scheduler.LeavesWorkIffBlocked`).
- **Overlapping status changes can leave a log that tells another story than the row**: scheduled, under a log
  that ends with a cancellation (`RunLogRace.ScheduledAfterItsLogSaysCancelled`). As long as no
  event is lost it cannot go wrong, however the requests under way finish, if and only if there is none and the log is right now, or just one, which
  started where the log ends and whose write the row still holds (`RunLogRace.TellsWhenDoneIff`).
- **Schedule passes that overlap multiply the caps**: with k at a time the active runs can reach 10 k, and
  those of one workspace 3 k; never more, unless more were active before or a run is resumed (`ScheduleRace.GlobalCapUnderOverlap`,
  `ScheduleRace.WorkspaceCapUnderOverlap`, `ScheduleRace.GlobalBoundIsReached`,
  `ScheduleRace.WorkspaceBoundIsReached`).
- **Max uses is exceeded by exactly the overlap**: with k validations in flight the count can reach
  maxUses + k - 1 and never more (`Capability.MaxUsesUnderInterleaving`, `Capability.BoundIsReached`).
- **A deferred call can run more than once**: exactly as often as checks of its approval overlap
  (`DeferredApproval.RunsAtMostK`, `DeferredApproval.RunsKTimes`).
- **A resume that read "paused" before a quarantine overwrites it** (`Capability.ResumeCanOverwriteQuarantine`).
  Quarantine is final if and only if no status write in flight leads elsewhere
  (`Capability.QuarantineStatusIsFinal`); the revocation of the run's capabilities holds in any case
  (`Capability.QuarantineRevokes`).
- **An approval and a denial that overlap can contradict the ledger**: the row ends DENIED and its only
  receipt says APPROVED (`ReviewReceipts.DeniedWithApprovedReceipt`; exactly when:
  `ReviewReceipts.AgreeForGoodIff`).
- **An overlapping failure shortens a cached success**: the same call runs again after 60 seconds instead of
  24 hours (`GatewayRace.SuccessRunsAgainAfterAMinute`). An entry keeps its key from executing until it expires
  if and only if every request of the key in flight has executed already and, unless at most a minute is left,
  none is in flight (`GatewayRace.ProtectedIff`).
- **`sanitize` leaves line ends inside a text.** A repository name of two lines ends the `gh` command before the
  title and the body, and what follows is a second command (`Shell.LineEndCutsTheCommand`). The title and the
  body reach `gh` if and only if the sanitized repository name holds no line end
  (`Shell.PrCreateReachesGhIntact`, `Shell.PrCommentReachesGhIntact`), and the text is one command if and only if
  no sanitized name does (`Shell.PrCreateIsOneCommandIff`).
- **Rule creations that overlap get equal priorities**, and then the database's order decides between allowing
  and denying (`PolicyRace.OverlapLeavesTheOrderToDecide`). Priorities stay distinct exactly until a rule is
  inserted after another one of its scope has come in since it read its number
  (`PolicyRace.DistinctIffUndisturbed`).
- **The rate limiter's header comment says "sliding window"; the code is a fixed window.** The most any
  interval of one window's length can admit is twice the maximum less one, and that is reached on every
  route (`RateLimiter.AdmissionsAreBounded`, `RateLimiter.BoundIsReached`). Loop detection, by contrast,
  is a true sliding window.

One documented choice has a consequence worth knowing: rules of an instance "completely override globals"
(apps/gate/src/engine/policy.ts:41), so its first enabled rule switches all global rules off for it, even for
calls that rule says nothing about. Creating a rule is conservative if and only if this does not happen or no
global rule could match anything (`Policy.CreationIsConservativeIff`).

## Model

| member | source | states |
|---|---|---|
| RunModel.AppendKeepsNumbering | apps/gate/src/engine/run-events.ts:45-66 | max + 1 numbering keeps a run's events numbered 1..n without gaps, and adds a status change to the recorded path only for `state_change` events |
| RunModel.TransitionTable | packages/types/src/domain/run.ts:36-45 | exactly twelve pairs of statuses are permitted, named one by one |
| RunModel.TransitionStamps | apps/gate/src/engine/orchestrator.ts:48-60 | a transition changes the status and nothing but the times: the start is stamped once, the pause only while paused, the end on completion and failure |
| RunModel.TransitionKeepsFaithful | apps/gate/src/engine/orchestrator.ts:44-62 | a permitted transition leaves the log numbered 1..n, its status changes a walk through the table from null -> pending, its last target equal to the stored status, and the start, pause and end times fitting that status |
| RunModel.CreationIsFaithful | apps/gate/src/engine/orchestrator.ts:100-114 | the log a run is created with already tells its life |
| RunModel.OtherEventKeepsFaithful | apps/gate/src/engine/run-events.ts:45-66 | events of every other kind change neither the numbering nor the recorded path |
| RunModel.RankNeverFalls | packages/types/src/domain/run.ts:36-45 | along every path through the table progress never falls, and stands still only between running and paused |
| RunModel.LifeOfARun | packages/types/src/domain/run.ts:36-45 | in every recorded life a run is scheduled at most once, nothing follows a final status, and only cancellation follows quarantine |
| RunModel.TimelineOrdered | scripts/verify-case-file.ts:143-150 | the pairwise check accepts exactly the timelines whose numbers increase everywhere |
| Scheduler.QueueOrder | apps/gate/src/engine/orchestrator.ts:143-150 | the queue puts P0 before P1 before P2, and the older run first among equals |
| Scheduler.WindowIsTheFront | apps/gate/src/engine/orchestrator.ts:143-150 | a pending run is left out of the window only by a full window of runs that go first: no P1 or P2 run beside a P0 run left out, no P2 run beside a P1 run, no younger run of the same priority |
| Scheduler.ActiveMeaning | apps/gate/src/engine/orchestrator.ts:135-137 | running and scheduled runs count against the caps, and nothing else |
| Scheduler.PickedIffRoom | apps/gate/src/engine/orchestrator.ts:155-174 | a row of the window is picked exactly when at its turn its key had room |
| Scheduler.PicksFillToTheCap | apps/gate/src/engine/orchestrator.ts:155-174 | under one memo key, database count plus picks never passes the workspace cap |
| Scheduler.PicksOfWorkspace | apps/gate/src/engine/orchestrator.ts:155-174 | a workspace ends with exactly its active runs plus those of the window, cut at max(active, 3) |
| Scheduler.PicksKeepWorkspaceCap | apps/gate/src/engine/orchestrator.ts:152-174 | for every workspace, and for the runs without one, active plus picked is at most max(active, 3) |
| Scheduler.SharedKeyBreaksTheCap | apps/gate/src/engine/orchestrator.ts:156-166 | a database in which a workspace named `__global__` with three active runs gets a fourth |
| Scheduler.CapSafeIff | apps/gate/src/engine/orchestrator.ts:156-166 | the workspace cap holds for all databases over a set of names exactly when `__global__` is not one of them |
| Scheduler.SkippedOnlyWhenFull | apps/gate/src/engine/orchestrator.ts:155-174 | a fetched run is left out exactly when active runs plus earlier picks of its workspace have reached three |
| Scheduler.NoInversion | apps/gate/src/engine/orchestrator.ts:143-174 | if a run is picked, every pending run of its workspace ordered before it is picked |
| Scheduler.FullWorkspacesBlockTheQueue | apps/gate/src/engine/orchestrator.ts:143-174 | a window yields nothing exactly when all its runs are of workspaces with three active runs |
| Scheduler.SomeRowSkipped | apps/gate/src/engine/orchestrator.ts:155-174 | a fetched run is left out exactly when the window brings more runs of some workspace than fit into it |
| Scheduler.LeftOutIffNotFetched | apps/gate/src/engine/orchestrator.ts:143-174 | a pending run whose workspace still has room after the picks is left out exactly when it is outside the window |
| Scheduler.LeavesWorkIffBlocked | apps/gate/src/engine/orchestrator.ts:141-174 | a slot stays free beside a pending run that would fit exactly when the window brings too many runs of one workspace and a run behind it is of a workspace the window does not fill; read off the tables before the pass |
| Scheduler.FreeSlotBesideWork | apps/gate/src/engine/orchestrator.ts:141-174 | such a database: nine active runs, one slot, a run of a full workspace at the head, nothing picked, and a run behind it that would fit |
| Orchestrator.Orchestrator.EmitRunEvent | apps/gate/src/engine/run-events.ts:37-67 | appends exactly one event with the next number, or nothing for an unknown run |
| Orchestrator.Orchestrator.TransitionRun | apps/gate/src/engine/orchestrator.ts:33-70 | fails with nothing changed on an unknown run or a pair outside the table, which is spelled out; otherwise changes only that row and its log, and every log still tells its run's life |
| Orchestrator.Orchestrator.CreateRun | apps/gate/src/engine/orchestrator.ts:85-128 | adds one pending run with the next attempt number, a deadline 30 minutes ahead and a one-event log; fails exactly when its id is taken, and then by a stored run of another operation or attempt with the same hash |
| Orchestrator.Orchestrator.DetectLoop | apps/gate/src/engine/orchestrator.ts:209-223 | answers whether at least five runs of the operation, from whatever path, were created within the last 300000 milliseconds |
| Orchestrator.Orchestrator.PendingQueue | apps/gate/src/engine/orchestrator.ts:143-150 | lists pending runs in the order P0, P1, P2 and by age, and leaves one out only when the list is full of runs that go first; in terms of the priorities and creation times themselves |
| Orchestrator.MemoStep | apps/gate/src/engine/orchestrator.ts:153-174 | through one loop turn every memo entry stays equal to the database count of its key plus the picks so far |
| Orchestrator.Orchestrator.GetSchedulableRuns | apps/gate/src/engine/orchestrator.ts:132-177 | the memoised loop picks exactly what a recount before each row would pick |
| Orchestrator.PausableMeaning | apps/gate/src/engine/orchestrator.ts:188-195 | the runs that may be preempted are the running P1 and P2 runs, of the workspace if one is given |
| Orchestrator.Orchestrator.PreemptForPriority | apps/gate/src/engine/orchestrator.ts:181-205 | pauses nobody for P1 and P2, and for P0 exactly one running P1 or P2 run of the workspace given, a P2 run if there is one |
| Orchestrator.PreemptionsServeP0 | apps/gate/src/routes/runs.ts:139-147 | over a whole pass the number of runs preempted is at most the number of P0 runs scheduled |
| Orchestrator.P0Count | apps/gate/src/routes/runs.ts:139-147 | what is counted are the positions of the P0 runs among the picks |
| Orchestrator.Orchestrator.QuarantineRun | apps/gate/src/engine/orchestrator.ts:227-245 | moves the run and revokes every unrevoked capability of it and no other, or changes nothing |
| Orchestrator.Orchestrator.KillRun | apps/gate/src/engine/orchestrator.ts:247-266 | fails only on an unknown run; a live run ends failed or cancelled by its status, an ended one stays untouched |
| Orchestrator.TimedOutMeaning | apps/gate/src/engine/orchestrator.ts:270-278 | a run is timed out when it is running or paused at or past its deadline |
| Orchestrator.Orchestrator.CheckTimeouts | apps/gate/src/engine/orchestrator.ts:270-285 | fails exactly when a paused run is past its deadline; otherwise exactly the running runs past theirs have failed and are returned |
| Orchestrator.TimeoutsKeepCaps | apps/gate/src/engine/orchestrator.ts:270-285 | timeouts never raise the number of active runs, in total or in any workspace, even when the sweep is cut short |
| Orchestrator.Orchestrator.PostRun | apps/gate/src/routes/runs.ts:110-127 | loop detected exactly when five recent runs exist; otherwise a duplicate id exactly when the new run's id is taken; otherwise one pending run as requested is added |
| Orchestrator.Orchestrator.ScheduleOne | apps/gate/src/routes/runs.ts:139-147 | one turn never fails: it pauses the right victim exactly when the run is P0 and one exists, then schedules the run |
| Orchestrator.TurnsMove | apps/gate/src/routes/runs.ts:139-147 | after any number of turns exactly those picks went from pending to scheduled, and every other run is as before or is a running P1 or P2 run that was paused |
| Orchestrator.Orchestrator.ScheduleAll | apps/gate/src/routes/runs.ts:138-147 | the loop takes one turn for each pick, in order, and returns the rows it wrote |
| Orchestrator.SchedulingKeepsCaps | apps/gate/src/routes/runs.ts:135-147 | scheduling the picks of a window keeps both caps whatever is preempted on the way |
| Orchestrator.PassHasNoInversion | apps/gate/src/routes/runs.ts:131-147 | a whole pass, timeouts included, never schedules a run past an earlier pending run of its workspace |
| Orchestrator.PassSummary | apps/gate/src/routes/runs.ts:131-154 | from the turns of a pass: active <= max(before, 10), per workspace <= max(before, 3), no inversion, and every run moved as a pass may move it |
| Orchestrator.PromisesSpelledOut | apps/gate/src/routes/runs.ts:131-154 | the same caps in numbers, and the same order spelled out: within a workspace no P1 or P2 run is scheduled while a P0 run stays pending, no P2 run while a P1 run does, and no younger run of the same priority |
| Orchestrator.Orchestrator.SchedulePending | apps/gate/src/routes/runs.ts:135-147 | after the timeouts exactly the picks of a window take their turns, in order |
| Orchestrator.Orchestrator.SchedulePass | apps/gate/src/routes/runs.ts:131-154 | fails exactly when a paused run is past its deadline, and then is blocked at every later time; otherwise running runs past theirs failed, the picks of a window took their turns, and every run moved only as a pass may move it; in both cases 10 and 3 are kept as caps, and within a workspace P0 goes before P1 before P2, and older before younger |
| Orchestrator.StuckStays | apps/gate/src/engine/orchestrator.ts:270-285 | a blocked scheduler stays blocked while time passes and whatever else happens, as long as the paused runs stay paused |
| Orchestrator.PausedRunBlocksEveryPass | apps/gate/src/routes/runs.ts:131-133 | from an empty database, a run created, scheduled, started and paused makes the pass past its deadline fail, and the next one too |
| Orchestrator.Orchestrator.ExportedTimelineIsOrdered | scripts/verify-case-file.ts:143-150 | after any sequence of orchestrator operations every run's timeline passes the verifier's ordering check |
| RunLogRace.NumberedAlways | apps/gate/src/engine/run-events.ts:45-66 | whatever status changes and other events overlap, fail or lose their event, a run's events are numbered 1..n without gaps |
| RunLogRace.TellsWhenDoneIff | apps/gate/src/engine/orchestrator.ts:44-62 | however the status changes under way finish without losing an event, the log then is a walk through the table to the row's status, exactly when none is under way and it is one now, or just one is, which started where the log ends and whose write the row holds |
| RunLogRace.SerialChangesTell | apps/gate/src/engine/orchestrator.ts:44-62 | when the changes of a run do not overlap, its creation included, and no event is lost, the log is such a walk whenever none is under way |
| RunLogRace.ScheduledAfterItsLogSaysCancelled | apps/gate/src/engine/orchestrator.ts:44-62 | a history with two overlapping changes that ends scheduled, with nothing under way, under a log that ends with pending -> cancelled |
| ScheduleRace.GlobalCapUnderOverlap | apps/gate/src/routes/runs.ts:131-147 | with at most k schedule passes at a time, and whatever else happens except that a run is resumed, active runs never exceed max(before, 10 k) |
| ScheduleRace.WorkspaceCapUnderOverlap | apps/gate/src/engine/orchestrator.ts:152-174 | the same for each workspace with max(before, 3 k), while its memo key is its own and runs stay in their workspaces |
| ScheduleRace.GlobalBoundIsReached | apps/gate/src/routes/runs.ts:131-147 | for every k a history of at most k passes at a time, from no active run, has 10 k active runs |
| ScheduleRace.WorkspaceBoundIsReached | apps/gate/src/engine/orchestrator.ts:152-174 | for every k a history of at most k passes at a time puts 3 k active runs into a workspace that had none, with all runs staying in place |
| LoopDetection.SlidingWindow | apps/gate/src/routes/runs.ts:110-127 | with at most k posted requests of an operation between detection and creation or failure, every five-minute window holds at most 4 + k posted runs, even when other paths create runs |
| LoopDetection.WindowBoundIsReached | apps/gate/src/routes/runs.ts:110-127 | for every k > 0 a history with at most k in flight posts 4 + k runs in one window |
| ReceiptChain.BodyCoversTheFields | packages/crypto/src/receipts.ts:9-24 | the hashed body is that of every field but the identifier, the hash, the signature and the creation time |
| ReceiptChain.VerifyChain | packages/crypto/src/receipts.ts:57-78 | accepts exactly when at every position the hash is the digest of the body, the signature verifies for it and the receipt links to the one before; otherwise names the first position where one of the three fails |
| ReceiptChain.TailsAgree | packages/crypto/src/receipts.ts:44-78 | two valid chains with the same last hash agree in body at every distance from the end, unless their own bodies at that distance or nearer collide |
| ReceiptChain.TamperEvidence | packages/crypto/src/receipts.ts:44-78 | the shorter chain's bodies are exactly the tail of the longer one's, unless two bodies of the chains at one distance from the ends collide |
| ReceiptChain.CompleteHistoriesAgree | packages/crypto/src/receipts.ts:57-78 | two valid chains from the first receipt on with the same last hash have the same length and bodies, unless two bodies of theirs at one distance from the ends collide |
| Ledger.LatestIsLast | apps/gate/src/engine/receipt.ts:41-46 | with increasing creation times the newest receipt by time is the one appended last |
| Ledger.LatestIsNewest | apps/gate/src/engine/receipt.ts:41-46 | the row a new receipt links to is a newest one by creation time, in order or not |
| Ledger.AppendStaysHonest | apps/gate/src/engine/receipt.ts:38-92 | a linked, verified, fresh row keeps a ledger ordered, unique, chained and verified |
| Ledger.Ledger.CreateReceipt | apps/gate/src/engine/receipt.ts:34-103 | appends one receipt with every column of the caller's data, linked to the last hash, stored under the digest of that data and signed; refuses exactly a second receipt for a tool call, and a body whose digest is that of a different body already in the ledger |
| Ledger.Ledger.FindByHash | apps/gate/src/routes/receipts.ts:112-117 | finds the one row with a hash, or reports that there is none |
| Ledger.Ledger.RangeBounds | apps/gate/src/routes/receipts.ts:107-130 | not found exactly when a given hash is unknown; otherwise the creation times of the named receipts |
| Ledger.RangeIsSegment | apps/gate/src/routes/receipts.ts:126-135 | a range of creation times selects one contiguous block, the one between the named receipts inclusive |
| Ledger.SegmentVerifies | apps/gate/src/routes/receipts.ts:15-51 | every contiguous segment of an honest ledger, read back from its columns, is a valid chain |
| Ledger.Ledger.VerifySegment | apps/gate/src/routes/receipts.ts:104-148 | on an honest ledger the endpoint answers "valid" for every range of known hashes, with the count of the receipts from the first named one, or the beginning, to the last named one, or the end, and 0 when the ends are reversed |
| Ledger.VerifyReceiptChain | apps/gate/src/routes/case-file.ts:243-250 | accepts exactly the lists with no broken link |
| Ledger.VerifyCaseFileChain | scripts/verify-case-file.ts:104-113 | the same answer, and the first broken index |
| Ledger.FindGaps | apps/gate/src/routes/audit.ts:158-174 | collects the gaps and answers "valid" exactly when there is none |
| Ledger.GapsAreTheBrokenLinks | apps/gate/src/routes/audit.ts:158-174 | the report lists each broken link once, in order, and is empty exactly when the other two checkers accept |
| Ledger.LinkedIffOneBlock | apps/gate/src/routes/case-file.ts:243-250 | on an honest ledger the link check of a time-ordered selection succeeds exactly when the selection is one contiguous block |
| Capability.TokenPassesIff | apps/gate/src/engine/capability.ts:111-136 | a token is let through exactly when it is for the gateway, within its times give or take 60 seconds, and covers the action; each refusal is exact |
| Capability.RowPassesIff | apps/gate/src/engine/capability.ts:138-165 | a registry row is let through exactly when it is unrevoked, unexpired, unspent and of the token's scope; each refusal is exact |
| Capability.RunPassesIff | apps/gate/src/engine/capability.ts:167-174 | a run lets its capability through exactly when it is running or scheduled |
| Capability.MaxUsesUnderInterleaving | apps/gate/src/engine/capability.ts:138-180 | with at most k validations of a capability in flight, some of which may fail at any point, the use count never exceeds maxUses + k - 1 in any reachable state |
| Capability.BoundIsReached | apps/gate/src/engine/capability.ts:138-180 | for every k a history with at most k in flight reaches that count |
| Capability.RevocationIsForever | apps/gate/src/engine/capability.ts:138-180 | a validation that has not read the row before the revocation is never accepted for it, in any continuation |
| Capability.QuarantineRevokes | apps/gate/src/engine/orchestrator.ts:234-237 | the second write of quarantine revokes exactly the run's capabilities, and in every later state no validation that had not read one of them is accepted for it |
| Capability.InactiveRunBlocks | apps/gate/src/engine/capability.ts:167-174 | while a run stays inactive no validation that had not seen it active gets through |
| Capability.QuarantineStatusIsFinal | apps/gate/src/engine/orchestrator.ts:44-60 | a run stays quarantined or cancelled in every continuation exactly when it is so now and no status write in flight leads elsewhere |
| Capability.SerialWritesSeal | apps/gate/src/engine/orchestrator.ts:44-60 | when status writes of a run do not overlap, a quarantined run meets that condition |
| Capability.InactiveForGoodIff | apps/gate/src/engine/orchestrator.ts:33-60 | a run is inactive in every continuation exactly when its status has ended and every status write in flight leaves it so |
| Capability.QuarantineIsFinal | apps/gate/src/engine/orchestrator.ts:227-237 | from the first write of quarantine on, once no status write in flight leads out of the ended statuses, no validation that had not seen the run active is accepted for any of its capabilities, even before the second write |
| Capability.ResumeCanOverwriteQuarantine | apps/gate/src/engine/orchestrator.ts:44-60 | with a resume in flight a run goes from quarantined to running |
| Capability.AcceptedPassedEveryCheck | apps/gate/src/engine/capability.ts:111-180 | every accepted validation passed, in this order, a token with the right audience, in its time span and covering the action, then an unrevoked, unexpired, unspent row with the token's scope, then an active run of that row |
| ActionClass.CoveringMeaning | apps/gate/src/engine/capability.ts:197-205 | a pattern covers itself, a star everything, and `x:*` what starts with `x:`; nothing else |
| ActionClass.CoveringIsAPreorder | apps/gate/src/engine/capability.ts:197-205 | every pattern covers itself, and covering is transitive |
| ActionClass.WildcardIsSegmentExtension | apps/gate/src/engine/capability.ts:197-205 | `x:*` matches exactly the actions whose colon segments strictly extend those of x |
| ActionClass.OnlyWildcardsCoverMore | apps/gate/src/engine/capability.ts:197-205 | a pattern that matches something else than itself is `*` or ends in `:*` |
| DeferredApproval.RunsOnlyApprovedFrozenCalls | apps/mcp-proxy/src/server.ts:351-400 | in every reachable state each executed call belongs to an approval that was approved, with the tool and arguments frozen at deferral |
| DeferredApproval.RunsAtMostK | apps/mcp-proxy/src/server.ts:351-400 | with at most k overlapping checks of one approval its call runs at most k times |
| DeferredApproval.RunsKTimes | apps/mcp-proxy/src/server.ts:351-400 | for every k a history with at most k overlapping checks runs the call k times |
| DeferredApproval.OneFate | apps/mcp-proxy/src/server.ts:351-400 | when checks do not overlap a deferred call is in exactly one of waiting, run once, dropped |
| DeferredApproval.DecidedAtMostK | apps/gate/src/routes/approvals.ts:143-249 | with at most k overlapping reviews an approval is decided at most k times |
| DeferredApproval.ApprovedStaysApproved | apps/gate/src/routes/approvals.ts:143-249 | when reviews do not overlap an approval that was ever approved is approved in every later state |
| DeferredApproval.ExecutedCallsAreApprovedForGood | apps/mcp-proxy/src/server.ts:396-400 | a call that ran belongs, in every later state, to an approved row and to the same frozen call |
| DeferredApproval.Session.ExecuteToolCall | apps/mcp-proxy/src/server.ts:228-305 | runs at once exactly on EXECUTE and defers exactly on a pending answer with an id; the stored call is the one requested, and nothing else in the session changes |
| DeferredApproval.Session.CheckApproval | apps/mcp-proxy/src/server.ts:351-400 | the session map and the answer for each status, an unreadable status and an unknown id |
| DeferredApproval.UninterruptedCheck | apps/mcp-proxy/src/server.ts:351-400 | a check without interruption is a run of the interleaved steps and executes or drops the same call |
| DeferredApproval.ApprovalDesk.CreateApproval | apps/gate/src/services/approval.ts:28-34 | adds one pending approval and no receipt |
| DeferredApproval.ApprovalDesk.Decide | apps/gate/src/routes/approvals.ts:143-249 | not found, already decided, or one verdict with one receipt, or with none when filing it fails; a decided approval has exactly one receipt, with its verdict, unless filing failed |
| DeferredApproval.UninterruptedReview | apps/gate/src/routes/approvals.ts:143-249 | a review without interruption, whether or not its receipt is filed, is a run of the interleaved steps, possible exactly on a pending approval |
| ReviewReceipts.AgreeForGoodIff | apps/gate/src/routes/approvals.ts:143-249 | in every continuation the row and the receipt of a decision agree exactly when the approval is decided and, with a receipt filed, every review still to write repeats its verdict, or, without one, all reviews under way have one verdict, which those that wrote share with the row |
| ReviewReceipts.SerialReviewsAgree | apps/gate/src/routes/approvals.ts:143-249 | when reviews of an approval do not overlap, receipts included, row and receipt agree in every state |
| ReviewReceipts.DeniedWithApprovedReceipt | apps/gate/src/routes/approvals.ts:159-237 | an approval and a denial that overlap leave the row DENIED and APPROVED as its only receipt |
| Gateway.KeySeparatesCalls | apps/gate/src/routes/gateway.ts:43-50 | equal keys mean equal caller, action and parameters, for every action name even with the separator in it, unless the two calls' own hashed texts collide |
| Gateway.BarsAreQuoted | apps/gate/src/routes/gateway.ts:44-46 | the separator can occur in the parameters' JSON text only inside a string literal |
| Gateway.ScanReadsOn | apps/gate/src/routes/gateway.ts:44-46 | how JSON text is read character by character: quotes open and close literals, a backslash in a literal takes the next character with it, a bar outside is refused |
| Gateway.Gateway.Execute | apps/gate/src/routes/gateway.ts:159-452 | replays exactly while an entry of the key has not expired; otherwise answers 200 or 502 for an execution, the code of a refusal or block, 500 for an exception, and keeps a success for 24 hours, a failure or block for 60 seconds (by its code), and a refusal, an exception or a failed cache write not at all |
| Gateway.ReplayStaysSpaced | apps/gate/src/routes/gateway.ts:161-168 | a replay keeps the spacing of all answers given so far |
| Gateway.FreshAnswerStaysSpaced | apps/gate/src/routes/gateway.ts:539-576 | so does a fresh answer, cached or not |
| Gateway.AnswersAreKept | apps/gate/src/routes/gateway.ts:161-168 | after a successful execution whose result was cached every request of the key within 24 hours gets 200 and its body and goes no further; after a failed one 502 for 60 seconds; after a block its code for the time of that code |
| Gateway.ExecutionsAreSpaced | apps/gate/src/routes/gateway.ts:539-576 | after an execution whose result was cached none of its key starts for 60 seconds, after a success for 24 hours |
| Gateway.SuccessesSpanDays | apps/gate/src/routes/gateway.ts:539-576 | any n + 1 cached successes of one key take at least n days |
| GatewayRace.ExecutionsPerMinute | apps/gate/src/routes/gateway.ts:159-452 | with at most k overlapping requests of a key, any minute holds at most k executions of it by requests that did not end with nothing cached |
| GatewayRace.MinuteBoundIsReached | apps/gate/src/routes/gateway.ts:159-452 | for every k a history with at most k overlapping requests of a key executes it k times within a minute |
| GatewayRace.ProtectedIff | apps/gate/src/routes/gateway.ts:551-572 | an entry that has not expired keeps its key from executing until it does, in every continuation, exactly when every request of the key in flight has executed already, and none is in flight or the entry has at most a minute left |
| GatewayRace.SuccessRunsAgainAfterAMinute | apps/gate/src/routes/gateway.ts:551-572 | with two overlapping requests a success held for 24 hours is replaced by an error, and the call runs again after 60 seconds |
| RateLimiter.RouteLimit | apps/gate/src/middleware/rate-limit.ts:28-37 | the limit by method and path: 5 for redeeming coupons, 100 for GitHub webhooks, 60 for gateway calls, 200 otherwise, each in 60 seconds |
| RateLimiter.RateLimiter.Hook | apps/gate/src/middleware/rate-limit.ts:41-72 | leaves alone exactly OPTIONS requests and paths outside the API; counts every other request under address, method and path, in a window of 60 seconds, and rejects it exactly when it is past the limit of its route; tied to the request function the history theorems are about |
| RateLimiter.RateLimiter.Sweep | apps/gate/src/middleware/rate-limit.ts:19-24 | afterwards exactly the entries that have not expired remain, unchanged |
| RateLimiter.HandleAgrees | apps/gate/src/middleware/rate-limit.ts:53-66 | two maps that differ only in expired entries answer alike, and stay so |
| RateLimiter.SweepIsInvisible | apps/gate/src/middleware/rate-limit.ts:19-24 | over every history, with sweeps anywhere, the answers are those of a limiter that never sweeps |
| RateLimiter.AdmissionsAreBounded | apps/gate/src/middleware/rate-limit.ts:49-71 | over every history and every half-open minute at most 2 max - 1 requests of one address to one route get through, counted or not, for every method but OPTIONS and every path of the API |
| RateLimiter.BoundIsReached | apps/gate/src/middleware/rate-limit.ts:49-71 | for every route a history admits exactly that many |
| RateLimiter.KeysSeparate | apps/gate/src/middleware/rate-limit.ts:45-50 | the map key determines address, method and path, though addresses and paths may hold colons |
| RateLimiter.CallersDoNotInterfere | apps/gate/src/middleware/rate-limit.ts:41-72 | the answers to one address on one route are those it would get if nobody else ever called |
| SseRewriter.LineEnds | apps/gate/src/routes/mcp-proxy.ts:130-133 | line starts and ends are at the four line terminators of ECMAScript |
| Strings.Spaces | apps/gate/src/routes/mcp-proxy.ts:130-133 | white space is that of ECMAScript, named by code point |
| SseRewriter.MatchAtSound | apps/gate/src/routes/mcp-proxy.ts:130-133 | what the matcher finds is a match of the regular expression |
| SseRewriter.MatchAtComplete | apps/gate/src/routes/mcp-proxy.ts:130-133 | every match of the regular expression at a position is the one the matcher finds |
| SseRewriter.OtherEventsUnchanged | apps/gate/src/routes/mcp-proxy.ts:129-135 | an event in which the pattern matches nowhere passes through unchanged |
| SseRewriter.FirstMatchReplaced | apps/gate/src/routes/mcp-proxy.ts:129-135 | otherwise only the first match up to its query is replaced, by the gate's own path |
| SseRewriter.EndpointPointsAtTheGate | apps/gate/src/routes/mcp-proxy.ts:129-135 | for every instance and session the endpoint event of an MCP server reaches the client with the path `/mcp/<instance>/messages` and the session kept |
| SseRewriter.ChunkStep | apps/gate/src/routes/mcp-proxy.ts:141-143 | finished parts plus buffer always are the split of all text read so far, also when a delimiter straddles a cut |
| SseRewriter.Pump | apps/gate/src/routes/mcp-proxy.ts:136-153 | for every way of cutting the text into chunks, what is written is the frames of the events of one split of the whole text |
| SseRewriter.PumpWith | apps/gate/src/routes/mcp-proxy.ts:136-153 | the same for every flush function |
| SseRewriter.WriteEvents | apps/gate/src/routes/mcp-proxy.ts:144-148 | writes one frame for each event that is not empty |
| SseRewriter.RenderedTextSplitsBack | apps/gate/src/routes/mcp-proxy.ts:129-153 | splitting the written text at blank lines gives back one part for each event written |
| SseRewriter.DownstreamSeesEveryEvent | apps/gate/src/routes/mcp-proxy.ts:129-153 | a downstream reader gets every upstream event, in order, rewritten and nothing else; only a final event cut off after its line feed loses that line feed |
| Csv.FieldReadsBack | apps/gate/src/routes/audit.ts:86-92 | a printed field read by section 2 of RFC 4180 gives back the field and leaves the rest |
| Csv.RecordReadsBack | apps/gate/src/routes/audit.ts:85-93 | so does a printed record |
| Csv.RoundTrip | apps/gate/src/routes/audit.ts:81-99 | reading the printed table gives back the table exactly when it has a row, no row is without fields, and no one-column blank row is last |
| Csv.HeaderLinePrints | apps/gate/src/routes/audit.ts:82-94 | the unquoted header line reads back as the header record |
| Csv.ReportColumns | apps/gate/src/routes/audit.ts:59-83 | the sixteen columns of a report, in order |
| Csv.CellsOfTable | apps/gate/src/routes/audit.ts:85-93 | a cell with a value is printed as it, and one without as an empty field |
| Csv.ReportReadsBack | apps/gate/src/routes/audit.ts:51-99 | every report with at least one receipt reads back as its 16 headers and its cells, null cells as empty fields |
| Shell.EscapedTextReads | apps/gate/src/engine/action-registry.ts:482-484 | inside the quotes escaped text adds exactly the original text to the word |
| Shell.QuotedWordReads | apps/gate/src/engine/action-registry.ts:482-484 | tokenising by section 2.2.2 of the POSIX Shell Command Language turns a quoted string into exactly that string and leaves the rest alone |
| Shell.UnsafeCharacters | apps/gate/src/engine/action-registry.ts:476-480 | the characters dropped are the listed ones, which are also those that the shell reader takes for special |
| Shell.RemovesOneByOne | apps/gate/src/engine/action-registry.ts:476-480 | dropping works character by character |
| Shell.TrimTakesBlanks | apps/gate/src/engine/action-registry.ts:476-480 | trimming takes white space off both ends and nothing else |
| Shell.SanitizedIsHarmless | apps/gate/src/engine/action-registry.ts:476-480 | sanitized text holds none of the unsafe characters |
| Shell.HarmlessTextIsKept | apps/gate/src/engine/action-registry.ts:476-480 | text without unsafe characters and outer blanks is not changed by sanitizing |
| Shell.CommandReads | apps/gate/src/engine/action-registry.ts:89-119 | a command of words, quoted and sanitized parts is cut into the tokens of its parts, in order |
| Shell.PrCreateSegments | apps/gate/src/engine/action-registry.ts:89-96 | the command text is that of its parts separated by blanks |
| Shell.PrCommentSegments | apps/gate/src/engine/action-registry.ts:114-119 | the same for the comment command |
| Shell.PrCreateReads | apps/gate/src/engine/action-registry.ts:89-96 | for every input the shell's tokens are the template's words with the title and the body as one intact word each, and the sanitized names cut at their blanks and line ends |
| Shell.PrCreateIsOneCommandIff | apps/gate/src/engine/action-registry.ts:89-96 | the text is one command exactly when no line end is left inside the sanitized repository, base and head |
| Shell.PrCreateReachesGhIntact | apps/gate/src/engine/action-registry.ts:89-96 | the title and the body are words of the `gh` command, intact, after their flags and in their places, exactly when the sanitized repository holds no line end; otherwise that command ends with the first line of the repository |
| Shell.PrCreateReadsAsWritten | apps/gate/src/engine/action-registry.ts:89-96 | with ordinary repository and branch names the shell sees exactly the words of the template with the title and body in their places |
| Shell.PrCommentReads | apps/gate/src/engine/action-registry.ts:114-119 | the tokens of the comment command, for every input |
| Shell.PrCommentReachesGhIntact | apps/gate/src/engine/action-registry.ts:114-119 | the text is exactly the one command of the template, with the body as one intact word, exactly when the sanitized repository holds no line end; otherwise the command ends before the body |
| Shell.LineEndCutsTheCommand | apps/gate/src/engine/action-registry.ts:476-480 | for every repository name of two ordinary lines `gh` gets the first line and neither title nor body, and there is a second command |
| Policy.GlobMeaning | apps/gate/src/utils/glob-match.ts:10-23 | a pattern matches itself, and otherwise only as a star, a stem with a star after it, or a stem with a star before it |
| Policy.MatchesMeaning | apps/gate/src/engine/policy.ts:57-87 | a rule fits a call exactly when its tool pattern does, its tier is `*` or the call's, its category is empty, `*` or the call's, and its argument pattern is empty or satisfied |
| Policy.InForceMeaning | apps/gate/src/engine/policy.ts:40-53 | the globals are in force without an instance, or for one whose rules are all disabled |
| Policy.ListingMeaning | apps/gate/src/engine/policy.ts:42-53 | the rules consulted are the enabled ones of that scope |
| Policy.ListingInForce | apps/gate/src/engine/policy.ts:42-53 | the rows scanned are the enabled rules of the scope in force: the instance's own, or the globals when it has none |
| Policy.FirstMatchDecides | apps/gate/src/engine/policy.ts:56-95 | the first matching row of a listing is a matching rule of least priority number among all rules in force |
| Policy.DeciderMeaning | apps/gate/src/engine/policy.ts:56-95 | the deciding rule is consulted and fits in every column, and comes no later than any other such rule |
| Policy.EvaluatePolicy | apps/gate/src/engine/policy.ts:19-111 | the agent checks in order; otherwise the decision of a rule whose tool, tier, category and arguments all fit, or, when none applies, APPROVE for WRITE and DESTRUCTIVE calls and ALLOW for others |
| Policy.SomeDecider | apps/gate/src/engine/policy.ts:40-111 | every call has a decision |
| Policy.OneDecider | apps/gate/src/engine/policy.ts:42-95 | with the priorities creation assigns the decision does not depend on the order the database gives equal rows |
| Policy.PolicyTable.Create | apps/gate/src/routes/policies.ts:40-112 | exactly when a request is refused as malformed or as a duplicate in tool, category, decision, tier and scope; otherwise one rule is added, numbered 10 or ten past the last of its scope, and distinct priorities stay distinct |
| PolicyRace.UninterruptedCreation | apps/gate/src/routes/policies.ts:84-106 | a creation without interruption is a read and an insert of the overlapping model, and numbers its rule ten past the last of its scope, or 10 in an empty one |
| PolicyRace.DistinctIffUndisturbed | apps/gate/src/routes/policies.ts:84-106 | from any table with distinct priorities on, the priorities are distinct exactly while no rule was inserted after another one of its scope had come in since it read its number |
| PolicyRace.SerialCreationsStayDistinct | apps/gate/src/routes/policies.ts:84-106 | when creations of one scope do not overlap, priorities are distinct in every state |
| PolicyRace.OverlapLeavesTheOrderToDecide | apps/gate/src/engine/policy.ts:42-95 | two creations that overlap leave an ALLOW and a DENY rule of equal priority, and each of them may decide every call |
| Policy.ScopeChangesOnFirstRule | apps/gate/src/engine/policy.ts:40-53 | a new rule changes the scope in force exactly when it is the first enabled rule of the instance asked about |
| Policy.SameScopeIsConservative | apps/gate/src/routes/policies.ts:84-106 | while the scope in force stays the same a new rule changes no call that some rule applied to |
| Policy.NewRuleDecidesTheRest | apps/gate/src/routes/policies.ts:84-106 | the other calls are decided by the new rule where it applies and by default elsewhere |
| Policy.CreationIsConservativeIff | apps/gate/src/routes/policies.ts:84-106 | creation changes no call that a rule applied to if and only if the scope in force stays the same or no enabled global rule could match anything |
| Policy.FirstInstanceRuleCanAllowWhatWasDenied | apps/gate/src/engine/policy.ts:40-53 | a call denied by a global rule is allowed once its instance gets a rule about something else |

## Left out

- A cap that holds between passes: resuming a paused run does not look at the caps, so they are stated for each pass, and in `ScheduleRace.dfy` for histories without resumes.
- Overlapping operations of the orchestrator: `Orchestrator.dfy` runs one operation after another with one clock reading each; what overlaps is in `RunLogRace.dfy`, `ScheduleRace.dfy`, `Capability.dfy` and `LoopDetection.dfy`. Two event appends of one run at the same instant are not modelled.
- Priorities outside P0, P1, P2, which the database would accept as text.
- The operation row: the 404 for an unknown operation and the write of `in_progress` after creation.
- A rollback: a run row whose event append fails stays written in the source; in `Orchestrator.dfy` both writes of a transition succeed, and in `RunLogRace.dfy` such an event is lost.
- Receipts with equal creation times: creation times are strictly increasing, and every ledger is grown by `createReceipt` alone.
- The run of a receipt: `createReceipt` does not store one, so the per-run selections of the case file are arbitrary selections.
- Gateway.Gateway.Execute: requests come one after another; overlapping requests are in `GatewayRace.dfy`.
- RateLimiter.CallersDoNotInterfere: for addresses without a slash and methods without slash or colon, which is what the server's socket addresses and methods are.
- Capability: the token's encoding, signature check and key rotation are an optional set of claims; the organisation column and the `capability.expired` event are left out.
- Policy.EvaluatePolicy: the JSON comparison of argument patterns is a parameter, and so are the answers of the two queries; changing, deleting and importing rules is not modelled, and `PolicyRace.dfy` starts with requests that passed the duplicate check.
- Expiry of approvals: no code here writes EXPIRED, so it is a step of the environment.
- The SSE stream: byte decoding, carriage-return line ends and stream errors; a chunk is the text the decoder gave.
- Shell: token recognition only; pathname expansion of `*` and `?` in unquoted parts, and the outer quoting of the container command line, are not modelled.
- Csv: how cell values become text (dates, numbers, descriptions) is left to the caller.
- The sample check of hash shapes in the audit route, evidence bundles, artifact manifests and content hashes of the case file.
- Scope, trust, cost and budget rules, risk and flag classifiers, simulation and model calls, routing, authentication, the event bus, container execution, the command line and the user interface: they would add only easy members or have no law of their own.
