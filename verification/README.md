# Crisis Mosaic: models and proofs

Crisis Mosaic is a crisis-report backend. Its writes go through one process lock and SQLite
transactions; its deliveries go through an outbox, a worker and websockets. The modules here model
the parts of it whose correctness depends on several functions together, as state machines over
in-memory tables whose rows are named by position, and prove what every run of them keeps. Where
the program changes rows step by step, a class holds the rows and each method, loop included, is
proved to compute the step that the theorems speak of.

| file | what it models |
|---|---|
| `Realtime.dfy` | the hub, a connection's register / snapshot / replay / drain / send path, the publisher |
| `RealtimeAudience.dfy` | whom a row is for, and who gets it |
| `RealtimeSteps.dfy` | what the hub and a handler do to a connection |
| `RealtimeRepeats.dfy` | what the sender sends twice, and when |
| `Outbox.dfy` | the worker's publishing batch, with commits in between |
| `Events.dfy` | event numbering under stale reads, data and map revisions, command-brief staleness |
| `Conflicts.dfy` | conflict cases, versioned evidence, fragments, analyses; every transaction on them |
| `Facts.dfy` | the version chain of a fact |
| `ConflictInvariants.dfy` | what each transaction keeps: sound evidence rows, the revision as a stamp of the evidence, sound reconciliation, linear facts |
| `ConflictRuns.dfy` | the theorems about whole runs of these transactions |
| `ConflictDetection.dfy` | a detected contradiction is on record and survives reconciliation |
| `ConflictFreshness.dfy` | what the staleness mark of an analysis is worth |
| `ConflictCases.dfy` | how a case leaves "resolved", and a second decision without reopening |
| `ConflictDecisions.dfy` | what a decision and a reopening do to fragments, cases and facts |
| `ConflictSteps.dfy` | what each step on conflicts does, in terms of rows and fields |
| `ConflictReports.dfy` | the fragments of invalid and deleted reports |
| `ConflictExamples.dfy` | short runs from the empty tables where a property fails |
| `ConflictSession.dfy` | the same steps as loops over rows updated in place |
| `BlindSpots.dfy`, `BlindSpotSession.dfy` | the automatic life of blind spots, as steps and as loops |
| `BlindSpotSteps.dfy` | what each step does to a spot or a fragment |
| `Addresses.dfy` | the trimming and the normalising of a report's address |
| `Idempotency.dfy` | reserve / finish / release of idempotency keys |
| `Jobs.dfy` | the background job loop: claim, lease, retry, cancel, restart |
| `RefreshChain.dfy` | refresh-session rotation and device revocation |
| `Paging.dfy` | keyset paging of the operator, resident and fact lists |
| `FramePacking.dfy` | round-robin frame packing under a byte budget |
| `RateLimiter.dfy` | the sliding-window limiter |
| `Answers.dfy` | answers to directed questions and the consensus that resolves a spot |
| `Options.dfy` | the optional value |

`dafny verify dfyconfig.toml` checks the whole project.

## What the models show to be false, or true only under a condition

- A replay can lose a row exactly when the clock stepped back to stamp it (`Realtime.ReplayCoversIff`, `Realtime.ClockStepBackLosesRow`).
- A report without coordinates whose address normalises to nothing gets one more blind spot each time its job runs (`BlindSpots.RerunChangesNothingIff`). The request schema refuses an empty or blank address, but trims with Unicode's White_Space (as the trim of its validation library does) where detection uses Python's `split`, which also drops U+001C to U+001F: an address of these alone is accepted (`Addresses.BlankAcceptedIff`).
- An answer write, taken whole, can leave an open automatic blind spot without a live origin (`BlindSpots.PutAnswerLiveIff` gives the exact condition, `BlindSpots.AnswerStrandsSpot` a run).
- A holder that outlives its idempotency record answers for another request, because the record is reused under its id, and responses are then stored less than an expiry apart (`Idempotency.OneHolderIffOnTime`, `Idempotency.SpacedAfterIff`).
- The wait a rate-limited caller is told is rounded down and may be too short (`RateLimiter.WaitSufficesIff`).
- Job attempts can exceed the limit, exactly by claims of a job still marked running on its last attempt (`Jobs.PassesLimitIff`, `Jobs.CrashesOvershoot`).
- Two questions on one blind spot can undo each other, exactly when their answers decide differently (`Answers.AgreesWithOtherIff`, `Answers.SecondQuestionReopens`).
- An analysis stays unmarked when its case is decided, and only then, although the decision moves the revision on (`ConflictFreshness.OutdatedUnmarkedIff`, `ConflictExamples.DecisionLeavesUnmarked`).
- A resolved case can be decided again without being reopened, by asking for an analysis first (`ConflictCases.SlipsOutIffAnalyzed`, `ConflictExamples.DecidedTwice`).
- Editing a report that is marked invalid returns its fragment to conflict detection, and deciding a case returns the withdrawn fragments it cites (`ConflictReports.StaysOutIff`, `ConflictExamples.InvalidReportReturns`).
- A fact list paged with an offset skips rows on every page (`Paging.CompleteIffNoOffset`).
- The comment in realtime.py:251 says duplicates already replayed are discarded; the drain does that, the sender after it does not, and sends a row again exactly when the row is in the snapshot or a copy of it was sent already, which takes a failed publish (`RealtimeRepeats.SentAgainIff`, `RealtimeRepeats.ReplayedRowIsSentAgain`). The delivery theorem is about first deliveries.

## Model

| member | source | states |
|---|---|---|
| `Realtime.DeliveryGuarantee` | src/crisis_mosaic/realtime.py:194-260 | In every interleaving of commit, batch read, publish (which may fail after some targets), register, snapshot, window check, replay, drain and send: a connection past its snapshot and still open has every visible event above its cursor, up to the larger of the snapshot and the last fully published row, sent, queued or still due in the replay; first deliveries strictly increase, none is skipped over, and nothing invisible to the actor is sent or queued |
| `Realtime.RunKeepsInv` | src/crisis_mosaic/realtime.py:187-260 | The invariant behind it, kept by every step of every run |
| `RealtimeAudience.ResidentsGetOnlyTheirs` | src/crisis_mosaic/realtime.py:41-57 | In every run, for every connection, open or closed: a row a resident was sent, is due from the replay or has queued is public or owned by that resident; a question put to a place is in no resident's, and one put to regions only in those of residents of one of them |
| `RealtimeAudience.NothingOfTheirsIsMissing` | src/crisis_mosaic/realtime.py:41-57 | In every run, past the snapshot: staff have every row above the cursor up to the snapshot and the last row published, residents every such row that is public or their own and no question, and questions not put to a place or to other regions |
| `Realtime.ClientMissesNothing` | src/crisis_mosaic/realtime.py:146-149 | Once the sender has emptied the queue, a client that ignores envelopes not above its last one holds exactly the visible events after its cursor, although the sender itself filters no duplicates |
| `Realtime.AcceptedIsComplete` | src/crisis_mosaic/realtime.py:253-260 | In-order first deliveries are what such a client needs: it takes each event above the cursor once, in ascending order |
| `Realtime.ReplayCoversIff` | src/crisis_mosaic/realtime.py:200-250 | For an actor, every replay the window check lets through, whatever its cursor, its cutoff and its snapshot, contains all it owes if and only if no row the actor sees was stamped earlier than a row before it |
| `Realtime.ClockStepBackLosesRow` | src/crisis_mosaic/realtime.py:206-250 | A concrete log whose clock steps back passes the window check and loses a row in the replay |
| `Realtime.ReplayRows` | src/crisis_mosaic/realtime.py:235-249 | The replayed rows are exactly the visible ones above the cursor, up to the snapshot and inside the window, ascending |
| `Realtime.OldestSince` | src/crisis_mosaic/realtime.py:206-211 | The oldest available sequence is the least one inside the window |
| `RealtimeSteps.OpenAreRegistered` | src/crisis_mosaic/realtime.py:65-92 | In every run the hub lists exactly the open connections, and no queue is longer than its capacity |
| `RealtimeSteps.TurnedAwayIff` | src/crisis_mosaic/realtime.py:206-226 | A client is turned away if and only if it names a sequence behind the snapshot and no row up to the one after its cursor is inside the window |
| `Realtime.DrainStepsAreNewer` | src/crisis_mosaic/realtime.py:251-259 | The drain sends, in order, exactly the queued envelopes newer than the snapshot, and empties the queue |
| `Realtime.Connection.Drain` | src/crisis_mosaic/realtime.py:253-259 | The drain loop on the connection object computes that |
| `RealtimeRepeats.SentAgainIff` | src/crisis_mosaic/realtime.py:251-260 | In every run, for what the sender takes next above the cursor: it was sent before if and only if it is at or below the snapshot, or the run has put it into the queue more often than it is still there; the second only if publishing it has failed before |
| `RealtimeRepeats.RepeatIff` | src/crisis_mosaic/realtime.py:146-149 | In every run it was sent before if and only if something at least as new was sent: remembering one number would do to discard it |
| `RealtimeRepeats.CopiesAreOffers` | src/crisis_mosaic/realtime.py:77-92 | Conservation: every copy of a row above the snapshot that a run puts into a connection's queue is sent once or still waits there |
| `RealtimeRepeats.ReplayedRowIsSentAgain` | src/crisis_mosaic/realtime.py:251-260 | A run from the empty hub, with no failure: a replayed row is published after the drain and sent again |
| `Realtime.RealtimeHub.Publish` | src/crisis_mosaic/realtime.py:77-92 | One publish appends the envelope to every registered queue of the incident that has room and whose actor it is for, and to no other, and closes and removes exactly those that are full; a row for residents is public or the resident's own, and a question goes to no resident if it is put to a place and only to residents of its regions if it is put to regions |
| `Realtime.RealtimeHub.Add` | src/crisis_mosaic/realtime.py:65-68 | Registering adds the one connection |
| `Realtime.RealtimeHub.Remove` | src/crisis_mosaic/realtime.py:70-75 | Removing drops the one connection, or nothing |
| `Outbox.PublishedInOrder` | src/crisis_mosaic/workers.py:363-400 | Over any run of commits, batch reads, single publications, failures and crashes, with commits between the read of a batch and its last row: the published rows of each incident are its earliest ones |
| `Outbox.PublishingKeepsOrder` | src/crisis_mosaic/workers.py:363-400 | One batch of the worker's loop, cut short anywhere by a failure, keeps that |
| `Outbox.BatchExists` | src/crisis_mosaic/workers.py:365-374 | The query for the first 100 unpublished rows has an answer for every table without repeated numbers |
| `Outbox.LoopIsRun` | src/crisis_mosaic/workers.py:376-400 | What the worker's loop makes of the table is what a run of single publications, up to the first failure, makes of it |
| `Outbox.OutboxTable.PublishBatch` | src/crisis_mosaic/workers.py:376-400 | The batch loop publishes exactly the rows before the first failing handler call, counts one attempt on each of them and on the failing row, and leaves all others; it returns how many were published, and is a run of the single publications that the theorem on order speaks of |
| `Events.GapFreeNumbering` | src/crisis_mosaic/services/events.py:57-60 | With any interleaving of loading the incident (before or after the lock), emitting, committing and aborting, the committed sequences of an incident are exactly 1..event_sequence |
| `Events.StaleWriterAborts` | src/crisis_mosaic/models.py:558 | A writer runs into the unique (incident, sequence) constraint exactly when its copy of the incident is out of date |
| `Events.CommitCounts` | src/crisis_mosaic/services/events.py:71-81 | A commit moves the data revision by one exactly when one of its events touches data, the map revision by one exactly when one touches the map, however many such events it has; a commit that collides changes nothing |
| `Events.EveryMapRevisionAnnounced` | src/crisis_mosaic/services/events.py:170-201 | In every run the committed map invalidations are those of map revisions 1, 2, ... up to the incident's, each once and in order |
| `Events.CommitAnnouncesMap` | src/crisis_mosaic/services/events.py:71-81 | A commit that lands brings exactly one map invalidation if one of its main rows is of a report, blind spot, fact, conflict or fragment, with the map revision it leaves, and none otherwise |
| `Events.CommitTellsStale` | src/crisis_mosaic/services/events.py:112-169 | Every brief that a landing commit turns stale, other than by completing it, has its own row among those committed |
| `Events.EmitTellsStale` | src/crisis_mosaic/services/events.py:112-169 | An emit of anything but an analysis marks exactly the briefs its query found, and adds a row for each of them and for no other |
| `Events.BriefsAreCurrent` | src/crisis_mosaic/services/events.py:112-130 | In every run of enqueue, start, complete, fail, retry and emit steps, a succeeded brief that is not stale has the incident's present data revision as its input version |
| `Events.RunKeepsInv` | src/crisis_mosaic/services/ai.py:1830-1842 | The invariant behind both, kept by every step |
| `Events.EmitKeepsTx` | src/crisis_mosaic/services/events.py:112-201 | One emit keeps the transaction numbered without gaps and leaves no brief of the transaction fresh by mistake, even though the query may miss what is not yet flushed |
| `Events.CompleteKeepsTx` | src/crisis_mosaic/services/ai.py:1918-1938 | Completing a brief marks it stale exactly when the data moved meanwhile |
| `Events.EmitKeepsMarks` | src/crisis_mosaic/services/events.py:71-81 | The only main row an emit adds is its own |
| `Events.EventSession.EmitEvent` | src/crisis_mosaic/services/events.py:44-202 | The emitting code, changing counters, marks, rows and briefs in place, computes the emit step |
| `Events.EventSession.MarkBriefsStale` | src/crisis_mosaic/services/events.py:127-169 | The brief loop marks each brief found and adds one numbered row for each |
| `Events.EventSession.AddMainRow` | src/crisis_mosaic/services/events.py:59-111 | The main row takes the next sequence, with the revision bumps once per transaction |
| `ConflictRuns.RevisionStampsEvidence` | src/crisis_mosaic/services/conflicts.py:213-262 | Over all runs of report, answer, evidence, reopen, decision and analysis transactions: two committed states of a case with equal revision have the same current evidence ids, and the revision never falls |
| `ConflictRuns.DecisionSawTheEvidence` | src/crisis_mosaic/services/conflicts.py:594-634 | A decision that cites an analysis disposes of exactly the evidence ids that analysis was given |
| `ConflictDecisions.DecisionSettlesFragments` | src/crisis_mosaic/services/conflicts.py:719-726 | In every reachable state a decision leaves the fragment of each current fragment row accepted if and only if the row is disposed as accepted, and normal if and only if it is not, with one new revision and nothing else changed |
| `ConflictDecisions.DecisionTouchesNothingElse` | src/crisis_mosaic/services/conflicts.py:594-726 | It changes no other fragment, no evidence, no analysis and no other case, and resolves its own at the next revision with exactly the rows accepted |
| `ConflictDecisions.DecisionWritesFact` | src/crisis_mosaic/services/conflicts.py:636-695 | The fact's new current version accepts exactly the rows disposed as accepted, says what the decision says, follows the version before at the next revision, and other facts keep their records |
| `ConflictDecisions.ReopeningReviews` | src/crisis_mosaic/routers/conflicts.py:776-802 | Reopening by hand moves the case on, forgets its resolution, marks its analyses and puts its fact under review |
| `ConflictDecisions.DetectionReviews` | src/crisis_mosaic/services/conflicts.py:370-405 | In every reachable state, a report written with a value that contradicts others near a resolved case leaves that case reopened, at a later revision, and its fact under review |
| `ConflictRuns.OneCurrentRowPerSource` | src/crisis_mosaic/services/conflicts.py:219-262 | Every reachable case has at most one current row per (kind, source id), although the branch for an existing row clears nothing |
| `ConflictInvariants.CitedAddsNothing` | src/crisis_mosaic/services/conflicts.py:384-402 | Citing live fragments again at revisions already on record changes nothing: no inactive row of a live fragment's present revision exists to be switched back on |
| `ConflictInvariants.NoNewSnapshot` | src/crisis_mosaic/services/conflicts.py:396-402 | So a case that is not told to move on keeps its evidence |
| `ConflictInvariants.FindOrOpenStamps` | src/crisis_mosaic/services/conflicts.py:366-405 | Finding or opening a case moves a case on whenever it changes the evidence |
| `ConflictInvariants.AddEvidenceKeepsRows` | src/crisis_mosaic/services/conflicts.py:213-262 | Adding evidence keeps: each row cites a revision its source has reached, current rows are the latest of their source, inactive rows of a present revision belong to withdrawn fragments |
| `ConflictInvariants.AddEvidenceElsewhere` | src/crisis_mosaic/services/conflicts.py:213-262 | Evidence added to one case changes no other case |
| `ConflictInvariants.SupersedeKeepsRows` | src/crisis_mosaic/services/report_observations.py:407-433 | So does clearing a changed fragment's rows in every case |
| `ConflictInvariants.SupersedeElsewhere` | src/crisis_mosaic/services/report_observations.py:425-433 | Only the cases reported as affected lose evidence |
| `ConflictInvariants.EditReportKeeps` | src/crisis_mosaic/services/report_observations.py:936-1077 | An edited report: invalidation, detection and reconciliation together keep the whole invariant and the stamp |
| `ConflictInvariants.WithdrawReportKeeps` | src/crisis_mosaic/services/report_observations.py:1080-1151 | A deleted or invalidated report does |
| `ConflictInvariants.PutAnswerKeeps` | src/crisis_mosaic/routers/questions.py:814-967 | An answer write does |
| `ConflictInvariants.AppendEvidenceKeeps` | src/crisis_mosaic/routers/conflicts.py:711-728 | Appending evidence by hand does |
| `ConflictInvariants.ReopenCaseKeeps` | src/crisis_mosaic/routers/conflicts.py:776-802 | Reopening does |
| `ConflictInvariants.DecideKeeps` | src/crisis_mosaic/services/conflicts.py:594-726 | Deciding does |
| `ConflictInvariants.EnqueueKeeps` | src/crisis_mosaic/services/ai.py:1480-1536 | Enqueueing an analysis does, whether a finished one is reused or a new one is stamped with the revision |
| `ConflictInvariants.AnalysisKeeps` | src/crisis_mosaic/services/ai.py:1918-1952 | Starting, completing, failing and retrying an analysis do |
| `ConflictRuns.RunKeeps` | src/crisis_mosaic/services/conflicts.py:213-262 | The invariant and the stamp over whole runs |
| `ConflictInvariants.ReconcileSound` | src/crisis_mosaic/services/report_observations.py:462-652 | Whatever the order of the affected cases: each ends finished or still disputed; the loop resolves exactly the unfinished ones that are no longer disputed; and a fragment cited by a case it resolved is still in conflict only if an unfinished case holds it as current evidence |
| `ConflictSteps.JudgingIs` | src/crisis_mosaic/services/report_observations.py:477-592 | Re-judging one case resolves it if and only if it was unfinished and is not disputed, moves its revision by one exactly if it lost rows and had not moved since or is resolved without having lost any, and puts its fact under review exactly if the current version accepts a lost row |
| `ConflictSteps.ResolvingFrees` | src/crisis_mosaic/services/report_observations.py:594-627 | Resolving a case automatically frees exactly the fragments in conflict that a row of it cites and no other unfinished case has as current evidence |
| `ConflictInvariants.ReconcileQuietly` | src/crisis_mosaic/services/report_observations.py:477-482 | Reconciling changes no evidence, revisions only grow, and a case that lost rows ends above the revision it had before the loss |
| `ConflictInvariants.ReconcileElsewhere` | src/crisis_mosaic/services/report_observations.py:472-476 | A case that is not listed, or was seen before, keeps its row |
| `ConflictInvariants.AutoResolveKeepsFreed` | src/crisis_mosaic/services/report_observations.py:602-627 | Resolving a later case of the list frees what it alone held, so the promise made for an earlier one stands |
| `ConflictRuns.WithdrawalIsFollowedUp` | src/crisis_mosaic/services/report_observations.py:1095-1130 | In any reachable state, withdrawing a report clears its rows everywhere, every case that lost one is judged again, and a fact that accepted one of them ends under review |
| `ConflictReports.EditIsFollowedUp` | src/crisis_mosaic/services/report_observations.py:936-1068 | In any reachable state, writing a report again leaves the rows of its earlier revisions out of every case; a case that lost one ends finished exactly if it was finished and the new value does not take it up, or is no longer disputed; one resolved by this keeps no fragment in conflict that no unfinished case holds; and a fact that accepted a lost row ends under review |
| `ConflictRuns.AcceptedLossIsReviewed` | src/crisis_mosaic/services/report_observations.py:508-533 | The last part, for any list of cases |
| `ConflictRuns.FactsStayLinear` | src/crisis_mosaic/services/conflicts.py:510-549 | Over all runs every fact's versions form one chain and earlier versions stay as written |
| `ConflictDetection.DetectionRecords` | src/crisis_mosaic/services/conflicts.py:408-505 | A detected conflict is on record: its fragments are in conflict and cited at their present revision, the current evidence contradicts itself across sources, the case is not resolved |
| `ConflictSteps.ConflictIsTaken` | src/crisis_mosaic/services/conflicts.py:345-405 | A conflict goes to the case named, or to a new one under its key: a resolved case is reopened, an unfinished one keeps its status and moves on if and only if one of the fragments is cited at its present revision for the first time; other cases and fragments stay |
| `ConflictDetection.DetectionStands` | src/crisis_mosaic/services/report_observations.py:1051-1068 | Reconciling every affected case in the same transaction leaves each fragment of the contradiction in conflict and cited at its present revision by the same unresolved, disputed case |
| `ConflictDetection.ContradictionIsOpened` | src/crisis_mosaic/services/report_observations.py:936-1077 | In every run, a report written with a value that contradicts others, new or edited, ends with each of them in conflict and as current evidence of one unresolved case whose evidence contradicts itself |
| `ConflictDetection.AddEvidenceCites` | src/crisis_mosaic/services/conflicts.py:213-262 | Every reference added ends as current evidence of its source's present revision |
| `ConflictDetection.RunKeepsSnapshots` | src/crisis_mosaic/services/conflicts.py:246-256 | In every run a row of a fragment's present revision carries that fragment's claim and source identity |
| `ConflictDetection.ApartIdentities` | src/crisis_mosaic/services/report_observations.py:436-443 | Fragments that do not share a source have different evidence identities |
| `ConflictFreshness.UnmarkedIsCurrent` | src/crisis_mosaic/services/conflicts.py:265-280 | In every run a succeeded analysis not marked stale was made for its case's present revision, unless and only unless a decision on the case was accepted after the analysis was enqueued; the case then still stands decided by an operator |
| `ConflictFreshness.OutdatedUnmarkedIff` | src/crisis_mosaic/services/conflicts.py:594-726 | A step leaves a succeeded, current, unmarked analysis unmarked and out of date if and only if it is an accepted decision on its case |
| `ConflictExamples.DecisionLeavesUnmarked` | src/crisis_mosaic/services/conflicts.py:594-726 | Such a run from the empty tables |
| `ConflictCases.SlipsOutIffAnalyzed` | src/crisis_mosaic/services/ai.py:1480-1515 | In every reachable state: a step takes a resolved case out of "resolved" without moving its revision if and only if it is an accepted request to analyse that case |
| `ConflictExamples.DecidedTwice` | src/crisis_mosaic/services/ai.py:1510-1515 | Such a run from the empty tables: two decisions, two fact versions, no reopening |
| `ConflictCases.RunKeepsOpen` | src/crisis_mosaic/routers/conflicts.py:776-802 | No transaction ever gives a case the status "closed" |
| `ConflictReports.StaysOutIff` | src/crisis_mosaic/services/report_observations.py:291-312 | A step leaves the fragment of every invalid or deleted report withdrawn if and only if it is neither an edit of an invalid report that does not restore it nor an accepted decision on a case citing such a fragment |
| `ConflictReports.RunStaysOut` | src/crisis_mosaic/services/report_observations.py:291-312 | So does every run without those steps |
| `ConflictReports.InvalidReportDisputes` | src/crisis_mosaic/routers/reports.py:444-610 | In every run: an invalid report edited, but not restored, to contradict others ends in dispute with each of them, and still invalid |
| `ConflictExamples.InvalidReportReturns` | src/crisis_mosaic/routers/reports.py:444-610 | Such a run from the empty tables |
| `ConflictReports.DisposeRevives` | src/crisis_mosaic/services/conflicts.py:719-726 | A decision takes every fragment its case cites as current evidence out of "withdrawn", and touches no other |
| `ConflictFreshness.ApplyFresh` | src/crisis_mosaic/services/ai.py:1925-1937 | Each transaction keeps that: what moves a case on marks its analyses, and a completion marks one that is late |
| `ConflictFreshness.ReconcileMarks` | src/crisis_mosaic/services/report_observations.py:477-592 | Reconciling marks the analyses of every case it moves on |
| `Facts.AppendKeepsLinear` | src/crisis_mosaic/services/conflicts.py:648-706 | Appending a version to a record keeps every chain linear and changes earlier versions at most by ending them |
| `Facts.ReviewKeepsLinear` | src/crisis_mosaic/services/conflicts.py:510-549 | Putting a fact under review does, and leaves its record under review |
| `Facts.VerdictKeepsLinear` | src/crisis_mosaic/services/conflicts.py:648-706 | Recording a decision under the expected fact revision does |
| `Facts.History` | src/crisis_mosaic/services/conflicts.py:648-706 | The versions of a key, oldest first, each exactly once |
| `ConflictSession.Session.AddAll` | src/crisis_mosaic/services/conflicts.py:213-262 | The evidence loop, reference by reference in place, computes the evidence function |
| `ConflictSession.Session.AddReference` | src/crisis_mosaic/services/conflicts.py:226-261 | One reference: look up, switch on, or clear the previous rows and add |
| `ConflictSession.Session.ClearPrevious` | src/crisis_mosaic/services/conflicts.py:235-246 | The loop that clears previous rows |
| `ConflictSession.Session.MarkAnalysesStale` | src/crisis_mosaic/services/conflicts.py:265-280 | The loop that marks a case's analyses |
| `ConflictSession.Session.FindOrOpenConflict` | src/crisis_mosaic/services/conflicts.py:345-405 | Finding, reopening or opening a case and giving it the fragments |
| `ConflictSession.Session.ReopenCase` | src/crisis_mosaic/routers/conflicts.py:796-802 | Reopening in place |
| `ConflictSession.Session.InvalidateFragmentEvidence` | src/crisis_mosaic/services/report_observations.py:407-433 | The invalidation loop clears the fragment's current rows and returns exactly the cases that lost one |
| `ConflictSession.Session.ReleaseFragments` | src/crisis_mosaic/services/report_observations.py:594-627 | The release loop of an automatic resolution |
| `ConflictSession.Session.NoteLostRows` | src/crisis_mosaic/services/report_observations.py:478-549 | What losing rows does to the case, its analyses and its fact |
| `ConflictSession.Session.ReconcileCase` | src/crisis_mosaic/services/report_observations.py:477-627 | One turn of the reconcile loop with its early exits |
| `ConflictSession.Session.ReconcileConflicts` | src/crisis_mosaic/services/report_observations.py:472-476 | The reconcile loop over the list, each case once |
| `ConflictSession.Session.DisposeFragments` | src/crisis_mosaic/services/conflicts.py:719-726 | The loop that settles the fragments of a decided case |
| `ConflictSession.Session.DecideConflict` | src/crisis_mosaic/services/conflicts.py:594-726 | A decision is accepted exactly under its checks, and then does exactly what the decision step says |
| `BlindSpots.OriginsStayLive` | src/crisis_mosaic/services/report_observations.py:737-933 | In every run whose answer writes are harmless, each open or reopened automatic spot names an origin that is active and still says "unknown" |
| `BlindSpots.StepLiveIff` | src/crisis_mosaic/services/report_observations.py:737-1315 | One step keeps that if and only if it is harmless; only an answer write can fail to be |
| `BlindSpots.AnswerStrandsSpot` | src/crisis_mosaic/routers/questions.py:833-971 | A run from the empty tables in which an answer write breaks it: a spot handed over to an answer's fragment, which is then answered again where one answer is too few |
| `BlindSpots.PutAnswerLiveIff` | src/crisis_mosaic/routers/questions.py:833-971 | The whole answer write, the fragment and the settling of its question's spot, keeps it if and only if, after the write, no other open automatic spot rests on an answer that is no longer "unknown", and the question's own spot, if it is automatic and no consensus resolves it, has a standing origin |
| `BlindSpots.EditReportLive` | src/crisis_mosaic/services/report_observations.py:936-1077 | An edited or restored report keeps it, whatever the edit says |
| `BlindSpots.DetectLive` | src/crisis_mosaic/services/report_observations.py:1154-1293 | A detection job keeps it, however late |
| `BlindSpots.RevisedLive` | src/crisis_mosaic/services/report_observations.py:762-918 | Re-judging one spot after its origin or resolver changed keeps it |
| `BlindSpots.HandoverIsSound` | src/crisis_mosaic/services/report_observations.py:793-918 | A spot is handed on only to an active fragment of its key at its place with the claim it is resolved by, and ends, or keeps a resolver that no longer says so, only when none is left |
| `BlindSpotSteps.OpenSpotRevised` | src/crisis_mosaic/services/report_observations.py:862-911 | An open spot whose origin changed stays if the origin still says "unknown" there, takes its claim if that is definite, is handed to another live fragment that says "unknown" of its key at its place, and ends if and only if there is none |
| `BlindSpotSteps.ResolvedSpotRevised` | src/crisis_mosaic/services/report_observations.py:757-862 | A resolved spot whose resolver changed stays if the resolver still says so there, takes the claim of another live fragment that is definite there, and opens again if there is none and its origin still says "unknown" |
| `BlindSpots.NoDuplicateSpots` | src/crisis_mosaic/services/report_observations.py:1226-1293 | In every run two spots made by detection with one key never lie at one place (for any symmetric nearness) |
| `BlindSpots.RerunChangesNothingIff` | src/crisis_mosaic/services/report_observations.py:1226-1293 | Running a detection job again right away changes nothing if and only if the job finds no gap or the report has coordinates or a written address |
| `BlindSpots.WrittenAddressNeverDuplicates` | src/crisis_mosaic/services/report_observations.py:1226-1293 | With a written address, whatever the coordinates, it never changes anything |
| `Addresses.BlankAcceptedIff` | src/crisis_mosaic/schemas/reports.py:78-81 | The request schema accepts an address that detection normalises to nothing if and only if every character of it is white space to Python's split, at least one is a separator U+001C to U+001F, and the trimmed text has at most 300 characters |
| `Addresses.TrimNormalised` | src/crisis_mosaic/services/report_observations.py:153-154 | Trimming an address first does not change what it normalises to |
| `Addresses.SeparatorIsAccepted` | src/crisis_mosaic/schemas/reports.py:78-81 | One such address |
| `BlindSpots.BlankAddressDuplicates` | src/crisis_mosaic/services/report_observations.py:207-208 | A job that finds a gap for a report without either adds two identical spots when run twice |
| `BlindSpots.DetectionLeavesASpot` | src/crisis_mosaic/services/report_observations.py:1181-1293 | A due job that finds a gap leaves a spot there that is open or was made by an operator |
| `BlindSpots.ConcreteReportClosesGaps` | src/crisis_mosaic/services/report_observations.py:655-722 | A concrete report leaves no open automatic spot of its key at its place |
| `BlindSpots.ConcreteReportSparesOthers` | src/crisis_mosaic/services/report_observations.py:655-691 | A concrete report, new or edited, leaves every spot as it is that no detection made, or that is of another key or at another place, and that the report neither opened nor resolved |
| `BlindSpots.ConcreteReportResolves` | src/crisis_mosaic/services/report_observations.py:692-702 | It resolves each open spot of detection of its key at its place, with itself as resolver and its claim, or "conflicting", as outcome |
| `BlindSpots.OutdatedJobDoesNothing` | src/crisis_mosaic/services/report_observations.py:1168-1178 | A job of a revision the report has left does nothing |
| `BlindSpots.StaysOutIff` | src/crisis_mosaic/services/report_observations.py:291-312 | A step leaves the fragment of every deleted or invalid report withdrawn if and only if it is neither an edit of an invalid report that does not restore it nor a conflict decision on such a fragment; a fragment brought back stays inactive for blind spots |
| `BlindSpots.SameLocationSymmetric` | src/crisis_mosaic/services/report_observations.py:167-208 | The place test is symmetric when nearness is |
| `BlindSpots.FirstReplacement` | src/crisis_mosaic/services/report_observations.py:793-833 | The first replacement is found whenever there is one |
| `BlindSpots.FirstCovering` | src/crisis_mosaic/services/report_observations.py:1226-1255 | The first spot of the key at the place is found whenever there is one |
| `BlindSpotSession.Session.DeactivateAutomaticSpots` | src/crisis_mosaic/services/report_observations.py:737-933 | The loop over spots, with its early exits, re-judges every spot |
| `BlindSpotSession.Session.ReviseSpot` | src/crisis_mosaic/services/report_observations.py:757-862 | One spot of that loop |
| `BlindSpotSession.Session.ReviseOrigin` | src/crisis_mosaic/services/report_observations.py:862-911 | The part for an open spot whose origin changed |
| `BlindSpotSession.Session.ResolveAutomaticSpots` | src/crisis_mosaic/services/report_observations.py:655-722 | The loop that resolves spots a concrete report answers |
| `BlindSpotSession.Session.RunDetection` | src/crisis_mosaic/services/report_observations.py:1154-1293 | The detection job with its guards |
| `Idempotency.AtMostOnce` | src/crisis_mosaic/middleware.py:153-253 | In every run where no holder outlives its record's expiry: a key has at most one holder, and two stored responses of one key lie at least a full expiry apart |
| `Idempotency.ReplaysExactly` | src/crisis_mosaic/middleware.py:189-208 | After a finish, whatever other requests do, every reserve before the expiry returns exactly the stored status and body, or a conflict if the request differs, changes no row, and a release does nothing |
| `Idempotency.ReleaseFreesKey` | src/crisis_mosaic/middleware.py:220-226 | In every run, a released reservation leaves its key free for any next request at once, while a lost one keeps it in progress until its expiry |
| `Idempotency.StepKeepsInv` | src/crisis_mosaic/middleware.py:153-253 | Each reserve, finish, release, lost holder and in-transaction request keeps the protocol's invariant |
| `Idempotency.TransactKeepsInv` | src/crisis_mosaic/services/idempotency.py:16-75 | The form inside the business transaction does |
| `Idempotency.OneHolderIffOnTime` | src/crisis_mosaic/middleware.py:176-188 | A reservation leaves one holder per record if and only if the record it takes over is not still held past its expiry |
| `Idempotency.SpacedAfterIff` | src/crisis_mosaic/middleware.py:176-253 | From a sound state, stored responses of one key stay a full expiry apart in every on-time continuation of a step if and only if the step takes no reservation over from a holder still at work (a transaction that is rolled back does not) |
| `Idempotency.LateHolderAnswersForAnother` | src/crisis_mosaic/middleware.py:240-253 | Past it, the late holder's response is stored for the new holder's request |
| `Idempotency.RecordTable.Reserve` | src/crisis_mosaic/middleware.py:165-217 | The reservation code computes the reservation step |
| `Idempotency.RecordTable.Finish` | src/crisis_mosaic/middleware.py:240-253 | Finishing stores status and body, or ignores a missing record |
| `Idempotency.RecordTable.Release` | src/crisis_mosaic/middleware.py:220-226 | Releasing deletes the record only while it has no body |
| `Jobs.JobLifecycle` | src/crisis_mosaic/workers.py:331-361 | Over any run of add, claim, finish, drop, cancel and clock steps: a job that is over never changes, "retry" means attempts are left, "failed" that none are, failed finishes never exceed the limit, and attempts are accounted for exactly: one per failed finish, one per claim of a lease that ran out, and one more for the run that is on or succeeded |
| `Jobs.NeverDefers` | src/crisis_mosaic/workers.py:246-261 | No run reaches the branch that defers a job claimed before it is due |
| `Jobs.LeaseExcludes` | src/crisis_mosaic/workers.py:140-144 | Whatever happens between two claims of one job, the second comes no earlier than the end of the first one's lease, or after a finish of the job has failed in between |
| `Jobs.FinishIsOfLatestClaim` | src/crisis_mosaic/workers.py:66-80 | In every run of the one job loop, restarts included: when it finishes a claim, no later claim of the job has been made, nothing but a cancel has touched the job since, and the finish takes effect if and only if the job was not canceled |
| `Jobs.FinishSettles` | src/crisis_mosaic/workers.py:331-361 | A finish that takes effect leaves the job succeeded if and only if the run was ok; a failed one leaves it failed for good if and only if no attempts are left, and else waiting 1, 5 or 30 seconds |
| `Jobs.RetryWaits` | src/crisis_mosaic/workers.py:351-361 | Whatever happens in between, the next claim after a failed finish comes no earlier than 1, 5 or 30 seconds later, after the first, the second or a later attempt |
| `Jobs.OutcomeIsLastFinish` | src/crisis_mosaic/workers.py:341-350 | In every run a job has succeeded only if its last finish that took effect was ok, and has failed only if that one was not |
| `Jobs.NextJob` | src/crisis_mosaic/workers.py:133-148 | There is a next job if and only if one is due, there is only one, and no job that is due has waited longer |
| `Jobs.PassesLimitIff` | src/crisis_mosaic/workers.py:129-158 | In every reachable state, a step takes a job past its attempt limit if and only if it claims it while it is still running on the last attempt of the limit |
| `Jobs.CrashesOvershoot` | src/crisis_mosaic/workers.py:150-158 | A run in which attempts pass the limit: the process restarts while the job runs, and the job is claimed again when its lease is over |
| `Jobs.JobTable.ClaimJob` | src/crisis_mosaic/workers.py:129-158 | The claim takes the claimable job waiting longest, or none if there is none |
| `Jobs.JobTable.FinishJob` | src/crisis_mosaic/workers.py:331-361 | Finishing a running job succeeds, fails or retries it with its delay; any other job is left alone |
| `Jobs.JobTable.CancelJobs` | src/crisis_mosaic/services/report_observations.py:381-404 | Canceling cancels exactly the unfinished jobs listed, but the one kept |
| `RefreshChain.RotationIsOneChain` | src/crisis_mosaic/routers/auth.py:221-288 | In every run of sign-in, login, refresh, logout and revoke steps, following replaced_by_id from a family's first session visits each of its sessions once and ends at the only one never used |
| `RefreshChain.RotateKeepsChains` | src/crisis_mosaic/routers/auth.py:281-288 | Rotating an unused session keeps every chain |
| `RefreshChain.UnusedIsLast` | src/crisis_mosaic/routers/auth.py:229-241 | A session not yet used is the last of its family |
| `RefreshChain.RevokedStaysOut` | src/crisis_mosaic/routers/auth.py:331-360 | Once a device is revoked it never gets a session again, by rotation or by signing in |
| `RefreshChain.LoggedOutStaysOut` | src/crisis_mosaic/routers/auth.py:308-326 | Logging out a session that is the last of its family, of a device or an account, ends the family: in no run after it is the session exchanged or another one added |
| `RefreshChain.SignInWorks` | src/crisis_mosaic/routers/auth.py:59-87 | Signing in gives a session that can be refreshed at once, of a device that is not revoked and has the installation |
| `RefreshChain.RevokeEndsDevice` | src/crisis_mosaic/routers/auth.py:331-360 | Revoking ends the device and all its sessions and nobody else's |
| `RefreshChain.AuthTables.IssuePair` | src/crisis_mosaic/routers/auth.py:59-87 | Issuing adds one session, in the given family or a new one |
| `RefreshChain.AuthTables.RotateRefresh` | src/crisis_mosaic/routers/auth.py:213-288 | The rotation code succeeds exactly under its checks and then links the session to its replacement |
| `RefreshChain.AuthTables.RevokeAnonymous` | src/crisis_mosaic/routers/auth.py:331-360 | Revoking bumps the device and revokes exactly its sessions |
| `Paging.PagingIsComplete` | src/crisis_mosaic/routers/reports.py:278-350 | Over an unchanged table, for the operator, resident and fact lists and any limit: following the cursors ends, and the pages together are the rows the filters show, each once, in descending order |
| `Paging.CompleteIffNoOffset` | src/crisis_mosaic/routers/conflicts.py:936-956 | With a fixed offset the pages are complete if and only if the offset is 0 or there is nothing to list |
| `Paging.WhereIsBelow` | src/crisis_mosaic/routers/reports.py:149-191 | The cursor condition of each list selects exactly the shown rows that its order lists after the cursor's row |
| `Paging.OrderedIsRest` | src/crisis_mosaic/services/reports.py:585-595 | What a page chooses from is the rest of the full list |
| `Paging.SelectSort` | src/crisis_mosaic/routers/reports.py:313-336 | Filtering before sorting and after sorting give the same list |
| `Paging.SortDescends` | src/crisis_mosaic/routers/reports.py:325-332 | Sorting gives the strict descending order of the list's key |
| `Paging.RestIsSelected` | src/crisis_mosaic/routers/conflicts.py:227-230 | On an ordered list the condition selects exactly what follows the row |
| `Paging.ListedFirst` | src/crisis_mosaic/routers/reports.py:129-147 | The operator list shows higher priority first, then urgent, then later, then greater id; the resident and fact lists later, then greater id |
| `FramePacking.Pack` | src/crisis_mosaic/services/ai.py:516-548 | The nested loops build exactly the greedy round-robin selection, its numbering and the omission marks |
| `FramePacking.PackRound` | src/crisis_mosaic/services/ai.py:527-541 | The inner loop |
| `FramePacking.PackFrame` | src/crisis_mosaic/services/ai.py:531-541 | One frame: taken and numbered if it fits, else its attachment is marked |
| `FramePacking.WithinBudget` | src/crisis_mosaic/services/ai.py:535-539 | The images together never exceed the byte budget |
| `FramePacking.OmittedNeverFit` | src/crisis_mosaic/services/ai.py:535-539 | No omitted frame would fit at the end |
| `FramePacking.IndicesPartition` | src/crisis_mosaic/services/ai.py:540-541 | Of what the loops build: the numbers given out are exactly 1 to the number of images, no number is given to two attachments, and under its numbers each attachment finds frames of its own, each at most once and in their order |
| `FramePacking.Indices` | src/crisis_mosaic/services/ai.py:540-541 | An attachment's numbers are exactly its places among the images, ascending |
| `FramePacking.RoundRobin` | src/crisis_mosaic/services/ai.py:527-531 | Every frame gets its turn, and no image precedes one whose turn came earlier |
| `FramePacking.LoadedMeansAll` | src/crisis_mosaic/services/ai.py:543-563 | "loaded" is said only of an attachment all of whose frames are among the images and that has no limitation |
| `FramePacking.StatusSays` | src/crisis_mosaic/services/ai.py:543-563 | "unavailable" is said if and only if none of the frames is among the images, "loaded" if and only if there are frames, all are among them and there is no limitation |
| `RateLimiter.AcceptedAreSpread` | src/crisis_mosaic/middleware.py:291-301 | For nondecreasing call times and a fixed limit, accepted call i + limit comes at least 60 seconds after accepted call i |
| `RateLimiter.RefusedIffFull` | src/crisis_mosaic/middleware.py:297-299 | A call is refused if and only if the limit-th last accepted call lies in the last 60 seconds, and is told to wait 1 to 60 seconds |
| `RateLimiter.WaitSufficesIff` | src/crisis_mosaic/middleware.py:298-298 | Waiting as told suffices if and only if the time left was at most a second or whole seconds |
| `RateLimiter.CallIsStep` | src/crisis_mosaic/middleware.py:291-301 | The entries held are always the tail of the accepted calls |
| `RateLimiter.Limiter.Check` | src/crisis_mosaic/middleware.py:291-301 | The limiter object computes one call for its key and leaves the other keys |
| `RateLimiter.PopExpired` | src/crisis_mosaic/middleware.py:295-296 | The popping loop |
| `Answers.AnswersDecide` | src/crisis_mosaic/routers/questions.py:864-974 | For a spot served by one question, new or already in agreement, after any sequence of answer writes it is resolved if and only if the informative answers agree and number at least the minimum (and one), with the value they agree on |
| `Answers.WriteSettles` | src/crisis_mosaic/routers/questions.py:921-974 | One accepted write establishes that from any earlier state of the spot |
| `Answers.WriteStores` | src/crisis_mosaic/routers/questions.py:771-806 | An accepted write stores its own value as the device's one answer to the question at the next revision, and no other answer changes |
| `Answers.WriteMovesSpot` | src/crisis_mosaic/routers/questions.py:921-974 | It changes the spot, and its revision by one, exactly if what the answers decide is new: a decided value resolves it, and with none a resolved spot is open again without a value |
| `Answers.ConsensusMeans` | src/crisis_mosaic/services/conflicts.py:568-583 | The counted consensus says what the answers say |
| `Answers.SecondQuestionReopens` | src/crisis_mosaic/routers/questions.py:968-973 | With a second question on the spot, its answer may reopen what the first had resolved |
| `Answers.AgreesWithOtherIff` | src/crisis_mosaic/routers/questions.py:921-974 | After an accepted write to one question the spot says what another question's answers say if and only if the two questions' answers, with the new one, decide for the same value or neither for any |
| `Answers.OtherVerdictStands` | src/crisis_mosaic/routers/questions.py:921-974 | The write does not change what the other question's answers decide |
| `Answers.SecondWriterRefused` | src/crisis_mosaic/routers/questions.py:771-800 | Of two writes naming one revision of an answer, the second is refused |
| `Answers.ValidConsensus` | src/crisis_mosaic/services/conflicts.py:568-583 | The counting code returns the most frequent definite value, its count and the distinct values |
| `Answers.MostCommon` | src/crisis_mosaic/services/conflicts.py:579-583 | The counter |
| `Answers.Board.PutMyAnswer` | src/crisis_mosaic/routers/questions.py:764-974 | The handler accepts exactly under the revision check and then takes the step |
| `Answers.Board.SettleSpot` | src/crisis_mosaic/routers/questions.py:921-974 | Its three branches on the spot |

## Left out

- Realtime.DeliveryGuarantee: assumes that row times never decrease with the sequence, and treats one send as atomic; `Realtime.ReplayCoversIff` says when the window check is enough without the assumption.
- Outbox.PublishedInOrder: models one publishing worker; a row found already published by someone else does not occur.
- Events.GapFreeNumbering: covers committed rows before retention deletes any; one incident, since no counter is shared between incidents. The per-transaction mark is a fresh token, not a reusable object id.
- Conflicts.AffectedCases: lists the affected cases oldest first where the query leaves the order open; `ConflictInvariants.ReconcileSound` and the lemmas under it hold for any order.
- Conflicts.Detect: takes the fragments inside the time and place windows, and the nearby case, as inputs: coordinates, address similarity and the clock are not modelled. A claim value is compared for equality; the spellings of "unknown" are one value.
- BlindSpots.FirstCovering: takes spots in table order where the query leaves the order open; of spots detection made of one key no two lie at one place, so the order matters only where an operator made one too.
- BlindSpots.FirstReplacement: takes candidates in table order where the query leaves the order open; the theorems use only that some candidate is chosen when there is one.
- BlindSpots.PutAnswerLiveIff: takes the consensus of a question's answers, and which spot the question serves, as inputs; module Answers says what the consensus is.
- BlindSpots.NoDuplicateSpots: speaks of spots made by detection; an operator may make another at the same place, and a hand-made spot is taken not to carry the reserved automatic source.
- BlindSpots.BlankAddressDuplicates: letter case is left out of the normalised address; folding it never makes a text empty.
- Idempotency.AtMostOnce: a JSON body of any shape is one number, a key stands for the (actor, route, key) triple, and the length check of the key is left out. The time of a reservation is taken inside the lock; the middleware reads it just before (middleware.py:166), so it may be older than the lock order suggests.
- Conflicts.AnswerFragments: one value stands for all spellings of "unknown", where routers/questions.py:918 compares with one spelling.
- Jobs.FinishIsOfLatestClaim: rests on the one job loop in one process that main.py:76-77 and runtime_guard.py enforce; the lock file itself is not modelled.
- Jobs.JobTable.ClaimJob: jobs are ordered by creation through their position.
- RefreshChain.RotationIsOneChain: a token stands for its session, and every device session has an incident; older rows without one, which the program refuses to rotate, do not occur.
- Paging.PagingIsComplete: cursors are instants and ids; their base64 and JSON text is not modelled, and ids and instants are numbers in their order.
- RateLimiter.RefusedIffFull: instants are real numbers, so floating-point rounding of the clock is not modelled.
- FramePacking.Pack: reading the frames, with its timeouts, comes before; attachments whose reading timed out are not among its inputs.
- Report categories, priorities, masking and the status table: one function settles each.
- Claim extraction from text, the model calls, prompts and output checks, uploads, push notifications, encryption, tokens and hashing: outside calls, replaced by inputs or injective ids.
- The analysis supplied by a client with its own result (services/ai.py:2285), the map features, audit rows and metrics.
- services/retention.py: rows are never deleted or expired here.
