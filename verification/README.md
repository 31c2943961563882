# Verification of the synthesis worker and its neighbours

A Dafny model of the parts of the EpiScience services where correctness hangs
on interleavings, counting or exact text: the synthesis lifecycle, the job
queue, the owner worklist, the PROV outbox, countersignature chains, MCP
session ownership, and the small algorithms around them. `dafny verify
dfyconfig.toml` checks everything.

The code that changes state step by step is written imperatively (classes with
fields, loops with invariants) and proved against specification functions; the
theorems about whole runs are lemmas about those functions. Database rows are
maps and sequences, a statement is a map update, a transaction is a step. What
an operation does is also stated outright, field by field or character by
character, without the functions that compute it (the lemmas named `...Mean` or
`...Means`, and the written-out clauses of the methods).

| file | models |
|---|---|
| `Base.dfy` | options, identifiers, a little sequence theory |
| `Worklist.dfy`, `WorklistRuns.dfy`, `HeldSlots.dfy` | the worker's worklist: backoff, one period, runs, starvation, slots taken by held items |
| `JobQueue.dfy` | the queue definers, the worker's calls to them, one claimed job |
| `SynthesisRows.dfy` | the synthesis row and the statements on it |
| `Lifecycle.dfy` | the lifecycle protocol: attempts, row locks, deletion, retries, lost workers |
| `SynthesisJob.dfy` | the handler of one attempt, as the code runs it, proved to be a run of the protocol |
| `Refinement.dfy`, `RefinementChains.dfy`, `RefinementWorst.dfy` | the refinement temperature; the tree and the cost below a root synthesis, and that the cost is reached |
| `Outbox.dfy`, `OutboxMeaning.dfy`, `OutboxRuns.dfy` | the PROV outbox under row security, one transaction after the other; what each does row by row |
| `OutboxOverlap.dfy`, `OutboxSolo.dfy` | the outbox with transactions interleaved statement by statement; one on its own |
| `RepairJson.dfy`, `JsonText.dfy`, `JsonReading.dfy` | the near-JSON repair: on any text, on JSON text (RFC 8259), and what text it turns into JSON |
| `Traversal.dfy` | the bounded breadth-first traversal |
| `Vectors.dfy`, `SeedSelection.dfy`, `Novelty.dfy` | cosine, MMR seed selection, the novelty score |
| `Countersign.dfy`, `CountersignRuns.dfy` | countersignature chains, their check and backfill |
| `Sessions.dfy`, `SessionRuns.dfy` | the bounded table of session owners and the request step |
| `UuidText.dfy`, `Verifier.dfy` | identifier text (section 4 of RFC 9562), the citation rubric |
| `WikiKeys.dfy` | wiki page keys and slugs |
| `WrapText.dfy` | greedy line wrapping |

## What was found

Where a property does not hold without a condition, the model follows the code
and the exact condition is proved.

- **Uncited claim edges.** `publish.rs:304-308` says no kernel edge ever names
  a claim the synthesis does not cite. The discard and the listing are two
  statements of one READ COMMITTED transaction, so a claim that becomes
  readable between them brings a row into sight that the discard could not
  see. `OutboxRuns.UncitedIff`: a write transaction may write an uncited claim
  edge if and only if it leaves, at its discard, a hidden pending row naming
  one. `OutboxRuns.AHiddenRowLeaks` gets there from the empty outbox in three
  transactions: plan two claims, replan with the second alone while the first
  is hidden, write while the first comes back between the two statements. When
  nothing comes into sight in between, every edge of every run is cited
  (`OutboxRuns.RunsWriteOnlyCited`).
- **Edges created twice.** While one transaction on the outbox follows the
  other, an edge is created once (`OutboxRuns.OutboxIsSound`). Nothing makes
  them: a reconciliation (`worker.rs:604-626`) takes no lock before it lists,
  and `mark_written` (`synthesis_provo_edges.rs:121-143`) does not ask whether
  the row is still unwritten. `OutboxOverlap.CreatedTwiceIff`: an edge is
  created twice if and only if two transactions that created it committed and
  each had listed before the other's commit; `OutboxOverlap.TwoWorkersCreateTwice`
  is a run of two workers, after which the outbox names only the second edge.
  A lock held from the listing on is enough
  (`OutboxOverlap.TakingTurnsCreatesOnce`). The kernel's own `create` is not
  part of this model; each call that answers with an id counts as one creation.
- **Unforked countersignature chains.** The head is the row with the latest
  `clock_timestamp()`. If the clock steps back under one claim's lock, the
  append after next links past a row. `CountersignRuns.ChainContinuesIff` gives
  the condition (the time stamp is later than the head's, or the two signatures
  hash alike), `CountersignRuns.UnforkedIffTimely` the condition for whole runs
  (with distinct signature hashes, a claim's final chain is unforked if and only
  if every append but its last was later than the head it met),
  `CountersignRuns.ASteppedClockForks` a case, and
  `CountersignRuns.AppendsKeepPassing` shows that the link check cannot notice.
  The comment at `countersign_links.rs:23-26` says `created_at` is the writer's
  transaction start; the code writes `clock_timestamp()`
  (`countersign.rs:62-72`), and the model follows the code.
- **Starvation in the worklist.** `worker.rs:510-514` says a failing item
  cannot starve the items behind it. The definer answers with at most 1000
  items, so the wait behind failing items is bounded if and only if fewer than
  1000 of them stay ahead (`WorklistRuns.StarvationFreeIff`). Below the bound the
  wait is at most 285 periods (`WorklistRuns.NoStarvation`); from it on there is
  a run of every length that never attempts the item
  (`WorklistRuns.StarvationForEver`).
- **Held items and slots.** `worker.rs:172-174` says held items never take a
  slot. That holds while slots and held items together fit the bound of 1000
  (`WorklistRuns.SlotsGoToTheFirstUnheld`), and past it exactly under the
  condition of `WorklistRuns.SlotsPastTheBound`. When the first thousand items
  of the order are held, and only then, a period attempts nothing
  (`HeldSlots.NothingAttemptedIff`). The worker gets there from empty records:
  behind a thousand items that keep failing, at least (n - 286) / 3 of the first
  n periods attempt nothing although everything behind is un-held and due
  (`HeldSlots.HeldItemsTakeSlots`), so one of the first 287 does
  (`HeldSlots.AnIdlePeriod`).

## Model

| member | source | states |
|---|---|---|
| Lifecycle.LifecycleSafety | crates/episcience-api/src/jobs/synthesis_job.rs:794-912 | in every interleaving of stage transactions, retries, lost commits, lost workers, worklist passes and user deletions: a row is complete exactly when it has a narrative; it completes at most once and only after its outcome, outbox, embedding and edges; after its deletion no outcome, outbox row, embedding, edge, usage, status change or child is committed for it, only repeated deletion and the unfenced writes of stages 2 to 4; after its completion only the reconciliation of its outbox, its novelty and those stage writes |
| Lifecycle.TerminalRowsStay | crates/episcience-db/src/repos/synthesis.rs:402-573 | over every continuation of a safe state a complete or deleted row keeps its status, narrative, verifier record and usage |
| Lifecycle.RunIsSafe | crates/episcience-api/src/jobs/synthesis_job.rs:381-390 | every run keeps the five invariants: locks and open transactions match, rows meet the CHECK, the log tells the statuses, what is offered or being scored is complete, completion is earned |
| Lifecycle.StepKeepsLocks | crates/episcience-db/src/repos/synthesis.rs:439-454 | every step keeps row locks and open transactions in one-to-one correspondence, on live rows only |
| Lifecycle.StepKeepsLog | crates/episcience-api/src/jobs/synthesis_job.rs:794-912 | every step, the reconciliation of complete rows included, commits after a terminal event only what may follow it, and keeps the log in agreement with the row statuses |
| Lifecycle.StepKeepsTerminalRows | crates/episcience-db/src/repos/synthesis.rs:402-573 | no step changes a complete or deleted row except its visibility |
| Lifecycle.StepKeepsEarned | crates/episcience-api/src/jobs/synthesis_job.rs:818-911 | a completion in the log is preceded by outcome, plan, embedding and edges of the same row |
| Lifecycle.StepAfterCompletion | crates/episcience-api/src/jobs/worker.rs:592-626 | whatever the worklist has offered and whatever is being scored is complete, and stays so over every step, though neither holds the row lock |
| Lifecycle.PhasesMove | crates/episcience-api/src/jobs/synthesis_job.rs:547-980 | no step takes an attempt anywhere but on to its next stage, past a row complete or deleted, through the two reports of a failure, or to its end; a completed synthesis is never reported as failed |
| Lifecycle.MovesAre | crates/episcience-api/src/jobs/synthesis_job.rs:283-357 | which of these moves a commit, a failure and a refusal make at every stage |
| Lifecycle.CommitMeans | crates/episcience-api/src/jobs/synthesis_job.rs:572-911 | what each stage transaction commits to the row and to the log, field by field |
| Lifecycle.NotLiveMeans | crates/episcience-api/src/jobs/synthesis_job.rs:381-390 | a row found complete ends a new attempt well, any other one and a deleted row stop it, nothing is written |
| Lifecycle.SettleMeans | migrations/5037_queue_and_maintenance_definers.sql:173-236 | an attempt that ended well completes its job, one that stopped fails it, one that erred is queued again exactly while attempts are left |
| SynthesisJob.SynthesisJobHandler.Execute | crates/episcience-api/src/jobs/synthesis_job.rs:547-561 | the whole attempt, with deletions and faults at every transaction, is a run of the protocol ended as reported; a row terminal at the claim is untouched and no other synthesis changes; success leaves it complete or rejected; when nothing goes wrong exactly the events of the stages are committed, in order, and the row has the narrative or the rejection, the model's record and one more verification; a failed attempt leaves its reason and its model on a live row |
| SynthesisJob.SynthesisJobHandler.RunStages | crates/episcience-api/src/jobs/synthesis_job.rs:563-672 | the early returns and the usage record of a failed attempt lead where the protocol's error phases say |
| SynthesisJob.SynthesisJobHandler.RunOnPipeline | crates/episcience-api/src/jobs/synthesis_job.rs:676-980 | the stage transactions in order, those of stages 2 to 4 unfenced, those after the verifier each under its own live check, and the novelty at the end, reach the protocol's phases |
| SynthesisJob.SynthesisJobHandler.MarkRunningStage | crates/episcience-api/src/jobs/synthesis_job.rs:572-604 | a deleted row stops the job, a complete one ends it successfully, a live one starts to run |
| SynthesisJob.SynthesisJobHandler.BeginLive | crates/episcience-api/src/jobs/synthesis_job.rs:381-390 | a stage transaction proceeds exactly on a live row, which it then holds |
| SynthesisJob.SynthesisJobHandler.StagePersist | crates/episcience-api/src/jobs/synthesis_job.rs:727-772 | stages 2, 3 and 4 commit their rows without a live check; a refused transaction stops the job and a failure fails the attempt |
| SynthesisJob.SynthesisJobHandler.NoveltyStage | crates/episcience-api/src/jobs/synthesis_job.rs:914-970 | the novelty of the completed row is stored or not, and the job succeeds either way |
| SynthesisJob.SynthesisJobHandler.RecordUsageStage | crates/episcience-api/src/jobs/synthesis_job.rs:338-357 | the record is written exactly on a live row and says so |
| SynthesisJob.SynthesisJobHandler.FinishStage | crates/episcience-api/src/jobs/synthesis_job.rs:874-911 | edges, completion and event commit together; a refused edge commits what was written and fails the stage |
| SynthesisJob.SynthesisJobHandler.RejectStage | crates/episcience-api/src/jobs/synthesis_job.rs:988-1210 | the row is rejected with one more verification and, exactly below the ceiling and with a principal, one child is inserted in the same transaction: pending and empty, with the parent's recipe and visibility, one anneal step on, its own queued job and one REFINES outbox row; a principal other than the acting one is refused and inserts nothing; no other synthesis changes |
| SynthesisJob.SynthesisJobHandler.MarkFailedStage | crates/episcience-api/src/jobs/synthesis_job.rs:283-327 | the failure is written at most on a live row, and the attempt ends in error whatever happens |
| SynthesisJob.ClaimIsSafe | crates/episcience-api/src/jobs/synthesis_job.rs:572-580 | from any reachable protocol state, the claim of any row, live, retried or terminal, with what was committed for it so far, meets what Execute asks of its start |
| SynthesisRows.StatementsKeepTerminal | crates/episcience-db/src/repos/synthesis.rs:402-573 | each worker statement and the soft delete leaves a complete or deleted row as it is and keeps the CHECK |
| SynthesisRows.FirstEndingDecides | crates/episcience-db/src/repos/synthesis.rs:402-573 | over any sequence of these statements on a live row the first completion or deletion decides the row for good, the narrative is that of the first completion, and without either the row stays live |
| SynthesisRows.SynthesisRepository.MarkRunning | crates/episcience-db/src/repos/synthesis.rs:402-431 | running exactly from a live row, otherwise what was seen; an absent row is NotFound |
| SynthesisRows.SynthesisRepository.LockLive | crates/episcience-db/src/repos/synthesis.rs:439-454 | the liveness of the row the statement reads; nothing is written |
| SynthesisRows.SynthesisRepository.SaveNarrative | crates/episcience-db/src/repos/synthesis.rs:489-514 | narrative and status together, exactly on a live row, else an error and no change |
| SynthesisRows.SynthesisRepository.RecordLlmUsage | crates/episcience-db/src/repos/synthesis.rs:527-547 | written exactly on a live row, the call count cut at i32 |
| SynthesisRows.SynthesisRepository.MarkFailed | crates/episcience-db/src/repos/synthesis.rs:554-573 | failed exactly on a live row, silently nothing otherwise |
| SynthesisRows.SynthesisRepository.UpdateStatusAs | crates/episcience-db/src/repos/synthesis.rs:296-310 | a user's status update: refused unless writable, and by the CHECK on a row with its narrative |
| Refinement.AnnealedShape | crates/episcience-core/src/synthesis/refinement.rs:34-46 | after k steps the depth is min(k, 3), the ceiling is met exactly from the third on, the relaxation is 0.8^k with the floor 0.4 |
| RefinementChains.PipelineRunsBounded | crates/episcience-api/src/jobs/worker.rs:405-509 | in every run the tree below a root makes at most TreeCost(A) pipeline runs, A the attempts the queue allows a job: 120 for the default 3 |
| RefinementChains.TreeCostIs | crates/episcience-core/src/synthesis/refinement.rs:42-46 | with three refinements below a root, TreeCost(A) is A + A^2 + A^3 + A^4 |
| RefinementWorst.WorstCostIs | crates/episcience-api/src/jobs/worker.rs:405-509 | A + A^2 + A^3 + A^4 is the exact maximum over all runs of the pipeline runs below a root: no run exceeds it and one reaches it |
| RefinementWorst.TreeCostIsReached | crates/episcience-api/src/jobs/synthesis_job.rs:988-1210 | for every A a run whose root leads to exactly that many, each attempt losing the report of the commit that inserted its child |
| RefinementWorst.OnePass | crates/episcience-api/src/jobs/synthesis_job.rs:563-672 | from the queue and back: an attempt that rejects, inserts its child, loses the report, records its failure and is queued again while attempts are left, with every other synthesis as it was |
| RefinementChains.ReachableDescendants | crates/episcience-api/src/jobs/synthesis_job.rs:1086-1190 | in every run every descendant is at most three generations down, one depth step per generation, with the root's query, owner group, skill, page key, seed theme, prerequisites and principal |
| RefinementChains.DescendantsAgreeWithRoot | crates/episcience-api/src/jobs/synthesis_job.rs:1097-1165 | in any state that satisfies the tree invariant a descendant has its root's recipe and principal |
| RefinementChains.StepKeepsTree | crates/episcience-api/src/jobs/synthesis_job.rs:1004-1195 | every step keeps the refinement tree well formed |
| RefinementChains.RejectionBears | crates/episcience-api/src/jobs/synthesis_job.rs:1097-1190 | the commit of a rejection adds a child exactly below the ceiling and with a principal: pending, empty, queued with no attempts, with the parent's visibility, recipe, principal and payload, one anneal step on; nothing else changes but the parent's status and verification count |
| RefinementChains.EveryChildWasBorn | crates/episcience-api/src/jobs/synthesis_job.rs:1097-1190 | in every run every child came in at some step as such a copy of its parent as the parent was at that step |
| RefinementChains.SpawnIsPaidFor | crates/episcience-api/src/jobs/synthesis_job.rs:1036-1086 | an attempt that spawns gives up exactly the runs its child's job may use |
| RefinementChains.StepBudget | crates/episcience-api/src/jobs/worker.rs:405-509 | no step raises what the tree below a root has spent and can still spend |
| RefinementChains.NewRootBudget | migrations/5037_queue_and_maintenance_definers.sql:134-163 | a new root starts with exactly the whole budget |
| RefinementChains.StepKeepsQueueBounded | migrations/5037_queue_and_maintenance_definers.sql:204-236 | a job is never attempted more often than allowed |
| JobQueue.Queue.Claim | migrations/5037_queue_and_maintenance_definers.sql:134-163 | takes the earliest due job of those queued or to be retried, ties by identifier; it is then running with exactly one more attempt and every other field and job as before; nothing exactly when nothing is due |
| JobQueue.Queue.Ask | migrations/5037_queue_and_maintenance_definers.sql:173-236 | finish and retry act exactly on a running job, retry only with attempts left; complete, failed, or queued with the delay, and nothing else of the job changes |
| JobQueue.Worker.QueueCall | crates/episcience-api/src/jobs/worker.rs:365-390 | repeated calls grant a wish at most once; up to three transient failures are absorbed; the answer Done means granted |
| JobQueue.Worker.RetryOrFail | crates/episcience-api/src/jobs/worker.rs:405-437 | back to the queue, after a delay that grows with the attempts, exactly with attempts left, else failed; the report says which |
| JobQueue.Worker.RunOnce | crates/episcience-api/src/jobs/worker.rs:452-509 | only the claimed job changes; without faults it is complete exactly when it may run and ran, queued again exactly when the trouble may pass and attempts are left, else failed; with faults it may also stay running |
| JobQueue.SettlingIsTheProtocols | crates/episcience-api/src/jobs/worker.rs:496-508 | what the queue makes of a job that ran is what the lifecycle protocol makes of its attempt |
| JobQueue.RetriesRunOut | crates/episcience-api/src/jobs/worker.rs:405-509 | over any run of fault-free calls a waiting job that keeps breaking, or whose authority stays unknown, is taken at most as often as it has attempts left (at least once), each time counted, and is failed exactly when it was taken that often |
| JobQueue.TakenWithinAttempts | migrations/5037_queue_and_maintenance_definers.sql:134-236 | whatever its runs come to, a job is taken at most as often as it had attempts left, and while it waits less often |
| JobQueue.ClaimIsTheProtocols | migrations/5037_queue_and_maintenance_definers.sql:134-163 | what a claim makes of a job is what the lifecycle protocol's claim makes of it |
| Worklist.HoldDoublesUpToTheCap | crates/episcience-api/src/jobs/worker.rs:217-230 | the cut shift computes min(2^(k-1), 64) for every skip count |
| Worklist.WorklistBackoff.BeginPeriod | crates/episcience-api/src/jobs/worker.rs:189-202 | counts the period and prunes the records past twice the cap |
| Worklist.WorklistBackoff.Held | crates/episcience-api/src/jobs/worker.rs:204-214 | the held items of the kind in the period |
| Worklist.WorklistBackoff.Skipped | crates/episcience-api/src/jobs/worker.rs:217-230 | one more consecutive skip, saturating, held for the doubling number of periods |
| Worklist.WorklistBackoff.Succeeded | crates/episcience-api/src/jobs/worker.rs:233-239 | clears that item's record and no other |
| Worklist.Worker.RunKind | crates/episcience-api/src/jobs/worker.rs:534-587 | the slot loop attempts exactly the first slots un-held offered items, settles each, leaves the other kind alone and reports them |
| Worklist.Worker.RunWorklist | crates/episcience-api/src/jobs/worker.rs:520-590 | a period serves both kinds from the pruned records; a failing definer ends it there |
| Worklist.TallyMeans | crates/episcience-api/src/jobs/worker.rs:547-585 | of the items attempted the report counts the refused ones, and of those that went on their number and deferred edges (first kind), or their number and how many turned stale (second kind) |
| Worklist.HeldBackMeans | crates/episcience-api/src/jobs/worker.rs:533-546 | held back are reported exactly the items the loop met before it stopped and did not attempt |
| WorklistRuns.SlotsGoToTheFirstUnheld | crates/episcience-api/src/jobs/worker.rs:524-543 | within the definer's bound a period attempts exactly the first un-held items of the whole order |
| WorklistRuns.SlotsPastTheBound | crates/episcience-api/src/jobs/worker.rs:524-543 | beyond the bound the same holds if and only if the fetched stretch has enough un-held items or nothing un-held lies beyond it |
| WorklistRuns.HoldPattern | crates/episcience-api/src/jobs/worker.rs:189-230 | an item skipped for the k-th counted time is held in exactly the next min(2^(k-1), 64) periods, pruning never changes that, and its record goes exactly 128 periods after the hold |
| WorklistRuns.SkipCountContinues | crates/episcience-api/src/jobs/worker.rs:189-230 | the count goes on from skip to skip unless pruning dropped the record, and when it does |
| WorklistRuns.SlotsPerItem | crates/episcience-api/src/jobs/worker.rs:189-240 | an item that keeps failing uses fewer than 5 + n/30 slots in n periods, resets by pruning included |
| WorklistRuns.ItemIsValid | crates/episcience-api/src/jobs/worker.rs:520-590 | every item of every run follows the one-item rules |
| WorklistRuns.RunExists | crates/episcience-api/src/jobs/worker.rs:520-590 | every start, order and outcome has its run |
| WorklistRuns.PassedOver | crates/episcience-api/src/jobs/worker.rs:524-543 | an offered un-held item left out means every slot went to items before it |
| WorklistRuns.WaitingIsPaidFor | crates/episcience-api/src/jobs/worker.rs:165-175 | the periods an un-held item waits are bounded by what the items ahead of it can use and by their successes |
| WorklistRuns.NoStarvation | crates/episcience-api/src/jobs/worker.rs:52-58 | behind at most 999 always-failing items an un-held item waits at most 285 periods, behind 949 at most 246 |
| WorklistRuns.StarvationFreeIff | crates/episcience-api/src/jobs/worker.rs:510-514 | the wait behind items that keep failing is bounded if and only if fewer than 1000 of them are ahead |
| WorklistRuns.StarvationForEver | crates/episcience-api/src/jobs/worker.rs:510-543 | behind 1000 or more items that always fail there is a run of any length that never attempts the item |
| WorklistRuns.StarvedBeyondTheBound | crates/episcience-api/src/jobs/worker.rs:524-543 | an item that stays 1000 or more places down the order is attempted in no period of any run |
| WorklistRuns.NeverFetched | migrations/5037_queue_and_maintenance_definers.sql:253-278 | no period attempts what lies past the definer's first 1000 items |
| HeldSlots.NothingAttemptedIff | crates/episcience-api/src/jobs/worker.rs:524-543 | for any records and order: a period attempts nothing if and only if the first 1000 items of the order are held |
| HeldSlots.FiftyOrNothing | crates/episcience-api/src/jobs/worker.rs:520-590 | in every run from empty records in which 1000 always-failing items head a fixed order, each period attempts one of their twenty fifties, or nothing |
| HeldSlots.HeldItemsTakeSlots | crates/episcience-api/src/jobs/worker.rs:165-175 | over n periods of such a run at least (n - 286) / 3 attempt nothing, and in each of them everything behind the 1000 is un-held and due the slots |
| HeldSlots.AnIdlePeriod | crates/episcience-api/src/jobs/worker.rs:165-175 | for any 1000 items and any behind them there is such a run, with an idle period among its first 287 |
| Outbox.ProvoEdges.Plan | crates/episcience-db/src/repos/synthesis_provo_edges.rs:12-33 | planned edges are added once, existing rows stay, an unreadable claim refuses |
| Outbox.ProvoEdges.ReplaceUnwritten | crates/episcience-db/src/repos/synthesis_provo_edges.rs:45-60 | the visible unwritten rows go, the plan comes, the count is right |
| Outbox.ProvoEdges.PlanStage | crates/episcience-db/src/synthesis/publish.rs:85-136 | the edge set of a synthesis replaces the visible unwritten rows, or nothing happens, exactly when a cited claim is out of sight of its insert |
| OutboxMeaning.PlanningMeans | crates/episcience-db/src/synthesis/publish.rs:85-136 | when every cited claim is in sight, an edge is planned exactly when it derives from a cited claim, refines the parent, is composed of a prerequisite, is attributed to the owner or refines the workflow run; what was written or out of sight stays as it was, every other row is fresh, no other is left |
| OutboxMeaning.ShapesAre | crates/episcience-db/src/synthesis/publish.rs:242-254 | the five pairs of predicate and target kind, and no other, are edge shapes |
| Outbox.ProvoEdges.DiscardUncitedUnwritten | crates/episcience-db/src/repos/synthesis_provo_edges.rs:78-92 | exactly the visible unwritten rows naming uncited claims go |
| Outbox.ProvoEdges.ListPending | crates/episcience-db/src/repos/synthesis_provo_edges.rs:95-118 | the visible pending rows, each once |
| Outbox.ProvoEdges.MarkWritten | crates/episcience-db/src/repos/synthesis_provo_edges.rs:121-143 | one visible row is marked, or the call fails and nothing changes |
| Outbox.ProvoEdges.RecordFailure | crates/episcience-db/src/repos/synthesis_provo_edges.rs:146-168 | one visible row counts the failed attempt, or the call fails |
| Outbox.ProvoEdges.DeferUnwritten | crates/episcience-db/src/repos/synthesis_provo_edges.rs:175-189 | afterwards nothing the session sees is pending; exactly the rows that were gain the reason, and they are counted; every other row is as before |
| Outbox.ProvoEdges.CountPending | crates/episcience-db/src/repos/synthesis_provo_edges.rs:192-204 | as many as any listing of the visible pending rows has; zero exactly when everything visible is written or deferred |
| Outbox.ProvoEdges.ReleasePrivate | crates/episcience-db/src/repos/synthesis.rs:369-378 | afterwards no visible row is deferred as private; only such rows changed, and only in that |
| Outbox.ProvoEdges.WriteListed | crates/episcience-db/src/synthesis/publish.rs:343-423 | the loop writes the listed edges up to the first refusal, which it records, or finds a row gone |
| Outbox.ProvoEdges.WriteEdges | crates/episcience-db/src/synthesis/publish.rs:315-433 | discard, then defer or write, each statement on what it can see; a failing statement restores everything |
| OutboxMeaning.WritingMeans | crates/episcience-db/src/synthesis/publish.rs:315-433 | row by row: what is uncited and in sight goes, the due rows are written in the listed order under the kernel's ids until one is refused, which counts the attempt and keeps the error, or one is out of sight, which undoes everything; the report says how far and whether anything is still due |
| OutboxMeaning.DeferringMeans | crates/episcience-db/src/synthesis/publish.rs:315-345 | not publishable: what is uncited and in sight goes, exactly the due rows are deferred as private, both counted, and no edge is created |
| OutboxRuns.OutboxIsSound | crates/episcience-db/src/repos/synthesis_provo_edges.rs:12-204 | over every run of transactions that follow one another written, pending and deferred partition the rows, a written row never changes or goes, and the kernel holds exactly one edge per written row |
| OutboxOverlap.CreatedTwiceIff | crates/episcience-db/src/synthesis/publish.rs:315-433 | over every run of any number of transactions interleaved statement by statement: an edge is created twice if and only if two transactions that created it committed and each listed before the other's commit |
| OutboxOverlap.TwoWorkersCreateTwice | crates/episcience-api/src/jobs/worker.rs:604-626 | two reconciliations of one synthesis create its edge twice, and the row ends with the id of the second |
| OutboxOverlap.TakingTurnsCreatesOnce | crates/episcience-db/src/repos/synthesis_provo_edges.rs:95-143 | in every run in which a transaction lists only while no other that has listed is under way, no edge is created twice |
| OutboxOverlap.RowNamesLastCreator | crates/episcience-db/src/repos/synthesis_provo_edges.rs:121-143 | in every run the row of a created edge is there and has the id its last committed creator gave it |
| OutboxOverlap.StepKeeps | crates/episcience-db/src/repos/synthesis_provo_edges.rs:12-204 | every statement, commit and rollback keeps row versions, listings, created edges and commit numbers consistent |
| OutboxSolo.AloneIsWriteTx | crates/episcience-db/src/synthesis/publish.rs:315-433 | run statement by statement with nobody else at work, a write transaction ends with the rows and the created edges of the transaction as a whole, written through, refused or rolled back |
| OutboxRuns.ReplanLeavesOnlyHidden | crates/episcience-db/src/repos/synthesis_provo_edges.rs:35-60 | after a replan the unwritten rows are exactly the planned ones and those the DELETE could not see |
| OutboxRuns.WideningUndoesDeferral | crates/episcience-db/src/repos/synthesis.rs:369-378 | deferring in one view and widening in another leaves deferred exactly the rows pending in the first and hidden from the second, so the widening undoes the deferral if and only if it sees every deferred row |
| OutboxRuns.UncitedOnlyByLateArrival | crates/episcience-db/src/synthesis/publish.rs:320-343 | an uncited claim edge is written only for a row out of sight at the discard and in sight at the listing |
| OutboxRuns.RunsWriteOnlyCited | crates/episcience-db/src/synthesis/publish.rs:304-343 | in every run in which nothing comes into sight between discard and listing, every claim edge was cited when written, whatever replans missed |
| OutboxRuns.UncitedIff | crates/episcience-db/src/repos/synthesis_provo_edges.rs:62-92 | a write transaction may write an uncited claim edge if and only if its discard leaves a hidden pending row naming one |
| OutboxRuns.AHiddenRowLeaks | crates/episcience-db/src/synthesis/publish.rs:304-308 | a run of three transactions from the empty outbox, two plans and a write that each cite a claim, ends with a kernel edge to another claim not cited when it was written, in whatever order the rows are listed |
| OutboxRuns.NoFailureNothingPending | crates/episcience-db/src/synthesis/publish.rs:424-433 | a write that reports no failure leaves nothing pending that its last statement could see |
| OutboxRuns.NoProgressIff | crates/episcience-api/src/jobs/worker.rs:592-626 | under one view, no progress is reported exactly when no pending row is visible and nothing is to be discarded |
| RepairJson.RepairText | crates/episcience-api/src/clients/claude_cli.rs:665-721 | the scanner loop computes the repair function on every text |
| RepairJson.RepairOnlyEditsLicensed | crates/episcience-api/src/clients/claude_cli.rs:649-664 | the edits rebuild the text; a control character is escaped exactly inside a string, and a comma is dropped exactly when it is outside strings, the last significant character kept before it ends a value and the text after it closes a container; both texts are at the same place at every edit |
| RepairJson.ClosesSurvivesRepair | crates/episcience-api/src/clients/claude_cli.rs:704-711 | no dropped comma changes whether what follows closes |
| RepairJson.RepairedIsStable | crates/episcience-api/src/clients/claude_cli.rs:665-721 | repaired text has nothing left to repair |
| RepairJson.RepairIsIdempotent | crates/episcience-api/src/clients/claude_cli.rs:665-721 | repairing twice is repairing once, on every text |
| JsonText.RepairFixes | crates/episcience-api/src/clients/claude_cli.rs:649-664 | every leniently written document (raw control characters in strings, one trailing comma per container, any whitespace) is repaired to exactly its strict writing |
| JsonText.RepairPreservesMeaning | crates/episcience-api/src/clients/claude_cli.rs:649-664 | the repaired document is valid JSON text (sections 2, 4, 5 and 7 of RFC 8259) and means the same value |
| JsonText.RepairKeepsJson | crates/episcience-api/src/clients/claude_cli.rs:649-664 | valid JSON text is left unchanged |
| JsonText.FixSound | crates/episcience-api/src/clients/claude_cli.rs:680-696 | the strict writing is strict and has the meaning of the lenient one |
| JsonReading.OneTextOneTree | crates/episcience-api/src/clients/claude_cli.rs:649-664 | a text, JSON or leniently written, is the text of one document only, so it has one meaning |
| JsonReading.RepairsExactlyLenientJson | crates/episcience-api/src/clients/claude_cli.rs:649-721 | for every text: its repair is valid JSON text if and only if it is leniently written JSON |
| JsonReading.GivenOf | crates/episcience-api/src/clients/claude_cli.rs:665-721 | whenever the repair of a text is a JSON document, the text is a lenient writing of that same document |
| JsonReading.RepairMeansTheSame | crates/episcience-api/src/clients/claude_cli.rs:649-664 | however a leniently written text and its repair are read, they mean the same value |
| Traversal.Traverse | crates/episcience-core/src/synthesis/traversal.rs:60-98 | the loop keeps the seeds, respects the cap, returns only nodes within the hops along admissible paths, all of them when it ends below the cap, and is level by level; hops stay within u8 and it terminates on infinite graphs |
| Traversal.Expand | crates/episcience-core/src/synthesis/traversal.rs:83-96 | the inner loop keeps the queue ordered by hops and the distances exact, and has done every neighbour unless the cap is met |
| Traversal.Meet | crates/episcience-core/src/synthesis/traversal.rs:85-92 | after one neighbour it is visited if relevant, nothing inadmissible is, and the distances are still exact |
| Traversal.ExhaustedMeansComplete | crates/episcience-core/src/synthesis/traversal.rs:76-97 | when the queue runs dry the visited nodes are exactly those within the hops |
| Traversal.SoundMeans | crates/episcience-core/src/synthesis/traversal.rs:84-92 | what is visited lies on an admissible path from a seed |
| Traversal.HeadLevelComplete | crates/episcience-core/src/synthesis/traversal.rs:76-92 | the FIFO order makes every level complete before the next, so first discovery is the shortest |
| Traversal.ClosedMeansComplete | crates/episcience-core/src/synthesis/traversal.rs:84-92 | expanding every node below a level finds all nodes within it |
| Traversal.WithinMeans | crates/episcience-core/src/synthesis/traversal.rs:76-97 | within k hops means a chain from a seed of at most k links, each later claim listed as a neighbour of the one before for the requested edge types and not below the relevance threshold |
| Vectors.CauchySchwarz | crates/episcience-db/src/synthesis/novelty_backend_internal.rs:234-243 | the accumulated product squared is at most the product of the accumulated norms |
| Vectors.CosineOf | crates/episcience-core/src/wiki/seed.rs:11-24 | the loop computes the cosine of usable vectors of one length, else nothing |
| Vectors.CosineIsCosine | crates/episcience-core/src/wiki/seed.rs:11-24 | a cosine exists exactly for usable vectors of one length, lies in [-1, 1], is symmetric and 1 from a vector to itself |
| Vectors.CosineOneIff | crates/episcience-db/src/synthesis/novelty_backend_internal.rs:234-243 | the cosine is 1 exactly for a usable vector and a positive multiple of it |
| Vectors.CosineMeans | crates/episcience-core/src/wiki/seed.rs:11-24 | the cosine times the product of the lengths is the sum of the products of the coordinates; it exists exactly for two vectors of one length with some non-zero coordinate each |
| SeedSelection.SelectPositions | crates/episcience-core/src/wiki/seed.rs:33-66 | every pick is the best candidate alive in its round, ties to the earliest, until the budget is used or nothing is alive |
| SeedSelection.SelectArticleSeeds | crates/episcience-core/src/wiki/seed.rs:33-66 | the result is the identifiers of such a selection |
| SeedSelection.BestInPool | crates/episcience-core/src/wiki/seed.rs:49-60 | the scan finds the first position with the greatest score |
| SeedSelection.Retain | crates/episcience-core/src/wiki/seed.rs:61-62 | the chosen candidate and its near duplicates go, the rest keep their order |
| SeedSelection.RedundancyIsMax | crates/episcience-core/src/wiki/seed.rs:51-54 | the redundancy is the greatest cosine to a pick, at least 0 |
| SeedSelection.SelectionIsMaximal | crates/episcience-core/src/wiki/seed.rs:26-66 | picks are distinct, usable, within budget and pairwise no near duplicates; with budget left every usable candidate is picked or near a pick |
| SeedSelection.LargerBudgetContinues | crates/episcience-core/src/wiki/seed.rs:33-66 | the selection for a budget is a prefix of that for any larger one, and unique |
| SeedSelection.PicksMaximizeTheTradeoff | crates/episcience-core/src/wiki/seed.rs:49-60 | against every candidate still open in its round a pick has at least as much of lambda times the relevance less (1 - lambda) times the greatest cosine to the earlier picks, at least 0, and strictly more than an earlier candidate |
| SeedSelection.PicksAreOpen | crates/episcience-core/src/wiki/seed.rs:48-64 | every pick is eligible, new and no near duplicate of an earlier pick; with budget left nothing is still open |
| SeedSelection.EligibleMeans | crates/episcience-core/src/wiki/seed.rs:39-47 | eligible are the candidates with some non-zero coordinate and the dimension of the first such one |
| Novelty.JaccardIs | crates/episcience-db/src/synthesis/novelty_backend_internal.rs:250-260 | the overlap lies in [0, 1], is 1 exactly for equal non-empty sets, 0 exactly for disjoint ones |
| Novelty.InternalScore | crates/episcience-db/src/synthesis/novelty_backend_internal.rs:47-99 | the kept neighbours are the first five by falling similarity, ties in the order of the priors, and the score is one minus the first, clamped |
| Novelty.ScoreIsDistanceToNearest | crates/episcience-db/src/synthesis/novelty_backend_internal.rs:75-99 | the first neighbour is the greatest over all priors; the score is one minus its similarity, or 1 when that is negative; 0 exactly for a prior of similarity 1 and 1 exactly when none is positive |
| Novelty.SimilarityIs | crates/episcience-db/src/synthesis/novelty_backend_internal.rs:75-87 | a similarity lies in [-0.5, 1] and is 1 exactly when the embeddings are positive multiples of each other and the members are the same non-empty set |
| Novelty.NeighbourMeans | crates/episcience-db/src/synthesis/novelty_backend_internal.rs:75-87 | twice the similarity is the cosine (0 without one) plus the overlap, and the overlap is the shared members over all members |
| Novelty.KeptAreTheFirstFive | crates/episcience-db/src/synthesis/novelty_backend_internal.rs:88-94 | each kept neighbour ranks before the next and before every prior that is not kept, by similarity and then by order |
| Countersign.Countersignatures.ChainHead | migrations/5037_queue_and_maintenance_definers.sql:348-391 | the latest row of the claim by time stamp, then identifier; none exactly when it has none |
| Countersign.Countersignatures.Create | crates/episcience-db/src/repos/countersign.rs:41-88 | appends a row linked to the head's stored hash or hashed signature; refuses an unreadable claim, an unreadable hashless head, a repetition |
| Countersign.RecordingMeans | crates/episcience-db/src/repos/countersign.rs:41-88 | exactly who is refused for which of the three reasons; the new row has the request's claim, signer, recorder, meaning, signature and owner, the hash of its signature, and the link the claim's latest row calls for |
| Countersign.Countersignatures.Findings | crates/episcience-db/src/countersign_links.rs:51-104 | the loops find every missing hash, wrong hash and dangling link, in order |
| Countersign.FindingsMean | crates/episcience-db/src/countersign_links.rs:51-104 | reported are the number of missing hashes first, every row whose stored hash is not that of its signature, every row whose link no signature of its claim hashes to, and nothing else |
| Countersign.Countersignatures.Backfill | crates/episcience-db/src/countersign_links.rs:113-150 | fills exactly the missing hashes and counts them |
| Countersign.FilledMeans | crates/episcience-db/src/countersign_links.rs:113-150 | every missing hash becomes that of the row's own signature; every other row and field stays |
| Countersign.FindingsEmptyIff | crates/episcience-db/src/countersign_links.rs:51-104 | the check is silent exactly when every row stores the hash of its signature and every link is the hash of some signature of its claim |
| Countersign.BackfillRepairs | crates/episcience-db/src/countersign_links.rs:106-150 | after one backfill exactly wrong hashes and dangling links remain to find, and a second one fills nothing |
| CountersignRuns.RunKeepsChains | crates/episcience-db/src/repos/countersign.rs:52-88 | in every run of appends over any claims with rising time stamps per claim each claim's rows are one unforked chain in append order |
| CountersignRuns.ChainContinuesIff | crates/episcience-db/src/repos/countersign.rs:54-72 | the append after next stays on the chain if and only if the time stamp was later than the head's or the signatures hash alike |
| CountersignRuns.UnforkedIffTimely | crates/episcience-db/src/repos/countersign.rs:52-88 | over any run whose signature hashes are distinct, a claim's final chain is unforked if and only if every append to it but the last was later than the head it met |
| CountersignRuns.ASteppedClockForks | crates/episcience-db/src/repos/countersign.rs:62-72 | a clock that steps back forks a chain |
| CountersignRuns.WholeChainsPass | crates/episcience-db/src/countersign_links.rs:51-150 | legacy rows, a timely run and one backfill leave nothing to find; without legacy rows nothing is found at once |
| CountersignRuns.AppendsKeepPassing | crates/episcience-db/src/countersign_links.rs:23-26 | whatever the time stamps, appends never make the check speak: a fork passes it |
| CountersignRuns.FilledNeverRefusesHead | migrations/5037_queue_and_maintenance_definers.sql:375-386 | once every hash is filled no append is refused for an unreadable head |
| Sessions.SessionOwners.Bind | crates/episcience-api/src/mcp/http.rs:147-163 | binds the session, dropping exactly the cap/10+1 oldest bindings of a full table, and stays within the cap |
| Sessions.SessionOwners.ByAge | crates/episcience-api/src/mcp/http.rs:150-155 | the bindings, each once, oldest first |
| Sessions.SessionOwners.DropOldest | crates/episcience-api/src/mcp/http.rs:150-158 | removes exactly the oldest and makes room |
| Sessions.SessionOwners.Forget | crates/episcience-api/src/mcp/http.rs:165-167 | removes that binding and no other |
| Sessions.OldestAreFirst | crates/episcience-api/src/mcp/http.rs:150-158 | the first entries in age order are the bindings with fewer older ones |
| SessionRuns.TableAgrees | crates/episcience-api/src/mcp/http.rs:119-167 | in every run the table keeps its cap, sequence numbers are distinct, a present binding is the latest owner, and one not forgotten is missing only after more than 8,999 further bindings |
| SessionRuns.LookupIsLatest | crates/episcience-api/src/mcp/http.rs:143-145 | in every run a lookup answers with the session's latest opener or not at all, and answers whenever the session is open and at most 8,999 were opened since |
| SessionRuns.DroppedWasOld | crates/episcience-api/src/mcp/http.rs:149-158 | a binding is dropped only while at least cap - (cap/10+1) bindings in the table are newer |
| SessionRuns.Serve | crates/episcience-api/src/mcp/http.rs:215-258 | turned away are exactly a request without caller and a POST, GET or DELETE naming another caller's session, and then nothing changes; otherwise the table is what other requests made of it meanwhile, and a success that created a session for a request naming none binds it to the caller, a successful DELETE forgets the named one, any other answer changes nothing |
| SessionRuns.ForeignCallsAreRefused | crates/episcience-api/src/mcp/http.rs:202-242 | in every run a caller naming another's open session is answered as for an unknown one unless more than 8,999 sessions were opened since; the opener always gets through |
| SessionRuns.OverlappingForeignCallsAreRefused | crates/episcience-api/src/mcp/http.rs:202-258 | the same for every arrival when requests overlap in any way, each checked, served and bound at different times |
| SessionRuns.AnOpenSessionIsGuarded | crates/episcience-api/src/mcp/http.rs:202-258 | once the answer that created a session came, and while nobody opened it again or closed it, a foreign POST, GET or DELETE naming it is answered as for an unknown session unless more than 8,999 sessions were opened since, and its opener gets through, however requests overlap |
| SessionRuns.FullTableDrops | crates/episcience-api/src/mcp/http.rs:147-163 | a full table gives up exactly 1,001 bindings, each older than every one that stays, before the new one goes in; a smaller one gives up none |
| UuidText.HyphenatedRoundTrip | crates/episcience-core/src/synthesis/verifier.rs:64-68 | identifier text prints and parses back |
| UuidText.HyphenatedCanonical | crates/episcience-core/src/synthesis/verifier.rs:64-68 | lower-case text that parses is the printed text |
| UuidText.HyphenatedMeans | crates/episcience-core/src/synthesis/verifier.rs:64-68 | the text has 36 characters, hyphens at 8, 13, 18 and 23, and between them each octet as two lower-case digits, greater half first |
| UuidText.ReadFormsAre | crates/episcience-core/src/wiki/key.rs:18-20 | read as an identifier are exactly its digits in either case, bare, hyphenated, in braces, or after the URN prefix |
| Verifier.CapturesAreAllMatches | crates/episcience-core/src/synthesis/verifier.rs:64-68 | the leftmost non-overlapping scan captures every match |
| Verifier.CitedIffOccurs | crates/episcience-core/src/synthesis/verifier.rs:64-68 | an identifier is cited exactly when its bracketed lower-case text occurs |
| Verifier.RubricIsExact | crates/episcience-core/src/synthesis/verifier.rs:63-101 | accepted exactly when the occurring identifiers are the members; else the first missing member with all that occurs, or a foreign citation with the members, is reported |
| WikiKeys.SlugRoundTrip | crates/episcience-core/src/wiki/key.rs:35-79 | every key with non-negative numbers parses back from its slug |
| WikiKeys.SlugBijection | crates/episcience-core/src/wiki/key.rs:43-79 | a text parses to a key exactly when the numbers are non-negative and the text is the key's slug |
| WikiKeys.SlugInjective | crates/episcience-core/src/wiki/key.rs:35-42 | two keys never share a slug |
| WikiKeys.PropertiesYieldSlugs | crates/episcience-core/src/wiki/key.rs:18-33 | the keys properties yield are exactly those that round-trip |
| WikiKeys.PropertiesMean | crates/episcience-core/src/wiki/key.rs:18-33 | properties yield a key exactly when the run is the text of an identifier, the cluster a non-negative integer of the width, and a split part absent, null or such an integer |
| WikiKeys.SlugMeans | crates/episcience-core/src/wiki/key.rs:35-42 | the slug is r, the run as 32 lower-case digits, -c and the cluster in decimal, and for a split page -s and the part |
| WikiKeys.DecimalMeans | crates/episcience-core/src/wiki/key.rs:35-42 | decimal text has no leading zero and each character is the digit of its power of ten |
| WrapText.WrapParagraph | crates/episcience-api/src/routes/export.rs:46-60 | the loop sets the greedy lines |
| WrapText.Wrap | crates/episcience-api/src/routes/export.rs:34-63 | every line of the text is split into words and wrapped, a blank one is an empty line |
| WrapText.WrappingKeepsTheWords | crates/episcience-api/src/routes/export.rs:34-63 | the words of the wrapped lines are those of the text, in order |
| WrapText.NextWordWouldNotFit | crates/episcience-api/src/routes/export.rs:46-60 | the first word of a line would not have fit on the line before |
| WrapText.WordsMean | crates/episcience-api/src/routes/export.rs:41-41 | the words of a line are what lies between its white space, in order |
| WrapText.LinesMean | crates/episcience-api/src/routes/export.rs:36-36 | the lines are what lies between the line ends, a carriage return before a line feed belonging to the end |
| WrapText.EmptyLinesMean | crates/episcience-api/src/routes/export.rs:37-45 | there is one empty line for every blank paragraph and no other |
| WrapText.BytesMean | crates/episcience-api/src/routes/export.rs:50-50 | a width is the length of the UTF-8 text (section 3 of RFC 3629) |
| WrapText.GreedyIsBreaking | crates/episcience-api/src/routes/export.rs:46-60 | the words in order, each line one word or within the width |
| WrapText.WrappingIsOptimal | crates/episcience-api/src/routes/export.rs:34-63 | no breaking with those properties has fewer lines |
| WrapText.LaterNeedsNoMore | crates/episcience-api/src/routes/export.rs:46-60 | starting at a later word never needs more lines |

## Left out

- Lifecycle.LifecycleSafety: the content of what stages 2 to 4 write (snapshot, clusters, cluster text) and of the novelty score; the staleness mark of the other worklist kind is no step; a usage record that answers false for a live row out of the session's sight is no step; completion leaves the visibility as it is (the publish rule may narrow it, here a separate step); `synthesis.failed` is best effort and not an event of the log.
- RefinementChains.PipelineRunsBounded: claims are counted, so a job refused before its pipeline (expired, unauthorised, invalid payload) counts as a run; a commit whose report is lost lets one attempt of a job spawn and a later one spawn again, which is why the bound is a sum of four powers and not smaller.
- RefinementChains.ReachableDescendants: the child's visibility is the parent's at its creation; later propagation of narrowing is not modelled.
- SynthesisJob.SynthesisJobHandler.Execute: the model calls and engine reads of stages 1 to 5 and the verifier succeed, fail or are refused, without content; between two transactions of the attempt only deletions come in, other interleavings are the protocol's; the outbox rows of the plan are an event, not rows (the outbox is modelled on its own).
- SynthesisRows.SynthesisRepository.LockLive: the row lock itself exists only in the lifecycle protocol, where a held row keeps every other writer out.
- OutboxRuns.OutboxIsSound: transactions follow one another; overlapping ones are the subject of `OutboxOverlap`.
- OutboxOverlap.CreatedTwiceIff: a statement that waits for a row is one step, taken when the row is free; the order within a listing and the reasons for a rollback (deadlocks included) are left free.
- OutboxRuns.RunsWriteOnlyCited: the clusters cited are those seen by the discard; a concurrent stage 3 of another attempt within the transaction is not modelled.
- Outbox.ProvoEdges.ListPending: the order of the listing is left free, so results hold for any order, the code's included.
- JobQueue.Worker.RunOnce: no other worker claims the job between two tries of one queue call; the pauses between those tries, the saturation of the retry delay and logging are not modelled.
- WorklistRuns.NoStarvation: the period number and the times a hold ends are unbounded integers here (u64 in the code), and the definer's order is a parameter, so what takes an item off the list (ten failed attempts on an edge, a revoked membership) shows only in the orders.
- Countersign.Countersignatures.Create: signatures are not checked, the hash is a parameter; a refused statement is one of three refusals, other database errors are left out.
- SessionRuns.Serve: sequence numbers are unbounded (u64 in the code); the exact answer to an unknown session (status and body per method) is a value, not bytes.
- Verifier.RubricIsExact: which of several foreign citations is named depends on a hash order, taken as a parameter.
- Novelty.InternalScore: the selection of priors (SQL and visibility) is not modelled; the priors are a parameter. Reals stand for f64, so rounding is out.
- SeedSelection.SelectPositions: reals stand for f32, so rounding, NaN and overflow are out; the square root is any function that is one.
- Traversal.Traverse: the edge provider and the relevance are functions; an edge type filter is part of the provider.
- JsonText.RepairFixes: numbers are compared as written; the order in which an answer's candidates are tried (`parse_envelope`, `bracket_spans`) is not modelled.
- UuidText: the parser is the library's; the four accepted forms are modelled from section 4 of RFC 9562 and the library's documented behaviour.
- Routes, MCP tools, SQL text and policies, migrations' catalog checks, PDF drawing, process spawning and provider selection are not modelled.
- The staleness recheck, clustering, pipeline prompts and the paper novelty backend are not modelled.
