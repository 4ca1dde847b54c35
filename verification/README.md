# Helion coordinator: verified model

A Dafny model of the Helion job-scheduler coordinator and proofs about it. The modules follow
the program's components.

| module | what it models |
|---|---|
| `Workflows`, `Kahn`, `Dag` | workflow graphs, the topological sort, the validator and the graph queries |
| `Lifecycle`, `Plans`, `Progress`, `WorkflowStore` | how a started workflow runs: transitions, gating, the failure cascade, the verdict |
| `Sink`, `Summaries`, `SummaryHistories`, `Delivery`, `Backfill` | the analytics sink's buffer, the tables it writes and what they say after a history, both together when acknowledgements are lost, and the backfill from the audit log |
| `Migrations` | the schema migration runner |
| `Streams`, `LocalStore`, `Deletions`, `KeyPaths`, `VerifiedDownload` | the artifact store: streaming, atomic Put, deletes of any name, keys and URIs, verified download |
| `Tokens` | the JWT token manager over a store with expiry |
| `Shares` | the access decision and the share list of a resource |
| `Text`, `EnvDenylist` | string operations; the environment denylist and its exception rules |
| `Ints`, `Wrappers` | 64-bit integers with wrap-around; Option and Result |
| `AuditLog` | ordered audit keys and the audit query |

Code that updates state is modelled by classes and loops whose contracts tie them to
specification functions; the theorems are lemmas about those functions and about whole runs.
Clock readings, fresh identifiers, the outcome of every database, file and network call, the
order in which Go visits a map, and the hash function are parameters, so a result holds for
all of them. Integers are unbounded except where an int64 can overflow in practice: the size cap
of a download (`VerifiedDownload`) and the page start of the audit listing (`AuditLog`).

## Where the code and its comments differ

The model follows the code.

- A cycle error lists every job from which a cycle can be reached, not only the members of one
  (`Kahn.TopologicalSort`).
- `Descendants` leaves out its start only when the start is on no cycle (`Dag.Descendants`).
- Acceptance does not rule out a `from` upstream that has not completed when its reader is
  offered, although the comment at internal/cluster/workflow_resolve.go:26-27 says the DAG check
  should have; the exact condition is `Plans.ResolutionIsSafeIff`, in a form
  that can be computed `Plans.ResolutionIsSafeIffForced`; a concrete workflow is
  `Plans.AcceptedYetUnresolved`.
- The report handler takes a failure report for a job that was never dispatched
  (internal/grpcserver/handlers.go:185), although internal/cluster/job.go:100-105 says none comes.
  Safety results allow such reports; the results about what can happen are stated both with
  them and for honest reports, and those about undisturbed runs only for honest ones.
- A workflow with an on_failure job can wait for ever after an undisturbed run
  (`Progress.FinishesIff`).
- A second backfill counts node revocations again (`Backfill.SecondBackfill`), and the number a
  backfill returns counts entries that were already stored, against the comment at
  internal/analytics/backfill.go:56-57 (`Backfill.Backfill`).
- An object exactly at the size cap is accepted, and a cap at the int64 maximum wraps so that
  nothing is read (`VerifiedDownload.GetAndVerifyTo`).
- Key sanitizing is not idempotent (`KeyPaths.CleanedAgainIff`), and URIs under the root `/` or
  under a root with a colon as its third character cannot be read back (`KeyPaths.RoundTripIff`).
- Key sanitizing allows a key with the name of a tempfile, and Delete takes a tempfile's name.
  With deletes of other names, Puts are atomic exactly when no key has a tempfile's name
  (`LocalStore.AtomicIff`). With deletes of any name there must also be no two writers in one
  directory, one of which can succeed, unless both store nothing
  (`Deletions.AtomicWithAnyDeletesIff`).
- A create or revoke of a share on a job or workflow whose save fails is answered with an error and
  is in force all the same until a restart (`Shares.FailedSavesAreInForce`,
  `Shares.RestartGoesBack`), although the comment at internal/cluster/shares.go:10-15 says that
  memory and disk stay consistent.
- A flush whose commit took effect without an acknowledgement is repeated, which leaves events and
  job rows right and counts the node events of the batch again (`Delivery.DeliveryIsExact`).
- An audit query with a limit answers from the oldest entries, not the newest
  (`AuditLog.LimitedIsNewestIff`), and every page of the audit listing after the first is empty
  unless the page number is so large that its start overflows (`AuditLog.LaterPagesAreEmpty`,
  `AuditLog.HugePagesWrap`).

## Model

| member | source | states |
|---|---|---|
| `Workflows.TrappedReachesCycle` | internal/cluster/dag.go:241-252 | from any job in a set where every job depends on a member of the set, a walk along dependencies reaches an actual cycle inside the set |
| `Kahn.BuildAdjacency` | internal/cluster/dag.go:206-222 | in-degrees are the numbers of dependency entries, and a job occurs in a dependency's downstream list exactly as often as it lists it, repeated entries included |
| `Kahn.SeedQueue` | internal/cluster/dag.go:224-229 | the queue starts with exactly the jobs of in-degree zero, each once when names are unique |
| `Kahn.ReleaseChildren` | internal/cluster/dag.go:231-240 | each child's in-degree drops by its number of entries, and exactly those that cross to zero are queued |
| `Kahn.Drain` | internal/cluster/dag.go:231-240 | the main loop ends with an empty queue, the removed jobs in dependency order, and every other in-degree equal to its entries on unremoved jobs |
| `Kahn.TopologicalSort` | internal/cluster/dag.go:206-255 | for unique names it succeeds if and only if the graph is acyclic and closed; the order is a permutation of the names with every dependency first; on failure the reported names are exactly the blocked jobs (those that reach a cycle or an unknown name) and, for known dependencies, contain an actual cycle |
| `Kahn.UnblockedIffDag` | internal/cluster/dag.go:206-255 | no job is blocked if and only if the graph is acyclic with known dependencies |
| `Kahn.NeededComesEarlier` | internal/cluster/dag.go:201-206 | in an order with dependencies first, everything a job transitively needs stands strictly before it |
| `Dag.SplitDotRefInvertsJoin` | internal/cluster/dag.go:184-196 | the split gives (upstream, output) if and only if the reference is that pair joined by a dot and the output is non-empty without dots |
| `Dag.AncestorsOf` | internal/cluster/dag.go:118-133 | the explicit-stack loop terminates and returns exactly the transitive closure of depends_on |
| `Dag.Descendants` | internal/cluster/dag.go:257-288 | exactly the jobs that transitively need the start, each once, so d is a descendant of n if and only if n is an ancestor of d; the start is left out if and only if it is on no cycle |
| `Dag.RootJobs` | internal/cluster/dag.go:290-302 | exactly the jobs without dependencies, each once |
| `Dag.EveryJobRestsOnARoot` | internal/cluster/dag.go:290-302 | in a closed acyclic workflow every job is a root or a descendant of one |
| `Dag.CheckNames` | internal/cluster/dag.go:66-76 | passes exactly when names are non-empty and distinct, and a refusal names a real offender |
| `Dag.CheckDependencies` | internal/cluster/dag.go:78-92 | passes only when all dependencies are known and no job lists itself, and a refusal names an unknown or a self dependency |
| `Dag.CheckFrom` | internal/cluster/dag.go:134-180 | one input's verdict equals the declarative fault of its reference: condition, shape, upstream, ancestry or missing output |
| `Dag.ValidateFromReferences` | internal/cluster/dag.go:111-182 | no error if and only if no input has a fault; otherwise the error of the first faulty input in list order |
| `Dag.ValidateDAG` | internal/cluster/dag.go:61-109 | accepts if and only if the workflow meets the declarative specification (distinct non-empty names, known dependencies, acyclic, every from input on an on_success job naming an ancestor that declares the output); every error is justified by the input |
| `Dag.FromUpstreamComesEarlier` | internal/cluster/dag.go:111-182 | in every topological order of an accepted workflow the job an input reads from stands strictly earlier |
| `Dag.SurvivorsAreValid` | internal/cluster/dag.go:257-288 | removing a job and all its descendants from an accepted workflow leaves an accepted workflow |
| `Lifecycle.StepKeepsInv` | internal/cluster/workflow_lifecycle.go:104-220 | every action (dispatch, reports, notification, cancellation, restart, failed saves) keeps dependency gating and a verdict that matches the jobs |
| `Lifecycle.RunKeepsInv` | internal/cluster/workflow_lifecycle.go:23-220 | in every state of every run a started job has each dependency in the state its condition asks for and everything it reads from completed; a completed or failed workflow has no live job and the right verdict |
| `Lifecycle.RunKeepsFailures` | internal/cluster/job.go:95-115 | no job ever times out, and with honest reports a job fails only after its dependencies let it start |
| `Lifecycle.SettledIsStable` | internal/cluster/workflow_lifecycle.go:104-130 | a step from a state whose verdict, if it has one, matches ended jobs leads to another such state; a restart may take the verdict back |
| `Lifecycle.VerdictIsFinal` | internal/cluster/workflow_lifecycle.go:104-130 | once a workflow has completed or failed no step changes a job, and only a restart can change the workflow |
| `Lifecycle.VerdictLasts` | internal/cluster/workflow_lifecycle.go:104-220 | in the rest of every run the jobs of a finished workflow never change, the verdict stays until a restart, and a verdict found after one is the same |
| `Lifecycle.MoveTable` | internal/cluster/job.go:95-124 | the six statuses that end a job, and the fifteen moves open to the others |
| `Lifecycle.SatisfiedIff` | internal/cluster/workflow_lifecycle.go:86-101 | the statuses of a dependency that each condition accepts |
| `Lifecycle.VerdictIff` | internal/cluster/workflow_lifecycle.go:152-208 | a workflow completes if and only if every job completed or was cancelled, fails if and only if all have ended and one failed, timed out, was lost or skipped, and runs on if and only if one has not ended |
| `Lifecycle.CancelIff` | internal/cluster/job_cancel.go:17-40 | a cancelled job ends as cancelled, or as lost if it was being dispatched or retried, and an ended one stays |
| `Plans.OutcomeIsPlan` | internal/cluster/workflow_lifecycle.go:86-101 | in every reachable state the completed and the failed jobs form a consistent plan of the workflow; with honest reports the failed ones must have been able to run |
| `Plans.RealizePlan` | internal/cluster/dispatch.go:179-312 | every plan of an accepted workflow is reached by a run with exactly its jobs completed and failed, by honest reports if the plan allows for them |
| `Plans.OutcomeIffPlan` | internal/cluster/workflow_lifecycle.go:23-101 | the pairs of completed and failed jobs that can ever occur are exactly the plans, for honest reports and for any reports |
| `Plans.ResolutionIsSafeIff` | internal/cluster/workflow_resolve.go:26-51 | an upstream is always completed when its reader is offered if and only if every plan that completes the reader's dependencies completes it, for honest reports and for any reports |
| `Plans.ClosureIsLeast` | internal/cluster/workflow_lifecycle.go:86-101 | the jobs that a set of completions and failures forces, closed step by step over dependencies and reads, are part of every plan that contains the set |
| `Plans.ImpliedIffForced` | internal/cluster/workflow_resolve.go:26-51 | every plan that completes the dependencies of a job completes an upstream if and only if the closure of those dependencies contains it or is contradictory |
| `Plans.ResolutionIsSafeIffForced` | internal/cluster/workflow_resolve.go:26-51 | an upstream is always completed when its reader is offered if and only if that closure contains it or is contradictory, which a validator could compute |
| `Plans.DirectDependencyIsSafe` | internal/cluster/workflow_resolve.go:39-44 | a direct dependency of an on_success job is always completed when the job is offered |
| `Plans.AcceptedYetUnresolved` | internal/cluster/workflow_resolve.go:26-51 | a concrete accepted workflow whose reader can be offered with its upstream not completed, honest reports only |
| `Progress.FairRunKeeps` | internal/cluster/workflow_lifecycle.go:104-220 | in undisturbed runs every processed failure has left no on_success dependent pending, and every skipped job has a failed job upstream |
| `Progress.EligibleIsResolvable` | internal/cluster/workflow_resolve.go:39-44 | in an undisturbed run with no report left to process, the inputs of every eligible job can be resolved |
| `Progress.StuckIffQuiescent` | internal/cluster/dispatch.go:179-312 | in a running workflow, no further undisturbed step changes anything if and only if nothing runs, nothing waits to be processed and nothing is eligible |
| `Progress.NoDeadlock` | internal/cluster/workflow_lifecycle.go:104-220 | when no undisturbed step is left in a workflow of benign jobs, every job has ended and the workflow has its verdict |
| `Progress.NeverStarts` | internal/cluster/workflow_lifecycle.go:86-101 | once a dependency ended in a way the condition does not accept, the job never starts in the rest of the run |
| `Progress.CanStall` | internal/cluster/workflow_lifecycle.go:133-150 | an accepted workflow with a job waiting for a failure has an undisturbed run, with honest reports, that gets stuck while the workflow is still running |
| `Progress.FinishesIff` | internal/cluster/workflow_lifecycle.go:104-220 | no undisturbed run gets stuck before the verdict if and only if no job with dependencies carries an on_failure or unrecognised condition |
| `Progress.FewEffectiveSteps` | internal/cluster/job.go:107-115 | an undisturbed run takes at most five effective steps per job, so it cannot go on for ever without getting stuck |
| `WorkflowStore.Store.Transition` | internal/cluster/job_transition.go:28-137 | a job moves if and only if the pair of statuses is among the fifteen and the save works; each error exactly in its case, and then every status is as it was |
| `WorkflowStore.Store.MarkLost` | internal/cluster/job_transition.go:140-180 | a live job is lost whatever the table says, a terminal one stays |
| `WorkflowStore.Store.CancelJob` | internal/cluster/job_cancel.go:17-40 | a job that has not ended becomes lost when dispatching or retrying and cancelled otherwise; not found, already terminal, unsaved and done each exactly in its case |
| `WorkflowStore.Store.EligibleJobs` | internal/cluster/workflow_lifecycle.go:23-83 | exactly the pending jobs of a running workflow whose dependencies all have one of the statuses their condition accepts |
| `WorkflowStore.Store.SkipDescendants` | internal/cluster/workflow_lifecycle.go:133-150 | the loop over the descendants computes the cascade: exactly the pending on_success jobs that transitively need the failed one are skipped |
| `WorkflowStore.Store.Tally` | internal/cluster/workflow_lifecycle.go:152-181 | the walk over the jobs decides whether all have ended and whether any failed, and counts successes and failures exactly |
| `WorkflowStore.Store.OnJobCompleted` | internal/cluster/workflow_lifecycle.go:104-220 | after a report of failed, timed out or lost the cascade has run, otherwise no status changes; the workflow status is the verdict, and the event has the exact counts and the reported job or else the first that failed itself |
| `WorkflowStore.Store.FindBlamed` | internal/cluster/workflow_lifecycle.go:189-205 | the first job in list order that failed, timed out or was lost, and the empty name exactly when there is none |
| `WorkflowStore.Store.Cancel` | internal/cluster/workflow_lifecycle.go:264-293 | every live job whose save succeeds is lost; only a running workflow is cancelled, and it is even when saving it fails, which is reported |
| `WorkflowStore.TallyAddsUp` | internal/cluster/workflow_lifecycle.go:152-181 | in a finished workflow the completed, failed and cancelled jobs add up to all jobs |
| `Sink.WithDefaults` | internal/analytics/sink.go:55-67 | positive settings are kept, and others become 100 and 10000 |
| `Sink.FlushKeeps` | internal/analytics/sink.go:225-238 | a flush attempt loses nothing: the truncating branch of the re-buffering never takes effect |
| `Sink.RunKeepsInv` | internal/analytics/sink.go:150-238 | over every run with any flush outcomes the buffer stays within its limit and is a contiguous suffix of the received events, every received position has exactly one of stored, evicted and buffered, and stored events keep arrival order |
| `Sink.StopSettlesAll` | internal/analytics/sink.go:120-147 | after Stop the buffer is empty and every received event has exactly one fate; nothing is abandoned if the last flush succeeds |
| `Sink.EvictionIff` | internal/analytics/sink.go:205-222 | evictions happen only right after a failed flush if and only if a batch fits the buffer |
| `Sink.TickSettles` | internal/analytics/sink.go:188-203 | after every run a tick with a working database leaves the buffer empty, stores exactly what waited, and every event received so far is stored or was evicted |
| `Sink.TickOutcome` | internal/analytics/sink.go:188-203 | a tick stores all that waits, or leaves it all waiting in order |
| `Sink.ArrivalOutcome` | internal/analytics/sink.go:161-186 | with an event a full batch is stored at once, or it waits with the others, the oldest giving way at the limit |
| `Sink.HealthyRunsLoseNothing` | internal/analytics/sink.go:150-203 | in every run with a working database and batches that fit the buffer, what is stored followed by what waits is what was received, and less than a batch waits |
| `Sink.Buffer.Add` | internal/analytics/sink.go:210-222 | the buffer is the old one and the event, without the oldest if it was at the limit |
| `Sink.Buffer.PutBack` | internal/analytics/sink.go:225-238 | a failed batch goes back in front of what arrived since, cut at the limit |
| `Sink.Buffer.OnEvent` | internal/analytics/sink.go:150-200 | a full batch with the event is stored and leaves the buffer if the database takes it, and otherwise the event waits; the run invariant is kept |
| `Sink.Buffer.OnTimer` | internal/analytics/sink.go:188-203 | the whole buffer is stored and emptied if the database takes it, and otherwise nothing changes; the run invariant is kept |
| `Sink.Buffer.Stop` | internal/analytics/sink.go:120-147 | the last batch is exactly what was received and had not left the buffer; it is all stored or all given up, earlier fates stand, and afterwards every event received has one fate and the database holds the stored ones in order |
| `Summaries.BatchingIsIrrelevant` | internal/analytics/sink.go:242-257 | however events are cut into batches, the three tables end up as after one fold |
| `Summaries.JobRowIsLocal` | internal/analytics/sink.go:303-421 | a job's row depends only on that job's events |
| `Summaries.JobSummaryReplay` | internal/analytics/sink.go:371-517 | applying a whole event sequence twice gives the same job_summary as once, from any starting table |
| `Summaries.EventsAreStoredOnce` | internal/analytics/sink.go:260-300 | every event id is stored, a new one with the first event that carries it, and nothing stored is replaced |
| `Summaries.CountersAreExact` | internal/analytics/sink.go:448-457 | each node counter grows by exactly the number of matching events with a node id |
| `Summaries.ReplayDoublesCounters` | internal/analytics/sink.go:540-574 | replaying a history keeps events and job rows and adds every counter a second time |
| `Summaries.Tables.InsertEvents` | internal/analytics/sink.go:260-300 | the insert loop equals the first-writer fold over ids |
| `Summaries.SubmittedRow` | internal/analytics/sink.go:371-390 | command, priority and time are those of the event, the status is the old one or pending in a new row, and every other column keeps its value, or its default in a new row |
| `Summaries.TransitionInsert` | internal/analytics/sink.go:392-421 | status, node and, when running, start time are those of the event, attempts is 1 and every other column NULL, the node too when it is missing |
| `Summaries.TransitionUpdate` | internal/analytics/sink.go:392-421 | the status is the latest, a missing node keeps the old one, the start time is the first one seen running, and every other column stays |
| `Summaries.CompletedRow` | internal/analytics/sink.go:423-443 | the status is completed, time and duration are those of the event, a missing node keeps the old one, and every other column stays |
| `Summaries.FailedRow` | internal/analytics/sink.go:461-483 | the status is failed, and time, error, exit code and attempts come from the event; every other column keeps its value, or its default in a new row |
| `Summaries.RetryingRow` | internal/analytics/sink.go:501-517 | the status is retrying and attempts come from the event; every other column stays |
| `Summaries.RowAfterColumns` | internal/analytics/sink.go:303-517 | the one upsert that stands for an event does to each column what the statement of its topic does, and no other topic writes a row |
| `Summaries.CompletedNode` | internal/analytics/sink.go:448-457 | last_seen is now and first_seen the old one or now; jobs_completed is one higher, the other counters and the address are kept |
| `Summaries.FailedNode` | internal/analytics/sink.go:488-497 | the same for jobs_failed |
| `Summaries.RegisteredNode` | internal/analytics/sink.go:521-538 | the address is the new one, last_seen is now, first_seen and every counter are kept |
| `Summaries.StaleNode` | internal/analytics/sink.go:540-556 | the same for times_stale |
| `Summaries.RevokedNode` | internal/analytics/sink.go:558-574 | the same for times_revoked |
| `Summaries.NodeStatementRow` | internal/analytics/sink.go:303-368 | topic by topic, which counter or address of the row changes and how; completions and failures without a job id and all other topics leave none |
| `Summaries.Tables.UpsertJob` | internal/analytics/sink.go:303-368 | for a job topic with a job id, the row of that job changes column by column as the topic says; otherwise nothing, and no other row, changes |
| `Summaries.Tables.UpsertNode` | internal/analytics/sink.go:521-574 | for a topic about a named node, the row of that node changes as the topic says; otherwise nothing, and no other row, changes |
| `Summaries.Tables.UpsertSummaries` | internal/analytics/sink.go:303-368 | the loop over a batch equals the folds over both summary tables |
| `Summaries.Tables.Flush` | internal/analytics/sink.go:242-257 | a committed flush projects the batch, any other leaves the tables unchanged |
| `SummaryHistories.StatusIsTheLastReported` | internal/analytics/sink.go:303-517 | after every history a job's status is the one reported last by a transition, completion, failure or retry, and pending when only a submission made it known; a row exists exactly for the jobs reported or submitted |
| `SummaryHistories.CountersByTopic` | internal/analytics/sink.go:445-574 | after every history the four counters of a node have grown by the numbers of stale, revoked, completed and failed events that name it |
| `SummaryHistories.SeenFromFirstToLast` | internal/analytics/sink.go:445-574 | after every history first_seen is the time of the first event about the node and last_seen that of the last |
| `SummaryHistories.StringFields` | internal/analytics/sink.go:579-592 | a string field is read as it is, a missing or other one as the empty string |
| `SummaryHistories.NumberFields` | internal/analytics/sink.go:596-619 | a whole number is read as it is, a real one is cut towards zero, anything else is zero |
| `Delivery.ReplayOfTheEnd` | internal/analytics/sink.go:225-300 | flushing the last events that reached the tables again, with new ones behind them, changes events and job_summary by the new ones only |
| `Delivery.DeliveryIsExact` | internal/analytics/sink.go:150-300 | over every run of arrivals and ticks with acknowledgements lost at will, events and job_summary are as if every event that reached the database had been flushed once in order, each counter is too high by exactly the events flushed again, and nothing the sink takes to be stored is missing |
| `Delivery.StopIsExact` | internal/analytics/sink.go:120-147 | the same after Stop, whatever became of its last flush |
| `Delivery.ReportedRunsAreExact` | internal/analytics/sink.go:150-257 | when no acknowledgement is lost the tables have received exactly what the sink counts as stored, once |
| `Delivery.TickDelivers` | internal/analytics/sink.go:188-203 | after every run a tick that is not refused brings all that waits to the tables, and the buffer is emptied exactly when that is acknowledged |
| `Delivery.FullBatchDelivers` | internal/analytics/sink.go:161-186 | the same for an arrival that fills a batch, while an earlier one only waits |
| `Backfill.AuditToAnalyticsEvent` | internal/analytics/backfill.go:128-169 | the topic of each of the four mapped types, and audit. in front of every other; key by key, a transition's states are found under their bus names and no longer under the audit names, the actor is added if there is one, and every other detail is as it was; time and id fallback |
| `Backfill.Backfill` | internal/analytics/backfill.go:58-124 | the tables hold exactly the projection of the first inserted entries, all of them on success, a multiple of 500 on failure |
| `Backfill.BackfillCounts` | internal/analytics/backfill.go:49-54 | audit entries bump no counter but times_revoked, once per revocation that names a node |
| `Backfill.SecondBackfill` | internal/analytics/backfill.go:94-169 | for entries with ids, a second backfill leaves events and job_summary unchanged and raises times_revoked by the number of revocations |
| `Backfill.BackfilledStatus` | internal/analytics/backfill.go:45-169 | after a backfill into empty tables a job's status is the state its last audited transition led to, or pending if it was only submitted |
| `Migrations.GroupFiles` | internal/analytics/migrations.go:48-118 | one group per version: the first file names it, the last script of each direction wins |
| `Migrations.ScriptIsTheLast` | internal/analytics/migrations.go:98-108 | the last file of a version and direction provides the script |
| `Migrations.NameIsTheFirst` | internal/analytics/migrations.go:98-102 | the first file of a version provides the name |
| `Migrations.LoadMigrations` | internal/analytics/migrations.go:48-132 | ascending, one migration per version, each as described by the files |
| `Migrations.MaxVersion` | internal/analytics/migrations.go:241-247 | the highest applied version, or 0 when none is positive |
| `Migrations.Database.Migrate` | internal/analytics/migrations.go:167-222 | schema, tracking table, count and success after the loop, for every outcome of every transaction |
| `Migrations.Database.Rollback` | internal/analytics/migrations.go:226-295 | the highest applied version, if it has a down script and the transaction takes effect, is undone and reported unless the acknowledgement is lost; otherwise nothing changes and 0 is reported |
| `Migrations.RollbackOutcome` | internal/analytics/migrations.go:253-294 | for ascending lists, the database, the reported version and the success of a rollback in every case |
| `Migrations.MigrateAdvances` | internal/analytics/migrations.go:167-222 | the loop moves the applied prefix forward; success means the whole list, and the count misses at most one commit that landed unreported |
| `Migrations.HistoryKeepsPrefix` | internal/analytics/migrations.go:167-295 | after every sequence of Migrate and Rollback calls with failures anywhere, ambiguous commits included, the applied set is a prefix of the list and the schema is the fold of that prefix; migrations without a down script and version 0 are included |
| `Migrations.SuccessfulMigrateCompletes` | internal/analytics/migrations.go:167-222 | after any history a successful Migrate reaches the full list and an immediate second one applies nothing |
| `Migrations.StaleReadIff` | internal/analytics/migrations.go:167-222 | a Migrate that read the table at prefix k0 and goes on from migration i with the table at prefix k keeps a prefix under every outcome if and only if its next migration is at most k, or there is none, or it has no up script |
| `Migrations.OverlapKeepsPrefixIff` | internal/analytics/migrations.go:147-222 | the same for every history of calls before the read and between the read and the first transaction |
| `Migrations.StaleReadBreaksPrefix` | internal/analytics/migrations.go:167-295 | for every list with something left to apply, reading, rolling back and going on breaks the prefix law |
| `Migrations.StaleRollbackIff` | internal/analytics/migrations.go:226-295 | a Rollback that chose its version at one prefix and runs its transaction at prefix k keeps a prefix under every outcome if and only if the table is as it was read, or there is no down script, or the migration is undone already and its down script then changes nothing |
| `LocalStore.CopyWithCtx` | internal/artifacts/local.go:271-297 | for every chunking, what was written is a prefix of the content, the whole of it on success; each error has its cause, and without a cancellation failure means that a call failed |
| `LocalStore.Disk.Put` | internal/artifacts/local.go:67-111 | all or nothing under a failure at any step: the complete new bytes under the target, or the disk unchanged except for a tempfile whose removal failed |
| `LocalStore.AtomicIff` | internal/artifacts/local.go:63-111 | in every interleaving of Puts and of Deletes of names other than tempfiles', failing anywhere, each key looks at every moment as if the landed operations had been executed atomically in order, if and only if no key has the name of a tempfile |
| `Deletions.AtomicWithAnyDeletesIff` | internal/artifacts/local.go:63-111 | with Deletes of any name the same holds if and only if no key has the name of a tempfile and no two writers of one directory clash: one whose size fits, and not both without data |
| `Deletions.DeletedTempfileBreaks` | internal/artifacts/local.go:168-182 | for every clash, deleting the tempfile of a Put before its rename makes the Put succeed and show the other writer's file, unfinished or not, under its key |
| `LocalStore.ExactlyOneWriterWinsIff` | internal/artifacts/local.go:12-13 | without deletes each key holds at every moment its old bytes if no Put to it succeeded and otherwise the whole content of one that did, if and only if no key has the name of a tempfile |
| `LocalStore.NoTempfileLeft` | internal/artifacts/local.go:82-86 | when all Puts are over and removals worked, a tempfile name that remains was there before or was the key of a successful Put |
| `LocalStore.ShowsPartialFile` | internal/artifacts/local.go:77-86 | a Put whose key has a tempfile's name can show an unfinished file under its key |
| `LocalStore.TempNamedKeyBreaks` | internal/artifacts/local.go:77-86 | if another writer's key is a tempfile name in the same directory, a successful Put can store that writer's bytes |
| `LocalStore.TempNameIff` | internal/artifacts/local.go:77-79 | the names a tempfile can have are exactly those with a decimal number below 2^32, without leading zeros, between prefix and suffix |
| `KeyPaths.PathIsUnderRoot` | internal/artifacts/local.go:67-75 | the joined path of an accepted key is the root, a slash and the cleaned key, element by element below the root |
| `KeyPaths.AcceptedIff` | internal/artifacts/local.go:216-258 | a key is accepted if and only if it has 1 to 1024 bytes without controls and backslashes, starts neither with a slash nor like a drive, leads somewhere, and never climbs above the root, even on the way |
| `KeyPaths.CleanSkipsDetours` | internal/artifacts/local.go:244-247 | an element and a `..` behind it can be left out of a path without changing what it cleans to |
| `KeyPaths.CleanSkipsDots` | internal/artifacts/local.go:244-247 | so can a `.` and a second slash |
| `KeyPaths.PlainBytes` | internal/artifacts/local.go:260-267 | the bytes a URI shows as they are, and the upper-case escapes of all others |
| `KeyPaths.CleanedAgainIff` | internal/artifacts/local.go:216-258 | a cleaned key cleans to itself and is accepted again if and only if its second byte is not a colon |
| `KeyPaths.NotIdempotent` | internal/artifacts/local.go:244-247 | every drive-like name behind `./`, such as `./c:x`, is accepted, and its cleaned form is refused |
| `KeyPaths.DecodeEncode` | internal/artifacts/local.go:260-267 | percent-decoding inverts percent-encoding on every byte string |
| `KeyPaths.ParseFileURI` | internal/artifacts/local.go:187-192 | parsing a produced file URI gives back the path |
| `KeyPaths.DistinctKeysDistinctURIs` | internal/artifacts/local.go:260-267 | keys that clean to different names get different URIs |
| `KeyPaths.RoundTripIff` | internal/artifacts/local.go:187-204 | the URI of a stored key resolves to the path written if and only if the root is not `/` and has no colon as third character, and is refused otherwise |
| `KeyPaths.AnyURIStaysInside` | internal/artifacts/local.go:184-204 | whatever URI is presented, an accepted one names the root or something below it, with no dot elements left; under the root `/` only the root itself |
| `VerifiedDownload.EqualFoldHex` | internal/artifacts/store.go:174-194 | true if and only if the lengths agree and at each position the characters are equal or the two forms of one ASCII letter; without capitals, if and only if the strings are equal |
| `Text.LoweredIff` | internal/artifacts/store.go:182-190 | lower-casing makes two strings equal if and only if they differ in the case of ASCII letters only |
| `VerifiedDownload.Copy` | internal/artifacts/store.go:119-132 | destination and hash get prefixes of the object within the limit, all that the limit lets through on success, and success means that no call failed |
| `VerifiedDownload.GetAndVerifyTo` | internal/artifacts/store.go:109-142 | success if and only if no call failed, the object fits the cap and the digests agree up to the case of letters, and for lower-case digests they are equal; then the destination holds the whole object; never more than the cap and one byte is written; each error exactly in its case |
| `VerifiedDownload.GetAndVerify` | internal/artifacts/store.go:144-161 | bytes are returned if and only if the same holds, and they are the object, with the expected digest |
| `Tokens.KeysAreApart` | internal/auth/jwt.go:226-229 | token records collide neither with each other nor with the root token |
| `Tokens.ValidIff` | internal/auth/jwt.go:239-266 | in any state that keeps the records, a token validates if and only if it was issued, is before its exp and was not revoked |
| `Tokens.RunKeepsInv` | internal/auth/jwt.go:204-304 | every run of issue, revoke, rotate and clock steps keeps the store equal to the issued and unrevoked records and the root record on the last root token |
| `Tokens.ValidInEveryRun` | internal/auth/jwt.go:204-304 | in every run a token validates if and only if it was issued under the secret, has not expired and was never revoked; store expiry never rejects early |
| `Tokens.OneLiveRoot` | internal/auth/jwt.go:281-304 | at most one token issued by rotation validates at any time |
| `Tokens.InvalidStaysInvalid` | internal/auth/jwt.go:269-278 | no action makes an issued token that does not validate valid again |
| `Tokens.RootLastsTenYears` | internal/auth/jwt.go:281-304 | in every reachable state a newly rotated token is for subject root and role admin and validates for ten years, cut to a second, whatever time the writing took |
| `Tokens.TokenManager.GenerateTokenWithClaims` | internal/auth/jwt.go:204-235 | the new token carries the caller's subject, role, common name and method with issue and expiry time in whole seconds, is live exactly until that expiry, and the standing of no other token changes |
| `Tokens.TokenManager.ValidateToken` | internal/auth/jwt.go:239-266 | accepted if and only if it was issued under the secret, has not expired and was never revoked, with exactly its claims |
| `Tokens.TokenManager.RevokeToken` | internal/auth/jwt.go:269-278 | exactly the tokens with that id stop being live |
| `Tokens.TokenManager.RotateRootToken` | internal/auth/jwt.go:281-304 | the returned token is for subject root and role admin, is live until ten years after the call, cut to a second, and no other token issued by a rotation is live afterwards |
| `Shares.ValidatesIff` | internal/authz/share.go:92-124 | a share is valid if and only if its grantee is user, operator, group, service or job, a colon and a subject, and its actions are non-empty and among read, list, write, cancel, delete and reveal |
| `Shares.MergedMembers` | internal/api/handlers_shares.go:443-451 | merging keeps grantees distinct; the result holds the new share and every share of another grantee, one more only for a new grantee |
| `Shares.WithoutMembers` | internal/api/handlers_shares.go:419-426 | revoking removes exactly the shares of the grantee |
| `Shares.HistoryIsSound` | internal/api/handlers_shares.go:236-440 | after every history of create and revoke requests with saves that fail or succeed, later saves and restarts, the list in memory and the list on disk have distinct grantees, valid shares and at most 32 entries |
| `Shares.SharesComeFromManagers` | internal/api/handlers_shares.go:209-221 | after every history each share in memory or on disk was created in this form by a user or operator with role admin or by the owner |
| `Shares.StrangersChangeNothing` | internal/api/handlers_shares.go:279-293 | as long as no request comes from an admin or the owner, both lists stay empty |
| `Shares.SharedAccessWasGranted` | internal/api/handlers_shares.go:209-221 | a decision that differs from the one without shares goes back to a share that an admin or the owner made for that principal and action |
| `Shares.DiskIsTheLastSaved` | internal/cluster/shares.go:31-69 | after every history the disk holds the list that was in force at the last save, so memory differs from disk exactly when it has changed since; datasets and models, which are not cached, never differ |
| `Shares.SavedHistoriesAgree` | internal/cluster/shares.go:10-15 | memory and disk agree after every history in which no save failed |
| `Shares.FailedSavesAreInForce` | internal/cluster/shares.go:31-69 | between restarts the list that decides on a job or workflow does not depend on which saves failed |
| `Shares.RestartGoesBack` | internal/cluster/shares.go:31-69 | after a restart the list in force is the one of the last save |
| `Shares.AccessIff` | internal/authz/authz.go:321-440 | access is granted if and only if the principal is a user or operator with role admin, or the resource is neither a system nor a legacy one and one of the kind-specific grounds holds; a share counts when it names the principal's id or one of its groups and lists the action |
| `Shares.DenialIff` | internal/authz/authz.go:321-440 | which code a denial carries |
| `Shares.MatchesIff` | internal/authz/share.go:159-175 | a grantee matches if and only if it is the principal's id or `group:` and one of its groups |
| `Shares.SharesMatterIff` | internal/authz/authz.go:321-440 | some share list changes a decision if and only if the principal is an ordinary user or operator that can be named and the resource is an ordinary one of somebody else |
| `Shares.OnlyMatchingSharesMatter` | internal/authz/share.go:159-185 | lists with the same shares matching the principal give the same decision |
| `Shares.OthersUnaffected` | internal/api/handlers_shares.go:298-304 | a request about one grantee, saved or not, changes no decision for principals that grantee does not match |
| `Shares.RevokeUndoesCreate` | internal/api/handlers_shares.go:419-451 | creating a share for a new grantee and revoking it restores the list in force, and so every decision, on cached records whichever saves fail and on others if the revoke is saved |
| `Shares.LastCreateWins` | internal/api/handlers_shares.go:440-451 | after a create that is in force a matching principal is allowed an action if and only if the new share or another grantee's share lists it |
| `Shares.AdminIsNeverShared` | internal/authz/share.go:115-122 | no history of requests, failed saves and restarts changes the decision on the admin action, for any principal and resource |
| `Shares.ShareList.Merge` | internal/api/handlers_shares.go:443-451 | the in-place overwrite or append equals the merge function |
| `Shares.ShareList.CreateShare` | internal/api/handlers_shares.go:236-311 | succeeds exactly for a valid share, a caller who is the owner or an admin, at most 32 entries afterwards and a save that works; a stranger changes neither list, and an unsaved change of a cached record stays in memory |
| `Shares.ShareList.RevokeShare` | internal/api/handlers_shares.go:373-431 | succeeds exactly for a grantee named by the owner or an admin and a save that works; a stranger changes neither list, the filter loop equals the removal function, and an unsaved change of a cached record stays in memory |
| `EnvDenylist.ParseKeys` | internal/api/env_denylist.go:161-172 | the key loop returns the set of keys, or the first bad key's error |
| `EnvDenylist.ParseEnvDenylistExceptions` | internal/api/env_denylist.go:129-183 | the parser equals its specification, and every parsed rule has trimmed non-empty selector parts and a non-empty set of blocked keys |
| `EnvDenylist.PrintThenParse` | internal/api/env_denylist.go:107-121 | every printing of well-formed rules, with each rule's keys in any order, parses back to those rules |
| `EnvDenylist.ParsePrintParse` | internal/api/env_denylist.go:129-183 | printing what was parsed and parsing it again gives the same rules |
| `EnvDenylist.ParsableIff` | internal/api/env_denylist.go:129-183 | a rule list can be written down if and only if every rule is well formed |
| `EnvDenylist.OverrideNeedsARule` | internal/api/env_denylist.go:193-210 | a blocked key is let through if and only if a rule of the parsed configuration has a label and value that the selector carries and lists the key |
| `EnvDenylist.BlockedIff` | internal/api/env_denylist.go:49-82 | the blocked keys: those that start with LD_ or DYLD_, and five names |
| `EnvDenylist.RefusedFor` | internal/api/env_denylist.go:129-183 | which rules are refused for a missing colon or equals sign, and which keys for being empty or not blocked |
| `EnvDenylist.BlankRulesAreSkipped` | internal/api/env_denylist.go:129-183 | blank pieces between semicolons make no difference |
| `EnvDenylist.ValidateEnvMap` | internal/api/env_denylist.go:239-269 | for every visiting order: accepted if and only if there are at most 128 entries, keys are non-empty without equals sign and NUL, values without NUL, and every blocked key has a rule for a label of the job; a true reason on refusal, and on acceptance each blocked key audited once |
| `EnvDenylist.CheckShape` | internal/api/handlers_jobs.go:183-201 | passes if and only if the count and every key and value have the right shape, for every visiting order |
| `EnvDenylist.DenylistOnly` | internal/api/env_denylist.go:417-433 | passes if and only if every blocked key has an exception, for every visiting order |
| `EnvDenylist.CheckInTwoPasses` | internal/api/handlers_jobs.go:183-201 | shape checks and then the denylist accept exactly the maps `ValidateEnvMap` accepts and audit the same keys |
| `AuditLog.PaddedIsFixed` | internal/audit/logger.go:353 | zero padding to a width gives exactly that many digits for every number that fits |
| `AuditLog.KeyOrder` | internal/audit/logger.go:349-353 | for timestamps below 10^19 and sequence numbers below 10^16, byte order of keys is the order of (timestamp, number), whatever the ids, and different pairs give different keys |
| `AuditLog.KeyText` | internal/audit/logger.go:349-353 | a key is the prefix, 19 digits that read back as the timestamp, 16 that read back as the number, and the id |
| `AuditLog.KeysSortByTime` | internal/audit/logger.go:349-358 | the keys of one logger never collide and sort by time, even when its clock runs backwards |
| `AuditLog.EveryEventIsKept` | internal/audit/logger.go:349-358 | no written event is overwritten by a later one, and the store holds nothing else |
| `AuditLog.Logger.Log` | internal/audit/logger.go:331-358 | the counter always moves on, and an accepted write adds the event under its key |
| `AuditLog.ReverseInPlace` | internal/audit/logger.go:524-526 | the swap loop reverses the array |
| `AuditLog.QueryEvents` | internal/audit/logger.go:491-534 | the matching decodable values in reverse scan order, cut at a positive limit; every answer is in the window and of the type asked for, and without a limit every such value is answered |
| `AuditLog.QueryIsExact` | internal/audit/logger.go:489-534 | without a limit the answer lists each persisted event from the start on, before the end and of the type asked for exactly once, latest first, one nanosecond's events in reverse order of logging |
| `AuditLog.WindowsMeet` | internal/audit/logger.go:480-516 | two windows that meet share no event and together are the whole window; an event at the meeting point is in the later one |
| `AuditLog.OldestWins` | internal/cluster/persistence_kv.go:79-108 | with a limit of one and two events the answer is the older |
| `AuditLog.LimitedIsNewestIff` | internal/cluster/persistence_kv.go:79-108 | with a limit the answer is the newest matches if and only if no entry past the first limit ones in scan order matches |
| `AuditLog.AuditPage` | internal/api/handlers_cluster.go:136-170 | the page is the wrapped start's window of the reversed matches among the oldest entries, or a panic when that start is negative |
| `AuditLog.PageEmptyIff` | internal/api/handlers_cluster.go:150-160 | a page is empty whatever the log holds if and only if its computed start is at or past the page size |
| `AuditLog.LaterPagesAreEmpty` | internal/api/handlers_cluster.go:150-160 | unless the product overflows, the first page is all the matches found and every later page is empty |
| `AuditLog.HugePagesWrap` | internal/api/handlers_cluster.go:116-160 | one huge page number shows the first page again, another makes the slice panic |

## Left out

- HTTP and gRPC handlers around the logic, WebSockets, JSON encoding, route registration, TLS, certificates, WebAuthn and post-quantum cryptography.
- Several workflows at once and collisions between job identifiers of different workflows; the lifecycle is that of one workflow.
- Job retries: workflow jobs carry no retry policy (internal/cluster/workflow_submit.go:58-147), so terminal statuses are final in the lifecycle.
- RecoveryManager, node selection and the failure path of WorkflowStore.Start.
- Lifecycle.RunKeepsInv: resolution checks that the upstream completed, not that it attested the named output, because attestation depends on what a node uploads; a cancelled workflow may keep live jobs whose cancellation was not saved.
- WorkflowStore.Store.Transition: models statuses only; node id, finish time, error and outputs, which an unsaved move does not put back (internal/cluster/job_transition.go:86-92), are not modelled.
- Sink.RunKeepsInv: its flushes either fail without committing or succeed; a commit whose acknowledgement is lost is the subject of Delivery.DeliveryIsExact.
- Summaries.JobSummaryReplay: the tables of the unified feed (internal/analytics/sink_unified.go) and SQL types are not modelled; a row is a map from columns to values.
- Migrations.HistoryKeepsPrefix: calls do not overlap (one overlapping Migrate is the subject of OverlapKeepsPrefixIff, one overlapping Rollback that of StaleRollbackIff), and each down script is taken to undo its up script; file names that do not parse are not modelled.
- Tokens.ValidInEveryRun: the store is reliable, identifiers are fresh and time-to-live values positive; signatures are symbolic.
- Shares.HistoryIsSound: requests run one after another, and reading a record does not fail.
- EnvDenylist.ParseEnvDenylistExceptions: text is a sequence of Unicode characters, so invalid UTF-8 is not modelled.
- AuditLog.KeyOrder: clock readings before 1970 and more than 10^16 events are outside its range; expiry of old entries is not modelled.
- LocalStore.AtomicIff: deletes are of names other than tempfiles' (Deletions.AtomicWithAnyDeletesIff allows any); directories and durability after a crash are not modelled; a name is a directory and a base name.
- KeyPaths.RoundTripIff: POSIX paths only; the validity of a URI's authority and fragment is a parameter.
- LocalStore.Get and Stat, the S3 backend, the dangerous-path checks on artifact bindings, artifact name validation and the paginated job list.
- The constant allow-lists of internal/authz/rules.go, which are parameters of the access decision.
