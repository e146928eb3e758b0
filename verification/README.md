# Kundi backend: the job queue, the ingest store and the v1 normaliser

This project models three connected parts of the Go backend and proves what they keep.

**The lease queue and WhatsApp dispatch.** `JobQueue` and `Backoff` describe what Enqueue, LeaseNext,
Complete and Fail do to the job and attempt tables; `QueueRuns` proves properties of every interleaving of
them, late calls included. `Workers` runs any number of workers with crashes against that queue, one step at
a time, with the dispatch handler's steps spelled out; every statement may take effect without its caller
being told. `TimelyRuns` says what holds when no worker acts after its lease, `WorkerRuns` that late workers
still only produce queue runs, `WorkerWitnesses` shows what goes wrong otherwise. `JobsRepository`, `JobsService` and `Dispatch` are the Go objects as classes,
`WorkerLoop` proves that a pass of the loop is a path of the protocol, and `FollowUps` covers the fan-out of
follow-up jobs after an ingest.

**The v2 merge store and the ingest batches.** `MergeStore` and `Aggregates` describe the upserts of a
result and of an aggregate with all unique indexes and checks; `ResultRuns`, `Bundles`, `BundleRuns` and `AggregateRuns` prove
what any run of bundle merges keeps, from empty tables on; `RowContents` says what its rows hold, column by column; `Mood` and `MoodRuns` say which mood a row ends up
with. `MergeRepository` is the transaction as a class. `Batches` interleaves concurrent ingest calls,
`IngestService` is the service as a class, `SequentialIngest` compares it with a simple rule.

**The v1 normaliser.** `Grades`, `Lessons` and `Attendance` deduplicate through a map and an order list,
whose algebra is in `KeyedFold`; `StableSort` is the contract of the stable sort; `Normaliser` is the
in-place normalisation, `NormalForm` its laws, `Validation` the checks after it, and `V1Ingest` what the
normal form means for redelivery. `Text`, `Lists`, `Validate` and `Wrappers` are shared.

Properties that fail in general come with an input on which they fail and the exact condition under which
they hold:

- `succeeded` and `dead_letter` are not absorbing: a late Fail revives a dead job
  (`WorkerWitnesses.StaleFailRevivesDeadLetter`), and a timely worker whose Complete took effect but was answered
  with an error queues the job again (`WorkerWitnesses.LostReplyRequeuesSucceeded`). Exactly when:
  `QueueRuns.TerminalStatusKeptExactly`, `TimelyRuns.TerminalIsKeptExactly`.
- `sent` is not stable under late workers (`WorkerWitnesses.StaleWorkerUndoesSent`). Exactly when:
  `TimelyRuns.SentThroughoutExactly`.
- The highest endpoint does not always set the mood (`MoodRuns.LowerEndpointOverwrites`): the code compares
  with the evidence captured last, although the in-memory repository in the integration tests keeps the
  maximum. Exactly when: `Mood.HighestWinsExactlyOnNewHeights`.
- A batch whose merge failed is never merged, yet later requests are told it was processed
  (`Batches.FailedMergeAbandonsBatch`). Exactly when: `Batches.MergedEventuallyExactly`.
- Normalising twice can lose a grade when a grade key begins with `index:`
  (`NormalForm.ReservedKeyDefeatsNormalisation`). Exactly when: `NormalForm.IdempotentExactlyAsDelivered`.
- The normal form can depend on Go's map iteration order when two source ids differ only in case or padding
  (`NormalForm.CaseOnlyIdsAreInconsistent`). Exactly when: `NormalForm.OneNormalFormExactly`.
- Merging an aggregate can abort the whole merge (`AggregateRuns.FillingASubjectCanAbort`). Exactly when:
  `Aggregates.AggregateRejectedExactly`.

## Model
| member | source | states |
|---|---|---|
| Backoff.RetryBackoffIsCappedQuadratic | backend/internal/modules/jobs/repository.go:208-217 | the retry delay of attempt n is 15n² s up to n = 4 and 300 s from n = 5 on, lies between 15 and 300 s and never shrinks with n |
| Backoff.TotalBackoffClosedForm | backend/internal/modules/jobs/repository.go:208-217 | the delays of failures 1 to M-1 add up to 15(M-1)M(2M-1)/6 s for M ≤ 5 and to 450 + 300(M-5) s for M ≥ 5 |
| QueueRuns.RunKeepsInv | backend/internal/modules/jobs/repository.go:31-176 | every interleaving of Enqueue, LeaseNext, Complete and Fail, calls of workers whose lease is over included, keeps (type, key) unique, the attempt log of each job exactly 1..attempts, queued and leased jobs below their attempt limit, and lease fields set exactly on leased jobs |
| QueueRuns.TerminalStatusKeptExactly | backend/internal/modules/jobs/repository.go:107-176 | a step changes a succeeded or dead-lettered status exactly when it is a Complete of the dead job, or a Fail with an attempt left of a succeeded job or one that grants a dead job a retry |
| QueueRuns.RegrantNeedsFail | backend/internal/modules/jobs/repository.go:54-176 | lease exclusion in every run: if a job granted until t is granted again before t, a Fail of that job committed between the grants |
| QueueRuns.DrainIsExactAndOrdered | backend/internal/modules/jobs/repository.go:63-94 | calling LeaseNext again and again at one moment with a lease of at least 1 s grants each leasable job at most once, by ascending priority number and among equal ones by ascending creation time, and finds nothing more exactly after as many grants as there were leasable jobs |
| JobsRepository.PostgresRepository.Enqueue | backend/internal/modules/jobs/repository.go:31-52 | unless (type, key) has a row or the priority exceeds its column, inserts one with the request's type, key, payload and priority, queued, due at once, without lease, attempts or error, five attempts allowed; returns the row's id and whether it is new |
| JobsRepository.PostgresRepository.SelectCandidate | backend/internal/modules/jobs/repository.go:63-79 | finds a due queued or overdue leased job, unlocked, whose priority number no other such job undercuts and which none of equal priority predates; finds none only if there is none |
| JobsRepository.PostgresRepository.LeaseNext | backend/internal/modules/jobs/repository.go:54-105 | the job returned has the smallest priority number of all due unlocked jobs and is oldest among those with that number; it is leased for the requested time cut to whole seconds and nothing else changes |
| JobsRepository.PostgresRepository.Complete | backend/internal/modules/jobs/repository.go:107-120 | marks the job succeeded and finished now, clears its lease, whoever holds it, and leaves its other columns and every other job alone |
| JobsRepository.PostgresRepository.Fail | backend/internal/modules/jobs/repository.go:122-176 | counts and logs the attempt with its error, clears the lease and queues the job again after its delay, or dead-letters it if the error is permanent or the attempts are used up; changes nothing when the attempt would exceed the limit or is logged already |
| JobsService.SettlingEndsTheLease | backend/internal/modules/jobs/service.go:62-74 | after a pass of the loop a leased job is succeeded, retried, dead-lettered or still leased exactly according to the handler's outcome and to which of Complete and Fail took effect and was acknowledged |
| JobsService.Service.Enqueue | backend/internal/modules/jobs/service.go:23-34 | rejects an empty type and a malformed key, defaults the priority, and otherwise stores the request once |
| JobsService.Service.RunOnce | backend/internal/modules/jobs/service.go:46-75 | one pass of the loop leases a first candidate and leaves the table Settled describes, or finds nothing and changes nothing |
| WorkerLoop.RunOnceIsAPath | backend/internal/modules/jobs/service.go:46-75 | lease, handler and settling calls of a pass are legal steps of the worker protocol in order and lead to the table RunOnce leaves |
| WorkerLoop.DispatchPassIsAPath | backend/internal/modules/whatsapp/dispatch_processor.go:25-83 | the same with the dispatch handler in the middle, down to the records it leaves |
| WorkerRuns.TraceIsAQueueRun | backend/internal/modules/jobs/service.go:36-77 | what any run of workers, timely or not, does to the job table is a queue run with the same result |
| WorkerRuns.AnyRunKeepsQueueInv | backend/internal/modules/jobs/service.go:36-77 | so the queue invariant holds however late the workers are |
| TimelyRuns.TimelyRunKeepsInv | backend/internal/modules/jobs/service.go:46-75 | in timely runs two workers never hold one job, a worker that may still act holds its job or has completed it unawares, one about to send has a record that is not sent, and every succeeded dispatch job has a sent record |
| TimelyRuns.TerminalIsKeptExactly | backend/internal/modules/jobs/service.go:72-74 | in a timely run a succeeded or dead-lettered row stays as it is if and only if no worker fails a job whose Complete it had stored without being told |
| TimelyRuns.DeadLetterIsAbsorbing | backend/internal/modules/jobs/repository.go:122-176 | in a timely run a dead-lettered row never changes |
| TimelyRuns.SentKeptExactly | backend/internal/modules/whatsapp/dispatch_store.go:98-109 | a step of any worker, late or not, keeps a record sent if and only if it is not a stored MarkFailed for its key |
| TimelyRuns.SentThroughoutExactly | backend/internal/modules/whatsapp/dispatch_store.go:84-109 | the same over whole runs |
| TimelyRuns.SentIsAbsorbing | backend/internal/modules/whatsapp/dispatch_processor.go:33-82 | in timely runs a sent record stays sent |
| TimelyRuns.SucceededDispatchWasSent | backend/internal/modules/whatsapp/dispatch_processor.go:33-82 | in timely runs a dispatch job shows as succeeded only if its record is sent |
| TimelyRuns.GrantsAreAccountedFor | backend/internal/modules/jobs/repository.go:54-176 | in timely runs grants plus undone completions = fails + completes + reclaims + (1 if leased); completes = (1 if succeeded) + undone completions; fails = attempts |
| TimelyRuns.FailureRespectsBackoff | backend/internal/modules/jobs/repository.go:141-159 | in timely runs the m-th failure of a job comes no earlier than its first plus the delays of failures 1 to m-1, so a fifth one no earlier than 450 s after |
| TimelyRuns.DeliveriesAreAccountedFor | backend/internal/modules/whatsapp/dispatch_processor.go:63-82 | in timely runs successful sends for a key = (1 if recorded sent) + MarkSent calls without effect + workers stopped between Send and MarkSent, hence at most one more than MarkSent errors plus such workers |
| WorkerWitnesses.LostReplyRequeuesSucceeded | backend/internal/modules/jobs/service.go:72-74 | a timely run, for a follow-up the service accepts, in which the reply to Complete is lost and the succeeded job is queued again |
| WorkerWitnesses.StaleWorkerUndoesSent | backend/internal/modules/whatsapp/dispatch_processor.go:33-82 | a run, for a photo the service and the handler accept, in which a late worker turns a sent record back to failed |
| WorkerWitnesses.RivalsHandleThePayload | backend/internal/modules/whatsapp/dispatch_processor.go:25-83 | the steps of both workers in that run are those of the handler for the payload, one of them interrupted before Send |
| WorkerWitnesses.StaleFailRevivesDeadLetter | backend/internal/modules/jobs/repository.go:122-176 | a run in which a late worker, finding the media file missing, dead-letters a photo and the rival's transient failure queues it again |
| WorkerWitnesses.RevivalHandlesThePayload | backend/internal/modules/whatsapp/dispatch_processor.go:25-83 | both workers' steps in that run are those of the handler for the payload |
| Dispatch.HandlerIsAPath | backend/internal/modules/whatsapp/dispatch_processor.go:25-83 | one call of the handler takes legal protocol steps only, ends with its outcome and the records Handled gives, and touches nothing else |
| Dispatch.DispatchProcessor.HandleJob | backend/internal/modules/whatsapp/dispatch_processor.go:25-83 | leaves those records and returns that outcome; and, on the payload's entries, with a valid student id, a record not sent and all calls working, sends and returns success exactly for a homework digest whose text, given or the default, has at most 2000 bytes, a weekly digest with such a text, a photo with an object key and anything else with a text or an object key, and otherwise marks the record failed and fails permanently |
| Dispatch.SendableIsAcceptable | backend/internal/modules/whatsapp/payload_validation.go:12-35 | the validation behind the handler's trimming, kind folding and default text accepts exactly those payloads |
| Dispatch.DispatchStore.UpsertPending | backend/internal/modules/whatsapp/dispatch_store.go:41-82 | inserts a pending record unless the key has one and returns the stored status, or an error that may follow a stored insert |
| Dispatch.DispatchStore.Mark | backend/internal/modules/whatsapp/dispatch_store.go:84-109 | sets the status of the key's record if the statement takes effect and changes nothing else |
| FollowUps.WeekBoundsAreTheCalendarWeek | backend/internal/workers/jobhandlers/handlers.go:241-250 | two days have the same bounds if and only if they lie in one Monday-to-Sunday week |
| FollowUps.RetriedFanOutLeavesFourJobs | backend/internal/workers/jobhandlers/handlers.go:51-109 | any number of executions for one date, cut off anywhere, together with a complete one leave exactly the same four jobs |
| FollowUps.OneWeeklyJobPerWeek | backend/internal/workers/jobhandlers/handlers.go:70-84 | over any executions a student has exactly one weekly job per week among their dates |
| FollowUps.WeeklyFollowUpNamesTheWeek | backend/internal/workers/jobhandlers/handlers.go:70-84 | the weekly follow-up of an ingest asks for the Monday to Sunday around its date, at priority 45, under a key of the student and that Monday |
| FollowUps.IngestPostProcessing | backend/internal/workers/jobhandlers/handlers.go:51-109 | the loop submits the follow-ups in order up to the first failure |
| MergeStore.OnlyBadInsertsAreRejected | backend/internal/modules/diary_ingest/repository_v2.go:250-415 | with merges in turn no insert and no patch of a result violates a unique index; a delivery aborts if and only if it would insert a row failing the table's own checks |
| MergeStore.MergedKeepsInv | backend/migrations/0006_academic_contract_v2_constraints_indexes.sql:69-98 | an accepted delivery keeps all four unique indexes, the row checks and the evidence index |
| MergeStore.MergedExtends | backend/internal/modules/diary_ingest/repository_v2.go:286-337 | an accepted delivery loses nothing, leaves kind, mark, key, work, value, date, term and period of rows alone, fills blank subjects only, and puts a nonblank fingerprint on record for the row it resolved to |
| RowContents.InsertedRowKeepsColumns | backend/internal/modules/diary_ingest/repository_v2.go:250-284 | in every later store the row a result was inserted as has the result's kind, work, mark, key, value, date, term and period, for the bundle's student and provider |
| RowContents.SubjectsAreTheFirstStated | backend/internal/modules/diary_ingest/repository_v2.go:312-321 | over any run of merges the subject id and name of a row are each the first nonblank one delivered to the row, or the inserted one if all are blank |
| RowContents.ReachableResultsAreUnique | backend/migrations/0006_academic_contract_v2_constraints_indexes.sql:70-98 | no two result rows of a reachable store agree on the columns of one of the four unique indexes, written out |
| RowContents.ResultRejectedOnColumns | backend/migrations/0006_academic_contract_v2_constraints_indexes.sql:1-24 | a result is rejected if and only if it would be inserted and has neither mark nor key nor work, or a term other than 1 to 4, or an unknown kind |
| ResultRuns.InsertedAtMostOnce | backend/internal/modules/diary_ingest/repository_v2.go:250-415 | in any run of deliveries the same result for the same lesson, student and provider is inserted at most once |
| ResultRuns.RowsGrowByDistinctInputs | backend/internal/modules/diary_ingest/repository_v2.go:100-129 | rows grow by exactly the number of inputs inserted, so by at most the number of distinct inputs |
| Aggregates.AggregateRejectedExactly | backend/internal/modules/diary_ingest/repository_v2.go:417-549 | an aggregate is rejected if and only if its insert fails the checks or it fills the blank subject of a row while another row of the term or year has that subject |
| Aggregates.CollidingFillWasFoundByKey | backend/internal/modules/diary_ingest/repository_v2.go:494-549 | such a collision happens only to rows found by their source key |
| Aggregates.AggregateRunKeepsInv | backend/internal/modules/diary_ingest/repository_v2.go:131-150 | any number of accepted aggregates keep every index, lose no aggregate, leave its kind, key, term, period, year, value and date alone, fill blank subjects once and do not touch results |
| RowContents.InsertedAggregateKeepsColumns | backend/internal/modules/diary_ingest/repository_v2.go:417-437 | in every later store the row an aggregate was inserted as has the aggregate's kind, key, term, period, year, value and date, for the bundle's student and provider |
| RowContents.AggregateMoodIsDelivered | backend/internal/modules/diary_ingest/repository_v2.go:440-458 | the mood of an aggregate in a reachable store is that of its insert or of a delivery to it with a mood whose endpoint outranked the one captured last |
| RowContents.ReachableAggregatesAreUnique | backend/migrations/0006_academic_contract_v2_constraints_indexes.sql:100-124 | no two aggregates of a reachable store agree on the columns of a unique index |
| RowContents.AggregateRejectedOnColumns | backend/migrations/0006_academic_contract_v2_constraints_indexes.sql:26-38 | when an aggregate is rejected, said on the columns of the delivery and of the row it would fill |
| Bundles.ReplayResolvesTheSame | backend/internal/modules/diary_ingest/repository_v2.go:76-98 | merging a bundle again after other merges resolves every lesson reference as the first time and adds no lesson |
| Bundles.ResolvesToTheLastNamed | backend/internal/modules/diary_ingest/repository_v2.go:73-106 | a lesson reference resolves to the row of the last lesson of the bundle with that source key or provider id, and to none if it is empty or names no lesson |
| Bundles.IndexHoldsTheLast | backend/internal/modules/diary_ingest/repository_v2.go:603-625 | the evidence of a result or aggregate is that of the last item of the bundle with its reference; a blank reference is nobody's |
| Bundles.SyntheticFingerprintsTellApart | backend/internal/modules/diary_ingest/repository_v2.go:687-709 | with an injective digest and texts without bars, two results of one account have one synthetic fingerprint if and only if they agree on kind, subject, work, mark, key, value, date, term and lesson |
| Bundles.AggregateFingerprintsTellApart | backend/internal/modules/diary_ingest/repository_v2.go:713-733 | the same for two aggregates on kind, subject, key, period, year, value, date and term |
| Bundles.SyntheticEvidenceNeverOutranks | backend/internal/modules/diary_ingest/repository_v2.go:108-125 | a result without evidence in its bundle never changes the mood or lesson of an existing row |
| Bundles.MergeKeepsInvAndExtends | backend/internal/modules/diary_ingest/repository_v2.go:57-171 | a committed merge keeps every index of every table and loses no row, aggregate or evidence |
| Bundles.EvidenceReachesItsRow | backend/internal/modules/diary_ingest/repository_v2.go:603-649 | after a committed merge each result's nonblank fingerprint is on record for the row it resolved to |
| BundleRuns.ReachableKeepsInv | backend/internal/modules/diary_ingest/repository_v2.go:57-171 | every store reachable from empty tables by bundle merges satisfies all unique indexes and checks of results, aggregates and evidence |
| BundleRuns.ReachableExtends | backend/internal/modules/diary_ingest/repository_v2.go:57-171 | no later merge loses a lesson, row, aggregate or evidence row or changes what identifies it |
| BundleRuns.ReachableIdentitiesDiffer | backend/internal/modules/diary_ingest/repository_v2.go:340-415 | mark, else source key, else fingerprint tells the rows of every reachable store apart |
| BundleRuns.InsertedOnceAcrossBundles | backend/internal/modules/diary_ingest/repository_v2.go:250-415 | across any bundles, with lessons, aggregates and other students' merges in between, the same result for the same lesson, student and provider is inserted at most once |
| BundleRuns.ReplayInsertsOnce | backend/internal/modules/diary_ingest/repository_v2.go:100-129 | however often a bundle is merged, each of its results is inserted by at most one of the merges |
| BundleRuns.ReplaysInsertAtMostTheBundle | backend/internal/modules/diary_ingest/repository_v2.go:100-129 | all merges of one bundle together insert at most as many rows as it has results |
| BundleRuns.EvidenceStaysOnRecord | backend/internal/modules/diary_ingest/repository_v2.go:603-649 | in every later store each merged result's nonblank fingerprint is owned, once, by the row it resolved to |
| BundleRuns.FlatIsARun | backend/internal/modules/diary_ingest/repository_v2.go:57-171 | the results of a run of merges, taken alone, are a run that produces the same rows |
| AggregateRuns.AggregateInsertedAtMostOnce | backend/internal/modules/diary_ingest/repository_v2.go:417-549 | among aggregates delivered in turn the same one is inserted at most once, although subjects are filled in between |
| AggregateRuns.AggregateInsertedOnceAcrossBundles | backend/internal/modules/diary_ingest/repository_v2.go:131-150 | across any merges, whatever is merged in between, the same aggregate of one student and provider is inserted at most once |
| AggregateRuns.FillingASubjectCanAbort | backend/internal/modules/diary_ingest/repository_v2.go:460-490 | from empty tables, after one merge of two aggregates of a term, a bundle whose merge aborts because it fills the subject of the first with that of the second |
| Mood.RowMoodFollowsHistory | backend/internal/modules/diary_ingest/repository_v2.go:286-301 | the mood and latest endpoint of a row follow from the deliveries to it, whatever else is merged |
| Mood.HighestWinsExactlyOnNewHeights | backend/internal/modules/diary_ingest/repository_v2.go:651-662 | the highest endpoint sets the mood for all moods if and only if every rise over the delivery before is a rise over all before |
| Mood.MonotoneRuns | backend/internal/modules/diary_ingest/repository_v2.go:286-301 | so it does on runs of non-decreasing precedence, and on non-increasing runs the first mood stays |
| MoodRuns.FinalMoodByMark | backend/internal/modules/diary_ingest/repository_v2.go:286-301 | over any run of merges, a row inserted under a mark and delivered to by it, each time with new evidence, has the mood of the last delivery that is the insert or a strict rise with a nonblank mood |
| MoodRuns.LowerEndpointOverwrites | backend/internal/modules/diary_ingest/repository_v2.go:286-301 | a run of three merges from empty tables, whose bundles supply diary, final and period evidence for one mark, after which the row has the period's mood and not the diary's |
| MergeRepository.PostgresRepository.FindExistingResult | backend/internal/modules/diary_ingest/repository_v2.go:340-415 | finds a row by mark, else by source key, else some row by fingerprint, else none |
| MergeRepository.PostgresRepository.ReadLatestEndpoint | backend/internal/modules/diary_ingest/repository_v2.go:286-294 | returns an endpoint captured last for the owner, blank if there is none |
| MergeRepository.PostgresRepository.UpsertAcademicResult | backend/internal/modules/diary_ingest/repository_v2.go:250-338 | inserts a row whose thirteen columns are the delivery's if it found none, else fills and outranks the columns of the row it found as the specification says, or is rejected and writes nothing |
| MergeRepository.PostgresRepository.UpsertAcademicAggregate | backend/internal/modules/diary_ingest/repository_v2.go:417-492 | the same for the eleven columns of an aggregate |
| MergeRepository.PostgresRepository.InsertEvidence | backend/internal/modules/diary_ingest/repository_v2.go:627-649 | adds the evidence unless its fingerprint is blank or on record, and says whether it did |
| MergeRepository.PostgresRepository.MergeBundle | backend/internal/modules/diary_ingest/repository_v2.go:57-171 | all or nothing: commits all results and aggregates in order with InsertedEvidence equal to the growth of the evidence, or changes no table; with a working commit it fails only if the database rejects the next delivery |
| BundleRuns.CommitIsAMerge | backend/internal/modules/diary_ingest/repository_v2.go:57-171 | a committed MergeBundle is exactly one step of a run of merges |
| Batches.AtMostOneMergePerKey | backend/internal/modules/diary_ingest/service_v2.go:57-89 | in every interleaving of v1 and v2 calls, with failures and lost replies, at most one merge commits per student and key, and exactly one for a batch marked merged |
| Batches.RepliesAreTrue | backend/internal/modules/diary_ingest/service_v2.go:57-103 | a call told of success made the one merge of its key and its batch is marked; one told "already processed" or "conflict" was beaten by an equal or a different bundle |
| Batches.ConflictChangesNothing | backend/internal/modules/diary_ingest/repository.go:25-53 | a call whose checksum differs from the batch's changes nothing and is told so |
| Batches.MergedEventuallyExactly | backend/internal/modules/diary_ingest/service_v2.go:77-92 | a batch's bundle can still come to be merged if and only if it has been already or the call that created the batch is about to merge it |
| Batches.AbandonedLooksProcessed | backend/internal/modules/diary_ingest/service_v2.go:66-79 | a call with a bundle equal to that of any existing batch, merged or not, is answered "already processed" |
| Batches.FailedMergeAbandonsBatch | backend/internal/modules/diary_ingest/service_v2.go:77-92 | a run in which a failed merge is followed by "already processed" and nothing is merged |
| IngestService.Service.CreateBatch | backend/internal/modules/diary_ingest/repository_v2.go:23-55 | creates the batch of a free key, else compares checksums |
| IngestService.Service.IngestBundle | backend/internal/modules/diary_ingest/service_v2.go:57-103 | one call leaves the batches, store and answer of the specification, faults included |
| IngestService.IngestIsAPath | backend/internal/modules/diary_ingest/service.go:74-114 | such a call is a path of the concurrent protocol with the same batches, reply and merge |
| SequentialIngest.ServiceRefinesTheRule | backend/internal/modules/diary_ingest/service.go:74-114 | without faults, the store and all answers of any sequence of deliveries are those of the rule that merges the first valid delivery of each student and key, answers later equal ones "already processed" and later different ones "conflict" |
| V1Ingest.ReorderedRedeliveryIsProcessed | backend/internal/modules/diary_ingest/service.go:201-266 | redelivering a v1 bundle with its lessons and attendance in another order is answered "already processed" and leaves the store alone |
| KeyedFold.Absorption | backend/internal/modules/diary_ingest/service.go:283-305 | with an associative merge, deduplicating what is filed later first makes no difference |
| KeyedFold.PutAllMergesEachKey | backend/internal/modules/diary_ingest/service.go:283-305 | under each key stands the left-to-right merge of all values with that key |
| Grades.DeduplicateGrades | backend/internal/modules/diary_ingest/service.go:338-362 | the map-and-order loop computes the specified deduplication, length-one shortcut included |
| Grades.PositionsDoNotMatter | backend/internal/modules/diary_ingest/service.go:344-352 | without keys beginning `index:`, synthetic keys keep all unkeyed grades apart, wherever they stand |
| Grades.LastGradeIsKept | backend/internal/modules/diary_ingest/service.go:338-362 | of the grades with a value, each that is the last under its key is in the result |
| Grades.UnkeyedGradesAreKept | backend/internal/modules/diary_ingest/service.go:344-352 | without keys beginning `index:` every grade with a value but no key is in the result |
| Grades.CombinedIsAssociative | backend/internal/modules/diary_ingest/service.go:332-334 | merging the grade lists of three lessons is associative on deduplicated nonblank grades |
| Grades.SettledIsFixedExactlyWithoutClash | backend/internal/modules/diary_ingest/service.go:338-362 | deduplicating deduplicated grades changes nothing if and only if no synthetic key is another grade's own key |
| Lessons.DeduplicateLessons | backend/internal/modules/diary_ingest/service.go:283-305 | the loop computes the specified merge by key in order of first appearance |
| Lessons.MergingIsAssociative | backend/internal/modules/diary_ingest/service.go:307-336 | mergeLessons is associative on lessons with deduplicated nonblank grades |
| Lessons.DeduplicationIsPiecewise | backend/internal/modules/diary_ingest/service.go:283-336 | on such lessons deduplicating a concatenation equals deduplicating the concatenation of the deduplicated parts |
| Lessons.LastStatementWins | backend/internal/modules/diary_ingest/service.go:307-336 | each deduplicated lesson carries the last nonempty text, nonnegative number and significant homework stated for its key |
| Lessons.GradesAreAllGathered | backend/internal/modules/diary_ingest/service.go:332-334 | the grades of a deduplicated lesson are those of all its deliveries, deduplicated together |
| Lessons.KeylessLessonsAreToldApart | backend/internal/modules/diary_ingest/service.go:277-281 | with an injective digest and dates without colons, two lessons without keys get one key if and only if date and number are equal and the subjects are up to case and padding |
| Attendance.DeduplicateAttendance | backend/internal/modules/diary_ingest/service.go:364-385 | the loop computes the specified deduplication by event key or by date, code and reason |
| Attendance.LastEventWins | backend/internal/modules/diary_ingest/service.go:364-385 | the event kept for a key is the last one delivered with it |
| Attendance.EventKeysTellApart | backend/internal/modules/diary_ingest/service.go:364-385 | events with keys are one if and only if the keys agree up to padding; events without, with no bar in date and code, if and only if they agree in date, code up to case and reason up to case and padding |
| Attendance.DeduplicationIsPiecewise | backend/internal/modules/diary_ingest/service.go:364-385 | deduplicating a concatenation can be done piecewise |
| StableSort.StableSortIsUnique | backend/internal/modules/diary_ingest/service.go:387-412 | exactly one list is sorted, a permutation of the input and keeps ties in order |
| Normaliser.NormalizeBundle | backend/internal/modules/diary_ingest/service.go:210-266 | returns a normal form of the bundle and leaves the caller's slices with each element normalised in place |
| NormalForm.IdempotentExactlyWithoutShadow | backend/internal/modules/diary_ingest/service.go:210-266 | normalising a normalised bundle changes nothing, in any iteration order, if and only if no synthetic grade key in it is another grade's own key |
| NormalForm.IdempotentExactlyAsDelivered | backend/internal/modules/diary_ingest/service.go:210-266 | the same if and only if on the raw bundle: normalising twice is normalising once exactly when no lesson, its deliveries merged in bundle order, has such a key |
| NormalForm.IdempotentWithoutReservedKeys | backend/internal/modules/diary_ingest/service.go:210-266 | so normalisation is idempotent on every bundle without grade keys beginning `index:` |
| NormalForm.ReservedKeyDefeatsNormalisation | backend/internal/modules/diary_ingest/service.go:338-362 | a lesson of three grades that loses one when normalised twice |
| NormalForm.OneNormalFormExactly | backend/internal/modules/diary_ingest/service.go:218-229 | the normal form does not depend on map iteration order if and only if source ids with one normal key have one normal value |
| NormalForm.CaseOnlyIdsAreInconsistent | backend/internal/modules/diary_ingest/service.go:218-229 | source ids `a` and `A` with different values give a bundle two normal forms |
| NormalForm.OrderDoesNotMatter | backend/internal/modules/diary_ingest/service.go:201-266 | reordering lessons with distinct normalised keys and attendance with distinct event keys does not change the normal form |
| NormalForm.KeylessLessonsAreKept | backend/internal/modules/diary_ingest/service.go:243-281 | a bundle of lessons without keys that differ pairwise in date, number or subject has as many lessons in its normal form |
| NormalForm.NormalLessonsAreOrdered | backend/internal/modules/diary_ingest/service.go:387-401 | lessons come out by date, then number, then key |
| NormalForm.NormalAttendanceIsOrdered | backend/internal/modules/diary_ingest/service.go:402-412 | attendance comes out by date, then code, then key |
| Validation.ValidateBundle | backend/internal/modules/diary_ingest/service.go:149-199 | accepts exactly the acceptable bundles and otherwise reports the first fault |
| Validation.NormalBundlesHaveDistinctKeys | backend/internal/modules/diary_ingest/service.go:149-166 | validation of a normalised bundle never stops at an empty or repeated lesson key |

## Left out
- MergeStore.OnlyBadInsertsAreRejected: merges run one after the other here; two READ COMMITTED merges of one student at once can both look a result up in vain and both insert it, and then the second one aborts on a unique index; the provider check of the table and the cast of the date, which validated bundles pass, are not among its checks.
- Batches.AtMostOneMergePerKey: the look-up and the insert of a batch are one step, since ON CONFLICT waits for a rival insert and batches are never deleted.
- Time is one clock for workers and database, in integer nanoseconds; clock skew, Postgres' microseconds and leases beyond the range of 32-bit seconds are not modelled.
- RetryBackoff multiplies unbounded integers; the 64-bit overflow it would have far beyond the default limit of five attempts is not modelled.
- FOR UPDATE SKIP LOCKED is a set of locked jobs passed to LeaseNext; transactions of the queue are single steps.
- Job and dispatch payloads are maps of strings; other JSON values are left out.
- Other job handlers, analytics, the digest builder and job status queries, which only read or call out.
- The provider's Send, the media file and the database connection are nondeterministic results; the provider message id and the error texts of dispatch records are left out.
- In the v2 tables numeric values, raw payloads, attendance, profiles, provider identities and lesson columns other than the key; their upserts have no lookup of their own.
- The v1 merge of lessons, grades and attendance into tables: its ON CONFLICT targets rest on index inference in Postgres. A merge is one function on the store.
- The v2 normaliser and its validation, which only trim and check field by field.
- SHA-256 is a function given as a parameter, injective where equality of checksums matters; JSON encoding does not appear.
- time.Parse is given as two predicates, one for days and one for times of day.
- Lower-casing covers Latin and Cyrillic capitals only.
- Grades are values inside a lesson, so that rewriting a grade through another slice sharing its array is not visible; the stable sort is its contract, not its algorithm.
- HTTP routes, authentication, tokens, ciphers, configuration, metrics, the read models, the mobile client and the avatar.
