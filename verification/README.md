# Campaign services: a verified model

A Dafny model of the stateful parts of a campaign application, with proofs of what
they promise over whole runs. It covers five areas.

* **The job queue** (`JobTables`, `JobFunctions`, `JobRuns`, `JobFetch`, `JobEventLog`,
  `JobAnnotations`, `JobPeriodic`, `JobCounterexamples`, `JobQueue`). `JobTables` has the rows, constraints and triggers,
  `JobFunctions` what each SQL function makes of the tables, and class `JobQueue.Queue`
  the functions statement by statement on tables updated in place. A statement that
  breaks a constraint raises and its transaction leaves the tables unchanged. A run is
  any sequence of calls in commit order. A fetch in a run may have evaluated its guard
  on any table whatsoever, which covers every stale snapshot, and the deletion of a periodic
  call may miss any rows.
* **Call lists** (`CallListBuild`, `CallListClaims`, `CallLists`, `CallListOverlap`). `CallListClaims` is the
  state machine of overlapping claims over row locks; `CallLists.Service` is the service
  with its loops.
* **Campaign listing** (`CampaignPages`): keyset pagination while rows come and go.
* **Exactly-once and accounting services** (`DoorKnocks`, `SpendLedger`, `DoNotCall`,
  `EmailProjection`).
* **Campaign context** (`CampaignContext`, `DatabaseSession`): the setting that row-level security reads, over
  pooled connections, and the user synchronization that has to preserve it. The pool is a
  state machine over steps of requests; class
  `DatabaseSession.Session` is one request's view, whose statements are such steps.

Clocks, generated ids and the answers of other services are parameters.

## Where an obvious claim is false

These follow the code, not its comments or what one would expect of it. Each is proved,
together with the condition under which the claim does hold.

* The fetch guard alone does not keep a lock exclusive when its snapshot is old
  (`JobCounterexamples.GuardAloneAllowsTwo`); on one common snapshot it does
  (`JobFetch.OneSnapshotNeverClashes`), and on an old one it is refused exactly if another
  job with the lock runs (`JobFetch.StaleFetchRefusedExactly`).
* The comments at `alembic/versions/017_procrastinate_schema.py:57-68` say which change of
  status each event records. The trigger also logs `cancelled` for a waiting job that is
  finished as failed or succeeded, and nothing when it is finished as aborted
  (`JobCounterexamples.FinishedWhileWaiting`), so the log is right throughout a run exactly
  if no waiting job is finished (`JobEventLog.LogAgreesExactly`).
* A failed job whose abort was requested can never be retried
  (`JobCounterexamples.FailedJobStaysFailed`); exactly when a failed job can be is
  `JobRuns.RetryOfFailedJob`.
* One timestamp can create two periodic jobs when calls come out of order
  (`JobPeriodic.OutOfOrderRepeats`), exactly if it was overtaken by a greater timestamp in
  between (`JobPeriodic.CreatesExactly`).
* Two periodic rows of a key can remain when calls overlap
  (`JobPeriodic.OverlapLeavesTwoRows`), exactly if the last deletion missed a row
  (`JobPeriodic.OneRowRemains`).
* The visited counter of a walk list counts knocks, not entries
  (`DoorKnocks.CounterAboveEntries`); a knock keeps the two equal exactly if its entry was
  not visited yet (`DoorKnocks.CounterAgreesExactly`).
* The spend gate does not bound the spend of an event that costs more than the estimate it
  was gated at, and the SMS route passes no estimate
  (`SpendLedger.CostAboveEstimateCanOverrun`). Covering the event is not enough either: the
  gate counts neither costs that are not known yet, and the SMS and voice routes record
  every event without its cost (`SpendLedger.UnknownCostsOverrun`), nor what is recorded
  between the gate and the event (`SpendLedger.OverlappingGatesOverrun`). It bounds spend
  exactly if the estimate covers the event and all that the gate did not count
  (`SpendLedger.EstimateBoundsExactly`).
* Two appends to a call list that overlap can put a voter in twice and lose a count
  (`CallListOverlap.OverlapDuplicates`); exactly when they do not is
  `CallListOverlap.OverlapExactly`.
* The rank of an invite's status falls when an event without a rank arrives
  (`EmailProjection.UnrankedEventHidesBounce`), and only then
  (`EmailProjection.RankFallsExactly`).
* A page can report more rows and give no cursor (`CampaignPages.StuckPages`), exactly for
  a limit of 0 when there are rows and for a limit of -1 (`CampaignPages.StuckExactly`).

## Model

| member | source | states |
|---|---|---|
| JobRuns.ExclusionInEveryRun | alembic/versions/017_procrastinate_schema.py:102-126 | From the empty database, after every run of calls with snapshots of any age: no two running jobs share a lock, no two waiting jobs a queueing lock, no waiting job has an abort request |
| JobRuns.RunKeepsInv | alembic/versions/017_procrastinate_schema.py:84-126 | Every run keeps all constraints: CHECK, both partial unique indexes, name lengths, periodic uniqueness, and the foreign keys of events, periodic rows and workers |
| JobRuns.StepKeepsInv | alembic/versions/017_procrastinate_schema.py:142-564 | Each of the ten kinds of call keeps them, deletion cascading to events and unlinking periodic rows included |
| JobRuns.FinalForever | alembic/versions/017_procrastinate_schema.py:298-423 | A succeeded, cancelled, aborted or failed-after-abort-request job is never deleted and none of its columns but the worker ever changes again |
| JobRuns.FinalSurvivesStep | alembic/versions/017_procrastinate_schema.py:298-423 | The same for one call, whichever it is and whichever job it is about |
| JobRuns.RetryOfFailedJob | alembic/versions/017_procrastinate_schema.py:400-423 | Retrying a failed job works if and only if its abort was not requested, no waiting job has its queueing lock and a new queue name fits; then it waits with one more attempt, the new schedule even if that is none, and priority, queue and lock where given; no other column or row changes |
| JobRuns.RetryOfRunningJob | alembic/versions/017_procrastinate_schema.py:350-426 | In both versions: exactly when retrying a running job works; with an abort requested only its status changes, to failed, otherwise it is queued again in the same way |
| JobRuns.RetryNeedsStatus | alembic/versions/017_procrastinate_schema.py:361-422 | A job is not found exactly if it is neither running nor, for the second version, failed |
| JobRuns.FinishSucceedsExactly | alembic/versions/017_procrastinate_schema.py:295-315 | Finishing works if and only if the end status is valid and the job waits or runs; the job is gone, or has the status, no abort request and, if it ran, one more attempt, and no other column, row or table changes but the log |
| JobRuns.CancelOutcomes | alembic/versions/017_procrastinate_schema.py:325-346 | Cancelling never raises and finds exactly waiting jobs and (to abort) running ones; a running job is only marked and keeps its lock and every other column, a waiting one is gone or cancelled |
| JobRuns.UnregisterOutcome | alembic/versions/017_procrastinate_schema.py:101-564 | Deleting a worker sets the worker of its own jobs to NULL and leaves every other column and job |
| JobRuns.InsertInColumns | alembic/versions/017_procrastinate_schema.py:89-102 | A new job has the columns given, waits, has no attempts, abort request or worker, and is the only row that changes |
| JobRuns.InsertableInColumns | alembic/versions/017_procrastinate_schema.py:89-124 | Inserting a row works if and only if no mandatory column is NULL, both names have at most 128 characters and no waiting job has its queueing lock |
| JobRuns.BatchAllOrNothing | alembic/versions/017_procrastinate_schema.py:151-165 | A batch is deferred if and only if every row fits and no queueing lock is taken in the table or twice in the batch; then all its jobs are there in order under consecutive numbers, otherwise none |
| JobFetch.FetchInColumns | alembic/versions/017_procrastinate_schema.py:244-284 | A fetch returns NULL if and only if no job waits, is due, is in a queue asked for and has a lock no job runs with or waits ahead with; otherwise it starts the one with the greatest priority, then the smallest number, and changes only its status and worker; on a current snapshot the only error is an unknown worker |
| JobFetch.StaleFetchInColumns | alembic/versions/017_procrastinate_schema.py:126-282 | What a fetch with an old snapshot does in each case: nothing, a refusal by the lock index, or starting just that job |
| JobFetch.LockedJobsStartInOrder | alembic/versions/017_procrastinate_schema.py:249-275 | A serial fetch never starts a locked job while a job with the same lock runs or waits ahead of it |
| JobFetch.FetchMakesProgress | alembic/versions/017_procrastinate_schema.py:244-284 | With nothing running, all waiting jobs due and no queue filter, a fetch starts a job if and only if one waits, and it is the first of all |
| JobFetch.OneSnapshotNeverClashes | alembic/versions/017_procrastinate_schema.py:126-282 | However many fetches evaluate the guard on one snapshot, in whatever order they commit, none is refused by the lock index |
| JobFetch.StaleFetchRefusedExactly | alembic/versions/017_procrastinate_schema.py:126-282 | A fetch on an old snapshot is refused if and only if another job with the chosen job's lock runs now; that job was not running with the lock in the snapshot |
| JobFetch.GuardPicksOnePerLock | alembic/versions/017_procrastinate_schema.py:249-274 | On one snapshot at most one job of a lock passes the guard, whatever queues and times two fetches ask for |
| JobCounterexamples.GuardAloneAllowsTwo | alembic/versions/017_procrastinate_schema.py:126-282 | A job is queued, a snapshot is taken, a more urgent job with the lock is queued and started; a fetch on the snapshot still passes the guard for the first job, only the index refuses it, and starting the job would break exclusion |
| JobCounterexamples.FinishedWhileWaiting | alembic/versions/017_procrastinate_schema.py:303-508 | A job deferred and finished at once has the end status while its log replays to cancelled, or to todo if finished as aborted |
| JobCounterexamples.FailedJobStaysFailed | alembic/versions/017_procrastinate_schema.py:102-423 | Deferring, fetching, requesting the abort of and retrying a job leaves it failed, and every further retry is refused, by the CHECK constraint if it changes nothing |
| JobFetch.EligibleMeansNext | alembic/versions/017_procrastinate_schema.py:275-275 | ORDER BY and LIMIT 1 come up empty only when nothing is eligible: among eligible jobs one is first |
| JobEventLog.LogAgreesExactly | alembic/versions/017_procrastinate_schema.py:456-508 | Replaying every live job's log gives its status after each call of a run, if and only if the run never finishes (without deleting) a job that is still waiting |
| JobEventLog.LogExplainsStatus | alembic/versions/017_procrastinate_schema.py:456-508 | In every run whatsoever, the replayed status is the status, or cancelled for succeeded or failed, or todo for aborted |
| JobEventLog.StepExplains | alembic/versions/017_procrastinate_schema.py:467-614 | One call keeps a job's log and status in agreement exactly when it does not finish that job while it waits |
| JobEventLog.Evolution | alembic/versions/017_procrastinate_schema.py:142-619 | Only fetching starts, finishing ends, cancelling cancels and retrying requeues or fails a job, each from the statuses it accepts, on its own job and with its own effect on the attempts; every other call and job stays. Each live job's log is extended by the event of its move and otherwise by silent events |
| JobEventLog.AttemptsAreAccountedFor | alembic/versions/017_procrastinate_schema.py:278-419 | In every run, for every live job: attempts, plus one if running, plus retries an abort request turned into failures, equal its started plus its retried events |
| JobEventLog.MoveBalances | alembic/versions/017_procrastinate_schema.py:278-508 | Each move logs a start or a retry exactly when it begins a run or adds an attempt without one having run, an aborted retry excepted |
| JobEventLog.StepBalances | alembic/versions/017_procrastinate_schema.py:278-419 | The balance behind it for a job that stays, call by call; the attempt count is taken from the row as it was before the update |
| JobEventLog.FreshBalances | alembic/versions/017_procrastinate_schema.py:278-419 | A job that appears has begun nothing and its log says so |
| JobAnnotations.LogShowsRequestsAndSchedules | alembic/versions/017_procrastinate_schema.py:510-619 | In every run, the log of a live job whose abort is requested has the request, and the last schedule logged for a waiting job with a schedule is its schedule |
| JobAnnotations.AnnotatedAfterStep | alembic/versions/017_procrastinate_schema.py:510-619 | The same kept by each kind of call, a worker's deletion that logs schedules again included |
| JobEventLog.RescheduledLog | alembic/versions/017_procrastinate_schema.py:101-614 | Deleting a worker logs the schedule of each waiting job it had once more, and nothing for other jobs |
| JobRuns.EventsOfInsert | alembic/versions/017_procrastinate_schema.py:456-614 | Deferring logs the schedule, if any, then that the job is there |
| JobRuns.EventsOfFinish | alembic/versions/017_procrastinate_schema.py:467-507 | Finishing logs one event of its end status for a running job, a cancellation for a waiting one that succeeded or failed, and nothing for one that aborted |
| JobRuns.EventsOfCancel | alembic/versions/017_procrastinate_schema.py:467-619 | Cancelling logs the abort request, if any, and then the cancellation of a waiting job |
| JobRuns.EventsOfRetry | alembic/versions/017_procrastinate_schema.py:467-614 | Retrying logs the new schedule, if any, then the kind of retry, or only the failure that an abort request makes of it |
| JobTables.LogAfterDelete | alembic/versions/017_procrastinate_schema.py:114-119 | Cascading deletion empties the deleted job's log and leaves every other log as it was |
| JobTables.LogAfterTag | alembic/versions/017_procrastinate_schema.py:456-531 | Events a trigger logs for one job extend that job's log and no other |
| JobPeriodic.PeriodicOutcomes | alembic/versions/017_procrastinate_schema.py:186-230 | A periodic call does nothing if its timestamp has a row, is refused without a trace if its queueing lock is taken, and otherwise creates exactly one job |
| JobPeriodic.PeriodicInColumns | alembic/versions/017_procrastinate_schema.py:186-230 | The same in columns: the new job's row, exactly which periodic rows go, that the others stay as they are, and the row that remembers the call |
| JobPeriodic.RowsAfterStep | alembic/versions/017_procrastinate_schema.py:217-228 | Only a periodic call that creates a job adds or removes periodic rows, and it removes exactly the older ones of its key that its deletion sees; every other call leaves them, deleted jobs included |
| JobPeriodic.GreatestRowStays | alembic/versions/017_procrastinate_schema.py:105-230 | In every run the greatest timestamp that created a job of a key still has its row, and every row of the key stems from a timestamp that created one |
| JobPeriodic.RowsNotOvertaken | alembic/versions/017_procrastinate_schema.py:105-230 | In every run, overlapping calls included, a timestamp has a row if and only if it created a job and no creating call since had both a greater timestamp and a deletion that saw its row |
| JobPeriodic.CreatesExactly | alembic/versions/017_procrastinate_schema.py:186-230 | After any run a well-formed call creates a job if and only if its queueing lock is free and its timestamp has created none or has been overtaken in that way since |
| JobPeriodic.SerialStanding | alembic/versions/017_procrastinate_schema.py:217-228 | When every deletion sees all rows, being overtaken is just that a greater timestamp has created a job since |
| JobPeriodic.RepeatNeedsGreater | alembic/versions/017_procrastinate_schema.py:186-230 | A timestamp creates a second job only if a greater timestamp has created one as well |
| JobPeriodic.InOrderOncePerTimestamp | alembic/versions/017_procrastinate_schema.py:186-230 | When a key's timestamps never go back, each creates at most one job and the last one that created one has its row, overlapping calls included |
| JobPeriodic.OnlyLastRowExactly | alembic/versions/017_procrastinate_schema.py:217-228 | Then it is the key's only row with a timestamp if and only if the last creating call's deletion saw all rows |
| JobPeriodic.EveryTimestampCreates | alembic/versions/017_procrastinate_schema.py:186-230 | In every run each timestamp whose call was not refused has created a job |
| JobPeriodic.OneRowRemains | alembic/versions/017_procrastinate_schema.py:217-228 | In order, a key that has created a job has exactly one row if and only if the last creating call's deletion saw all others |
| JobPeriodic.OverlapLeavesTwoRows | alembic/versions/017_procrastinate_schema.py:217-228 | Timestamps 10 and 20, where the deletion of 20 does not see the row of 10, leave both rows |
| JobPeriodic.OutOfOrderRepeats | alembic/versions/017_procrastinate_schema.py:217-228 | Timestamps 10, 20, 10 create three jobs |
| JobQueue.Queue.constructor | alembic/versions/017_procrastinate_schema.py:84-119 | Starts from the empty tables of the runs; every method below keeps all constraints and is one call of a run, so the results about runs hold of the object |
| JobQueue.Queue.WriteRow | alembic/versions/017_procrastinate_schema.py:102-619 | An UPDATE of a row raises for the first broken constraint and changes nothing, or stores the row and logs its triggers' events |
| JobQueue.Queue.InsertRow | alembic/versions/017_procrastinate_schema.py:89-112 | An INSERT raises and changes nothing, or adds the row with defaults under the next number |
| JobQueue.Queue.DeleteRow | alembic/versions/017_procrastinate_schema.py:533-543 | A DELETE takes the job's events with it and unlinks its periodic rows |
| JobQueue.Queue.DeferJobs | alembic/versions/017_procrastinate_schema.py:142-167 | The loop over the batch succeeds exactly if the batch fits, has the effect and result for which BatchAllOrNothing holds, and restores all tables on an error |
| JobQueue.Queue.DeferPeriodic | alembic/versions/017_procrastinate_schema.py:169-232 | The statements in their order, run alone, are one call of a run whose deletion sees all rows |
| JobQueue.Queue.FetchJob | alembic/versions/017_procrastinate_schema.py:234-286 | Finds nothing exactly if no job may start, otherwise the first of those that may, and fails only for its worker; one call of a run |
| JobQueue.Queue.FinishJob | alembic/versions/017_procrastinate_schema.py:288-316 | Works exactly on unfinished jobs when the end status is valid; deletion and update, each with its own method, are one call of a run |
| JobQueue.Queue.CancelJob | alembic/versions/017_procrastinate_schema.py:318-348 | Never raises; the fall-through from deletion to update is one call of a run |
| JobQueue.Queue.RetryJobV1 | alembic/versions/017_procrastinate_schema.py:350-386 | Retries a running job only, as in RetryOfRunningJob |
| JobQueue.Queue.RetryJobV2 | alembic/versions/017_procrastinate_schema.py:388-426 | Retries running and failed jobs, as in RetryOfRunningJob and RetryOfFailedJob |
| JobQueue.Queue.Unregister | alembic/versions/017_procrastinate_schema.py:101-564 | Deletes the worker, sets its jobs' worker to NULL and logs the schedules of those that wait |
| JobQueue.Queue.Register | alembic/versions/017_procrastinate_schema.py:545-554 | Adds a worker under a number no worker had |
| CallListBuild.SortIsStable | app/services/call_list.py:181-182 | Sorting a voter's phones keeps them all, orders primary first and then by type, and keeps the row order of phones with the same key |
| CallListBuild.LessContactedFirst | app/services/call_list.py:42-54 | The score is 100 without contacts, never negative or higher, and strictly lower for each further contact up to the fifth |
| CallListBuild.SortedInColumns | app/services/call_list.py:181-182 | Sorted means that no other phone precedes a primary one and that types ascend within both |
| CallListBuild.LexInCharacters | app/services/call_list.py:181-182 | Types ascend character by character, a beginning before its continuations |
| CallListBuild.ContactPriorityIs | app/services/call_list.py:124-184 | A contact's priority is 100 less 20 for each interaction of its campaign with its voter, at least 0 |
| CallListBuild.GeneratedAre | app/services/call_list.py:102-202 | A generated list has each voter of the universe with a callable phone exactly once, with the phones and priority the whole campaign's data give |
| CallListBuild.AppendedAre | app/services/call_list.py:524-611 | An append adds exactly the source voters that are not in the list and have a callable phone, once each, with the same phones and priority |
| CallListBuild.AppendToEmptyIsGenerate | app/services/call_list.py:102-611 | Appending a static list to an empty call list and generating from it give the same contacts, though the loops differ |
| CallListBuild.AppendAgainAddsNothing | app/services/call_list.py:515-531 | Appending the same source again with unchanged data adds nothing |
| CallListBuild.ContactPhonesAre | app/services/call_list.py:102-155 | A voter has a contact if and only if the campaign has a phone row of theirs with a valid number not on that campaign's DNC list, and the contact's phones are exactly those rows |
| CallListBuild.ContactsHaveGoodPhones | app/services/call_list.py:138-182 | Every contact has phones, primary ones first, all of 10 to 15 digits and none on the campaign's DNC list |
| CallLists.FreshInColumns | app/services/call_list.py:186-198 | Each contact gets one entry of the list, available, nobody's and never claimed |
| CallLists.GroupPhones | app/services/call_list.py:138-155 | The grouping loop finds each voter with a callable phone in order of first appearance, with exactly that voter's callable phones in row order |
| CallLists.CountInteractions | app/services/call_list.py:134-136 | The counting loop gives every voter's number of interactions, none counting as 0 |
| CallLists.BuildContacts | app/services/call_list.py:176-200 | The loop over grouped voters builds the contacts of which GeneratedAre speaks |
| CallLists.CollectContacts | app/services/call_list.py:587-611 | The loop over candidates builds the contacts of which AppendedAre speaks, and added plus skipped is the number of candidates |
| CallLists.SelectTop | app/services/call_list.py:267-278 | The batch has the asked size or all there is, in descending priority, and nothing left out has a higher priority |
| CallLists.Service.Generate | app/services/call_list.py:60-210 | Refuses exactly an unknown or foreign voter list; otherwise adds a draft list whose total is its number of entries, keeping counters, distinct voters and good phones in all lists |
| CallLists.Service.AppendFromList | app/services/call_list.py:457-626 | Added plus skipped is the size of the source, the total grows by what was added, old entries stay, and the same invariant is kept |
| CallLists.Service.ClaimEntries | app/services/call_list.py:212-302 | Entry by entry: one in progress for no longer than the list's timeout, 60 seconds a minute, keeps its caller; one in progress for longer or available is the caller's if taken and else available and nobody's; as many are taken as asked for or as there are, none of lower priority than one left. It is a release, a select and a commit by that timeout; inactive or foreign lists and negative sizes are refused without a change |
| CallLists.Service.UpdateStatus | app/services/call_list.py:304-341 | Exactly draft to active and active to completed; anything else is refused without a change |
| CallListOverlap.OverlapExactly | app/services/call_list.py:515-615 | Two appends that both read the list before either commits leave no voter twice if and only if no new callable voter is in both sources, and a total that counts the entries if and only if one of them added nothing |
| CallListOverlap.OverlapDuplicates | app/services/call_list.py:515-615 | A list of one voter appended twice at once puts the voter in twice and does not count both |
| CallLists.ListInColumns | app/services/call_list.py:515-522 | The voters and the number of entries of a list are those of the entries with its id |
| CallLists.AddingKeepsConsistent | app/services/call_list.py:176-202 | Adding contacts of voters not in the list, with the total raised by their number, keeps total and entries equal, voters distinct and phones good |
| CallLists.ClaimKeepsConsistent | app/services/call_list.py:250-294 | So does a claim |
| CallLists.ClaimTakesBest | app/services/call_list.py:250-278 | A claim that runs alone takes as many as asked for of the available and stale entries together, or all of them, and none of lower priority than one it leaves |
| CallLists.ClaimSettlesEach | app/services/call_list.py:250-294 | Each entry taken is the caller's from now on, each entry in progress whose claim is older than the cutoff and which is not taken is available and nobody's, and every other entry is unchanged |
| CallListClaims.ActKeepsLocksDisjoint | app/services/call_list.py:250-294 | Each action of overlapping claims, release and select apart, keeps their locked rows disjoint and their batches takeable |
| CallListClaims.OverlappingClaimsAreDisjoint | app/services/call_list.py:266-277 | In every interleaving, claims open at the same time have disjoint batches |
| CallListClaims.CommitGivesBatch | app/services/call_list.py:283-294 | Committing a claim gives its caller every row of the batch it selected |
| CallListClaims.ClaimIsKept | app/services/call_list.py:250-264 | An entry claimed at some time keeps its caller through every interleaving whose claims on the list are made at or before that time plus the timeout |
| CallLists.ListKeepsClaim | app/services/call_list.py:250-264 | An entry of a list keeps its caller through every interleaving of claims by the lists' own timeouts in which those on its list come no later than the list's timeout after it |
| CallListClaims.OwnersStayShown | app/services/call_list.py:250-294 | In every interleaving, entries in progress have a caller and a time and available ones have neither |
| CallLists.SerialClaimIsInterleaving | app/services/call_list.py:250-302 | A claim that runs alone, release, select and commit, is one of those interleavings |
| CampaignPages.ListCampaigns | app/services/campaign.py:252-292 | Fetching one row too many and cutting it off gives the page of which the lemmas below speak, for every limit down to -1; below that the database refuses |
| CampaignPages.PageInColumns | app/services/campaign.py:252-292 | A page has campaigns that are not deleted, have the user as a member and come after the cursor's row, newest first and greater ids first among equals; none is left out that comes before one that is in, and it is full unless they run out |
| CampaignPages.PageFacts | app/services/campaign.py:259-285 | A page is a descending run of visible rows past the cursor; it has more if and only if such a row is not on it (or the limit is -1), a next cursor if and only if it has more and a row was asked for, and then the cursor is its last row and all rows left out come after it |
| CampaignPages.ScanDescends | app/services/campaign.py:259-285 | Whatever changes between pages, a scan visits strictly descending keys, none twice, all visible when returned |
| CampaignPages.NothingIsMissed | app/services/campaign.py:259-285 | A completed scan returns every row that was visible at each of its pages |
| CampaignPages.FixedTableScan | app/services/campaign.py:252-292 | On a fixed table the concatenated pages are the whole list in order |
| CampaignPages.FixedTableScanCompletes | app/services/campaign.py:272-285 | On a fixed table the scan ends after at most one page more than there are rows |
| CampaignPages.ListingIsUnique | app/services/campaign.py:259-259 | Creation time and id determine the order completely |
| CampaignPages.StuckExactly | app/services/campaign.py:273-285 | A page has more but no next cursor if and only if the limit is -1, or it is 0 and rows remain |
| CampaignPages.StuckPages | app/api/v1/campaigns.py:83-83 | With limit -1 on an empty table and limit 0 on a table with a row, which the route lets through |
| DoorKnocks.Service.RecordDoorKnock | app/services/canvass.py:44-162 | Refuses for the first reason found and leaves nothing behind, also when the answers are rejected after the knock was inserted; otherwise returns the number of the voter's knocks so far plus one |
| DoorKnocks.AcceptedInColumns | app/services/canvass.py:67-127 | A post is accepted if and only if its entry is of the list, its voter of the campaign, its client id new among the campaign's door knocks and its answers, if any, are taken by the list's script, of the campaign |
| DoorKnocks.RefusedInOrder | app/services/canvass.py:67-138 | Each refusal's reason holds, and those looked at before do not |
| DoorKnocks.KnockInColumns | app/services/canvass.py:85-143 | An accepted post adds its knock, an answer row if it has answers, visits its entry, counts one on its list, and changes nothing else |
| DoorKnocks.AtLeastOnceIsExactlyOnce | app/services/canvass.py:102-126 | Deliveries repeated after a post with their key was accepted, however many and whatever changes in entries, lists, scripts, voters and other interactions between them, leave what the run without them leaves |
| DoorKnocks.AcceptedAtMostOnce | app/services/canvass.py:102-126 | In every such run a key is accepted at most once, never if it was recorded before, and is recorded at the end exactly if it was or was accepted |
| DoorKnocks.RepeatsChangeNothing | app/services/canvass.py:67-127 | Where nothing but deliveries happens, repeats of refused posts change nothing either |
| DoorKnocks.DeliveredIsSettled | app/services/canvass.py:67-127 | There, a post once delivered, accepted or refused, has no effect when it comes again |
| DoorKnocks.CounterCountsAccepted | app/services/canvass.py:141-141 | Over any run that does not delete the list, its visited counter grows by exactly the number of knocks accepted on it |
| DoorKnocks.KnocksIsNumber | app/services/canvass.py:145-151 | The attempt count is the number of the campaign's door knocks on the voter |
| DoorKnocks.AttemptsAreConsecutive | app/services/canvass.py:145-152 | Over a run, the attempt numbers returned for a voter are consecutive and start after the knocks there were |
| DoorKnocks.KeysStayUnique | alembic/versions/040_door_knock_client_uuid.py:63-69 | No run records a door knock twice under one campaign and client id |
| DoorKnocks.CounterAgreesExactly | app/services/canvass.py:140-141 | An accepted knock keeps the counter equal to the number of visited entries if and only if the entry was not visited yet |
| DoorKnocks.CounterAboveEntries | app/services/canvass.py:140-141 | Two knocks with different client ids on the only entry of a list leave the counter at 2 with one entry visited |
| SpendLedger.EstimateIsKnownTotal | app/services/communication_budget.py:37-79 | The estimated total is finalized plus pending spend and equals the sum of all known costs of the organization |
| SpendLedger.TotalAfterStep | app/services/communication_budget.py:183-274 | Recording adds the known cost; reconciling adds exactly the new cost less what was known of one matching row |
| SpendLedger.SettledStaysSettled | app/services/communication_budget.py:249-266 | Through any run of records and reconciliations a settled row stays settled |
| SpendLedger.Ledger.RecordEvent | app/services/communication_budget.py:183-217 | Adds the row and is a step of such a run |
| SpendLedger.Ledger.ReconcileEvent | app/services/communication_budget.py:219-274 | Finds nothing if and only if no row matches, otherwise the matching row created last, the greater id among equals; it is settled exactly if it was, a cost is given or the status is one of the eight final ones; status and cost are the given ones where given, metadata keys are merged, and no other column or row changes |
| SpendLedger.LatestExists | app/services/communication_budget.py:229-240 | Among matching rows one is newest |
| SpendLedger.ThresholdWithinBudget | app/services/communication_budget.py:299-301 | The warning threshold lies between 0 and the budget and is the greatest whole amount within the percentage |
| SpendLedger.SummaryAfterRow | app/services/communication_budget.py:37-69 | Each row of the organization adds its known cost to the finalized spend if it is settled, and to the pending spend and items if not |
| SpendLedger.SummaryInNumbers | app/services/communication_budget.py:295-322 | A summary is over the limit from the budget on, near it from the percentage rounded down on, and otherwise pending exactly if there are pending items |
| SpendLedger.DecisionInWords | app/services/communication_budget.py:114-181 | A decision's state is that of the estimate added, its reason names the state, and only over the limit it refuses |
| SpendLedger.EvaluateGate | app/services/communication_budget.py:106-181 | The cascade of checks gives the state the summary would have if the estimate were already spent |
| SpendLedger.GateAgreesWithSummary | app/services/communication_budget.py:113-309 | Without an estimate the gate reports the summary's own state |
| SpendLedger.GateRefusesExactly | app/services/communication_budget.py:129-145 | The gate refuses if and only if a budget is set and known costs plus the estimate reach it |
| SpendLedger.GateIsMonotone | app/services/communication_budget.py:129-145 | A larger estimate never turns a refusal into a permission |
| SpendLedger.SpendStaysBelowBudget | app/services/communication_budget.py:113-266 | Events are recorded with or without their cost, at once or long after their gate: if each estimate covers the event's final cost and all that the gate did not count, and reconciliation fills in costs up to the final ones, known and outstanding costs stay strictly below a budget they started below, through any run |
| SpendLedger.EstimateBoundsExactly | app/services/communication_budget.py:129-145 | Given how much the gate did not count, every admitted event of a given cost leaves known and outstanding costs below the budget, whatever the ledgers, if and only if that amount and the cost together are at most the estimate; gating and recording at once without negative costs suffices to show it |
| SpendLedger.CostAboveEstimateCanOverrun | app/api/v1/sms.py:67-67 | For every budget and estimate (the route passes none) an event that costs more is admitted on some ledger and takes spend over the limit |
| SpendLedger.SixtyCoversOne | app/services/communication_budget.py:129-145 | In that run each estimate covers its own event, and the second does not cover what is outstanding as well |
| SpendLedger.UnknownCostsOverrun | app/services/sms.py:417-432 | With a budget of 100, two events of 50 gated at 60 and recorded without their cost, as the services do, take spend to 100 when their costs arrive |
| SpendLedger.OverlappingGatesOverrun | app/services/communication_budget.py:113-145 | So do two of known cost when the second was gated before the first was recorded |
| DoNotCall.Service.BulkImport | app/services/dnc.py:73-140 | One statement for all rows leaves the table that adding the valid rows one by one leaves; invalid counts exactly the rows without a number of 10 to 15 digits, and added, skipped and invalid rows add up to the CSV rows; a row without a phone field fails the import without a change |
| DoNotCall.ParsedInColumns | app/services/dnc.py:101-119 | The rows imported are exactly the usable CSV rows in order, with the stripped phone and the stripped reason or the default |
| DoNotCall.Service.Add | app/services/dnc.py:29-71 | An existing number keeps its entry, which is returned; a new one gets the reason, author and time given, and nothing else changes |
| DoNotCall.InsertMissingIsAddAll | app/services/dnc.py:121-130 | Inserting many rows with conflicts ignored equals adding them in turn |
| DoNotCall.AddAllAt | app/services/dnc.py:51-71 | Key by key: existing entries stay, the first occurrence of a new number wins, nothing else appears |
| DoNotCall.StripCutsBlanks | app/services/dnc.py:102-103 | Stripping removes exactly the blanks at both ends |
| DoNotCall.ImportKeepsOthers | app/services/dnc.py:121-130 | Listed numbers and other campaigns are never touched |
| DoNotCall.ImportAgainAddsNothing | app/services/dnc.py:121-130 | A second import of the same rows adds nothing |
| EmailProjection.ApplyAttemptProjection | app/services/email_delivery.py:55-85 | The assignments to attempt and invite are the projection of which the lemmas below speak |
| EmailProjection.RanksAscend | app/services/email_delivery.py:11-20 | Exactly the eight statuses are ranked, from queued to skipped |
| EmailProjection.SummaryInColumns | app/services/email_delivery.py:66-85 | Unless it has a rank below the one shown, an event sets the invite's status, time and reason, a submission the time of sending, and a message id given and not empty replaces the one there |
| EmailProjection.AuditInColumns | app/services/email_delivery.py:66-76 | An event always sets the attempt's status, time and reason, the first submission its time, and ids given and not empty replace those there |
| EmailProjection.SummaryShowsHighest | app/services/email_delivery.py:11-85 | After any ranked events the summary shows the highest-ranked status among the initial one and the events |
| EmailProjection.RankNeverFalls | app/services/email_delivery.py:27-31 | The rank shown never falls while ranked events arrive |
| EmailProjection.OrderDoesNotMatter | app/services/email_delivery.py:27-85 | Any reordering of the same statuses at whatever times gives the same status |
| EmailProjection.DetailsOfLastHighest | app/services/email_delivery.py:78-81 | Time and error of the summary are those of the last event with the status shown |
| EmailProjection.AuditShowsLast | app/services/email_delivery.py:68-76 | The audit row shows the last event whatever its rank, and the time of the first submission |
| EmailProjection.RankFallsExactly | app/services/email_delivery.py:27-31 | One event lowers the rank if and only if its status has no rank and the current one has |
| EmailProjection.UnrankedEventHidesBounce | app/services/mailgun_webhook.py:130-130 | An event that has no rank replaces the status of an invite that bounced |
| CampaignContext.QueriesSeeOnlyTheirOwnContext | app/db/session.py:27-45 | In every interleaving of requests over shared connections, a query sees the campaign that the steps of the run show its own request to have set last in its current transaction, or no real campaign if they show none |
| CampaignContext.ChosenIsLastSet | app/db/rls.py:12-16 | That campaign is the one of a set since which the request neither set another nor checked out, committed, rolled back or released |
| CampaignContext.LocalAfter | app/db/rls.py:12-30 | A step changes what a request's transaction has set only if it is that request's own |
| CampaignContext.TakeKeepsIsolated | app/db/session.py:27-45 | Each checkout, set, commit, rollback and release keeps connections unshared, idle ones outside a transaction, and session values free of real campaigns |
| CampaignContext.SeenOnConnection | app/db/session.py:36-40 | A query sees what was set last in either scope, after a commit the session value then, after a rollback the one committed before, and after a checkout the nil campaign |
| CampaignContext.ContextEndsWithTransaction | app/db/rls.py:12-16 | Commit and rollback take the context away |
| DatabaseSession.EndKeepsHolding | app/db/session.py:27-45 | When a transaction ends, whether the session keeps its connection or is handed another after other requests' steps, the steps are a run of the pool after which the request holds that connection and has chosen nothing |
| DatabaseSession.SeesChosen | app/db/rls.py:12-30 | On the connection that a run gives it, a session sees what the run shows it to have chosen, or no real campaign |
| DatabaseSession.Session.SetCampaignContext | app/db/rls.py:9-30 | An empty campaign is refused without effect; any other is one step of the pool after which it is the chosen one |
| DatabaseSession.Session.CommitAndRestoreRls | app/db/rls.py:33-46 | Its commits, hand-outs and set are steps of the pool after which the given campaign is the chosen one and is seen, whichever connection the session then has, and the work is saved; an empty campaign is refused only after the commit |
| DatabaseSession.Session.EnsureUserSynced | app/api/deps.py:91-254 | Returns with the real context it entered with chosen again and seen, on every path of commits, rollback and connections; the user's row and the memberships are synchronized, or after a conflict what the first commit saved |
| DatabaseSession.Session.SyncUserRow | app/api/deps.py:117-145 | A new user's row has the token's name and address, an existing one each of them where it is not empty and its own otherwise, nobody else's changes, and it is committed exactly if the user is new, the name differs or the row's is blank, or the address differs |
| CampaignContext.UserInColumns | app/api/deps.py:120-145 | The same of the tables, without the session |
| CampaignContext.OrgsAre | app/api/deps.py:149-154 | The organizations are those with one of the token's ids or, if it has none, its single one |
| DatabaseSession.Session.SyncMemberships | app/api/deps.py:147-235 | The loops insert the missing memberships and fill NULL roles, over the campaigns of the user's organizations or else of the organization ids |
| CampaignContext.InsertMissingOrgMembers | app/api/deps.py:160-180 | Inserting organization by organization with conflicts ignored gives exactly the missing memberships the role |
| CampaignContext.FillCampaignMembers | app/api/deps.py:196-233 | So for campaigns, with NULL roles filled |
| CampaignContext.SyncFillsAndKeeps | app/api/deps.py:160-233 | Afterwards the user has a role in every campaign and belongs to every organization if an owner or admin; nobody's existing role has changed, and new rows are the user's and have the user's role |
| CampaignContext.CampaignsForAre | app/api/deps.py:181-194 | The campaigns synchronized are those of the user's organizations; only if these have none at all, those found by organization id |
| CampaignContext.SyncAgainChangesNothing | app/api/deps.py:160-233 | A second synchronization changes no membership |

## Left out

- JobFunctions.StaleFetch: takes any snapshot and any eligible row as chosen, which includes more runs than SKIP LOCKED and the re-check of the locked row allow.
- JobFunctions.Finish: a NULL end status is not modelled.
- JobFunctions.UnregisterWorker: schedules are logged in order of job number, where SQL leaves the order open.
- JobTables.Job: priority and attempts are unbounded, not 32 bits wide; trailing blanks over a name's length limit are not cut.
- JobTables.Event: of the `at` column only the scheduled time is kept, not the clock time of other events.
- CallLists.Service.AppendFromList: appends and generation run one after the other; two overlapping appends are in `CallListOverlap`, more at once are not.
- JobTables.InsertJob: a job gets the next number at the moment its transaction commits; runs in which a transaction draws a number and commits after one with a greater number are not modelled.
- Numbers drawn by statements that raise are lost in SQL; in runs a separate call draws them.
- Notifications (pg_notify), heartbeats and pruning stalled workers, which for the tables is a run of unregister calls.
- CallLists.Service.Generate: rows of a query come in table order, where SQL leaves the order open.
- CallListBuild.ValidPhone: takes ASCII digits only, and no line break before the end.
- Call list entry columns for attempts, statuses set elsewhere, deleting lists and the other endpoints of the service.
- CallListClaims.ClaimIsKept: is about the clock readings of the claims, which are assumed not to go back.
- CampaignPages.ListCampaigns: cursors are taken as parsed.
- The other campaign operations, which call ZITADEL.
- DoorKnocks.Service.RecordDoorKnock: which answers a survey script accepts is a parameter, and the answers stored by the survey service are not modelled beyond the interaction they add; concurrent posts run one after the other, as the unique index makes them for one client id.
- SpendLedger.BuildSummary: the warning threshold is computed exactly and then truncated, without rounding of the intermediate fraction.
- SpendLedger.SpendStaysBelowBudget: two reconciliations of one row at once run one after the other.
- SpendLedger.Ledger.RecordEvent: campaign, voter, channel and notes columns, and the update time of the summary.
- DoNotCall.Service.BulkImport: CSV parsing is taken as done; only ASCII blanks are stripped; concurrent imports and adds run one after the other.
- Listing, checking and deleting do-not-call entries.
- EmailProjection.SummaryShowsHighest: resets when an invite is queued again and direct `skipped` writes are outside its runs, as are statuses without a rank.
- CampaignContext.QueriesSeeOnlyTheirOwnContext: what rows the policies then show is not modelled.
- DatabaseSession.Session.SyncMemberships: sees every organization, campaign and membership, as a role that bypasses row-level security does; under the policies of `alembic/versions/026_rls_hardening.py:26-52` a lookup after the first commit, when the context is gone, finds fewer.
- CampaignContext.SyncFillsAndKeeps: is about the organizations and campaigns that the lookups find.
- DatabaseSession.Session.EnsureUserSynced: its tables are those that a role sees which bypasses row-level security; role names are taken in lower case; a database failure other than the handled conflict ends the request and is not modelled.
