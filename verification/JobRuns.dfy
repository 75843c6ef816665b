/**
 What every call keeps, and hence what holds after every run: the constraints of
 the tables, the mutual exclusion the partial indexes give, and the statuses that
 are final.
 */
module JobRuns {
  import opened Options
  import opened JobTables
  import opened JobFunctions

  // --- the invariant ---

  /** Key below the sequence, names in bounds, CHECK constraint, foreign key to workers. */
  predicate RowFits(db: Db, id: nat)
    requires id in db.jobs
  {
    var job := db.jobs[id];
    id < db.nextJob && |job.queue| <= NAME_LIMIT && |job.task| <= NAME_LIMIT &&
    !(job.status == Todo && job.abortRequested) &&
    (job.worker.Some? ==> job.worker.value in db.workers)
  }

  /** No two running jobs share a lock. */
  predicate LocksExclusive(jobs: map<nat, Job>) {
    forall a, b | a in jobs && b in jobs && a != b && jobs[a].status == Doing && jobs[b].status == Doing ::
      jobs[a].lock.Some? ==> jobs[a].lock != jobs[b].lock
  }

  /** No two waiting jobs share a queueing lock. */
  predicate QueueingLocksExclusive(jobs: map<nat, Job>) {
    forall a, b | a in jobs && b in jobs && a != b && jobs[a].status == Todo && jobs[b].status == Todo ::
      jobs[a].queueingLock.Some? ==> jobs[a].queueingLock != jobs[b].queueingLock
  }

  predicate EventsRefer(db: Db) {
    forall e | e in db.events :: e.job in db.jobs
  }

  predicate PeriodicFits(db: Db) {
    (forall p | p in db.periodic ::
       p < db.nextPeriodic && (db.periodic[p].job.Some? ==> db.periodic[p].job.value in db.jobs)) &&
    (forall p, q | p in db.periodic && q in db.periodic && p != q && SameKey(db.periodic[p], db.periodic[q]) ::
       db.periodic[p].timestamp.Some? ==> db.periodic[p].timestamp != db.periodic[q].timestamp)
  }

  predicate SameKey(a: PeriodicRow, b: PeriodicRow) {
    a.task == b.task && a.periodicId == b.periodicId
  }

  predicate Inv(db: Db) {
    (forall id | id in db.jobs :: RowFits(db, id)) &&
    LocksExclusive(db.jobs) && QueueingLocksExclusive(db.jobs) &&
    EventsRefer(db) && PeriodicFits(db) && (forall w | w in db.workers :: w < db.nextWorker)
  }

  // --- statements keep it ---

  lemma TagRefers(id: nat, kinds: seq<EventType>)
    ensures forall e | e in Tag(id, kinds) :: e.job == id
  {
  }

  lemma UpdateKeepsInv(db: Db, id: nat, row: Job, assignsAbort: bool)
    requires Inv(db) && id in db.jobs
    ensures Inv(After(db, UpdateJob(db, id, row, assignsAbort)))
  {
    TagRefers(id, UpdateEvents(db.jobs[id], row, assignsAbort));
  }

  lemma InsertKeepsInv(db: Db, j: JobToDefer)
    requires Inv(db)
    ensures Inv(After(db, InsertJob(db, j)))
    ensures InsertJob(db, j).Done? ==>
              var db1 := InsertJob(db, j).db;
              db.nextJob !in db.jobs && db1.periodic == db.periodic && db1.nextPeriodic == db.nextPeriodic &&
              NewRow(j).Some? && db1.jobs == db.jobs[db.nextJob := NewRow(j).value] && db1.workers == db.workers
  {
    forall id | id in db.jobs ensures id < db.nextJob {
      assert RowFits(db, id);
    }
    if NewRow(j).Some? {
      TagRefers(db.nextJob, ScheduledEvents(NewRow(j).value) + [Deferred]);
    }
  }

  lemma DeleteKeepsInv(db: Db, id: nat)
    requires Inv(db)
    ensures Inv(DeleteJob(db, id))
  {
    var db1 := DeleteJob(db, id);
    DeleteKeepsEvents(db.events, id);
    forall k | k in db1.jobs ensures RowFits(db1, k) {
      assert RowFits(db, k);
    }
  }

  lemma {:induction false} InsertAllKeepsInv(db: Db, jobs: seq<JobToDefer>)
    requires Inv(db)
    ensures Inv(After(db, InsertAll(db, jobs)))
    decreases |jobs|
  {
    if jobs != [] && InsertJob(db, jobs[0]).Done? {
      InsertKeepsInv(db, jobs[0]);
      InsertAllKeepsInv(InsertJob(db, jobs[0]).db, jobs[1..]);
    }
  }

  /** Replacing the older rows of a key by a row with a timestamp it did not have keeps the keys unique. */
  lemma NewPeriodicRowFits(db: Db, periodic: map<nat, PeriodicRow>, p: nat, row: PeriodicRow, unseen: set<nat>)
    requires row.job.Some? && row.job.value in db.jobs && db.nextPeriodic == p + 1
    requires PeriodicFits(db.(periodic := periodic, nextPeriodic := p))
    requires !PeriodicTaken(periodic, row.task, row.periodicId, row.timestamp)
    ensures PeriodicFits(db.(periodic := WithoutOlder(periodic, row.task, row.periodicId, row.timestamp, unseen)[p := row]))
  {
    assert forall q: nat | q in periodic && SameKey(periodic[q], row) && row.timestamp.Some? ::
             !RowAt(periodic, q, row.task, row.periodicId, row.timestamp);
  }

  /** So does a row that no job is linked to yet. */
  lemma NullRowKeepsInv(db: Db, row: PeriodicRow)
    requires Inv(db) && row.job == None && !PeriodicTaken(db.periodic, row.task, row.periodicId, row.timestamp)
    ensures Inv(db.(periodic := db.periodic[db.nextPeriodic := row], nextPeriodic := db.nextPeriodic + 1))
  {
    var db1 := db.(periodic := db.periodic[db.nextPeriodic := row], nextPeriodic := db.nextPeriodic + 1);
    assert forall q: nat | q in db.periodic && SameKey(db.periodic[q], row) && row.timestamp.Some? ::
             !RowAt(db.periodic, q, row.task, row.periodicId, row.timestamp);
    PeriodicApart(db, db1);
  }

  lemma PeriodicKeepsInv(db: Db, job: JobToDefer, pid: Option<string>, ts: Option<int>, unseen: set<nat>)
    requires Inv(db)
    ensures Inv(After(db, DeferPeriodic(db, job, pid, ts, unseen)))
  {
    var job1 := job.(scheduledAt := None);
    InsertKeepsInv(db, job1);
    var r := DeferPeriodic(db, job, pid, ts, unseen);
    if r.Done? && r.value.Some? {
      var db1 := InsertJob(db, job1).db;
      NewPeriodicRowFits(db1.(nextPeriodic := db.nextPeriodic + 1), db.periodic, db.nextPeriodic,
                         PeriodicRow(job.task.value, pid.value, ts, r.value), unseen);
      PeriodicApart(db1, r.db);
    }
  }

  /** The periodic rows are a part of the invariant of their own. */
  lemma PeriodicApart(db: Db, db1: Db)
    requires Inv(db) && PeriodicFits(db1)
    requires db1 == db.(periodic := db1.periodic, nextPeriodic := db1.nextPeriodic)
    ensures Inv(db1)
  {
    forall id | id in db1.jobs ensures RowFits(db1, id) {
      assert RowFits(db, id);
    }
  }

  lemma {:induction false} RescheduledRefers(jobs: map<nat, Job>, worker: nat, n: nat)
    ensures forall e | e in RescheduledEvents(jobs, worker, n) :: e.job in jobs
  {
    if n > 0 {
      RescheduledRefers(jobs, worker, n - 1);
      if n - 1 in jobs { TagRefers(n - 1, ScheduledEvents(jobs[n - 1])); }
    }
  }

  /** Losing its worker changes nothing the constraints on a job look at but the worker. */
  lemma OrphanedFits(db: Db, worker: nat)
    requires Inv(db) && worker in db.workers
    ensures LocksExclusive(Orphaned(db.jobs, worker)) && QueueingLocksExclusive(Orphaned(db.jobs, worker))
    ensures forall id | id in db.jobs :: RowFits(UnregisterWorker(db, worker), id)
  {
    forall id | id in db.jobs ensures RowFits(UnregisterWorker(db, worker), id) {
      assert RowFits(db, id);
    }
  }

  lemma UnregisterKeepsInv(db: Db, worker: nat)
    requires Inv(db)
    ensures Inv(UnregisterWorker(db, worker))
  {
    if worker in db.workers {
      OrphanedFits(db, worker);
      RescheduledRefers(db.jobs, worker, db.nextJob);
    }
  }

  lemma StartKeepsInv(db: Db, id: nat, worker: Option<nat>)
    requires Inv(db) && id in db.jobs
    ensures Inv(After(db, StartJob(db, id, worker)))
  {
    UpdateKeepsInv(db, id, db.jobs[id].(status := Doing, worker := worker), false);
  }

  lemma FinishKeepsInv(db: Db, id: nat, endStatus: Status, deleteJob: bool)
    requires Inv(db)
    ensures Inv(After(db, Finish(db, id, endStatus, deleteJob)))
  {
    if Unfinished(db, id) {
      if deleteJob {
        DeleteKeepsInv(db, id);
      } else {
        UpdateKeepsInv(db, id, FinishedRow(db.jobs[id], endStatus), true);
      }
    }
  }

  lemma CancelKeepsInv(db: Db, id: nat, abort: bool, deleteJob: bool)
    requires Inv(db)
    ensures Inv(After(db, Cancel(db, id, abort, deleteJob)))
  {
    if id in db.jobs {
      DeleteKeepsInv(db, id);
      var job := db.jobs[id];
      UpdateKeepsInv(db, id, AbortRow(job), true);
      UpdateKeepsInv(db, id, job.(status := Cancelled), false);
    }
  }

  lemma RetryKeepsInv(db: Db, id: nat, args: RetryArgs, failedToo: bool)
    requires Inv(db)
    ensures Inv(After(db, Retry(db, id, args, failedToo)))
  {
    if id in db.jobs {
      UpdateKeepsInv(db, id, db.jobs[id].(status := Failed), false);
      UpdateKeepsInv(db, id, Requeued(db.jobs[id], args), false);
    }
  }

  // --- calls and runs keep it ---

  lemma StepKeepsInv(db: Db, call: Call)
    requires Inv(db)
    ensures Inv(Step(db, call))
  {
    match call
    case DeferJobsCall(jobs) => InsertAllKeepsInv(db, jobs);
    case DeferPeriodicCall(job, pid, ts, unseen) => PeriodicKeepsInv(db, job, pid, ts, unseen);
    case FetchCall(queues, worker, now) =>
      var next := NextJob(db.jobs, queues, now);
      if next.Some? { StartKeepsInv(db, next.value, worker); }
    case StaleFetchCall(_, chosen, queues, worker, now) =>
      if chosen in db.jobs { StartKeepsInv(db, chosen, worker); }
    case FinishCall(id, endStatus, deleteJob) => FinishKeepsInv(db, id, endStatus, deleteJob);
    case CancelCall(id, abort, deleteJob) => CancelKeepsInv(db, id, abort, deleteJob);
    case RetryCall(id, args, failedToo) => RetryKeepsInv(db, id, args, failedToo);
    case RegisterCall => RegisterKeepsInv(db);
    case UnregisterCall(worker) => UnregisterKeepsInv(db, worker);
    case SequenceGap(j, p, w) => GapKeepsInv(db, j, p, w);
  }

  lemma RegisterKeepsInv(db: Db)
    requires Inv(db)
    ensures Inv(After(db, RegisterWorker(db)))
  {
    forall id | id in db.jobs ensures RowFits(After(db, RegisterWorker(db)), id) {
      assert RowFits(db, id);
    }
  }

  lemma GapKeepsInv(db: Db, j: nat, p: nat, w: nat)
    requires Inv(db)
    ensures Inv(Step(db, SequenceGap(j, p, w)))
  {
    forall id | id in db.jobs ensures RowFits(Step(db, SequenceGap(j, p, w)), id) {
      assert RowFits(db, id);
    }
  }

  lemma {:induction false} RunKeepsInv(db: Db, calls: seq<Call>)
    requires Inv(db)
    ensures Inv(Run(db, calls))
  {
    if calls != [] {
      RunKeepsInv(db, calls[..|calls| - 1]);
      StepKeepsInv(Run(db, calls[..|calls| - 1]), calls[|calls| - 1]);
    }
  }

  /**
   From an empty database, whatever the calls and however stale the snapshots
   their guards were evaluated on: running jobs never share a lock, waiting jobs
   never share a queueing lock, and no waiting job has an abort request.
   */
  lemma ExclusionInEveryRun(calls: seq<Call>)
    ensures var db := Run(EMPTY_DB, calls);
            LocksExclusive(db.jobs) && QueueingLocksExclusive(db.jobs) &&
            forall id | id in db.jobs :: db.jobs[id].status == Todo ==> !db.jobs[id].abortRequested
  {
    assert Inv(EMPTY_DB);
    RunKeepsInv(EMPTY_DB, calls);
    var db := Run(EMPTY_DB, calls);
    forall id | id in db.jobs ensures db.jobs[id].status == Todo ==> !db.jobs[id].abortRequested {
      assert RowFits(db, id);
    }
  }

  // --- final statuses ---

  /**
   Succeeded, cancelled and aborted jobs, and failed jobs whose abort was
   requested: retrying one of those would break the CHECK constraint.
   */
  predicate Final(job: Job) {
    job.status == Succeeded || job.status == Cancelled || job.status == Aborted ||
    (job.status == Failed && job.abortRequested)
  }

  predicate KeepsRow(db: Db, db1: Db, id: nat) {
    id in db.jobs && id in db1.jobs && db1.jobs[id] == db.jobs[id]
  }

  lemma StartKeepsFinal(db: Db, chosen: nat, worker: Option<nat>, id: nat)
    requires chosen in db.jobs && db.jobs[chosen].status == Todo && id in db.jobs && Final(db.jobs[id])
    ensures KeepsRow(db, After(db, StartJob(db, chosen, worker)), id)
  {
  }

  lemma PeriodicKeepsRow(db: Db, job: JobToDefer, pid: Option<string>, ts: Option<int>, unseen: set<nat>, id: nat)
    requires Inv(db) && id in db.jobs
    ensures KeepsRow(db, After(db, DeferPeriodic(db, job, pid, ts, unseen)), id)
  {
    assert RowFits(db, id);
  }

  lemma FinishKeepsFinal(db: Db, target: nat, endStatus: Status, deleteJob: bool, id: nat)
    requires id in db.jobs && Final(db.jobs[id])
    ensures KeepsRow(db, After(db, Finish(db, target, endStatus, deleteJob)), id)
  {
  }

  lemma CancelKeepsFinal(db: Db, target: nat, abort: bool, deleteJob: bool, id: nat)
    requires id in db.jobs && Final(db.jobs[id])
    ensures KeepsRow(db, After(db, Cancel(db, target, abort, deleteJob)), id)
  {
  }

  /** A retry that would queue a final job again breaks the CHECK constraint. */
  lemma RetryKeepsFinal(db: Db, target: nat, args: RetryArgs, failedToo: bool, id: nat)
    requires id in db.jobs && Final(db.jobs[id])
    ensures KeepsRow(db, After(db, Retry(db, target, args, failedToo)), id)
  {
  }

  /** The job is still there, unchanged but for its worker. */
  predicate Survives(db: Db, db1: Db, id: nat) {
    id in db.jobs && id in db1.jobs && db1.jobs[id].(worker := None) == db.jobs[id].(worker := None)
  }

  lemma FetchKeepsFinal(db: Db, queues: Option<seq<string>>, worker: Option<nat>, now: int, id: nat)
    requires id in db.jobs && Final(db.jobs[id])
    ensures KeepsRow(db, After(db, Fetch(db, queues, worker, now)), id)
  {
    var next := NextJob(db.jobs, queues, now);
    if next.Some? { StartKeepsFinal(db, next.value, worker, id); }
  }

  lemma StaleFetchKeepsFinal(db: Db, snapshot: map<nat, Job>, chosen: nat, queues: Option<seq<string>>,
                             worker: Option<nat>, now: int, id: nat)
    requires id in db.jobs && Final(db.jobs[id])
    ensures KeepsRow(db, After(db, StaleFetch(db, snapshot, chosen, queues, worker, now)), id)
  {
    if Eligible(snapshot, chosen, queues, now) && chosen in db.jobs && Due(db.jobs[chosen], queues, now) {
      StartKeepsFinal(db, chosen, worker, id);
    }
  }

  /** The calls that run, end or retry jobs do not touch a final one at all. */
  lemma RunningKeepsFinal(db: Db, call: Call, id: nat)
    requires call.FetchCall? || call.StaleFetchCall? || call.FinishCall? || call.CancelCall? || call.RetryCall?
    requires id in db.jobs && Final(db.jobs[id])
    ensures KeepsRow(db, Step(db, call), id)
  {
    match call
    case FetchCall(queues, worker, now) => FetchKeepsFinal(db, queues, worker, now, id);
    case StaleFetchCall(snapshot, chosen, queues, worker, now) =>
      StaleFetchKeepsFinal(db, snapshot, chosen, queues, worker, now, id);
    case FinishCall(target, e, d) => FinishKeepsFinal(db, target, e, d, id);
    case CancelCall(target, a, d) => CancelKeepsFinal(db, target, a, d, id);
    case RetryCall(target, args, f) => RetryKeepsFinal(db, target, args, f, id);
  }

  lemma FinalSurvivesStep(db: Db, call: Call, id: nat)
    requires Inv(db) && id in db.jobs && Final(db.jobs[id])
    ensures Survives(db, Step(db, call), id)
  {
    match call
    case DeferJobsCall(jobs) => InsertAllKeepsRow(db, jobs, id);
    case DeferPeriodicCall(job, pid, ts, unseen) => PeriodicKeepsRow(db, job, pid, ts, unseen, id);
    case RegisterCall =>
    case UnregisterCall(worker) =>
    case SequenceGap(_, _, _) =>
    case _ => RunningKeepsFinal(db, call, id);
  }

  lemma {:induction false} InsertAllKeepsRow(db: Db, jobs: seq<JobToDefer>, id: nat)
    requires Inv(db) && id in db.jobs
    ensures id in After(db, InsertAll(db, jobs)).jobs && After(db, InsertAll(db, jobs)).jobs[id] == db.jobs[id]
    decreases |jobs|
  {
    assert RowFits(db, id);
    if jobs != [] && InsertJob(db, jobs[0]).Done? {
      InsertKeepsInv(db, jobs[0]);
      InsertAllKeepsRow(InsertJob(db, jobs[0]).db, jobs[1..], id);
    }
  }

  /** A final job is never deleted and never changes again, whatever is called. */
  lemma {:induction false} FinalForever(db: Db, calls: seq<Call>, id: nat)
    requires Inv(db) && id in db.jobs && Final(db.jobs[id])
    ensures Survives(db, Run(db, calls), id)
  {
    if calls != [] {
      var before := calls[..|calls| - 1];
      FinalForever(db, before, id);
      RunKeepsInv(db, before);
      FinalSurvivesStep(Run(db, before), calls[|calls| - 1], id);
    }
  }

  /** One row is replaced, and of the other tables only the log changes. */
  predicate OnlyRowChanges(db: Db, db1: Db, id: nat, row: Job) {
    db1 == db.(jobs := db.jobs[id := row], events := db1.events)
  }

  /** The row of a job queued again: one more attempt, the new schedule even if that is none, the rest where given. */
  predicate QueuedAgain(before: Job, after: Job, args: RetryArgs) {
    after == before.(status := Todo, attempts := before.attempts + 1, scheduledAt := args.at,
                     priority := after.priority, queue := after.queue, lock := after.lock) &&
    after.priority == (if args.priority.Some? then args.priority.value else before.priority) &&
    after.queue == (if args.queue.Some? then args.queue.value else before.queue) &&
    after.lock == (if args.lock.Some? then args.lock else before.lock)
  }

  /** Only running jobs can be retried and, by the second version, failed ones. */
  lemma RetryNeedsStatus(db: Db, id: nat, args: RetryArgs, failedToo: bool)
    ensures Retry(db, id, args, failedToo) == Raised(JobNotFound) <==>
              id !in db.jobs || !(db.jobs[id].status == Doing || (failedToo && db.jobs[id].status == Failed))
  {
  }

  /** When retrying a failed job works, and that it touches only that row. */
  lemma RetryOfFailedJob(db: Db, id: nat, args: RetryArgs)
    requires Inv(db) && id in db.jobs && db.jobs[id].status == Failed
    ensures var r := Retry(db, id, args, true);
            && (r.Done? <==>
                  !db.jobs[id].abortRequested &&
                  (forall other | other in db.jobs && other != id && db.jobs[other].status == Todo ::
                     db.jobs[id].queueingLock.Some? ==> db.jobs[other].queueingLock != db.jobs[id].queueingLock) &&
                  (args.queue.Some? ==> |args.queue.value| <= NAME_LIMIT))
            && (r.Done? ==>
                  id in r.db.jobs && OnlyRowChanges(db, r.db, id, r.db.jobs[id]) &&
                  QueuedAgain(db.jobs[id], r.db.jobs[id], args))
  {
    assert RowFits(db, id);
  }

  /**
   Retrying a running job never runs into the locks of running jobs. With an abort
   requested it only fails the job, which is not counted as an attempt and keeps the
   request; otherwise it queues the job again.
   */
  lemma RetryOfRunningJob(db: Db, id: nat, args: RetryArgs, failedToo: bool)
    requires Inv(db) && id in db.jobs && db.jobs[id].status == Doing
    ensures var r := Retry(db, id, args, failedToo); var job := db.jobs[id];
            && (r.Done? <==>
                  (job.abortRequested ||
                   ((forall other | other in db.jobs && other != id && db.jobs[other].status == Todo ::
                       job.queueingLock.Some? ==> db.jobs[other].queueingLock != job.queueingLock) &&
                    (args.queue.Some? ==> |args.queue.value| <= NAME_LIMIT))))
            && (r.Done? ==>
                  id in r.db.jobs && OnlyRowChanges(db, r.db, id, r.db.jobs[id]) &&
                  if job.abortRequested then r.db.jobs[id] == job.(status := Failed)
                  else QueuedAgain(job, r.db.jobs[id], args))
  {
    assert RowFits(db, id);
  }

  /** The job is gone with its events, and its periodic rows are linked to no job; nothing else changes. */
  predicate Gone(db: Db, db1: Db, id: nat) {
    db1 == db.(jobs := db.jobs - {id}, events := db1.events, periodic := db1.periodic) &&
    db1.periodic.Keys == db.periodic.Keys &&
    forall p | p in db.periodic ::
      db1.periodic[p] == if db.periodic[p].job == Some(id) then db.periodic[p].(job := None) else db.periodic[p]
  }

  /**
   Finishing with a valid end status works exactly on waiting and running jobs, since
   no constraint can stop it. The job is gone, or has the status, no abort request and,
   if it ran, one more attempt; no other column or row changes.
   */
  lemma FinishSucceedsExactly(db: Db, id: nat, endStatus: Status, deleteJob: bool)
    requires Inv(db)
    ensures var r := Finish(db, id, endStatus, deleteJob);
            && (r == Raised(BadEndStatus) <==> endStatus !in {Succeeded, Failed, Aborted})
            && (r.Done? <==>
                  endStatus in {Succeeded, Failed, Aborted} && id in db.jobs && db.jobs[id].status in {Todo, Doing})
            && (r.Done? ==>
                  if deleteJob then Gone(db, r.db, id)
                  else
                    OnlyRowChanges(db, r.db, id,
                      db.jobs[id].(status := endStatus, abortRequested := false,
                                   attempts := db.jobs[id].attempts + if db.jobs[id].status == Doing then 1 else 0)))
  {
    if id in db.jobs { assert RowFits(db, id); }
  }

  lemma CancelNeverRaises(db: Db, id: nat, abort: bool, deleteJob: bool)
    requires Inv(db)
    ensures Cancel(db, id, abort, deleteJob).Done?
  {
    if id in db.jobs { assert RowFits(db, id); }
  }

  /**
   Cancelling never raises and finds exactly waiting jobs and, to abort, running ones.
   A waiting job is gone or cancelled, a running one goes on with its lock and all, but
   marked; no other column or row changes.
   */
  lemma CancelOutcomes(db: Db, id: nat, abort: bool, deleteJob: bool)
    requires Inv(db)
    ensures var r := Cancel(db, id, abort, deleteJob);
            && r.Done?
            && r.value == (if id in db.jobs && (db.jobs[id].status == Todo || (abort && db.jobs[id].status == Doing))
                           then Some(id) else None)
            && (r.value == None ==> r.db == db)
            && (r.value == Some(id) ==>
                  if db.jobs[id].status == Doing then OnlyRowChanges(db, r.db, id, db.jobs[id].(abortRequested := true))
                  else if deleteJob then Gone(db, r.db, id)
                  else OnlyRowChanges(db, r.db, id, db.jobs[id].(status := Cancelled, abortRequested := abort)))
  {
    if id in db.jobs { assert RowFits(db, id); }
  }

  /** Unregistering sets the worker of its own jobs to NULL, and leaves every other column and job alone. */
  lemma UnregisterOutcome(db: Db, worker: nat)
    ensures var db1 := UnregisterWorker(db, worker);
            db1.workers == db.workers - {worker} && db1.periodic == db.periodic && db1.nextJob == db.nextJob &&
            db1.jobs.Keys == db.jobs.Keys &&
            forall id | id in db.jobs ::
              db1.jobs[id] == if worker in db.workers && db.jobs[id].worker == Some(worker)
                              then db.jobs[id].(worker := None) else db.jobs[id]
  {
  }

  // --- what each call logs ---

  /** The log of the schedule a waiting row has. */
  function ScheduleLog(row: Job): seq<EventType> {
    if row.scheduledAt.Some? then [Scheduled(row.scheduledAt.value)] else []
  }

  /** Deferring logs the schedule, if there is one, and that the job is there. */
  lemma EventsOfInsert(db: Db, j: JobToDefer)
    requires InsertJob(db, j).Done?
    ensures var db1 := InsertJob(db, j).db;
            db.nextJob in db1.jobs &&
            db1.events == db.events + Tag(db.nextJob, ScheduleLog(db1.jobs[db.nextJob]) + [Deferred])
  {
  }

  /** Finishing logs one event for a running job, a cancellation for a waiting one that succeeded or failed, and nothing for one that aborted. */
  lemma EventsOfFinish(db: Db, id: nat, endStatus: Status)
    requires Finish(db, id, endStatus, false).Done? && id in db.jobs
    ensures Finish(db, id, endStatus, false).db.events == db.events + Tag(id,
              if db.jobs[id].status == Doing then
                [if endStatus == Succeeded then SucceededEvent else if endStatus == Failed then FailedEvent else AbortedEvent]
              else if endStatus == Aborted then [] else [CancelledEvent])
  {
    NoPrefix(StatusEvents(db.jobs[id].status, endStatus));
  }

  lemma NoPrefix(kinds: seq<EventType>)
    ensures [] + [] + kinds == kinds
  {
  }

  /** Cancelling logs the request, if there is one, before the cancellation. */
  lemma EventsOfCancel(db: Db, id: nat, abort: bool)
    requires Inv(db) && id in db.jobs && (db.jobs[id].status == Todo || (abort && db.jobs[id].status == Doing))
    ensures Cancel(db, id, abort, false).db.events == db.events + Tag(id,
              if db.jobs[id].status == Doing then [AbortRequested]
              else if abort then [AbortRequested, CancelledEvent] else [CancelledEvent])
  {
    assert RowFits(db, id);
    NoPrefix([CancelledEvent]);
    assert [AbortRequested] + [] + [] == [AbortRequested];
    assert [AbortRequested] + [] + [CancelledEvent] == [AbortRequested, CancelledEvent];
  }

  /** Retrying logs the new schedule before the retry, or just the failure that an abort request makes of it. */
  lemma EventsOfRetry(db: Db, id: nat, args: RetryArgs, failedToo: bool)
    requires Retry(db, id, args, failedToo).Done? && id in db.jobs
    ensures Retry(db, id, args, failedToo).db.events == db.events + Tag(id,
              if db.jobs[id].status == Doing && db.jobs[id].abortRequested then [FailedEvent]
              else (if args.at.Some? then [Scheduled(args.at.value)] else []) +
                   [if db.jobs[id].status == Doing then DeferredForRetry else Retried])
  {
    NoPrefix([FailedEvent]);
    var scheduled := if args.at.Some? then [Scheduled(args.at.value)] else [];
    assert [] + scheduled == scheduled;
  }

  // --- batches are all or nothing ---

  /** A new job has the columns given, waits, and has not been attempted. */
  lemma InsertInColumns(db: Db, j: JobToDefer)
    requires InsertJob(db, j).Done?
    ensures var db1 := InsertJob(db, j).db; var id := InsertJob(db, j).value;
            id == db.nextJob && db1.nextJob == id + 1 && id in db1.jobs && db1.jobs == db.jobs[id := db1.jobs[id]] &&
            var row := db1.jobs[id];
            Some(row.queue) == j.queue && Some(row.task) == j.task && Some(row.priority) == j.priority &&
            Some(row.args) == j.args && row.lock == j.lock && row.queueingLock == j.queueingLock &&
            row.scheduledAt == j.scheduledAt && row.status == Todo && row.attempts == 0 &&
            !row.abortRequested && row.worker == None
  {
  }

  predicate Insertable(db: Db, j: JobToDefer) {
    NewRow(j).Some? && |j.queue.value| <= NAME_LIMIT && |j.task.value| <= NAME_LIMIT &&
    QueueingLockFree(db.jobs, db.nextJob, j.queueingLock)
  }

  /** All columns that may not be NULL are given, names fit, and no waiting job has the queueing lock. */
  lemma InsertableInColumns(db: Db, j: JobToDefer)
    requires Inv(db)
    ensures Insertable(db, j) <==>
              j.queue.Some? && j.task.Some? && j.priority.Some? && j.args.Some? &&
              |j.queue.value| <= 128 && |j.task.value| <= 128 &&
              forall id | id in db.jobs && db.jobs[id].status == Todo ::
                j.queueingLock.Some? ==> db.jobs[id].queueingLock != j.queueingLock
    ensures Insertable(db, j) <==> InsertJob(db, j).Done?
  {
    forall id | id in db.jobs ensures id != db.nextJob {
      assert RowFits(db, id);
    }
  }

  predicate BatchFits(db: Db, batch: seq<JobToDefer>) {
    (forall k | 0 <= k < |batch| :: Insertable(db, batch[k])) &&
    (forall k, l | 0 <= k < l < |batch| ::
       batch[k].queueingLock.Some? ==> batch[k].queueingLock != batch[l].queueingLock)
  }

  lemma FreeAfterHead(db: Db, head: JobToDefer, lock: Option<string>)
    requires Inv(db) && InsertJob(db, head).Done?
    ensures var db1 := InsertJob(db, head).db;
            QueueingLockFree(db1.jobs, db1.nextJob, lock) <==>
              QueueingLockFree(db.jobs, db.nextJob, lock) && (lock.Some? ==> head.queueingLock != lock)
  {
    InsertKeepsInv(db, head);
    var db1 := InsertJob(db, head).db;
    forall id | id in db.jobs ensures id < db.nextJob && id in db1.jobs && db1.jobs[id] == db.jobs[id] {
      assert RowFits(db, id);
    }
    assert db1.jobs[db.nextJob].status == Todo && db1.jobs[db.nextJob].queueingLock == head.queueingLock;
  }

  lemma BatchAfterHead(db: Db, batch: seq<JobToDefer>)
    requires Inv(db) && batch != [] && InsertJob(db, batch[0]).Done?
    ensures BatchFits(InsertJob(db, batch[0]).db, batch[1..]) <==> BatchFits(db, batch)
  {
    InsertKeepsInv(db, batch[0]);
    var db1 := InsertJob(db, batch[0]).db;
    forall k | 1 <= k < |batch|
      ensures Insertable(db1, batch[k]) <==>
                Insertable(db, batch[k]) &&
                (batch[0].queueingLock.Some? ==> batch[0].queueingLock != batch[k].queueingLock)
    {
      FreeAfterHead(db, batch[0], batch[k].queueingLock);
    }
    if BatchFits(db1, batch[1..]) {
      forall k | 0 <= k < |batch| ensures Insertable(db, batch[k]) {
        if k > 0 { assert batch[k] == batch[1..][k - 1]; }
      }
      forall k, l | 0 <= k < l < |batch|
        ensures batch[k].queueingLock.Some? ==> batch[k].queueingLock != batch[l].queueingLock
      {
        assert batch[l] == batch[1..][l - 1];
        if k > 0 { assert batch[k] == batch[1..][k - 1]; }
      }
    }
  }

  /**
   A batch is inserted exactly when every row fits and no queueing lock is taken,
   in the table or twice in the batch; then every job of the batch is there, under
   consecutive numbers in batch order, and every old row is as it was. Otherwise
   nothing is inserted.
   */
  lemma {:induction false} BatchAllOrNothing(db: Db, batch: seq<JobToDefer>)
    requires Inv(db)
    ensures InsertAll(db, batch).Done? <==> BatchFits(db, batch)
    ensures InsertAll(db, batch).Done? ==>
              var db1 := InsertAll(db, batch).db; var ids := InsertAll(db, batch).value;
              |ids| == |batch| && db1.nextJob == db.nextJob + |batch| &&
              (forall k | 0 <= k < |batch| ::
                 ids[k] == db.nextJob + k && ids[k] in db1.jobs && Some(db1.jobs[ids[k]]) == NewRow(batch[k])) &&
              (forall id | id in db1.jobs :: id in db.jobs || db.nextJob <= id < db.nextJob + |batch|) &&
              (forall id | id in db.jobs :: id in db1.jobs && db1.jobs[id] == db.jobs[id])
    decreases |batch|
  {
    if batch != [] {
      InsertKeepsInv(db, batch[0]);
      if InsertJob(db, batch[0]).Done? {
        BatchAfterHead(db, batch);
        var db1 := InsertJob(db, batch[0]).db;
        BatchAllOrNothing(db1, batch[1..]);
        forall id | id in db.jobs ensures id < db.nextJob { assert RowFits(db, id); }
        InsertAllKeepsRow(db1, batch[1..], db.nextJob);
      } else {
        assert !Insertable(db, batch[0]);
      }
    }
  }
}
