/**
 The events that announce no status: abort requests and schedules. They record what
 the row says, too.
 */
module JobAnnotations {
  import opened Options
  import opened JobTables
  import opened JobFunctions
  import opened JobRuns
  import opened JobEventLog

  /** The schedule that the log gave last. */
  function LastScheduled(log: seq<EventType>): Option<int> {
    if log == [] then None
    else
      var last := log[|log| - 1];
      if last.Scheduled? then Some(last.at) else LastScheduled(log[..|log| - 1])
  }

  lemma {:induction false} LastScheduledConcat(a: seq<EventType>, b: seq<EventType>)
    ensures LastScheduled(a + b) == if LastScheduled(b).Some? then LastScheduled(b) else LastScheduled(a)
  {
    if b == [] {
      assert a + b == a;
    } else {
      LastScheduledConcat(a, b[..|b| - 1]);
      assert (a + b)[..|a + b| - 1] == a + b[..|b| - 1];
    }
  }

  lemma {:induction false} NoSchedule(log: seq<EventType>)
    requires forall e | e in log :: !e.Scheduled?
    ensures LastScheduled(log) == None
  {
    if log != [] { NoSchedule(log[..|log| - 1]); }
  }

  lemma ScheduleOfRow(row: Job)
    ensures LastScheduled(ScheduledEvents(row)) == if row.status == Todo then row.scheduledAt else None
  {
    if row.status == Todo && row.scheduledAt.Some? {
      assert ScheduledEvents(row)[..0] == [];
    }
  }

  /** An abort request of the row is in the log, and so is, as the last one, the schedule of a waiting row. */
  predicate Annotates(log: seq<EventType>, row: Job) {
    (row.abortRequested ==> AbortRequested in log) &&
    (row.status == Todo && row.scheduledAt.Some? ==> LastScheduled(log) == row.scheduledAt)
  }

  predicate Annotated(db: Db, id: nat) {
    id in db.jobs ==> Annotates(Log(db.events, id), db.jobs[id])
  }

  /** Only the middle one of three appended parts has schedules. */
  lemma AppendThree(log: seq<EventType>, a: seq<EventType>, b: seq<EventType>, c: seq<EventType>)
    requires LastScheduled(a) == None && LastScheduled(c) == None
    ensures LastScheduled(log + (a + b + c)) == if LastScheduled(b).Some? then LastScheduled(b) else LastScheduled(log)
    ensures forall e | e in log || e in a :: e in log + (a + b + c)
  {
    LastScheduledConcat(a, b);
    LastScheduledConcat(a + b, c);
    LastScheduledConcat(log, a + b + c);
  }

  lemma AfterUpdateEvents(log: seq<EventType>, before: Job, row: Job, assignsAbort: bool)
    requires Annotates(log, before) && (row.abortRequested ==> assignsAbort || before.abortRequested)
    ensures Annotates(log + UpdateEvents(before, row, assignsAbort), row)
  {
    var abort, status := AbortEvents(row, assignsAbort), StatusEvents(before.status, row.status);
    NoSchedule(abort);
    NoSchedule(status);
    ScheduleOfRow(row);
    AppendThree(log, abort, ScheduledEvents(row), status);
  }

  lemma AnnotatedAfterUpdate(db: Db, target: nat, row: Job, assignsAbort: bool, id: nat)
    requires target in db.jobs && Annotated(db, id)
    requires row.abortRequested ==> assignsAbort || db.jobs[target].abortRequested
    ensures Annotated(After(db, UpdateJob(db, target, row, assignsAbort)), id)
  {
    if UpdateJob(db, target, row, assignsAbort).Done? {
      LogAfterTag(db.events, target, UpdateEvents(db.jobs[target], row, assignsAbort), id);
      if id == target { AfterUpdateEvents(Log(db.events, id), db.jobs[id], row, assignsAbort); }
    }
  }

  lemma AnnotatedAfterInsert(db: Db, j: JobToDefer, id: nat)
    requires Inv(db) && Annotated(db, id)
    ensures Annotated(After(db, InsertJob(db, j)), id)
  {
    if InsertJob(db, j).Done? {
      var row := NewRow(j).value;
      LogAfterTag(db.events, db.nextJob, ScheduledEvents(row) + [Deferred], id);
      if id == db.nextJob {
        NoSchedule([Deferred]);
        ScheduleOfRow(row);
        LastScheduledConcat(ScheduledEvents(row), [Deferred]);
        LastScheduledConcat(Log(db.events, id), ScheduledEvents(row) + [Deferred]);
      }
    }
  }

  lemma {:induction false} AnnotatedAfterInserts(db: Db, jobs: seq<JobToDefer>, id: nat)
    requires Inv(db) && Annotated(db, id)
    ensures Annotated(After(db, InsertAll(db, jobs)), id)
    decreases |jobs|
  {
    if jobs != [] && InsertJob(db, jobs[0]).Done? {
      AnnotatedAfterInsert(db, jobs[0], id);
      InsertKeepsInv(db, jobs[0]);
      AnnotatedAfterInserts(InsertJob(db, jobs[0]).db, jobs[1..], id);
    }
  }

  lemma AnnotatedAfterUnregister(db: Db, worker: nat, id: nat)
    requires Annotated(db, id)
    ensures Annotated(UnregisterWorker(db, worker), id)
  {
    if worker in db.workers && id in db.jobs {
      var events := RescheduledEvents(db.jobs, worker, db.nextJob);
      LogConcat(db.events, events, id);
      RescheduledLog(db.jobs, worker, db.nextJob, id);
      ScheduleOfRow(db.jobs[id]);
      LastScheduledConcat(Log(db.events, id), Log(events, id));
    }
  }

  lemma AnnotatedAfterCancel(db: Db, target: nat, abort: bool, deleteJob: bool, id: nat)
    requires Annotated(db, id)
    ensures Annotated(After(db, Cancel(db, target, abort, deleteJob)), id)
  {
    if target in db.jobs {
      var job := db.jobs[target];
      LogAfterDelete(db.events, target, id);
      AnnotatedAfterUpdate(db, target, AbortRow(job), true, id);
      AnnotatedAfterUpdate(db, target, job.(status := Cancelled), false, id);
    }
  }

  lemma AnnotatedAfterFinish(db: Db, target: nat, endStatus: Status, deleteJob: bool, id: nat)
    requires Annotated(db, id)
    ensures Annotated(After(db, Finish(db, target, endStatus, deleteJob)), id)
  {
    if Unfinished(db, target) {
      if deleteJob {
        LogAfterDelete(db.events, target, id);
      } else {
        AnnotatedAfterUpdate(db, target, FinishedRow(db.jobs[target], endStatus), true, id);
      }
    }
  }

  lemma AnnotatedAfterRetry(db: Db, target: nat, args: RetryArgs, failedToo: bool, id: nat)
    requires Annotated(db, id)
    ensures Annotated(After(db, Retry(db, target, args, failedToo)), id)
  {
    if target in db.jobs {
      AnnotatedAfterUpdate(db, target, db.jobs[target].(status := Failed), false, id);
      AnnotatedAfterUpdate(db, target, Requeued(db.jobs[target], args), false, id);
    }
  }

  lemma AnnotatedAfterStart(db: Db, chosen: nat, worker: Option<nat>, id: nat)
    requires chosen in db.jobs && Annotated(db, id)
    ensures Annotated(After(db, StartJob(db, chosen, worker)), id)
  {
    AnnotatedAfterUpdate(db, chosen, db.jobs[chosen].(status := Doing, worker := worker), false, id);
  }

  lemma AnnotatedAfterStep(db: Db, call: Call, id: nat)
    requires Inv(db) && Annotated(db, id)
    ensures Annotated(Step(db, call), id)
  {
    match call
    case DeferJobsCall(jobs) => AnnotatedAfterInserts(db, jobs, id);
    case DeferPeriodicCall(job, _, _, _) => AnnotatedAfterInsert(db, job.(scheduledAt := None), id);
    case FetchCall(queues, worker, now) =>
      var next := NextJob(db.jobs, queues, now);
      if next.Some? { AnnotatedAfterStart(db, next.value, worker, id); }
    case StaleFetchCall(_, chosen, _, worker, _) =>
      if chosen in db.jobs { AnnotatedAfterStart(db, chosen, worker, id); }
    case FinishCall(target, endStatus, deleteJob) => AnnotatedAfterFinish(db, target, endStatus, deleteJob, id);
    case CancelCall(target, abort, deleteJob) => AnnotatedAfterCancel(db, target, abort, deleteJob, id);
    case RetryCall(target, args, failedToo) => AnnotatedAfterRetry(db, target, args, failedToo, id);
    case RegisterCall =>
    case UnregisterCall(worker) => AnnotatedAfterUnregister(db, worker, id);
    case SequenceGap(_, _, _) =>
  }

  /**
   In every run, the log of a live job whose abort is requested says so, and the last
   schedule in the log of a waiting job with a schedule is that schedule.
   */
  lemma {:induction false} LogShowsRequestsAndSchedules(calls: seq<Call>, id: nat)
    requires id in Run(EMPTY_DB, calls).jobs
    ensures var db := Run(EMPTY_DB, calls); var log := Log(db.events, id);
            (db.jobs[id].abortRequested ==> AbortRequested in log) &&
            (db.jobs[id].status == Todo && db.jobs[id].scheduledAt.Some? ==> LastScheduled(log) == db.jobs[id].scheduledAt)
  {
    var before := calls[..|calls| - 1];
    assert Inv(EMPTY_DB);
    RunKeepsInv(EMPTY_DB, before);
    if id in Run(EMPTY_DB, before).jobs { LogShowsRequestsAndSchedules(before, id); }
    AnnotatedAfterStep(Run(EMPTY_DB, before), calls[|calls| - 1], id);
  }
}
