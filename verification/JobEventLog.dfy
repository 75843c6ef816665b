/**
 The event log against the job rows: what replaying a job's events says about its
 status, and how its events account for its attempts.
 */
module JobEventLog {
  import opened Options
  import opened JobTables
  import opened JobFunctions
  import opened JobRuns

  // --- replaying a log ---

  /** The status an event announces; scheduling and abort requests announce none. */
  function Announced(e: EventType): Option<Status> {
    match e
    case Deferred => Some(Todo)
    case Started => Some(Doing)
    case DeferredForRetry => Some(Todo)
    case FailedEvent => Some(Failed)
    case SucceededEvent => Some(Succeeded)
    case CancelledEvent => Some(Cancelled)
    case AbortedEvent => Some(Aborted)
    case Retried => Some(Todo)
    case AbortRequested => None
    case Scheduled(_) => None
  }

  function ReplayFrom(status: Option<Status>, log: seq<EventType>): Option<Status> {
    if log == [] then status
    else
      var announced := Announced(log[|log| - 1]);
      if announced.Some? then announced else ReplayFrom(status, log[..|log| - 1])
  }

  function Replay(db: Db, id: nat): Option<Status> {
    ReplayFrom(None, Log(db.events, id))
  }

  /** Events that say a run of the job began or was asked for again. */
  function Starts(log: seq<EventType>): nat {
    if log == [] then 0
    else Starts(log[..|log| - 1]) + if log[|log| - 1] in {Started, Retried} then 1 else 0
  }

  predicate Silent(log: seq<EventType>) {
    forall e | e in log :: Announced(e).None?
  }

  lemma {:induction false} ReplayConcat(status: Option<Status>, a: seq<EventType>, b: seq<EventType>)
    ensures ReplayFrom(status, a + b) == ReplayFrom(ReplayFrom(status, a), b)
    ensures Starts(a + b) == Starts(a) + Starts(b)
  {
    if b == [] {
      assert a + b == a;
    } else {
      ReplayConcat(status, a, b[..|b| - 1]);
      assert (a + b)[..|a + b| - 1] == a + b[..|b| - 1];
    }
  }

  lemma {:induction false} SilentChangesNothing(status: Option<Status>, log: seq<EventType>)
    requires Silent(log)
    ensures ReplayFrom(status, log) == status && Starts(log) == 0
  {
    if log != [] {
      SilentChangesNothing(status, log[..|log| - 1]);
    }
  }

  lemma {:induction false} NoEventsNoLog(events: seq<Event>, id: nat)
    requires forall e | e in events :: e.job != id
    ensures Log(events, id) == []
  {
    if events != [] { NoEventsNoLog(events[..|events| - 1], id); }
  }

  /**
   `after` extends `before` as far as replay and starts can tell by `change`: what
   else was appended is silent.
   */
  predicate Extends(after: seq<EventType>, before: seq<EventType>, change: seq<EventType>) {
    ReplayFrom(None, after) == ReplayFrom(ReplayFrom(None, before), change) &&
    Starts(after) == Starts(before) + Starts(change)
  }

  lemma AppendSilent(before: seq<EventType>, kinds: seq<EventType>)
    requires Silent(kinds)
    ensures Extends(before + kinds, before, [])
  {
    ReplayConcat(None, before, kinds);
    SilentChangesNothing(ReplayFrom(None, before), kinds);
  }

  lemma AppendUpdateEvents(log: seq<EventType>, before: Job, row: Job, assignsAbort: bool)
    ensures Extends(log + UpdateEvents(before, row, assignsAbort), log, StatusEvents(before.status, row.status))
  {
    var abort, scheduled := AbortEvents(row, assignsAbort), ScheduledEvents(row);
    var replayed := ReplayFrom(None, log);
    ReplayConcat(None, log, UpdateEvents(before, row, assignsAbort));
    ReplayConcat(replayed, abort + scheduled, StatusEvents(before.status, row.status));
    ReplayConcat(replayed, abort, scheduled);
    SilentChangesNothing(replayed, abort);
    SilentChangesNothing(replayed, scheduled);
  }

  /** Losing its worker logs the schedule of a waiting row again. */
  lemma {:induction false} RescheduledLog(jobs: map<nat, Job>, worker: nat, n: nat, id: nat)
    ensures Log(RescheduledEvents(jobs, worker, n), id) ==
            if id < n && id in jobs && jobs[id].worker == Some(worker) then ScheduledEvents(jobs[id]) else []
  {
    if n > 0 {
      var k := n - 1;
      var before := RescheduledEvents(jobs, worker, k);
      RescheduledLog(jobs, worker, k, id);
      if k !in jobs || jobs[k].worker != Some(worker) {
        assert RescheduledEvents(jobs, worker, n) == before;
      } else {
        assert RescheduledEvents(jobs, worker, n) == before + Tag(k, ScheduledEvents(jobs[k]));
        if id == k {
          FirstEvents(before, id, ScheduledEvents(jobs[id]));
        } else {
          LogOfOther(before, k, ScheduledEvents(jobs[k]), id);
        }
      }
    }
  }

  lemma LogOfOther(events: seq<Event>, id: nat, kinds: seq<EventType>, other: nat)
    requires other != id
    ensures Log(events + Tag(id, kinds), other) == Log(events, other)
  {
    LogAfterTag(events, id, kinds, other);
  }

  lemma FirstEvents(events: seq<Event>, id: nat, kinds: seq<EventType>)
    requires Log(events, id) == []
    ensures Log(events + Tag(id, kinds), id) == kinds
  {
    LogAfterTag(events, id, kinds, id);
    assert [] + kinds == kinds;
  }

  // --- how one call moves one job ---

  /** Finish, without deletion, of a job that is still waiting. */
  predicate FinishesWaiting(db: Db, call: Call, id: nat) {
    call.FinishCall? && call.id == id && !call.deleteJob && call.endStatus in {Succeeded, Failed, Aborted} &&
    id in db.jobs && db.jobs[id].status == Todo
  }

  /** Retry of a running job that an abort request turns into a failure. */
  predicate AbortedRetry(db: Db, call: Call, id: nat) {
    call.RetryCall? && call.id == id &&
    id in db.jobs && db.jobs[id].status == Doing && db.jobs[id].abortRequested
  }

  predicate Still(before: Job, after: Job) {
    after.status == before.status && after.attempts == before.attempts
  }

  predicate Starting(before: Job, after: Job) {
    before.status == Todo && after.status == Doing && after.attempts == before.attempts
  }

  /** A running job counts one more attempt; a waiting one does not. */
  predicate Ending(before: Job, after: Job, endStatus: Status) {
    after.status == endStatus && endStatus in {Succeeded, Failed, Aborted} &&
    ((before.status == Doing && after.attempts == before.attempts + 1) ||
     (before.status == Todo && after.attempts == before.attempts))
  }

  predicate Cancelling(before: Job, after: Job) {
    before.status == Todo && after.status == Cancelled && after.attempts == before.attempts
  }

  /** With an abort requested a running job fails without counting an attempt. */
  predicate Retrying(before: Job, after: Job, failedToo: bool) {
    if before.status == Doing && before.abortRequested then after.status == Failed && after.attempts == before.attempts
    else
      (before.status == Doing || (failedToo && before.status == Failed)) &&
      after.status == Todo && after.attempts == before.attempts + 1
  }

  /** The changes of status and attempts that each kind of call can make, and to which job. */
  predicate Moves(call: Call, id: nat, before: Job, after: Job) {
    match call
    case FetchCall(_, _, _) => Still(before, after) || Starting(before, after)
    case StaleFetchCall(_, chosen, _, _, _) => Still(before, after) || (id == chosen && Starting(before, after))
    case FinishCall(target, endStatus, deleteJob) =>
      if id == target && before.status in {Todo, Doing} && endStatus in {Succeeded, Failed, Aborted} then
        !deleteJob && Ending(before, after, endStatus)
      else Still(before, after)
    case CancelCall(target, _, deleteJob) =>
      if id == target && before.status == Todo then !deleteJob && Cancelling(before, after)
      else Still(before, after)
    case RetryCall(target, _, failedToo) =>
      if id == target && before.status == Doing && before.abortRequested then Retrying(before, after, failedToo)
      else Still(before, after) || (id == target && Retrying(before, after, failedToo))
    case _ => Still(before, after)
  }

  lemma LogOfUpdate(db: Db, target: nat, row: Job, assignsAbort: bool, id: nat)
    requires target in db.jobs && id in db.jobs && UpdateJob(db, target, row, assignsAbort).Done?
    ensures var db1 := UpdateJob(db, target, row, assignsAbort).db;
            Extends(Log(db1.events, id), Log(db.events, id), StatusEvents(db.jobs[id].status, db1.jobs[id].status))
  {
    LogAfterTag(db.events, target, UpdateEvents(db.jobs[target], row, assignsAbort), id);
    AppendUpdateEvents(Log(db.events, id), db.jobs[id], row, assignsAbort);
  }

  lemma {:induction false} LogOfInserts(db: Db, jobs: seq<JobToDefer>, id: nat)
    requires Inv(db) && InsertAll(db, jobs).Done?
    ensures var db1 := InsertAll(db, jobs).db;
            (id in db.jobs ==> Log(db1.events, id) == Log(db.events, id)) &&
            (id !in db.jobs && id in db1.jobs ==> FreshLog(db1, id)) &&
            db.nextJob <= db1.nextJob && (id in db1.jobs && id !in db.jobs ==> db.nextJob <= id)
    decreases |jobs|
  {
    if jobs != [] {
      LogOfInsert(db, jobs[0], id);
      InsertKeepsInv(db, jobs[0]);
      var db1 := InsertJob(db, jobs[0]).db;
      LogOfInserts(db1, jobs[1..], id);
      if id == db.nextJob { InsertAllKeepsRow(db1, jobs[1..], id); }
    }
  }

  /** A job just deferred: waiting, not attempted, and its log says so. */
  predicate FreshLog(db: Db, id: nat)
    requires id in db.jobs
  {
    db.jobs[id].status == Todo && db.jobs[id].attempts == 0 &&
    Replay(db, id) == Some(Todo) && Starts(Log(db.events, id)) == 0
  }

  lemma LogOfInsert(db: Db, j: JobToDefer, id: nat)
    requires Inv(db) && InsertJob(db, j).Done?
    ensures var db1 := InsertJob(db, j).db;
            (id != db.nextJob ==> Log(db1.events, id) == Log(db.events, id)) &&
            (id == db.nextJob ==> id !in db.jobs && id in db1.jobs && FreshLog(db1, id))
  {
    InsertKeepsInv(db, j);
    LogAfterTag(db.events, db.nextJob, ScheduledEvents(NewRow(j).value) + [Deferred], id);
    if id == db.nextJob {
      NoEventsNoLog(db.events, id);
      AppendDeferral(ScheduledEvents(NewRow(j).value));
    }
  }

  lemma AppendDeferral(scheduled: seq<EventType>)
    requires Silent(scheduled)
    ensures ReplayFrom(None, [] + (scheduled + [Deferred])) == Some(Todo) && Starts([] + (scheduled + [Deferred])) == 0
  {
    ReplayConcat(None, [], scheduled + [Deferred]);
    ReplayConcat(None, scheduled, [Deferred]);
    SilentChangesNothing(None, scheduled);
    assert [Deferred][..0] == [];
  }

  /**
   How a call that takes `db` to `db1` treats one job: a job that appears is fresh;
   the log of a job that stays is extended by silent events and the event of its
   change of status.
   */
  predicate Evolved(db: Db, call: Call, id: nat, db1: Db) {
    db.nextJob <= db1.nextJob &&
    (id in db1.jobs && id !in db.jobs ==> db.nextJob <= id && FreshLog(db1, id)) &&
    (id in db1.jobs && id in db.jobs ==>
       Moves(call, id, db.jobs[id], db1.jobs[id]) &&
       Extends(Log(db1.events, id), Log(db.events, id), StatusEvents(db.jobs[id].status, db1.jobs[id].status)))
  }

  lemma DeferEvolution(db: Db, jobs: seq<JobToDefer>, id: nat)
    requires Inv(db)
    ensures Evolved(db, DeferJobsCall(jobs), id, After(db, InsertAll(db, jobs)))
  {
    if InsertAll(db, jobs).Done? {
      LogOfInserts(db, jobs, id);
      if id in db.jobs { InsertAllKeepsRow(db, jobs, id); }
    }
  }

  /** A call that leaves a job and its log alone does not move it. */
  lemma Unmoved(db: Db, call: Call, id: nat, db1: Db)
    requires db.nextJob <= db1.nextJob && id in db.jobs && id in db1.jobs && db1.jobs[id] == db.jobs[id]
    requires Log(db1.events, id) == Log(db.events, id)
    requires Moves(call, id, db.jobs[id], db.jobs[id])
    ensures Evolved(db, call, id, db1)
  {
    assert StatusEvents(db.jobs[id].status, db1.jobs[id].status) == [];
  }

  lemma PeriodicEvolution(db: Db, job: JobToDefer, pid: Option<string>, ts: Option<int>, unseen: set<nat>, id: nat)
    requires Inv(db)
    ensures Evolved(db, DeferPeriodicCall(job, pid, ts, unseen), id, After(db, DeferPeriodic(db, job, pid, ts, unseen)))
  {
    var r, job1 := DeferPeriodic(db, job, pid, ts, unseen), job.(scheduledAt := None);
    var call := DeferPeriodicCall(job, pid, ts, unseen);
    if r.Done? && r.value.Some? {
      LogOfInsert(db, job1, id);
      InsertKeepsInv(db, job1);
      var db1 := InsertJob(db, job1).db;
      assert r.db.jobs == db1.jobs && r.db.events == db1.events && r.db.nextJob == db1.nextJob;
      if id in db.jobs { Unmoved(db, call, id, r.db); }
    } else if id in db.jobs {
      Unmoved(db, call, id, db);
    }
  }

  lemma StartEvolution(db: Db, call: Call, chosen: nat, worker: Option<nat>, id: nat)
    requires chosen in db.jobs && db.jobs[chosen].status == Todo
    requires call.FetchCall? || (call.StaleFetchCall? && call.chosen == chosen)
    ensures Evolved(db, call, id, After(db, StartJob(db, chosen, worker)))
  {
    var row := db.jobs[chosen].(status := Doing, worker := worker);
    if UpdateJob(db, chosen, row, false).Done? && id in db.jobs {
      LogOfUpdate(db, chosen, row, false, id);
    }
  }

  lemma LogOfUnregister(db: Db, worker: nat, id: nat)
    ensures Extends(Log(db.events + RescheduledEvents(db.jobs, worker, db.nextJob), id), Log(db.events, id), [])
  {
    var events := RescheduledEvents(db.jobs, worker, db.nextJob);
    LogConcat(db.events, events, id);
    RescheduledLog(db.jobs, worker, db.nextJob, id);
    assert Silent(Log(events, id));
    AppendSilent(Log(db.events, id), Log(events, id));
  }

  lemma UnregisterEvolution(db: Db, worker: nat, id: nat)
    ensures Evolved(db, UnregisterCall(worker), id, UnregisterWorker(db, worker))
  {
    LogOfUnregister(db, worker, id);
    if id in db.jobs && worker !in db.workers { Unmoved(db, UnregisterCall(worker), id, db); }
  }

  lemma FinishEvolution(db: Db, target: nat, endStatus: Status, deleteJob: bool, id: nat)
    requires Inv(db)
    ensures Evolved(db, FinishCall(target, endStatus, deleteJob), id, After(db, Finish(db, target, endStatus, deleteJob)))
  {
    if id in db.jobs { assert RowFits(db, id); }
    if Finish(db, target, endStatus, deleteJob).Done? {
      if deleteJob {
        LogAfterDelete(db.events, target, id);
      } else if id in db.jobs {
        LogOfUpdate(db, target, FinishedRow(db.jobs[target], endStatus), true, id);
      }
    }
  }

  lemma CancelEvolution(db: Db, target: nat, abort: bool, deleteJob: bool, id: nat)
    requires Inv(db)
    ensures Evolved(db, CancelCall(target, abort, deleteJob), id, After(db, Cancel(db, target, abort, deleteJob)))
  {
    if id in db.jobs { assert RowFits(db, id); }
    if target in db.jobs {
      var job := db.jobs[target];
      if deleteJob && job.status == Todo {
        LogAfterDelete(db.events, target, id);
      } else if Cancel(db, target, abort, deleteJob).Done? && id in db.jobs {
        if abort && (job.status == Todo || job.status == Doing) {
          LogOfUpdate(db, target, AbortRow(job), true, id);
        } else if !abort && job.status == Todo {
          LogOfUpdate(db, target, job.(status := Cancelled), false, id);
        }
      }
    }
  }

  lemma RetryEvolution(db: Db, target: nat, args: RetryArgs, failedToo: bool, id: nat)
    requires Inv(db)
    ensures Evolved(db, RetryCall(target, args, failedToo), id, After(db, Retry(db, target, args, failedToo)))
  {
    if id in db.jobs { assert RowFits(db, id); }
    if Retry(db, target, args, failedToo).Done? && id in db.jobs {
      if db.jobs[target].status == Doing && db.jobs[target].abortRequested {
        LogOfUpdate(db, target, db.jobs[target].(status := Failed), false, id);
      } else {
        LogOfUpdate(db, target, Requeued(db.jobs[target], args), false, id);
      }
    }
  }

  /** Every call treats every job this way. */
  lemma Evolution(db: Db, call: Call, id: nat)
    requires Inv(db)
    ensures Evolved(db, call, id, Step(db, call))
  {
    match call
    case DeferJobsCall(jobs) => DeferEvolution(db, jobs, id);
    case DeferPeriodicCall(job, pid, ts, unseen) => PeriodicEvolution(db, job, pid, ts, unseen, id);
    case FetchCall(queues, worker, now) =>
      var next := NextJob(db.jobs, queues, now);
      if next.Some? { StartEvolution(db, call, next.value, worker, id); }
    case StaleFetchCall(snapshot, chosen, queues, worker, now) =>
      if Eligible(snapshot, chosen, queues, now) && chosen in db.jobs && Due(db.jobs[chosen], queues, now) {
        StartEvolution(db, call, chosen, worker, id);
      }
    case FinishCall(target, endStatus, deleteJob) => FinishEvolution(db, target, endStatus, deleteJob, id);
    case CancelCall(target, abort, deleteJob) => CancelEvolution(db, target, abort, deleteJob, id);
    case RetryCall(target, args, failedToo) => RetryEvolution(db, target, args, failedToo, id);
    case RegisterCall =>
    case UnregisterCall(worker) => UnregisterEvolution(db, worker, id);
    case SequenceGap(_, _, _) =>
  }

  // --- what the log says about the status ---

  /** What the status can be, given the status the log replays to. */
  predicate Explains(replayed: Option<Status>, status: Status) {
    replayed == Some(status) ||
    (replayed == Some(Cancelled) && status in {Succeeded, Failed}) ||
    (replayed == Some(Todo) && status == Aborted)
  }

  /** The log of every live job replays to its status. */
  ghost predicate Agrees(db: Db) {
    forall id | id in db.jobs :: Replay(db, id) == Some(db.jobs[id].status)
  }

  /** A status event replays to the new status, except out of todo into an end status. */
  lemma ReplayOfStatus(replayed: Option<Status>, before: Status, after: Status)
    ensures ReplayFrom(replayed, StatusEvents(before, after)) ==
            if StatusEvents(before, after) == [] then replayed
            else if before == Todo && after != Doing then Some(Cancelled)
            else Some(after)
    ensures Starts(StatusEvents(before, after)) ==
            if (before == Todo && after == Doing) || (before == Failed && after == Todo) then 1 else 0
  {
    var events := StatusEvents(before, after);
    if events != [] {
      assert events[..0] == [];
    }
  }

  lemma MoveExplains(call: Call, id: nat, before: Job, after: Job, replayed: Option<Status>)
    requires Moves(call, id, before, after) && Explains(replayed, before.status)
    ensures var now := ReplayFrom(replayed, StatusEvents(before.status, after.status));
            Explains(now, after.status) &&
            (replayed == Some(before.status) ==>
               (now == Some(after.status) <==>
                  !(call.FinishCall? && call.id == id && !call.deleteJob && call.endStatus in {Succeeded, Failed, Aborted} &&
                    before.status == Todo)))
  {
    ReplayOfStatus(replayed, before.status, after.status);
  }

  lemma StepExplains(db: Db, call: Call, id: nat)
    requires Inv(db) && id in Step(db, call).jobs
    requires id in db.jobs ==> Explains(Replay(db, id), db.jobs[id].status)
    ensures Explains(Replay(Step(db, call), id), Step(db, call).jobs[id].status)
    ensures id !in db.jobs ==> Replay(Step(db, call), id) == Some(Step(db, call).jobs[id].status)
    ensures id in db.jobs && Replay(db, id) == Some(db.jobs[id].status) ==>
              (Replay(Step(db, call), id) == Some(Step(db, call).jobs[id].status) <==> !FinishesWaiting(db, call, id))
  {
    Evolution(db, call, id);
    if id in db.jobs {
      MoveExplains(call, id, db.jobs[id], Step(db, call).jobs[id], Replay(db, id));
    }
  }

  /** In every run, a live job's status is the one its log replays to, or one a finish of a waiting job hid. */
  lemma {:induction false} LogExplainsStatus(calls: seq<Call>, id: nat)
    requires id in Run(EMPTY_DB, calls).jobs
    ensures Explains(Replay(Run(EMPTY_DB, calls), id), Run(EMPTY_DB, calls).jobs[id].status)
  {
    assert Inv(EMPTY_DB);
    if calls != [] {
      var before := calls[..|calls| - 1];
      if id in Run(EMPTY_DB, before).jobs { LogExplainsStatus(before, id); }
      RunKeepsInv(EMPTY_DB, before);
      StepExplains(Run(EMPTY_DB, before), calls[|calls| - 1], id);
    }
  }

  /** After every call of the run the logs replay to the statuses. */
  ghost predicate AlwaysAgrees(calls: seq<Call>) {
    Agrees(Run(EMPTY_DB, calls)) && (calls != [] ==> AlwaysAgrees(calls[..|calls| - 1]))
  }

  /** No call of the run finishes, without deleting it, a job that is still waiting. */
  ghost predicate FinishesOnlyRunning(calls: seq<Call>) {
    calls != [] ==>
      FinishesOnlyRunning(calls[..|calls| - 1]) &&
      SparesWaiting(Run(EMPTY_DB, calls[..|calls| - 1]), calls[|calls| - 1])
  }

  ghost predicate SparesWaiting(db: Db, call: Call) {
    forall id :: !FinishesWaiting(db, call, id)
  }

  /**
   Exactly when the event log can be trusted throughout a run: the run never
   finishes a job that is still waiting. Going from waiting straight to succeeded
   or failed is logged as a cancellation, and to aborted is not logged at all.
   */
  lemma {:induction false} LogAgreesExactly(calls: seq<Call>)
    ensures AlwaysAgrees(calls) <==> FinishesOnlyRunning(calls)
  {
    if calls != [] {
      var before, last := calls[..|calls| - 1], calls[|calls| - 1];
      var db := Run(EMPTY_DB, before);
      LogAgreesExactly(before);
      assert Inv(EMPTY_DB);
      RunKeepsInv(EMPTY_DB, before);
      if Agrees(db) {
        AgreesAfterStep(db, last);
      }
    }
  }

  lemma AgreesAfterStep(db: Db, call: Call)
    requires Inv(db) && Agrees(db)
    ensures Agrees(Step(db, call)) <==> SparesWaiting(db, call)
  {
    forall id | id in Step(db, call).jobs
      ensures Replay(Step(db, call), id) == Some(Step(db, call).jobs[id].status) <==> !FinishesWaiting(db, call, id)
    {
      StepExplains(db, call, id);
    }
    forall id | FinishesWaiting(db, call, id) ensures id in Step(db, call).jobs {
      assert RowFits(db, id);
    }
  }

  // --- attempt accounting ---

  /** How many retries of the job an abort request has turned into failures in this run. */
  ghost function AbortedRetries(calls: seq<Call>, id: nat): nat {
    if calls == [] then 0
    else
      AbortedRetries(calls[..|calls| - 1], id) +
      if AbortedRetry(Run(EMPTY_DB, calls[..|calls| - 1]), calls[|calls| - 1], id) then 1 else 0
  }

  function Begun(job: Job): int {
    job.attempts + if job.status == Doing then 1 else 0
  }

  /** The event of each move starts or retries the job exactly if the move begins a run or a retry. */
  lemma MoveBalances(call: Call, id: nat, before: Job, after: Job)
    requires Moves(call, id, before, after)
    ensures Starts(StatusEvents(before.status, after.status)) == Begun(after) - Begun(before) +
              if call.RetryCall? && call.id == id && before.status == Doing && before.abortRequested then 1 else 0
  {
    ReplayOfStatus(None, before.status, after.status);
  }

  lemma FreshBalances(db: Db, call: Call, id: nat)
    requires Inv(db) && id in Step(db, call).jobs && id !in db.jobs
    ensures db.nextJob <= id && Begun(Step(db, call).jobs[id]) == 0 && Starts(Log(Step(db, call).events, id)) == 0
  {
    Evolution(db, call, id);
  }

  lemma StepBalances(db: Db, call: Call, id: nat)
    requires Inv(db) && id in Step(db, call).jobs && id in db.jobs
    ensures Starts(Log(Step(db, call).events, id)) - Starts(Log(db.events, id)) ==
            Begun(Step(db, call).jobs[id]) - Begun(db.jobs[id]) + (if AbortedRetry(db, call, id) then 1 else 0)
  {
    Evolution(db, call, id);
    MoveBalances(call, id, db.jobs[id], Step(db, call).jobs[id]);
  }

  /** A job number that has not been drawn yet has no aborted retries. */
  lemma {:induction false} NoAbortedRetriesAhead(calls: seq<Call>, id: nat)
    requires Run(EMPTY_DB, calls).nextJob <= id
    ensures AbortedRetries(calls, id) == 0
  {
    if calls != [] {
      var before := calls[..|calls| - 1];
      var db := Run(EMPTY_DB, before);
      assert Inv(EMPTY_DB);
      RunKeepsInv(EMPTY_DB, before);
      Evolution(db, calls[|calls| - 1], id);
      forall other | other in db.jobs ensures other < db.nextJob { assert RowFits(db, other); }
      NoAbortedRetriesAhead(before, id);
    }
  }

  /**
   In every run, for every live job: its attempts, plus one if it is running, plus
   its retries that an abort request turned into failures, are its started events
   plus its retried events.
   */
  lemma {:induction false} AttemptsAreAccountedFor(calls: seq<Call>, id: nat)
    requires id in Run(EMPTY_DB, calls).jobs
    ensures var db := Run(EMPTY_DB, calls);
            Starts(Log(db.events, id)) ==
            db.jobs[id].attempts + (if db.jobs[id].status == Doing then 1 else 0) + AbortedRetries(calls, id)
  {
    if calls != [] {
      var before := calls[..|calls| - 1];
      var db := Run(EMPTY_DB, before);
      assert Inv(EMPTY_DB);
      RunKeepsInv(EMPTY_DB, before);
      if id in db.jobs {
        StepBalances(db, calls[|calls| - 1], id);
        AttemptsAreAccountedFor(before, id);
      } else {
        FreshBalances(db, calls[|calls| - 1], id);
        NoAbortedRetriesAhead(before, id);
      }
    }
  }
}
