/**
 The job queue as the database runs it: tables updated in place, one method per
 SQL function, each statement in the order of the function's body. A function that
 raises leaves the tables as they were when it was called.
 */
module JobQueue {
  import opened Options
  import opened JobTables
  import opened JobFunctions
  import opened JobRuns
  import opened JobFetch

  /** The call did what `spec` says: its new tables and value, or its error and the old tables. */
  ghost predicate Conforms<T(!new)>(spec: Result<T>, before: Db, after: Db, error: Option<Error>) {
    match spec
    case Done(db, _) => after == db && error == None
    case Raised(e) => after == before && error == Some(e)
  }

  /** The periodic row before its job exists. */
  function Drafted(db: Db, row: PeriodicRow): Db {
    db.(periodic := db.periodic[db.nextPeriodic := row], nextPeriodic := db.nextPeriodic + 1)
  }

  /** The row with its job, without the older rows of its key. */
  function Linked(db: Db, p: nat, row: PeriodicRow): Db {
    db.(periodic := WithoutOlder(db.periodic[p := row], row.task, row.periodicId, row.timestamp, {}))
  }

  class Queue {
    var jobs: map<nat, Job>
    var events: seq<Event>
    var periodic: map<nat, PeriodicRow>
    var workers: set<nat>
    var nextJob: nat
    var nextPeriodic: nat
    var nextWorker: nat

    function State(): Db
      reads this
    {
      Db(jobs, events, periodic, workers, nextJob, nextPeriodic, nextWorker)
    }

    /** The constraints of the tables hold. */
    ghost predicate Valid()
      reads this
    {
      Inv(State())
    }

    constructor ()
      ensures State() == EMPTY_DB && Valid()
    {
      jobs, events, periodic, workers := map[], [], map[], {};
      nextJob, nextPeriodic, nextWorker := 1, 1, 1;
    }

    method Restore(saved: Db)
      requires Inv(saved)
      modifies this
      ensures State() == saved && Valid()
    {
      jobs, events, periodic, workers := saved.jobs, saved.events, saved.periodic, saved.workers;
      nextJob, nextPeriodic, nextWorker := saved.nextJob, saved.nextPeriodic, saved.nextWorker;
    }

    // --- statements on one job row, with constraints and triggers ---

    method WriteRow(id: nat, row: Job, assignsAbort: bool) returns (error: Option<Error>)
      requires Valid() && id in jobs
      modifies this
      ensures Valid()
      ensures Conforms(UpdateJob(old(State()), id, row, assignsAbort), old(State()), State(), error)
    {
      UpdateKeepsInv(State(), id, row, assignsAbort);
      error := Violation(State(), id, row);
      if error == None {
        events := events + Tag(id, UpdateEvents(jobs[id], row, assignsAbort));
        jobs := jobs[id := row];
      }
    }

    method InsertRow(j: JobToDefer) returns (id: nat, error: Option<Error>)
      requires Valid()
      modifies this
      ensures Valid()
      ensures Conforms(InsertJob(old(State()), j), old(State()), State(), error)
      ensures error == None ==> id == InsertJob(old(State()), j).value
    {
      InsertKeepsInv(State(), j);
      id := nextJob;
      var row := NewRow(j);
      if row == None {
        error := Some(NullValue);
        return;
      }
      error := Violation(State(), id, row.value);
      if error == None {
        jobs := jobs[id := row.value];
        events := events + Tag(id, ScheduledEvents(row.value) + [Deferred]);
        nextJob := nextJob + 1;
      }
    }

    method DeleteRow(id: nat)
      requires Valid()
      modifies this
      ensures Valid()
      ensures State() == JobTables.DeleteJob(old(State()), id)
    {
      DeleteKeepsInv(State(), id);
      periodic := Unlinked(periodic, id);
      events := WithoutEventsOf(events, id);
      jobs := jobs - {id};
    }

    // --- the SQL functions ---

    method DeferJobs(batch: seq<JobToDefer>) returns (ids: Option<seq<nat>>, error: Option<Error>)
      requires Valid()
      modifies this
      ensures Valid() && State() == Step(old(State()), DeferJobsCall(batch))
      ensures error == None <==> BatchFits(old(State()), batch)
      ensures Conforms(JobFunctions.DeferJobs(old(State()), batch), old(State()), State(), error)
      ensures error == None ==> ids == JobFunctions.DeferJobs(old(State()), batch).value
    {
      var saved := State();
      var inserted: seq<nat> := [];
      error := None;
      BatchAllOrNothing(saved, batch);
      assert batch[0..] == batch && inserted == [];
      for i := 0 to |batch|
        invariant Valid() && error == None && Continues(saved, batch, i, State(), inserted)
      {
        ContinueOne(saved, batch, i, State(), inserted);
        var id;
        id, error := InsertRow(batch[i]);
        if error != None {
          Restore(saved);
          return None, error;
        }
        inserted := inserted + [id];
      }
      ContinueEnd(saved, batch, State(), inserted);
      ids := if inserted == [] then None else Some(inserted);
    }

    /** The statements of a periodic deferral whose key has no row yet. */
    method InsertPeriodic(job: JobToDefer, task: string, pid: string, timestamp: Option<int>)
      returns (id: Option<nat>, error: Option<Error>)
      requires Valid() && job.task == Some(task) && |task| <= NAME_LIMIT && |pid| <= NAME_LIMIT
      requires !PeriodicTaken(periodic, task, pid, timestamp)
      modifies this
      ensures Valid()
      ensures Conforms(JobFunctions.DeferPeriodic(old(State()), job, Some(pid), timestamp, {}), old(State()), State(), error)
      ensures error == None ==> id == JobFunctions.DeferPeriodic(old(State()), job, Some(pid), timestamp, {}).value
    {
      var saved, deferId := State(), nextPeriodic;
      PeriodicInSteps(saved, job, task, pid, timestamp);
      DraftRow(PeriodicRow(task, pid, timestamp, None));
      var jobId;
      jobId, error := InsertRow(job.(scheduledAt := None));
      if error != None {
        Restore(saved);
        return None, error;
      }
      LinkRow(deferId, PeriodicRow(task, pid, timestamp, Some(jobId)));
      id := Some(jobId);
    }

    method DraftRow(row: PeriodicRow)
      requires Valid() && row.job == None && !PeriodicTaken(periodic, row.task, row.periodicId, row.timestamp)
      modifies this`periodic, this`nextPeriodic
      ensures Valid() && State() == Drafted(old(State()), row)
    {
      NullRowKeepsInv(State(), row);
      periodic := periodic[nextPeriodic := row];
      nextPeriodic := nextPeriodic + 1;
    }

    /** Links the job to its periodic row and deletes the older rows of the key. */
    method LinkRow(p: nat, row: PeriodicRow)
      requires Inv(Linked(State(), p, row))
      modifies this`periodic
      ensures Valid() && State() == Linked(old(State()), p, row)
    {
      periodic := periodic[p := row];
      periodic := WithoutOlder(periodic, row.task, row.periodicId, row.timestamp, {});
    }

    method DeferPeriodic(job: JobToDefer, periodicId: Option<string>, timestamp: Option<int>)
      returns (id: Option<nat>, error: Option<Error>)
      requires Valid()
      modifies this
      ensures Valid() && State() == Step(old(State()), DeferPeriodicCall(job, periodicId, timestamp, {}))
      ensures Conforms(JobFunctions.DeferPeriodic(old(State()), job, periodicId, timestamp, {}), old(State()), State(), error)
      ensures error == None ==> id == JobFunctions.DeferPeriodic(old(State()), job, periodicId, timestamp, {}).value
    {
      if job.task == None || periodicId == None {
        return None, Some(NullValue);
      }
      if |job.task.value| > NAME_LIMIT || |periodicId.value| > NAME_LIMIT {
        return None, Some(ValueTooLong);
      }
      if PeriodicTaken(periodic, job.task.value, periodicId.value, timestamp) {
        return None, None;
      }
      id, error := InsertPeriodic(job, job.task.value, periodicId.value, timestamp);
    }

    method FetchJob(queues: Option<seq<string>>, worker: Option<nat>, now: int)
      returns (found: Option<nat>, error: Option<Error>)
      requires Valid()
      modifies this
      ensures Valid() && State() == Step(old(State()), FetchCall(queues, worker, now))
      ensures error.Some? ==> error.value == NoSuchWorker
      ensures found == None && error == None <==> forall id :: !MayStart(old(jobs), id, queues, now)
      ensures found.Some? ==>
                MayStart(old(jobs), found.value, queues, now) &&
                forall other | other != found.value && MayStart(old(jobs), other, queues, now) ::
                  ComesFirst(old(jobs), found.value, other)
      ensures Conforms(Fetch(old(State()), queues, worker, now), old(State()), State(), error)
      ensures error == None ==> found == Fetch(old(State()), queues, worker, now).value
    {
      found, error := None, None;
      var candidates := set id | id in jobs && Eligible(jobs, id, queues, now);
      assert forall id :: Eligible(jobs, id, queues, now) <==> id in candidates;
      forall id ensures Eligible(jobs, id, queues, now) <==> MayStart(jobs, id, queues, now) {
        EligibleInColumns(jobs, id, queues, now);
      }
      if candidates == {} {
        EligibleMeansNext(jobs, queues, now);
        return;
      }
      ghost var first := FirstExists(jobs, candidates);
      assert IsNext(jobs, first, queues, now);
      var id :| id in candidates && IsNext(jobs, id, queues, now);
      FetchStarts(State(), id, queues, worker, now);
      error := WriteRow(id, jobs[id].(status := Doing, worker := worker), false);
      found := if error == None then Some(id) else None;
    }

    /** DELETE of the row if it waits or, where `runningToo`, if it runs. */
    method DeleteIf(id: nat, runningToo: bool) returns (found: bool)
      requires Valid()
      modifies this
      ensures Valid()
      ensures found <==> id in old(jobs) && (old(jobs)[id].status == Todo || (runningToo && old(jobs)[id].status == Doing))
      ensures State() == if found then JobTables.DeleteJob(old(State()), id) else old(State())
    {
      found := id in jobs && (jobs[id].status == Todo || (runningToo && jobs[id].status == Doing));
      if found {
        DeleteRow(id);
      }
    }

    /** UPDATE of the row to its end status, if it is unfinished. */
    method EndUnfinished(id: nat, endStatus: Status) returns (found: bool, error: Option<Error>)
      requires Valid()
      modifies this
      ensures Valid()
      ensures found <==> Unfinished(old(State()), id)
      ensures found ==>
                Conforms(UpdateJob(old(State()), id, FinishedRow(old(jobs)[id], endStatus), true), old(State()), State(), error)
      ensures !found ==> State() == old(State()) && error == None
    {
      found := id in jobs && jobs[id].status in {Todo, Doing};
      error := None;
      if found {
        var row := jobs[id];
        error := WriteRow(id, row.(status := endStatus, abortRequested := false,
          attempts := if row.status == Doing then row.attempts + 1 else row.attempts), true);
      }
    }

    method FinishJob(id: nat, endStatus: Status, deleteJob: bool) returns (error: Option<Error>)
      requires Valid()
      modifies this
      ensures Valid() && State() == Step(old(State()), FinishCall(id, endStatus, deleteJob))
      ensures endStatus in {Succeeded, Failed, Aborted} ==> (error == None <==> Unfinished(old(State()), id))
      ensures Conforms(Finish(old(State()), id, endStatus, deleteJob), old(State()), State(), error)
    {
      if endStatus !in {Succeeded, Failed, Aborted} {
        return Some(BadEndStatus);
      }
      FinishSucceedsExactly(State(), id, endStatus, deleteJob);
      var found;
      error := None;
      if deleteJob {
        found := DeleteIf(id, true);
      } else {
        found, error := EndUnfinished(id, endStatus);
      }
      if !found {
        return Some(JobNotFound);
      }
    }

    /** UPDATE that requests the abort of an unfinished job, and cancels it if it waits. */
    method RequestAbort(id: nat) returns (found: bool, error: Option<Error>)
      requires Valid()
      modifies this
      ensures Valid()
      ensures found <==> Unfinished(old(State()), id)
      ensures found ==> Conforms(UpdateJob(old(State()), id, AbortRow(old(jobs)[id]), true), old(State()), State(), error)
      ensures !found ==> State() == old(State()) && error == None
    {
      found := id in jobs && jobs[id].status in {Todo, Doing};
      error := None;
      if found {
        error := WriteRow(id, jobs[id].(abortRequested := true,
          status := if jobs[id].status == Todo then Cancelled else jobs[id].status), true);
      }
    }

    method CancelJob(id: nat, abort: bool, deleteJob: bool) returns (found: Option<nat>, error: Option<Error>)
      requires Valid()
      modifies this
      ensures Valid() && State() == Step(old(State()), CancelCall(id, abort, deleteJob))
      ensures error == None
      ensures Conforms(Cancel(old(State()), id, abort, deleteJob), old(State()), State(), error)
      ensures error == None ==> found == Cancel(old(State()), id, abort, deleteJob).value
    {
      CancelNeverRaises(State(), id, abort, deleteJob);
      var hit := false;
      error := None;
      if deleteJob {
        hit := DeleteIf(id, false);
      }
      if !hit {
        if abort {
          hit, error := RequestAbort(id);
        } else if id in jobs && jobs[id].status == Todo {
          hit := true;
          error := WriteRow(id, jobs[id].(status := Cancelled), false);
        }
      }
      found := if hit then Some(id) else None;
    }

    method RetryJobV1(id: nat, args: RetryArgs) returns (error: Option<Error>)
      requires Valid()
      modifies this
      ensures Valid() && State() == Step(old(State()), RetryCall(id, args, false))
      ensures Conforms(Retry(old(State()), id, args, false), old(State()), State(), error)
    {
      if id !in jobs || jobs[id].status != Doing {
        return Some(JobNotFound);
      }
      if jobs[id].abortRequested {
        error := WriteRow(id, jobs[id].(status := Failed), false);
      } else {
        error := WriteRow(id, Requeued(jobs[id], args), false);
      }
    }

    method RetryJobV2(id: nat, args: RetryArgs) returns (error: Option<Error>)
      requires Valid()
      modifies this
      ensures Valid() && State() == Step(old(State()), RetryCall(id, args, true))
      ensures Conforms(Retry(old(State()), id, args, true), old(State()), State(), error)
    {
      if id !in jobs || jobs[id].status !in {Doing, Failed} {
        return Some(JobNotFound);
      }
      if jobs[id].status == Doing && jobs[id].abortRequested {
        error := WriteRow(id, jobs[id].(status := Failed), false);
      } else {
        error := WriteRow(id, Requeued(jobs[id], args), false);
      }
    }

    method Register() returns (worker: nat)
      requires Valid()
      modifies this
      ensures Valid() && State() == Step(old(State()), RegisterCall)
      ensures worker !in old(workers)
      ensures RegisterWorker(old(State())) == Done(State(), worker)
    {
      RegisterKeepsInv(State());
      worker := nextWorker;
      workers := workers + {worker};
      nextWorker := nextWorker + 1;
    }

    method Unregister(worker: nat)
      requires Valid()
      modifies this
      ensures Valid() && State() == Step(old(State()), UnregisterCall(worker))
      ensures State() == UnregisterWorker(old(State()), worker)
    {
      UnregisterKeepsInv(State(), worker);
      if worker in workers {
        workers := workers - {worker};
        events := events + RescheduledEvents(jobs, worker, nextJob);
        jobs := Orphaned(jobs, worker);
      }
    }
  }

  /** Inserting the rest of the batch now ends as inserting all of it did from the start. */
  ghost predicate Continues(saved: Db, batch: seq<JobToDefer>, i: nat, now: Db, inserted: seq<nat>) {
    i <= |batch| &&
    var rest := InsertAll(now, batch[i..]);
    match InsertAll(saved, batch)
    case Done(db, all) => rest.Done? && rest.db == db && all == inserted + rest.value
    case Raised(e) => rest == Raised(e)
  }

  lemma ContinueOne(saved: Db, batch: seq<JobToDefer>, i: nat, now: Db, inserted: seq<nat>)
    requires i < |batch| && Continues(saved, batch, i, now, inserted)
    ensures match InsertJob(now, batch[i])
            case Raised(e) => InsertAll(saved, batch) == Raised(e)
            case Done(db1, id) => Continues(saved, batch, i + 1, db1, inserted + [id])
  {
    assert batch[i..][0] == batch[i] && batch[i..][1..] == batch[i + 1..];
    match InsertJob(now, batch[i])
    case Raised(_) =>
    case Done(db1, id) =>
      var rest := InsertAll(db1, batch[i + 1..]);
      if rest.Done? { assert inserted + ([id] + rest.value) == (inserted + [id]) + rest.value; }
  }

  lemma ContinueEnd(saved: Db, batch: seq<JobToDefer>, now: Db, inserted: seq<nat>)
    requires Continues(saved, batch, |batch|, now, inserted)
    ensures InsertAll(saved, batch) == Done(now, inserted)
  {
    assert batch[|batch|..] == [] && inserted + [] == inserted;
  }

  /** A fetch starts the job that is next, and can fail only for its worker. */
  lemma FetchStarts(db: Db, id: nat, queues: Option<seq<string>>, worker: Option<nat>, now: int)
    requires Inv(db) && IsNext(db.jobs, id, queues, now)
    ensures Fetch(db, queues, worker, now) == StartJob(db, id, worker)
    ensures StartJob(db, id, worker).Raised? ==> StartJob(db, id, worker).error == NoSuchWorker
  {
    FetchTakesFirstEligible(db, queues, worker, now);
    NextIsUnique(db.jobs, id, NextJob(db.jobs, queues, now).value, queues, now);
  }

  /** At most one job is next. */
  lemma NextIsUnique(jobs: map<nat, Job>, a: nat, b: nat, queues: Option<seq<string>>, now: int)
    requires IsNext(jobs, a, queues, now) && IsNext(jobs, b, queues, now)
    ensures a == b
  {
  }

  /** The periodic deferral from the table that has the row without its job. */
  lemma PeriodicInSteps(db: Db, job: JobToDefer, task: string, pid: string, timestamp: Option<int>)
    requires Inv(db) && job.task == Some(task) && |task| <= NAME_LIMIT && |pid| <= NAME_LIMIT
    requires !PeriodicTaken(db.periodic, task, pid, timestamp)
    ensures var row := PeriodicRow(task, pid, timestamp, None);
            var r := JobFunctions.DeferPeriodic(db, job, Some(pid), timestamp, {});
            Inv(After(db, r)) &&
            match InsertJob(Drafted(db, row), job.(scheduledAt := None))
            case Raised(e) => r == Raised(e)
            case Done(db1, id) =>
              r == Done(Linked(db1, db.nextPeriodic, row.(job := Some(id))), Some(id))
  {
    var row := PeriodicRow(task, pid, timestamp, None);
    var rows := db.periodic[db.nextPeriodic := row];
    PeriodicKeepsInv(db, job, Some(pid), timestamp, {});
    InsertIgnoresPeriodic(db, job.(scheduledAt := None), rows, db.nextPeriodic + 1);
    var linked := row.(job := Some(db.nextJob));
    assert rows[db.nextPeriodic := linked] == db.periodic[db.nextPeriodic := linked];
    OlderExceptNew(db.periodic, db.nextPeriodic, linked);
  }

  /** Inserting a job neither reads nor writes the periodic rows. */
  lemma InsertIgnoresPeriodic(db: Db, j: JobToDefer, periodic: map<nat, PeriodicRow>, next: nat)
    ensures InsertJob(db.(periodic := periodic, nextPeriodic := next), j) ==
            match InsertJob(db, j)
            case Raised(e) => Raised(e)
            case Done(db1, id) => Done(db1.(periodic := periodic, nextPeriodic := next), id)
  {
  }

  /** Deleting the older rows after the new one is in place spares the new one. */
  lemma OlderExceptNew(periodic: map<nat, PeriodicRow>, p: nat, row: PeriodicRow)
    ensures WithoutOlder(periodic[p := row], row.task, row.periodicId, row.timestamp, {})
         == WithoutOlder(periodic, row.task, row.periodicId, row.timestamp, {})[p := row]
  {
  }
}
