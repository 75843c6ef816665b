/**
 The tables of the job queue, the constraints PostgreSQL checks whenever a job
 row is written, and the triggers that append to the event log.

 A table is a map from primary key to row. A statement that breaks a constraint
 raises, and the transaction it runs in leaves every table as it was.
 */
module JobTables {
  import opened Options

  datatype Status = Todo | Doing | Succeeded | Failed | Cancelled | Aborting | Aborted

  datatype EventType =
    | Deferred | Started | DeferredForRetry | FailedEvent | SucceededEvent
    | CancelledEvent | AbortRequested | AbortedEvent | Scheduled(at: int) | Retried

  datatype Job = Job(
    queue: string, task: string, priority: int,
    lock: Option<string>, queueingLock: Option<string>, args: string,
    status: Status, scheduledAt: Option<int>, attempts: int,
    abortRequested: bool, worker: Option<nat>)

  datatype Event = Event(job: nat, kind: EventType)

  datatype PeriodicRow = PeriodicRow(
    task: string, periodicId: string, timestamp: Option<int>, job: Option<nat>)

  datatype Db = Db(
    jobs: map<nat, Job>, events: seq<Event>, periodic: map<nat, PeriodicRow>,
    workers: set<nat>, nextJob: nat, nextPeriodic: nat, nextWorker: nat)

  const EMPTY_DB := Db(map[], [], map[], {}, 1, 1, 1)

  /** A row of the composite type that job deferral takes; any field may be NULL. */
  datatype JobToDefer = JobToDefer(
    queue: Option<string>, task: Option<string>, priority: Option<int>,
    lock: Option<string>, queueingLock: Option<string>, args: Option<string>,
    scheduledAt: Option<int>)

  datatype Error =
    | NullValue | ValueTooLong | TodoWithAbortRequested | QueueingLockTaken | LockTaken
    | NoSuchWorker | BadEndStatus | JobNotFound

  datatype Result<T> = Done(db: Db, value: T) | Raised(error: Error)

  // --- constraints ---

  const NAME_LIMIT := 128

  /** Partial unique index on queueing_lock over the other todo rows (NULLs never clash). */
  predicate QueueingLockFree(jobs: map<nat, Job>, id: nat, lock: Option<string>) {
    lock.Some? ==>
      forall other | other in jobs && other != id && jobs[other].status == Todo ::
        jobs[other].queueingLock != lock
  }

  /** Partial unique index on lock over the other doing rows (NULLs never clash). */
  predicate LockFree(jobs: map<nat, Job>, id: nat, lock: Option<string>) {
    lock.Some? ==>
      forall other | other in jobs && other != id && jobs[other].status == Doing ::
        jobs[other].lock != lock
  }

  /** The first constraint that writing `row` under key `id` would break. */
  function Violation(db: Db, id: nat, row: Job): Option<Error> {
    if |row.queue| > NAME_LIMIT || |row.task| > NAME_LIMIT then Some(ValueTooLong)
    else if row.status == Todo && row.abortRequested then Some(TodoWithAbortRequested)
    else if row.status == Todo && !QueueingLockFree(db.jobs, id, row.queueingLock) then Some(QueueingLockTaken)
    else if row.status == Doing && !LockFree(db.jobs, id, row.lock) then Some(LockTaken)
    else if row.worker.Some? && row.worker.value !in db.workers then Some(NoSuchWorker)
    else None
  }

  // --- triggers ---

  /** The event the status trigger logs for a change of status, if any. */
  function StatusEvents(before: Status, after: Status): seq<EventType> {
    match (before, after)
    case (Todo, Doing) => [Started]
    case (Doing, Todo) => [DeferredForRetry]
    case (Doing, Failed) => [FailedEvent]
    case (Doing, Succeeded) => [SucceededEvent]
    case (Todo, Cancelled) => [CancelledEvent]
    case (Todo, Failed) => [CancelledEvent]
    case (Todo, Succeeded) => [CancelledEvent]
    case (Doing, Aborted) => [AbortedEvent]
    case (Failed, Todo) => [Retried]
    case _ => []
  }

  /** Logged on every insert or update that leaves a todo row with a schedule. */
  function ScheduledEvents(row: Job): seq<EventType> {
    if row.scheduledAt.Some? && row.status == Todo then [Scheduled(row.scheduledAt.value)] else []
  }

  /** Logged by an UPDATE that assigns abort_requested and leaves it true. */
  function AbortEvents(row: Job, assignsAbort: bool): seq<EventType> {
    if assignsAbort && row.abortRequested then [AbortRequested] else []
  }

  /** Row triggers fire in the alphabetical order of their names. */
  function UpdateEvents(before: Job, after: Job, assignsAbort: bool): seq<EventType> {
    AbortEvents(after, assignsAbort) + ScheduledEvents(after) + StatusEvents(before.status, after.status)
  }

  function Tag(id: nat, kinds: seq<EventType>): seq<Event> {
    seq(|kinds|, i requires 0 <= i < |kinds| => Event(id, kinds[i]))
  }

  // --- statements ---

  /** UPDATE of one job row. */
  function UpdateJob(db: Db, id: nat, row: Job, assignsAbort: bool): Result<()>
    requires id in db.jobs
  {
    match Violation(db, id, row)
    case Some(e) => Raised(e)
    case None =>
      Done(db.(jobs := db.jobs[id := row],
               events := db.events + Tag(id, UpdateEvents(db.jobs[id], row, assignsAbort))), ())
  }

  function NewRow(j: JobToDefer): Option<Job> {
    if j.queue.None? || j.task.None? || j.priority.None? || j.args.None? then None
    else Some(Job(j.queue.value, j.task.value, j.priority.value, j.lock, j.queueingLock,
                  j.args.value, Todo, j.scheduledAt, 0, false, None))
  }

  /** INSERT of one job row; the column defaults make it a fresh todo job. */
  function InsertJob(db: Db, j: JobToDefer): Result<nat> {
    match NewRow(j)
    case None => Raised(NullValue)
    case Some(row) =>
      match Violation(db, db.nextJob, row)
      case Some(e) => Raised(e)
      case None =>
        Done(db.(jobs := db.jobs[db.nextJob := row],
                 events := db.events + Tag(db.nextJob, ScheduledEvents(row) + [Deferred]),
                 nextJob := db.nextJob + 1), db.nextJob)
  }

  function WithoutEventsOf(events: seq<Event>, id: nat): seq<Event> {
    if events == [] then []
    else
      var kept := WithoutEventsOf(events[..|events| - 1], id);
      if events[|events| - 1].job == id then kept else kept + [events[|events| - 1]]
  }

  function Unlinked(periodic: map<nat, PeriodicRow>, id: nat): map<nat, PeriodicRow> {
    map p | p in periodic :: if periodic[p].job == Some(id) then periodic[p].(job := None) else periodic[p]
  }

  /** DELETE of one job row: its events go with it, its periodic rows are unlinked. */
  function DeleteJob(db: Db, id: nat): Db {
    db.(jobs := db.jobs - {id},
        events := WithoutEventsOf(db.events, id),
        periodic := Unlinked(db.periodic, id))
  }

  // --- the log of one job ---

  function Log(events: seq<Event>, id: nat): seq<EventType> {
    if events == [] then []
    else
      var last := events[|events| - 1];
      var before := Log(events[..|events| - 1], id);
      if last.job == id then before + [last.kind] else before
  }

  lemma {:induction false} LogConcat(a: seq<Event>, b: seq<Event>, id: nat)
    ensures Log(a + b, id) == Log(a, id) + Log(b, id)
  {
    if b == [] {
      assert a + b == a;
    } else {
      LogConcat(a, b[..|b| - 1], id);
      assert (a + b)[..|a + b| - 1] == a + b[..|b| - 1];
    }
  }

  lemma {:induction false} LogOfTag(id: nat, kinds: seq<EventType>, other: nat)
    ensures Log(Tag(id, kinds), other) == if other == id then kinds else []
  {
    if kinds != [] {
      var init := kinds[..|kinds| - 1];
      LogOfTag(id, init, other);
      assert Tag(id, kinds)[..|kinds| - 1] == Tag(id, init);
    }
  }

  /** Events tagged with one job extend that job's log and no other. */
  lemma LogAfterTag(events: seq<Event>, id: nat, kinds: seq<EventType>, other: nat)
    ensures Log(events + Tag(id, kinds), other)
         == if other == id then Log(events, other) + kinds else Log(events, other)
  {
    LogConcat(events, Tag(id, kinds), other);
    LogOfTag(id, kinds, other);
  }

  /** Cascading deletion empties the log of the deleted job and of no other. */
  lemma {:induction false} LogAfterDelete(events: seq<Event>, id: nat, other: nat)
    ensures Log(WithoutEventsOf(events, id), other) == if other == id then [] else Log(events, other)
  {
    if events != [] {
      var n := |events| - 1;
      LogAfterDelete(events[..n], id, other);
      var kept := WithoutEventsOf(events[..n], id);
      LogConcat(kept, [events[n]], other);
      assert Log([events[n]], other) == if events[n].job == other then [events[n].kind] else [] by {
        assert [events[n]][..0] == [];
      }
    }
  }

  /** Only events that were there survive a deletion, and none of the deleted job. */
  lemma {:induction false} DeleteKeepsEvents(events: seq<Event>, id: nat)
    ensures forall e | e in WithoutEventsOf(events, id) :: e in events && e.job != id
  {
    if events != [] {
      DeleteKeepsEvents(events[..|events| - 1], id);
    }
  }
}
