/**
 What each SQL function of the job queue does to the tables, as a function from
 the tables before to the tables after or an error.
 */
module JobFunctions {
  import opened Options
  import opened JobTables

  // --- procrastinate_defer_jobs_v1 ---

  function InsertAll(db: Db, jobs: seq<JobToDefer>): Result<seq<nat>>
    decreases |jobs|
  {
    if jobs == [] then Done(db, [])
    else
      match InsertJob(db, jobs[0])
      case Raised(e) => Raised(e)
      case Done(db1, id) =>
        match InsertAll(db1, jobs[1..])
        case Raised(e) => Raised(e)
        case Done(db2, ids) => Done(db2, [id] + ids)
  }

  /** array_agg over no rows is NULL, hence the absent result for an empty batch. */
  function DeferJobs(db: Db, jobs: seq<JobToDefer>): Result<Option<seq<nat>>> {
    match InsertAll(db, jobs)
    case Raised(e) => Raised(e)
    case Done(db1, ids) => Done(db1, if ids == [] then None else Some(ids))
  }

  // --- procrastinate_defer_periodic_job_v2 ---

  predicate RowAt(periodic: map<nat, PeriodicRow>, p: nat, task: string, periodicId: string, timestamp: Option<int>) {
    p in periodic && periodic[p].task == task && periodic[p].periodicId == periodicId && periodic[p].timestamp == timestamp
  }

  /** Whether the unique constraint already holds a row for this key (NULL timestamps never clash). */
  predicate PeriodicTaken(periodic: map<nat, PeriodicRow>, task: string, periodicId: string, timestamp: Option<int>) {
    timestamp.Some? && exists p: nat | p in periodic :: RowAt(periodic, p, task, periodicId, timestamp)
  }

  predicate Older(row: PeriodicRow, task: string, periodicId: string, timestamp: Option<int>) {
    row.task == task && row.periodicId == periodicId &&
    row.timestamp.Some? && timestamp.Some? && row.timestamp.value < timestamp.value
  }

  /** DELETE of the older rows of a key; rows that its snapshot did not see yet stay. */
  function WithoutOlder(periodic: map<nat, PeriodicRow>, task: string, periodicId: string, timestamp: Option<int>, unseen: set<nat>)
    : map<nat, PeriodicRow>
  {
    map p | p in periodic && (p in unseen || !Older(periodic[p], task, periodicId, timestamp)) :: periodic[p]
  }

  /**
   Insertion waits for overlapping transactions with the same key and timestamp, but
   the rows of those with other timestamps may be missed by the deletion.
   */
  function DeferPeriodic(db: Db, job: JobToDefer, periodicId: Option<string>, timestamp: Option<int>, unseen: set<nat>)
    : Result<Option<nat>>
  {
    if job.task.None? || periodicId.None? then Raised(NullValue)
    else if |job.task.value| > NAME_LIMIT || |periodicId.value| > NAME_LIMIT then Raised(ValueTooLong)
    else if PeriodicTaken(db.periodic, job.task.value, periodicId.value, timestamp) then Done(db, None)
    else
      match InsertJob(db, job.(scheduledAt := None))
      case Raised(e) => Raised(e)
      case Done(db1, id) =>
        var kept := WithoutOlder(db.periodic, job.task.value, periodicId.value, timestamp, unseen);
        var row := PeriodicRow(job.task.value, periodicId.value, timestamp, Some(id));
        Done(db1.(periodic := kept[db.nextPeriodic := row], nextPeriodic := db.nextPeriodic + 1), Some(id))
  }

  // --- procrastinate_fetch_job_v2 ---

  /** ORDER BY priority DESC, id ASC. */
  predicate Outranks(jobs: map<nat, Job>, a: nat, b: nat)
    requires a in jobs && b in jobs
  {
    jobs[a].priority > jobs[b].priority || (jobs[a].priority == jobs[b].priority && a < b)
  }

  /** A job with the same lock is running, or is waiting ahead of this one. */
  predicate Blocked(jobs: map<nat, Job>, id: nat)
    requires id in jobs
  {
    jobs[id].lock.Some? &&
    exists other | other in jobs ::
      jobs[other].lock == jobs[id].lock &&
      (jobs[other].status == Doing || (jobs[other].status == Todo && Outranks(jobs, other, id)))
  }

  predicate Due(job: Job, queues: Option<seq<string>>, now: int) {
    job.status == Todo &&
    (queues.None? || job.queue in queues.value) &&
    (job.scheduledAt.None? || job.scheduledAt.value <= now)
  }

  predicate Eligible(jobs: map<nat, Job>, id: nat, queues: Option<seq<string>>, now: int) {
    id in jobs && Due(jobs[id], queues, now) && !Blocked(jobs, id)
  }

  /** The first eligible job in fetch order. */
  predicate IsNext(jobs: map<nat, Job>, id: nat, queues: Option<seq<string>>, now: int) {
    Eligible(jobs, id, queues, now) &&
    forall other | other in jobs && other != id && Eligible(jobs, other, queues, now) :: Outranks(jobs, id, other)
  }

  function StartJob(db: Db, id: nat, worker: Option<nat>): Result<Option<nat>>
    requires id in db.jobs
  {
    match UpdateJob(db, id, db.jobs[id].(status := Doing, worker := worker), false)
    case Raised(e) => Raised(e)
    case Done(db1, _) => Done(db1, Some(id))
  }

  ghost function NextJob(jobs: map<nat, Job>, queues: Option<seq<string>>, now: int): (next: Option<nat>)
    ensures next.Some? ==> IsNext(jobs, next.value, queues, now)
    ensures next.None? ==> forall id :: !IsNext(jobs, id, queues, now)
  {
    if exists id :: IsNext(jobs, id, queues, now) then
      var id :| IsNext(jobs, id, queues, now);
      Some(id)
    else None
  }

  /** A fetch that runs alone: its snapshot is the current table. */
  ghost function Fetch(db: Db, queues: Option<seq<string>>, worker: Option<nat>, now: int): Result<Option<nat>> {
    match NextJob(db.jobs, queues, now)
    case None => Done(db, None)
    case Some(id) => StartJob(db, id, worker)
  }

  /**
   A fetch whose guard was evaluated on an older snapshot. SKIP LOCKED may pass
   over rows other fetches hold, so any eligible row can be the chosen one. Once
   the row is locked only its own columns are read again; the rest of the guard
   is not. The unique index is checked on the current table.
   */
  function StaleFetch(db: Db, snapshot: map<nat, Job>, chosen: nat,
                      queues: Option<seq<string>>, worker: Option<nat>, now: int): Result<Option<nat>> {
    if Eligible(snapshot, chosen, queues, now) && chosen in db.jobs && Due(db.jobs[chosen], queues, now)
    then StartJob(db, chosen, worker)
    else Done(db, None)
  }

  // --- procrastinate_finish_job_v1 ---

  predicate Unfinished(db: Db, id: nat) {
    id in db.jobs && (db.jobs[id].status == Todo || db.jobs[id].status == Doing)
  }

  /** The right-hand sides read the row as it was: only a running job counts another attempt. */
  function FinishedRow(job: Job, endStatus: Status): Job {
    job.(status := endStatus, abortRequested := false,
         attempts := if job.status == Doing then job.attempts + 1 else job.attempts)
  }

  function Finish(db: Db, id: nat, endStatus: Status, deleteJob: bool): Result<()> {
    if endStatus != Succeeded && endStatus != Failed && endStatus != Aborted then Raised(BadEndStatus)
    else if !Unfinished(db, id) then Raised(JobNotFound)
    else if deleteJob then Done(DeleteJob(db, id), ())
    else
      UpdateJob(db, id, FinishedRow(db.jobs[id], endStatus), true)
  }

  // --- procrastinate_cancel_job_v1 ---

  function AbortRow(job: Job): Job {
    job.(abortRequested := true, status := if job.status == Todo then Cancelled else job.status)
  }

  function Cancel(db: Db, id: nat, abort: bool, deleteJob: bool): Result<Option<nat>> {
    if id !in db.jobs then Done(db, None)
    else
      var job := db.jobs[id];
      if deleteJob && job.status == Todo then Done(DeleteJob(db, id), Some(id))
      else if abort && (job.status == Todo || job.status == Doing) then
        match UpdateJob(db, id, AbortRow(job), true)
        case Raised(e) => Raised(e)
        case Done(db1, _) => Done(db1, Some(id))
      else if !abort && job.status == Todo then
        match UpdateJob(db, id, job.(status := Cancelled), false)
        case Raised(e) => Raised(e)
        case Done(db1, _) => Done(db1, Some(id))
      else Done(db, None)
  }

  // --- procrastinate_retry_job_v1 and _v2 ---

  datatype RetryArgs = RetryArgs(at: Option<int>, priority: Option<int>, queue: Option<string>, lock: Option<string>)

  function Requeued(job: Job, args: RetryArgs): Job {
    job.(status := Todo, attempts := job.attempts + 1, scheduledAt := args.at,
         priority := Coalesce(args.priority, job.priority),
         queue := Coalesce(args.queue, job.queue),
         lock := if args.lock.Some? then args.lock else job.lock)
  }

  /** v1 retries a doing job; v2 also accepts a failed one. */
  predicate Retriable(db: Db, id: nat, failedToo: bool) {
    id in db.jobs && (db.jobs[id].status == Doing || (failedToo && db.jobs[id].status == Failed))
  }

  function Retry(db: Db, id: nat, args: RetryArgs, failedToo: bool): Result<()> {
    if !Retriable(db, id, failedToo) then Raised(JobNotFound)
    else if db.jobs[id].status == Doing && db.jobs[id].abortRequested then
      UpdateJob(db, id, db.jobs[id].(status := Failed), false)
    else UpdateJob(db, id, Requeued(db.jobs[id], args), false)
  }

  // --- workers ---

  function RegisterWorker(db: Db): Result<nat> {
    Done(db.(workers := db.workers + {db.nextWorker}, nextWorker := db.nextWorker + 1), db.nextWorker)
  }

  /** Scheduled events logged because ON DELETE SET NULL updates the worker's rows; jobs below `n`. */
  function RescheduledEvents(jobs: map<nat, Job>, worker: nat, n: nat): seq<Event> {
    if n == 0 then []
    else
      var before := RescheduledEvents(jobs, worker, n - 1);
      if n - 1 in jobs && jobs[n - 1].worker == Some(worker) then before + Tag(n - 1, ScheduledEvents(jobs[n - 1]))
      else before
  }

  function Orphaned(jobs: map<nat, Job>, worker: nat): map<nat, Job> {
    map id | id in jobs :: if jobs[id].worker == Some(worker) then jobs[id].(worker := None) else jobs[id]
  }

  function UnregisterWorker(db: Db, worker: nat): Db {
    if worker !in db.workers then db
    else db.(workers := db.workers - {worker},
             jobs := Orphaned(db.jobs, worker),
             events := db.events + RescheduledEvents(db.jobs, worker, db.nextJob))
  }

  // --- runs ---

  datatype Call =
    | DeferJobsCall(jobs: seq<JobToDefer>)
    | DeferPeriodicCall(job: JobToDefer, periodicId: Option<string>, timestamp: Option<int>, unseen: set<nat>)
    | FetchCall(queues: Option<seq<string>>, worker: Option<nat>, now: int)
    | StaleFetchCall(snapshot: map<nat, Job>, chosen: nat, queues: Option<seq<string>>, worker: Option<nat>, now: int)
    | FinishCall(id: nat, endStatus: Status, deleteJob: bool)
    | CancelCall(id: nat, abort: bool, deleteJob: bool)
    | RetryCall(id: nat, args: RetryArgs, failedToo: bool)
    | RegisterCall
    | UnregisterCall(gone: nat)
    | SequenceGap(jobIds: nat, periodicIds: nat, workerIds: nat) // numbers drawn by statements that then raised

  function After<T>(db: Db, r: Result<T>): Db {
    if r.Done? then r.db else db
  }

  /** The committed tables after one call; a call that raises is rolled back. */
  ghost function Step(db: Db, call: Call): Db {
    match call
    case DeferJobsCall(jobs) => After(db, DeferJobs(db, jobs))
    case DeferPeriodicCall(job, pid, ts, unseen) => After(db, DeferPeriodic(db, job, pid, ts, unseen))
    case FetchCall(queues, worker, now) => After(db, Fetch(db, queues, worker, now))
    case StaleFetchCall(snapshot, chosen, queues, worker, now) =>
      After(db, StaleFetch(db, snapshot, chosen, queues, worker, now))
    case FinishCall(id, endStatus, deleteJob) => After(db, Finish(db, id, endStatus, deleteJob))
    case CancelCall(id, abort, deleteJob) => After(db, Cancel(db, id, abort, deleteJob))
    case RetryCall(id, args, failedToo) => After(db, Retry(db, id, args, failedToo))
    case RegisterCall => After(db, RegisterWorker(db))
    case UnregisterCall(worker) => UnregisterWorker(db, worker)
    case SequenceGap(j, p, w) =>
      db.(nextJob := db.nextJob + j, nextPeriodic := db.nextPeriodic + p, nextWorker := db.nextWorker + w)
  }

  /** The tables after a run of calls in commit order. */
  ghost function Run(db: Db, calls: seq<Call>): Db {
    if calls == [] then db
    else Step(Run(db, calls[..|calls| - 1]), calls[|calls| - 1])
  }
}
