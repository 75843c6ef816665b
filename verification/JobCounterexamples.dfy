/**
 Runs from the empty tables in which a claim one might make about the queue fails.
 */
module JobCounterexamples {
  import opened Options
  import opened JobTables
  import opened JobFunctions
  import opened JobRuns
  import opened JobFetch
  import opened JobEventLog

  function Locked(priority: int): JobToDefer {
    JobToDefer(Some("q"), Some("t"), Some(priority), Some("l"), None, Some("{}"), None)
  }

  function Waiting(priority: int): Job {
    Job("q", "t", priority, Some("l"), None, "{}", Todo, None, 0, false, None)
  }

  // --- building runs ---

  lemma RunOneMore(calls: seq<Call>, call: Call)
    ensures Run(EMPTY_DB, calls + [call]) == Step(Run(EMPTY_DB, calls), call)
    ensures Inv(Run(EMPTY_DB, calls)) && Inv(Run(EMPTY_DB, calls + [call]))
  {
    assert (calls + [call])[..|calls + [call]| - 1] == calls;
    assert Inv(EMPTY_DB);
    RunKeepsInv(EMPTY_DB, calls);
    RunKeepsInv(EMPTY_DB, calls + [call]);
  }

  lemma DeferOneMore(calls: seq<Call>, priority: int)
    ensures var db, db1 := Run(EMPTY_DB, calls), Run(EMPTY_DB, calls + [DeferJobsCall([Locked(priority)])]);
            Inv(db1) && db1.jobs == db.jobs[db.nextJob := Waiting(priority)] && db1.nextJob == db.nextJob + 1
  {
    RunOneMore(calls, DeferJobsCall([Locked(priority)]));
    var db, j := Run(EMPTY_DB, calls), Locked(priority);
    assert [j][1..] == [];
    assert InsertAll(InsertJob(db, j).db, [j][1..]) == Done(InsertJob(db, j).db, []);
  }

  /** A locked job waits. */
  const QUEUED: seq<Call> := [DeferJobsCall([Locked(0)])]

  lemma AtQueued()
    ensures var db := Run(EMPTY_DB, QUEUED); Inv(db) && db.jobs == map[1 := Waiting(0)] && db.nextJob == 2
  {
    assert [] + [DeferJobsCall([Locked(0)])] == QUEUED;
    DeferOneMore([], 0);
  }

  const FETCH := FetchCall(None, None, 0)

  /** A fetch that finds one eligible job only starts that one. */
  lemma StartOnly(db: Db, id: nat)
    requires Inv(db) && Eligible(db.jobs, id, None, 0) && db.jobs[id].worker == None
    requires forall other | other != id :: !Eligible(db.jobs, other, None, 0)
    ensures Step(db, FETCH).jobs == db.jobs[id := db.jobs[id].(status := Doing)]
  {
    FetchTakesFirstEligible(db, None, None, 0);
  }

  // --- the guard alone is not enough ---

  /** Then a more urgent job with the same lock is queued, and started. */
  const BOTH_QUEUED := QUEUED + [DeferJobsCall([Locked(1)])]
  const OVERTAKEN := BOTH_QUEUED + [FETCH]

  lemma UrgentStarts(db: Db)
    requires Inv(db) && db.jobs == map[1 := Waiting(0), 2 := Waiting(1)]
    ensures Step(db, FETCH).jobs == map[1 := Waiting(0), 2 := Waiting(1).(status := Doing)]
  {
    assert Blocked(db.jobs, 1) by { assert db.jobs[2].lock == db.jobs[1].lock; }
    StartOnly(db, 2);
  }

  lemma AtBothQueued()
    ensures var db := Run(EMPTY_DB, BOTH_QUEUED); Inv(db) && db.jobs == map[1 := Waiting(0), 2 := Waiting(1)]
  {
    AtQueued();
    DeferOneMore(QUEUED, 1);
  }

  lemma AtOvertaken()
    ensures var db := Run(EMPTY_DB, OVERTAKEN);
            Inv(db) && db.jobs == map[1 := Waiting(0), 2 := Waiting(1).(status := Doing)]
  {
    AtBothQueued();
    UrgentStarts(Run(EMPTY_DB, BOTH_QUEUED));
    RunOneMore(BOTH_QUEUED, FETCH);
  }

  /**
   The guard held, the row is as it was, and yet starting the job would let two
   jobs with one lock run: only the unique index refuses.
   */
  ghost predicate OnlyIndexRefuses(db: Db, snapshot: map<nat, Job>, chosen: nat) {
    Eligible(snapshot, chosen, None, 0) && chosen in db.jobs && db.jobs[chosen] == snapshot[chosen] &&
    StaleFetch(db, snapshot, chosen, None, None, 0) == Raised(LockTaken) &&
    !LocksExclusive(db.jobs[chosen := db.jobs[chosen].(status := Doing)])
  }

  lemma StaleChoiceRefused(db: Db)
    requires Inv(db) && db.jobs == map[1 := Waiting(0), 2 := Waiting(1).(status := Doing)]
    ensures OnlyIndexRefuses(db, map[1 := Waiting(0)], 1)
  {
    assert Eligible(map[1 := Waiting(0)], 1, None, 0);
    assert db.jobs[2].status == Doing && db.jobs[2].lock == db.jobs[1].lock;
    StaleFetchRefusedExactly(db, map[1 := Waiting(0)], 1, None, None, 0);
    var clash := db.jobs[1 := db.jobs[1].(status := Doing)];
    assert clash[1].lock == clash[2].lock;
  }

  /**
   A job is queued, a worker takes its snapshot, an urgent job with the same lock
   is queued and started, and then the first worker goes on with the job it chose.
   */
  lemma GuardAloneAllowsTwo()
    ensures OnlyIndexRefuses(Run(EMPTY_DB, OVERTAKEN), Run(EMPTY_DB, QUEUED).jobs, 1)
  {
    AtQueued();
    AtOvertaken();
    StaleChoiceRefused(Run(EMPTY_DB, OVERTAKEN));
  }

  // --- the log can disagree with the status ---

  lemma FinishOfWaiting(db: Db, id: nat, endStatus: Status)
    requires Inv(db) && id in db.jobs && db.jobs[id].status == Todo && endStatus in {Succeeded, Failed, Aborted}
    requires Explains(Replay(db, id), Todo)
    ensures var db1 := Step(db, FinishCall(id, endStatus, false));
            id in db1.jobs && db1.jobs[id].status == endStatus &&
            Replay(db1, id) == Some(if endStatus == Aborted then Todo else Cancelled)
  {
    FinishSucceedsExactly(db, id, endStatus, false);
    Evolution(db, FinishCall(id, endStatus, false), id);
    ReplayOfStatus(Replay(db, id), Todo, endStatus);
  }

  /**
   A job deferred and then finished while it waits: its log replays to cancelled, or
   to waiting still if it was finished as aborted.
   */
  lemma FinishedWhileWaiting(endStatus: Status)
    requires endStatus in {Succeeded, Failed, Aborted}
    ensures var calls := QUEUED + [FinishCall(1, endStatus, false)]; var db := Run(EMPTY_DB, calls);
            !AlwaysAgrees(calls) && 1 in db.jobs && db.jobs[1].status == endStatus &&
            Replay(db, 1) == Some(if endStatus == Aborted then Todo else Cancelled)
  {
    AtQueued();
    LogExplainsStatus(QUEUED, 1);
    FinishOfWaiting(Run(EMPTY_DB, QUEUED), 1, endStatus);
    RunOneMore(QUEUED, FinishCall(1, endStatus, false));
  }

  // --- a failed job that cannot be retried ---

  const KEEP := RetryArgs(None, None, None, None)

  /** The job is started, its abort is requested, and it is retried. */
  const RUNNING := QUEUED + [FETCH]
  const ABORTING := RUNNING + [CancelCall(1, true, false)]
  const RETRIED := ABORTING + [RetryCall(1, KEEP, true)]

  lemma AtRunning()
    ensures var db := Run(EMPTY_DB, RUNNING); Inv(db) && db.jobs == map[1 := Waiting(0).(status := Doing)]
  {
    AtQueued();
    StartOnly(Run(EMPTY_DB, QUEUED), 1);
    RunOneMore(QUEUED, FETCH);
  }

  lemma AbortMarks(db: Db, id: nat)
    requires Inv(db) && id in db.jobs && db.jobs[id].status == Doing
    ensures var db1 := Step(db, CancelCall(id, true, false));
            id in db1.jobs && db1.jobs[id].status == Doing && db1.jobs[id].abortRequested
  {
    CancelOutcomes(db, id, true, false);
  }

  lemma AtAborting()
    ensures var db := Run(EMPTY_DB, ABORTING); Inv(db) && 1 in db.jobs && db.jobs[1].status == Doing && db.jobs[1].abortRequested
  {
    AtRunning();
    AbortMarks(Run(EMPTY_DB, RUNNING), 1);
    RunOneMore(RUNNING, CancelCall(1, true, false));
  }

  lemma AtRetried()
    ensures var db := Run(EMPTY_DB, RETRIED); Inv(db) && 1 in db.jobs && db.jobs[1].status == Failed && db.jobs[1].abortRequested
  {
    AtAborting();
    RetryOfRunningJob(Run(EMPTY_DB, ABORTING), 1, KEEP, true);
    RunOneMore(ABORTING, RetryCall(1, KEEP, true));
  }

  /** Now it has failed, and retrying it again is refused whatever the arguments. */
  lemma FailedJobStaysFailed(args: RetryArgs)
    ensures var db := Run(EMPTY_DB, RETRIED);
            1 in db.jobs && db.jobs[1].status == Failed && Retry(db, 1, args, true).Raised? &&
            Retry(db, 1, KEEP, true) == Raised(TodoWithAbortRequested)
  {
    AtRetried();
    var db := Run(EMPTY_DB, RETRIED);
    RetryOfFailedJob(db, 1, args);
    assert RowFits(db, 1);
  }
}
