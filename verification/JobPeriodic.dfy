/**
 Periodic deferral: how often one timestamp of a periodic task creates a job.
 */
module JobPeriodic {
  import opened Options
  import opened JobTables
  import opened JobFunctions
  import opened JobRuns

  predicate ForKey(call: Call, task: string, pid: string) {
    call.DeferPeriodicCall? && call.job.task == Some(task) && call.periodicId == Some(pid)
  }

  function Outcome(db: Db, call: Call): Result<Option<nat>>
    requires call.DeferPeriodicCall?
  {
    DeferPeriodic(db, call.job, call.periodicId, call.timestamp, call.unseen)
  }

  /** The call creates a job for this key, and the timestamp it does so for. */
  predicate Creates(db: Db, call: Call, task: string, pid: string) {
    ForKey(call, task, pid) && call.timestamp.Some? && Outcome(db, call).Done? && Outcome(db, call).value.Some?
  }

  /** The timestamps for which the run created jobs of this key, in order. */
  ghost function Created(calls: seq<Call>, task: string, pid: string): seq<int> {
    if calls == [] then []
    else
      var last := calls[|calls| - 1];
      var before := Created(calls[..|calls| - 1], task, pid);
      if Creates(Run(EMPTY_DB, calls[..|calls| - 1]), last, task, pid) then before + [last.timestamp.value] else before
  }

  predicate Row(db: Db, task: string, pid: string, t: int) {
    PeriodicTaken(db.periodic, task, pid, Some(t))
  }

  predicate NamesFit(job: JobToDefer, pid: string) {
    job.task.Some? && |job.task.value| <= NAME_LIMIT && |pid| <= NAME_LIMIT &&
    job.queue.Some? && |job.queue.value| <= NAME_LIMIT && job.priority.Some? && job.args.Some?
  }

  /**
   A periodic call with well-formed arguments has three outcomes: nothing when its
   timestamp has a row, refusal when the queueing lock is taken by a waiting job,
   and otherwise exactly one new waiting job. Only the last one changes a table.
   */
  lemma PeriodicOutcomes(db: Db, job: JobToDefer, pid: string, timestamp: Option<int>, unseen: set<nat>)
    requires Inv(db) && NamesFit(job, pid)
    ensures var r := DeferPeriodic(db, job, Some(pid), timestamp, unseen);
            if PeriodicTaken(db.periodic, job.task.value, pid, timestamp) then r == Done(db, None)
            else if !QueueingLockFree(db.jobs, db.nextJob, job.queueingLock) then r == Raised(QueueingLockTaken)
            else
              r.Done? && r.value == Some(db.nextJob) && db.nextJob !in db.jobs &&
              r.db.jobs == db.jobs[db.nextJob := NewRow(job.(scheduledAt := None)).value] &&
              r.db.periodic.Values >= {PeriodicRow(job.task.value, pid, timestamp, r.value)}
  {
    var job1 := job.(scheduledAt := None);
    InsertKeepsInv(db, job1);
    var r := DeferPeriodic(db, job, Some(pid), timestamp, unseen);
    if r.Done? && r.value.Some? {
      assert r.db.periodic[db.nextPeriodic] == PeriodicRow(job.task.value, pid, timestamp, r.value);
    }
  }

  predicate IsRow(row: PeriodicRow, task: string, pid: string, t: int) {
    row.task == task && row.periodicId == pid && row.timestamp == Some(t)
  }

  /**
   The same in columns: the timestamp's row, the queueing lock, the new job, the rows
   deleted and the row that remembers the call.
   */
  lemma PeriodicInColumns(db: Db, job: JobToDefer, pid: string, t: int, unseen: set<nat>)
    requires Inv(db) && NamesFit(job, pid)
    ensures var r := DeferPeriodic(db, job, Some(pid), Some(t), unseen); var task := job.task.value;
            if exists p :: p in db.periodic && IsRow(db.periodic[p], task, pid, t) then r == Done(db, None)
            else if exists id :: id in db.jobs && db.jobs[id].status == Todo &&
                                 job.queueingLock.Some? && db.jobs[id].queueingLock == job.queueingLock
            then r == Raised(QueueingLockTaken)
            else
              r.Done? && r.value.Some? && r.value.value !in db.jobs && r.value.value in r.db.jobs &&
              r.db.jobs == db.jobs[r.value.value := r.db.jobs[r.value.value]] &&
              r.db.jobs[r.value.value] == Job(job.queue.value, task, job.priority.value, job.lock, job.queueingLock,
                                              job.args.value, Todo, None, 0, false, None) &&
              db.nextPeriodic !in db.periodic &&
              (forall p: nat :: p in r.db.periodic <==>
                 p == db.nextPeriodic ||
                 (p in db.periodic &&
                  !(exists u :: IsRow(db.periodic[p], task, pid, u) && u < t && p !in unseen))) &&
              (forall p | p in r.db.periodic :: r.db.periodic[p] ==
                 if p == db.nextPeriodic then PeriodicRow(task, pid, Some(t), r.value) else db.periodic[p])
  {
    var job1 := job.(scheduledAt := None);
    var task := job.task.value;
    PeriodicOutcomes(db, job, pid, Some(t), unseen);
    InsertKeepsInv(db, job1);
    forall id | id in db.jobs ensures id != db.nextJob { assert RowFits(db, id); }
    forall p: nat | p in db.periodic
      ensures RowAt(db.periodic, p, task, pid, Some(t)) <==> IsRow(db.periodic[p], task, pid, t)
      ensures Older(db.periodic[p], task, pid, Some(t)) <==> exists u :: IsRow(db.periodic[p], task, pid, u) && u < t
    {
      if Older(db.periodic[p], task, pid, Some(t)) {
        assert IsRow(db.periodic[p], task, pid, db.periodic[p].timestamp.value);
      }
    }
  }

  // --- rows of a key over a run ---

  lemma UnlinkKeepsKeys(db: Db, id: nat, p: nat, task: string, pid: string, timestamp: Option<int>)
    ensures RowAt(DeleteJob(db, id).periodic, p, task, pid, timestamp) <==> RowAt(db.periodic, p, task, pid, timestamp)
  {
  }

  lemma {:induction false} InsertAllKeepsPeriodic(db: Db, jobs: seq<JobToDefer>)
    ensures After(db, InsertAll(db, jobs)).periodic == db.periodic
    decreases |jobs|
  {
    if jobs != [] && InsertJob(db, jobs[0]).Done? {
      InsertAllKeepsPeriodic(InsertJob(db, jobs[0]).db, jobs[1..]);
    }
  }

  lemma RowsAfterPeriodic(db: Db, job: JobToDefer, key: Option<string>, ts: Option<int>, unseen: set<nat>,
                          p: nat, task: string, pid: string, timestamp: Option<int>)
    requires Inv(db) && DeferPeriodic(db, job, key, ts, unseen).Done? && DeferPeriodic(db, job, key, ts, unseen).value.Some?
    ensures RowAt(DeferPeriodic(db, job, key, ts, unseen).db.periodic, p, task, pid, timestamp) <==>
              if p == db.nextPeriodic then job.task == Some(task) && key == Some(pid) && ts == timestamp
              else RowAt(db.periodic, p, task, pid, timestamp) &&
                   !(job.task == Some(task) && key == Some(pid) && ts.Some? && timestamp.Some? && timestamp.value < ts.value &&
                     p !in unseen)
  {
    InsertKeepsInv(db, job.(scheduledAt := None));
  }

  /** Only a periodic call that creates a job adds a row or removes any: it removes the older ones of its key that it sees. */
  lemma RowsAfterStep(db: Db, call: Call, p: nat, task: string, pid: string, timestamp: Option<int>)
    requires Inv(db)
    ensures var db1 := Step(db, call);
            RowAt(db1.periodic, p, task, pid, timestamp) <==>
              if call.DeferPeriodicCall? && Outcome(db, call).Done? && Outcome(db, call).value.Some? then
                if p == db.nextPeriodic then ForKey(call, task, pid) && call.timestamp == timestamp
                else RowAt(db.periodic, p, task, pid, timestamp) &&
                     !(ForKey(call, task, pid) && call.timestamp.Some? && timestamp.Some? &&
                       timestamp.value < call.timestamp.value && p !in call.unseen)
              else RowAt(db.periodic, p, task, pid, timestamp)
  {
    match call
    case DeferPeriodicCall(job, key, ts, unseen) =>
      if Outcome(db, call).Done? && Outcome(db, call).value.Some? {
        RowsAfterPeriodic(db, job, key, ts, unseen, p, task, pid, timestamp);
      }
    case DeferJobsCall(jobs) => InsertAllKeepsPeriodic(db, jobs);
    case FinishCall(id, _, _) => UnlinkKeepsKeys(db, id, p, task, pid, timestamp);
    case CancelCall(id, _, _) => UnlinkKeepsKeys(db, id, p, task, pid, timestamp);
    case _ =>
  }

  /** The call's deletion does not see the row of this timestamp. */
  predicate Misses(db: Db, call: Call, task: string, pid: string, t: int)
    requires call.DeferPeriodicCall?
  {
    exists p: nat | p in call.unseen :: RowAt(db.periodic, p, task, pid, Some(t))
  }

  lemma RowAfterStep(db: Db, call: Call, task: string, pid: string, t: int)
    requires Inv(db)
    ensures Row(Step(db, call), task, pid, t) <==>
              if Creates(db, call, task, pid) then
                t == call.timestamp.value ||
                (Row(db, task, pid, t) && (call.timestamp.value <= t || Misses(db, call, task, pid, t)))
              else Row(db, task, pid, t)
  {
    var db1 := Step(db, call);
    forall p: nat {
      RowsAfterStep(db, call, p, task, pid, Some(t));
    }
    assert db.nextPeriodic !in db.periodic;
    if Creates(db, call, task, pid) {
      if t == call.timestamp.value {
        assert RowAt(db1.periodic, db.nextPeriodic, task, pid, Some(t));
      }
      if Row(db, task, pid, t) { OneRowPerTimestamp(db, task, pid, t); }
    }
  }

  lemma OneRowPerTimestamp(db: Db, task: string, pid: string, t: int)
    requires Inv(db)
    ensures forall p: nat, q: nat | RowAt(db.periodic, p, task, pid, Some(t)) && RowAt(db.periodic, q, task, pid, Some(t)) :: p == q
  {
    forall p: nat, q: nat | RowAt(db.periodic, p, task, pid, Some(t)) && RowAt(db.periodic, q, task, pid, Some(t)) ensures p == q {
      assert SameKey(db.periodic[p], db.periodic[q]);
    }
  }

  /**
   In every run, the greatest timestamp that ever created a job of a key still has
   its row, and every row of the key stems from such a timestamp.
   */
  lemma {:induction false} GreatestRowStays(calls: seq<Call>, task: string, pid: string, t: int)
    ensures Row(Run(EMPTY_DB, calls), task, pid, t) ==> t in Created(calls, task, pid)
    ensures t in Created(calls, task, pid) && (forall u | u in Created(calls, task, pid) :: u <= t) ==>
              Row(Run(EMPTY_DB, calls), task, pid, t)
  {
    if calls != [] {
      var before, last := calls[..|calls| - 1], calls[|calls| - 1];
      GreatestRowStays(before, task, pid, t);
      assert Inv(EMPTY_DB);
      RunKeepsInv(EMPTY_DB, before);
      RowAfterStep(Run(EMPTY_DB, before), last, task, pid, t);
      if Creates(Run(EMPTY_DB, before), last, task, pid) {
        assert last.timestamp.value in Created(calls, task, pid);
      }
      assert forall u | u in Created(before, task, pid) :: u in Created(calls, task, pid);
    }
  }

  /**
   A timestamp that already created a job creates another only if a greater one
   has created a job too; so the greatest never does.
   */
  lemma RepeatNeedsGreater(calls: seq<Call>, call: Call, task: string, pid: string)
    requires Creates(Run(EMPTY_DB, calls), call, task, pid)
    requires call.timestamp.value in Created(calls, task, pid)
    ensures exists u :: u in Created(calls, task, pid) && call.timestamp.value < u
  {
    GreatestRowStays(calls, task, pid, call.timestamp.value);
  }

  /** The `k`th call of the run creates a job for this timestamp. */
  ghost predicate CreatedAt(calls: seq<Call>, k: nat, task: string, pid: string, t: int) {
    k < |calls| && Creates(Run(EMPTY_DB, calls[..k]), calls[k], task, pid) && calls[k].timestamp.value == t
  }

  /** The `j`th call creates a job for a greater timestamp, and its deletion sees the row of this one. */
  ghost predicate OvertakenAt(calls: seq<Call>, j: nat, task: string, pid: string, t: int) {
    j < |calls| && Creates(Run(EMPTY_DB, calls[..j]), calls[j], task, pid) && t < calls[j].timestamp.value &&
    !Misses(Run(EMPTY_DB, calls[..j]), calls[j], task, pid, t)
  }

  ghost function CreatingCalls(calls: seq<Call>, task: string, pid: string, t: int): set<nat> {
    set k: nat | k < |calls| && CreatedAt(calls, k, task, pid, t)
  }

  ghost function OvertakingCalls(calls: seq<Call>, task: string, pid: string, t: int): set<nat> {
    set j: nat | j < |calls| && OvertakenAt(calls, j, task, pid, t)
  }

  /** One of the first comes after all of the second. */
  ghost predicate ComesLast(first: set<nat>, second: set<nat>) {
    exists k | k in first :: forall j | j in second :: j <= k
  }

  /** The timestamp created a job, and was not overtaken since. */
  ghost predicate Standing(calls: seq<Call>, task: string, pid: string, t: int) {
    ComesLast(CreatingCalls(calls, task, pid, t), OvertakingCalls(calls, task, pid, t))
  }

  lemma ComesLastSnoc(first: set<nat>, second: set<nat>, n: nat)
    requires forall k | k in first + second :: k < n
    ensures ComesLast(first + {n}, second)
    ensures !ComesLast(first, second + {n})
  {
    assert n in first + {n} && n in second + {n};
    forall k | k in first ensures k < n {
      assert k in first + second;
    }
    forall j | j in second ensures j <= n {
      assert j in first + second;
    }
  }

  lemma CreatingAfterStep(calls: seq<Call>, task: string, pid: string, t: int)
    requires calls != []
    ensures var n := |calls| - 1;
            CreatingCalls(calls, task, pid, t) ==
            CreatingCalls(calls[..n], task, pid, t) + if CreatedAt(calls, n, task, pid, t) then {n} else {}
  {
    forall k: nat | k < |calls| - 1 ensures CreatedAt(calls, k, task, pid, t) <==> CreatedAt(calls[..|calls| - 1], k, task, pid, t) {
      assert calls[..|calls| - 1][..k] == calls[..k];
    }
  }

  lemma OvertakingAfterStep(calls: seq<Call>, task: string, pid: string, t: int)
    requires calls != []
    ensures var n := |calls| - 1;
            OvertakingCalls(calls, task, pid, t) ==
            OvertakingCalls(calls[..n], task, pid, t) + if OvertakenAt(calls, n, task, pid, t) then {n} else {}
  {
    forall k: nat | k < |calls| - 1 ensures OvertakenAt(calls, k, task, pid, t) <==> OvertakenAt(calls[..|calls| - 1], k, task, pid, t) {
      assert calls[..|calls| - 1][..k] == calls[..k];
    }
  }

  lemma StandingAfterStep(calls: seq<Call>, task: string, pid: string, t: int)
    requires calls != []
    ensures var n := |calls| - 1;
            Standing(calls, task, pid, t) <==>
              CreatedAt(calls, n, task, pid, t) || (Standing(calls[..n], task, pid, t) && !OvertakenAt(calls, n, task, pid, t))
  {
    var n := |calls| - 1;
    CreatingAfterStep(calls, task, pid, t);
    OvertakingAfterStep(calls, task, pid, t);
    ComesLastSnoc(CreatingCalls(calls[..n], task, pid, t), OvertakingCalls(calls[..n], task, pid, t), n);
  }

  /** In every run, exactly the timestamps not overtaken have a row, however the calls overlapped. */
  lemma {:induction false} RowsNotOvertaken(calls: seq<Call>, task: string, pid: string, t: int)
    ensures Row(Run(EMPTY_DB, calls), task, pid, t) <==> Standing(calls, task, pid, t)
  {
    if calls != [] {
      var n := |calls| - 1;
      RowsNotOvertaken(calls[..n], task, pid, t);
      assert Inv(EMPTY_DB);
      RunKeepsInv(EMPTY_DB, calls[..n]);
      RowAfterStep(Run(EMPTY_DB, calls[..n]), calls[n], task, pid, t);
      StandingAfterStep(calls, task, pid, t);
    }
  }

  /**
   Exactly when a well-formed call creates a job, after any run: its queueing lock is
   free, and its timestamp created none yet or was overtaken since.
   */
  lemma CreatesExactly(calls: seq<Call>, job: JobToDefer, pid: string, t: int, unseen: set<nat>)
    requires NamesFit(job, pid)
    ensures var db := Run(EMPTY_DB, calls); var task := job.task.value;
            Creates(db, DeferPeriodicCall(job, Some(pid), Some(t), unseen), task, pid) <==>
              QueueingLockFree(db.jobs, db.nextJob, job.queueingLock) && !Standing(calls, task, pid, t)
  {
    assert Inv(EMPTY_DB);
    RunKeepsInv(EMPTY_DB, calls);
    PeriodicOutcomes(Run(EMPTY_DB, calls), job, pid, Some(t), unseen);
    RowsNotOvertaken(calls, job.task.value, pid, t);
  }

  // --- calls one after the other ---

  /** Every deletion sees all rows. */
  predicate SeesAll(calls: seq<Call>) {
    forall c | c in calls && c.DeferPeriodicCall? :: c.unseen == {}
  }

  /** The timestamp created a job, and none created after its last one is greater. */
  predicate NotOvertaken(created: seq<int>, t: int) {
    exists k | 0 <= k < |created| && created[k] == t :: forall j | k < j < |created| :: created[j] <= t
  }

  lemma NotOvertakenSnoc(created: seq<int>, u: int, t: int)
    ensures NotOvertaken(created + [u], t) <==> t == u || (NotOvertaken(created, t) && u <= t)
  {
    var all := created + [u];
    assert all[|created|] == u;
    if NotOvertaken(created, t) && u <= t {
      var k :| 0 <= k < |created| && created[k] == t && forall j | k < j < |created| :: created[j] <= t;
      assert all[k] == t;
    }
    if NotOvertaken(all, t) && t != u {
      var k :| 0 <= k < |all| && all[k] == t && forall j | k < j < |all| :: all[j] <= t;
      assert created[k] == t && forall j | k < j < |created| :: created[j] == all[j];
    }
  }

  /** Then a timestamp is overtaken exactly when a greater one has created a job since. */
  lemma {:induction false} SerialStanding(calls: seq<Call>, task: string, pid: string, t: int)
    requires SeesAll(calls)
    ensures Standing(calls, task, pid, t) <==> NotOvertaken(Created(calls, task, pid), t)
  {
    if calls != [] {
      var before, last := calls[..|calls| - 1], calls[|calls| - 1];
      assert last in calls && forall c | c in before :: c in calls;
      SerialStanding(before, task, pid, t);
      StandingAfterStep(calls, task, pid, t);
      if Creates(Run(EMPTY_DB, before), last, task, pid) {
        NotOvertakenSnoc(Created(before, task, pid), last.timestamp.value, t);
      }
    }
  }

  // --- calls in order ---

  /** Calls for the key carry timestamps that never go back. */
  predicate InOrder(calls: seq<Call>, task: string, pid: string) {
    (forall i | 0 <= i < |calls| && ForKey(calls[i], task, pid) :: calls[i].timestamp.Some?) &&
    (forall i, j | 0 <= i < j < |calls| && ForKey(calls[i], task, pid) && ForKey(calls[j], task, pid) ::
       calls[i].timestamp.value <= calls[j].timestamp.value)
  }

  function Last(s: seq<int>): int
    requires s != []
  {
    s[|s| - 1]
  }

  predicate StrictlyIncreasing(s: seq<int>) {
    forall i, j | 0 <= i < j < |s| :: s[i] < s[j]
  }

  lemma {:induction false} CreatedStemFromCalls(calls: seq<Call>, task: string, pid: string, t: int)
    requires t in Created(calls, task, pid)
    ensures exists i :: 0 <= i < |calls| && ForKey(calls[i], task, pid) && calls[i].timestamp == Some(t)
  {
    var before, last := calls[..|calls| - 1], calls[|calls| - 1];
    if t in Created(before, task, pid) {
      CreatedStemFromCalls(before, task, pid, t);
      var i :| 0 <= i < |before| && ForKey(before[i], task, pid) && before[i].timestamp == Some(t);
      assert calls[i] == before[i];
    } else {
      assert ForKey(calls[|calls| - 1], task, pid) && calls[|calls| - 1].timestamp == Some(t);
    }
  }

  /** The key's rows with a timestamp are exactly the one of the last job created. */
  ghost predicate OnlyLastRow(db: Db, created: seq<int>, task: string, pid: string) {
    forall t :: Row(db, task, pid, t) <==> created != [] && t == Last(created)
  }

  /** The deletion of the last call that created a job of the key saw all rows of the key. */
  ghost predicate LastSawAll(calls: seq<Call>, task: string, pid: string) {
    calls == [] ||
    var db, last := Run(EMPTY_DB, calls[..|calls| - 1]), calls[|calls| - 1];
    if Creates(db, last, task, pid) then forall t :: !Misses(db, last, task, pid, t)
    else LastSawAll(calls[..|calls| - 1], task, pid)
  }

  /**
   When a key's calls come in order of their timestamps, no timestamp creates two
   jobs and the last one that created a job has its row, however the calls overlapped.
   */
  lemma {:induction false} InOrderOncePerTimestamp(calls: seq<Call>, task: string, pid: string)
    requires InOrder(calls, task, pid)
    ensures StrictlyIncreasing(Created(calls, task, pid))
    ensures Created(calls, task, pid) != [] ==> Row(Run(EMPTY_DB, calls), task, pid, Last(Created(calls, task, pid)))
  {
    if calls != [] {
      var before, last := calls[..|calls| - 1], calls[|calls| - 1];
      InOrderOncePerTimestamp(before, task, pid);
      if Creates(Run(EMPTY_DB, before), last, task, pid) && Created(before, task, pid) != [] {
        NextIsGreater(calls, task, pid);
      }
      LastHasRow(calls, task, pid);
    }
  }

  lemma LastHasRow(calls: seq<Call>, task: string, pid: string)
    requires StrictlyIncreasing(Created(calls, task, pid))
    ensures Created(calls, task, pid) != [] ==> Row(Run(EMPTY_DB, calls), task, pid, Last(Created(calls, task, pid)))
  {
    if Created(calls, task, pid) != [] {
      GreatestRowStays(calls, task, pid, Last(Created(calls, task, pid)));
    }
  }

  /** Then no other row of the key is left if and only if the last creating call saw them all. */
  lemma {:induction false} OnlyLastRowExactly(calls: seq<Call>, task: string, pid: string)
    requires InOrder(calls, task, pid)
    ensures OnlyLastRow(Run(EMPTY_DB, calls), Created(calls, task, pid), task, pid) <==> LastSawAll(calls, task, pid)
  {
    if calls == [] {
      assert forall t :: !Row(EMPTY_DB, task, pid, t);
    } else {
      var before, last := calls[..|calls| - 1], calls[|calls| - 1];
      var db := Run(EMPTY_DB, before);
      assert Inv(EMPTY_DB);
      RunKeepsInv(EMPTY_DB, before);
      if Creates(db, last, task, pid) {
        InOrderOncePerTimestamp(before, task, pid);
        if Created(before, task, pid) != [] { NextIsGreater(calls, task, pid); }
        CreatingLeaves(before, last, task, pid);
      } else {
        OnlyLastRowExactly(before, task, pid);
        OthersLeave(db, last, task, pid);
      }
    }
  }

  lemma OthersLeave(db: Db, call: Call, task: string, pid: string)
    requires Inv(db) && !Creates(db, call, task, pid)
    ensures forall t :: Row(Step(db, call), task, pid, t) <==> Row(db, task, pid, t)
  {
    forall t ensures Row(Step(db, call), task, pid, t) <==> Row(db, task, pid, t) {
      RowAfterStep(db, call, task, pid, t);
    }
  }

  /** After a call with a timestamp above all before it, its row is the only one exactly if it missed none. */
  lemma CreatingLeaves(before: seq<Call>, last: Call, task: string, pid: string)
    requires var db := Run(EMPTY_DB, before); var created := Created(before, task, pid);
             Inv(db) && Creates(db, last, task, pid) && StrictlyIncreasing(created) &&
             (created != [] ==> Last(created) < last.timestamp.value)
    ensures var db := Run(EMPTY_DB, before);
            Row(Step(db, last), task, pid, last.timestamp.value) &&
            ((forall t :: Row(Step(db, last), task, pid, t) <==> t == last.timestamp.value) <==>
             forall t :: !Misses(db, last, task, pid, t))
  {
    var db, u := Run(EMPTY_DB, before), last.timestamp.value;
    forall t
      ensures Row(Step(db, last), task, pid, t) <==> t == u || Misses(db, last, task, pid, t)
      ensures Misses(db, last, task, pid, t) ==> t < u
    {
      RowAfterStep(db, last, task, pid, t);
      GreatestRowStays(before, task, pid, t);
    }
  }

  /** In order, a call that creates a job has a greater timestamp than the last that did. */
  lemma NextIsGreater(calls: seq<Call>, task: string, pid: string)
    requires InOrder(calls, task, pid) && calls != []
    requires var before := calls[..|calls| - 1];
             Created(before, task, pid) != [] && Row(Run(EMPTY_DB, before), task, pid, Last(Created(before, task, pid))) &&
             Creates(Run(EMPTY_DB, before), calls[|calls| - 1], task, pid)
    ensures Last(Created(calls[..|calls| - 1], task, pid)) < calls[|calls| - 1].timestamp.value
  {
    var before := calls[..|calls| - 1];
    var m := Last(Created(before, task, pid));
    CreatedStemFromCalls(before, task, pid, m);
    var i :| 0 <= i < |before| && ForKey(before[i], task, pid) && before[i].timestamp == Some(m);
    assert calls[i] == before[i];
  }

  /** Every call of the key that was not refused leaves its timestamp among those that created a job. */
  lemma {:induction false} EveryTimestampCreates(calls: seq<Call>, task: string, pid: string, k: nat)
    requires k < |calls| && ForKey(calls[k], task, pid) && calls[k].timestamp.Some?
    requires Outcome(Run(EMPTY_DB, calls[..k]), calls[k]).Done?
    ensures calls[k].timestamp.value in Created(calls, task, pid)
  {
    var before := calls[..|calls| - 1];
    if k < |before| {
      assert calls[..k] == before[..k];
      EveryTimestampCreates(before, task, pid, k);
    } else if !Creates(Run(EMPTY_DB, before), calls[k], task, pid) {
      GreatestRowStays(before, task, pid, calls[k].timestamp.value);
    }
  }

  ghost predicate OnlyRow(db: Db, p: nat, task: string, pid: string, t: int) {
    RowAt(db.periodic, p, task, pid, Some(t)) &&
    forall q: nat, timestamp :: RowAt(db.periodic, q, task, pid, timestamp) ==> q == p
  }

  /** In order, a key that has created a job has exactly one row if and only if the last creating call saw all others. */
  lemma OneRowRemains(calls: seq<Call>, task: string, pid: string)
    requires InOrder(calls, task, pid) && Created(calls, task, pid) != []
    ensures var last := Last(Created(calls, task, pid));
            (exists p: nat :: OnlyRow(Run(EMPTY_DB, calls), p, task, pid, last)) <==> LastSawAll(calls, task, pid)
  {
    var db := Run(EMPTY_DB, calls);
    var m := Last(Created(calls, task, pid));
    InOrderOncePerTimestamp(calls, task, pid);
    OnlyLastRowExactly(calls, task, pid);
    assert Inv(EMPTY_DB);
    RunKeepsInv(EMPTY_DB, calls);
    assert Row(db, task, pid, m);
    var p: nat :| RowAt(db.periodic, p, task, pid, Some(m));
    assert RowAt(db.periodic, p, task, pid, Some(m));
    if LastSawAll(calls, task, pid) {
      forall q: nat, timestamp | RowAt(db.periodic, q, task, pid, timestamp) ensures q == p {
        RowsHaveTimestamps(calls, task, pid, q);
        assert Row(db, task, pid, timestamp.value);
        assert SameKey(db.periodic[p], db.periodic[q]);
      }
      assert OnlyRow(db, p, task, pid, m);
    }
    if q: nat :| OnlyRow(db, q, task, pid, m) {
      assert OnlyRow(db, q, task, pid, m);
      forall t | Row(db, task, pid, t) ensures t == m {
        var r: nat :| RowAt(db.periodic, r, task, pid, Some(t));
        assert RowAt(db.periodic, r, task, pid, Some(t));
      }
      assert OnlyLastRow(db, Created(calls, task, pid), task, pid);
    }
  }

  lemma {:induction false} RowsHaveTimestamps(calls: seq<Call>, task: string, pid: string, q: nat)
    requires InOrder(calls, task, pid)
    ensures !RowAt(Run(EMPTY_DB, calls).periodic, q, task, pid, None)
  {
    if calls != [] {
      var before := calls[..|calls| - 1];
      RowsHaveTimestamps(before, task, pid, q);
      assert Inv(EMPTY_DB);
      RunKeepsInv(EMPTY_DB, before);
      RowsAfterStep(Run(EMPTY_DB, before), calls[|calls| - 1], q, task, pid, None);
    }
  }

  // --- calls out of order ---

  function Tick(t: int, unseen: set<nat> := {}): Call {
    DeferPeriodicCall(JobToDefer(Some("q"), Some("t"), Some(0), None, None, Some("{}"), None), Some(""), Some(t), unseen)
  }

  lemma TickCreates(calls: seq<Call>, t: int, unseen: set<nat>)
    requires !Row(Run(EMPTY_DB, calls), "t", "", t)
    ensures var db, call := Run(EMPTY_DB, calls), Tick(t, unseen);
            Created(calls + [call], "t", "") == Created(calls, "t", "") + [t] && Creates(db, call, "t", "") &&
            Run(EMPTY_DB, calls + [call]) == Step(db, call) && Inv(db)
  {
    var db, call := Run(EMPTY_DB, calls), Tick(t, unseen);
    assert Inv(EMPTY_DB);
    RunKeepsInv(EMPTY_DB, calls);
    PeriodicOutcomes(db, call.job, "", Some(t), unseen);
    assert (calls + [call])[..|calls + [call]| - 1] == calls;
  }

  /** A deletion that sees all rows. */
  lemma RowAfterTick(calls: seq<Call>, t: int, u: int)
    requires !Row(Run(EMPTY_DB, calls), "t", "", t)
    ensures Row(Run(EMPTY_DB, calls + [Tick(t)]), "t", "", u) <==>
              u == t || (Row(Run(EMPTY_DB, calls), "t", "", u) && t <= u)
  {
    TickCreates(calls, t, {});
    RowAfterStep(Run(EMPTY_DB, calls), Tick(t), "t", "", u);
  }

  const TEN := [] + [Tick(10)]
  const TEN_TWENTY := TEN + [Tick(20)]

  lemma AfterTen()
    ensures Created(TEN, "t", "") == [10]
    ensures Row(Run(EMPTY_DB, TEN), "t", "", 10) && !Row(Run(EMPTY_DB, TEN), "t", "", 20)
  {
    TickCreates([], 10, {});
    RowAfterTick([], 10, 10);
    RowAfterTick([], 10, 20);
  }

  /** Out of order a timestamp can create two jobs: 10, then 20, whose call deletes the row of 10, then 10 again. */
  lemma OutOfOrderRepeats()
    ensures Created(TEN_TWENTY + [Tick(10)], "t", "") == [10, 20, 10]
  {
    AfterTen();
    TickCreates(TEN, 20, {});
    RowAfterTick(TEN, 20, 10);
    TickCreates(TEN_TWENTY, 10, {});
  }

  /** Overlapping calls can leave two rows: the deletion of 20 began before 10, which commits first, was there. */
  lemma OverlapLeavesTwoRows()
    ensures var db := Run(EMPTY_DB, TEN + [Tick(20, {1})]); Row(db, "t", "", 10) && Row(db, "t", "", 20)
  {
    AfterTen();
    var db := Run(EMPTY_DB, TEN);
    TickCreates([], 10, {});
    RowsAfterStep(EMPTY_DB, Tick(10), 1, "t", "", Some(10));
    assert RowAt(db.periodic, 1, "t", "", Some(10));
    assert Misses(db, Tick(20, {1}), "t", "", 10);
    TickCreates(TEN, 20, {1});
    RowAfterStep(db, Tick(20, {1}), "t", "", 10);
    RowAfterStep(db, Tick(20, {1}), "t", "", 20);
  }
}
