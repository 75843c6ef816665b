/**
 Which job a fetch starts, that it starts one whenever it can, and what happens
 when several fetches evaluate their guard on a table that has moved on.
 */
module JobFetch {
  import opened Options
  import opened JobTables
  import opened JobFunctions
  import opened JobRuns

  predicate WorkerOk(db: Db, worker: Option<nat>) {
    worker.Some? ==> worker.value in db.workers
  }

  // --- one fetch at a time ---

  /** Among finitely many rows one comes first in fetch order. */
  lemma {:induction false} FirstExists(jobs: map<nat, Job>, ids: set<nat>) returns (first: nat)
    requires ids != {} && ids <= jobs.Keys
    ensures first in ids && forall other | other in ids && other != first :: Outranks(jobs, first, other)
    decreases |ids|
  {
    first :| first in ids;
    var rest := ids - {first};
    if rest != {} {
      var best := FirstExists(jobs, rest);
      var candidate := first;
      if Outranks(jobs, best, first) { first := best; }
      forall other | other in ids && other != first ensures Outranks(jobs, first, other) {
        assert other == candidate || other in rest;
      }
    }
  }

  lemma EligibleMeansNext(jobs: map<nat, Job>, queues: Option<seq<string>>, now: int)
    ensures NextJob(jobs, queues, now).None? <==> forall id :: !Eligible(jobs, id, queues, now)
  {
    var eligible := set id | id in jobs && Eligible(jobs, id, queues, now);
    assert forall id :: Eligible(jobs, id, queues, now) <==> id in eligible;
    if eligible != {} {
      var first := FirstExists(jobs, eligible);
      assert IsNext(jobs, first, queues, now);
    }
  }

  /**
   A fetch returns NULL exactly when no waiting job is due, in a target queue and
   unblocked. Otherwise it starts the first such job in order of priority, then
   number, and changes no other row. When the snapshot is the current table the
   unique index never refuses: the only error left is an unregistered worker.
   */
  lemma FetchTakesFirstEligible(db: Db, queues: Option<seq<string>>, worker: Option<nat>, now: int)
    requires Inv(db)
    ensures var r := Fetch(db, queues, worker, now);
            && (r == Done(db, None) <==> forall id :: !Eligible(db.jobs, id, queues, now))
            && (r.Raised? <==> !WorkerOk(db, worker) && exists id :: Eligible(db.jobs, id, queues, now))
            && (r.Raised? ==> r.error == NoSuchWorker)
            && (r.Done? && r.value.Some? ==>
                  var id := r.value.value;
                  Eligible(db.jobs, id, queues, now) &&
                  (forall other | other != id && Eligible(db.jobs, other, queues, now) :: Outranks(db.jobs, id, other)) &&
                  r.db.jobs == db.jobs[id := db.jobs[id].(status := Doing, worker := worker)] &&
                  r.db.events == db.events + [Event(id, Started)])
  {
    EligibleMeansNext(db.jobs, queues, now);
    var next := NextJob(db.jobs, queues, now);
    if next.Some? {
      var id := next.value;
      assert RowFits(db, id);
      assert LockFree(db.jobs, id, db.jobs[id].lock);
      var row := db.jobs[id].(status := Doing, worker := worker);
      assert UpdateEvents(db.jobs[id], row, false) == [Started];
      assert Tag(id, [Started]) == [Event(id, Started)];
      if WorkerOk(db, worker) {
        assert Fetch(db, queues, worker, now).value == Some(id);
        assert Fetch(db, queues, worker, now) != Done(db, None);
      }
    }
  }

  /**
   The columns that let a fetch start a job: it waits, its schedule is past, it is in
   a queue asked for, and no job with its lock runs or waits ahead of it.
   */
  predicate MayStart(jobs: map<nat, Job>, id: nat, queues: Option<seq<string>>, now: int) {
    id in jobs && jobs[id].status == Todo &&
    (jobs[id].scheduledAt.Some? ==> jobs[id].scheduledAt.value <= now) &&
    (queues.Some? ==> jobs[id].queue in queues.value) &&
    (jobs[id].lock.Some? ==>
       forall other | other in jobs && other != id && jobs[other].lock == jobs[id].lock ::
         jobs[other].status != Doing && (jobs[other].status == Todo ==> ComesFirst(jobs, id, other)))
  }

  /** A greater priority, or the same and a smaller number. */
  predicate ComesFirst(jobs: map<nat, Job>, id: nat, other: nat)
    requires id in jobs && other in jobs
  {
    jobs[id].priority > jobs[other].priority || (jobs[id].priority == jobs[other].priority && id < other)
  }

  lemma EligibleInColumns(jobs: map<nat, Job>, id: nat, queues: Option<seq<string>>, now: int)
    ensures Eligible(jobs, id, queues, now) <==> MayStart(jobs, id, queues, now)
  {
  }

  /**
   What a fetch does, in columns: it returns NULL exactly when no job may start, and
   otherwise starts the one that comes first of those that may, which changes its
   status and worker, logs that, and changes nothing else.
   */
  lemma FetchInColumns(db: Db, queues: Option<seq<string>>, worker: Option<nat>, now: int)
    requires Inv(db)
    ensures var r := Fetch(db, queues, worker, now);
            && (r == Done(db, None) <==> forall id :: !MayStart(db.jobs, id, queues, now))
            && (r.Raised? <==> !WorkerOk(db, worker) && exists id :: MayStart(db.jobs, id, queues, now))
            && (r.Raised? ==> r.error == NoSuchWorker)
            && (r.Done? && r.value.Some? ==>
                  var id := r.value.value;
                  id in db.jobs && db.jobs[id].status == Todo &&
                  (db.jobs[id].scheduledAt == None || db.jobs[id].scheduledAt.value <= now) &&
                  (queues == None || db.jobs[id].queue in queues.value) &&
                  (forall other | other in db.jobs && other != id && db.jobs[id].lock.Some? && db.jobs[other].lock == db.jobs[id].lock ::
                     db.jobs[other].status != Doing) &&
                  (forall other | other != id && MayStart(db.jobs, other, queues, now) ::
                     db.jobs[id].priority > db.jobs[other].priority ||
                     (db.jobs[id].priority == db.jobs[other].priority && id < other)) &&
                  r.db == db.(jobs := db.jobs[id := db.jobs[id].(status := Doing, worker := worker)],
                              events := db.events + [Event(id, Started)]))
  {
    FetchTakesFirstEligible(db, queues, worker, now);
    forall id ensures Eligible(db.jobs, id, queues, now) <==> MayStart(db.jobs, id, queues, now) {
      EligibleInColumns(db.jobs, id, queues, now);
    }
  }

  /** A serial fetch never starts a locked job while another job with that lock runs or waits ahead of it. */
  lemma LockedJobsStartInOrder(db: Db, queues: Option<seq<string>>, worker: Option<nat>, now: int, id: nat, other: nat)
    requires Inv(db) && Fetch(db, queues, worker, now).Done? && Fetch(db, queues, worker, now).value == Some(id)
    requires id in db.jobs && other in db.jobs && other != id
    requires db.jobs[id].lock.Some? && db.jobs[other].lock == db.jobs[id].lock
    ensures db.jobs[id].status == Todo && db.jobs[other].status != Doing
    ensures db.jobs[other].status == Todo ==>
              db.jobs[id].priority > db.jobs[other].priority ||
              (db.jobs[id].priority == db.jobs[other].priority && id < other)
  {
    FetchTakesFirstEligible(db, queues, worker, now);
  }

  /** With nothing running and every waiting job due, the fetch starts the first waiting job of all. */
  lemma FetchMakesProgress(db: Db, worker: Option<nat>, now: int)
    requires Inv(db) && WorkerOk(db, worker)
    requires forall id | id in db.jobs :: db.jobs[id].status != Doing
    requires forall id | id in db.jobs && db.jobs[id].status == Todo && db.jobs[id].scheduledAt.Some? ::
               db.jobs[id].scheduledAt.value <= now
    ensures var r := Fetch(db, None, worker, now);
            r.Done? &&
            (r.value.Some? <==> exists id :: id in db.jobs && db.jobs[id].status == Todo) &&
            (r.value.Some? ==> forall other | other in db.jobs && other != r.value.value && db.jobs[other].status == Todo ::
                                 db.jobs[r.value.value].priority > db.jobs[other].priority ||
                                 (db.jobs[r.value.value].priority == db.jobs[other].priority && r.value.value < other))
  {
    FetchTakesFirstEligible(db, None, worker, now);
    var waiting := set id | id in db.jobs && db.jobs[id].status == Todo;
    if waiting != {} {
      var first := FirstExists(db.jobs, waiting);
      assert forall other | other in db.jobs && db.jobs[other].status == Todo :: other in waiting;
      assert Eligible(db.jobs, first, None, now);
      var id := Fetch(db, None, worker, now).value.value;
      assert id in waiting;
    } else {
      assert forall id | id in db.jobs && db.jobs[id].status == Todo :: id in waiting;
    }
  }

  // --- fetches that overlap ---

  /** On one snapshot at most one job of a lock passes the guard, whatever the queues and times asked for. */
  lemma GuardPicksOnePerLock(jobs: map<nat, Job>, a: nat, b: nat,
                             queuesA: Option<seq<string>>, nowA: int, queuesB: Option<seq<string>>, nowB: int)
    requires Eligible(jobs, a, queuesA, nowA) && Eligible(jobs, b, queuesB, nowB)
    requires jobs[a].lock.Some? && jobs[a].lock == jobs[b].lock
    ensures a == b
  {
  }

  predicate FetchesOn(snapshot: map<nat, Job>, calls: seq<Call>) {
    forall c | c in calls :: c.StaleFetchCall? && c.snapshot == snapshot
  }

  /** Rows that the snapshot's fetches have not started are as in the snapshot; the others passed its guard. */
  predicate StartedFrom(snapshot: map<nat, Job>, jobs: map<nat, Job>) {
    jobs.Keys == snapshot.Keys &&
    forall id | id in jobs ::
      jobs[id] == snapshot[id] ||
      (jobs[id].status == Doing && jobs[id].lock == snapshot[id].lock &&
       snapshot[id].status == Todo && !Blocked(snapshot, id))
  }

  lemma FetchOnSnapshot(snapshot: map<nat, Job>, db: Db, c: Call)
    requires Inv(db) && StartedFrom(snapshot, db.jobs)
    requires c.StaleFetchCall? && c.snapshot == snapshot
    ensures StartedFrom(snapshot, Step(db, c).jobs)
    ensures StaleFetch(db, snapshot, c.chosen, c.queues, c.worker, c.now) != Raised(LockTaken)
  {
    if Eligible(snapshot, c.chosen, c.queues, c.now) && c.chosen in db.jobs && db.jobs[c.chosen].status == Todo {
      StartedKeepLocksFree(snapshot, db.jobs, c.chosen);
    }
  }

  /** No job the snapshot's fetches started has the lock of a job that passes the guard too. */
  lemma StartedKeepLocksFree(snapshot: map<nat, Job>, jobs: map<nat, Job>, chosen: nat)
    requires StartedFrom(snapshot, jobs) && chosen in jobs && jobs[chosen].status == Todo && !Blocked(snapshot, chosen)
    ensures LockFree(jobs, chosen, jobs[chosen].lock)
  {
    forall other | other in jobs && other != chosen && jobs[other].status == Doing
      ensures jobs[chosen].lock.Some? ==> jobs[other].lock != jobs[chosen].lock
    {
      assert Outranks(snapshot, other, chosen) || Outranks(snapshot, chosen, other);
    }
  }

  /**
   However many fetches evaluate their guard on one and the same snapshot, and in
   whatever order they then commit, the unique index refuses none of them: the
   guard alone keeps their locks apart.
   */
  lemma {:induction false} OneSnapshotNeverClashes(db: Db, calls: seq<Call>, next: Call)
    requires Inv(db) && FetchesOn(db.jobs, calls + [next])
    ensures var now := Run(db, calls);
            StartedFrom(db.jobs, now.jobs) &&
            StaleFetch(now, db.jobs, next.chosen, next.queues, next.worker, next.now) != Raised(LockTaken)
  {
    assert next in calls + [next];
    if calls == [] {
      FetchOnSnapshot(db.jobs, db, next);
    } else {
      var before, last := calls[..|calls| - 1], calls[|calls| - 1];
      assert last in calls + [next];
      forall c | c in before + [last] ensures c in calls + [next] { }
      OneSnapshotNeverClashes(db, before, last);
      RunKeepsInv(db, before);
      FetchOnSnapshot(db.jobs, Run(db, before), last);
      RunKeepsInv(db, calls);
      FetchOnSnapshot(db.jobs, Run(db, calls), next);
    }
  }

  /**
   What a fetch with an old snapshot does, in columns: it goes on if the job might start
   then, still waits, is due and is in a queue asked for; then it starts the job, unless
   another with its lock runs by now.
   */
  lemma StaleFetchInColumns(db: Db, snapshot: map<nat, Job>, chosen: nat,
                            queues: Option<seq<string>>, worker: Option<nat>, now: int)
    requires Inv(db) && WorkerOk(db, worker)
    ensures var r := StaleFetch(db, snapshot, chosen, queues, worker, now);
            if MayStart(snapshot, chosen, queues, now) && chosen in db.jobs && db.jobs[chosen].status == Todo &&
               (db.jobs[chosen].scheduledAt.Some? ==> db.jobs[chosen].scheduledAt.value <= now) &&
               (queues.Some? ==> db.jobs[chosen].queue in queues.value) then
              if exists other :: other in db.jobs && db.jobs[other].status == Doing &&
                                 db.jobs[chosen].lock.Some? && db.jobs[other].lock == db.jobs[chosen].lock
              then r == Raised(LockTaken)
              else r.Done? && r.value == Some(chosen) &&
                   r.db.jobs == db.jobs[chosen := db.jobs[chosen].(status := Doing, worker := worker)]
            else r == Done(db, None)
  {
    EligibleInColumns(snapshot, chosen, queues, now);
    if Eligible(snapshot, chosen, queues, now) && chosen in db.jobs && Due(db.jobs[chosen], queues, now) {
      StaleFetchRefusedExactly(db, snapshot, chosen, queues, worker, now);
    }
  }

  /**
   Exactly when a fetch with an old snapshot is refused: another job with the
   chosen job's lock is running now. If the chosen job kept its lock, that other
   job was not running with it in the snapshot.
   */
  lemma StaleFetchRefusedExactly(db: Db, snapshot: map<nat, Job>, chosen: nat,
                                 queues: Option<seq<string>>, worker: Option<nat>, now: int)
    requires Inv(db) && WorkerOk(db, worker)
    requires Eligible(snapshot, chosen, queues, now) && chosen in db.jobs && Due(db.jobs[chosen], queues, now)
    ensures var r := StaleFetch(db, snapshot, chosen, queues, worker, now);
            && (r.Raised? <==>
                  exists other :: other in db.jobs && db.jobs[other].status == Doing &&
                                  db.jobs[chosen].lock.Some? && db.jobs[other].lock == db.jobs[chosen].lock)
            && (r.Raised? ==> r.error == LockTaken)
    ensures forall other | other in db.jobs && other in snapshot &&
                           db.jobs[other].status == Doing && db.jobs[other].lock == db.jobs[chosen].lock &&
                           db.jobs[chosen].lock.Some? && snapshot[chosen].lock == db.jobs[chosen].lock ::
              snapshot[other].status != Doing || snapshot[other].lock != db.jobs[other].lock
  {
    assert RowFits(db, chosen);
  }
}
