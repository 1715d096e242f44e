/** A backup run's job record and run lock along every path of internal/backup/runner.go, with the
    outcome write of internal/jobs/outcome.go. What the run does in between is one opaque step that
    returns, fails, panics or times out. */
module Runner {
  import opened Wrappers
  import opened Text
  import opened Jobs
  import R = Retention

  const DEFAULT_OUTCOME_ATTEMPTS: nat := 3

  /** RecordOptions.resolve, as far as the number of writes goes. */
  function ResolvedAttempts(attempts: int): (r: nat)
    ensures r > 0 && (attempts > 0 ==> r == attempts) && (attempts <= 0 ==> r == 3)
  {
    if attempts <= 0 then DEFAULT_OUTCOME_ATTEMPTS else attempts
  }

  datatype Recorded = Done | Permanent(why: JobError) | GaveUp

  /** The outcome as it stands in the store, at whatever time it was written. */
  predicate HasOutcome(before: Job, after: Job, out: Outcome) {
    after == ApplyOutcome(before, out, after.updated)
  }

  /** The record took the outcome, once or several times over; every other record is untouched. */
  ghost predicate OnlyOutcome(before: map<string, Job>, after: map<string, Job>, id: string, out: Outcome) {
    && after.Keys == before.Keys
    && (forall k :: k in before && k != id ==> after[k] == before[k])
    && (id in before ==> after[id] == before[id] || HasOutcome(before[id], after[id], out))
  }

  /** Writing an outcome over itself changes nothing but the time. */
  lemma OutcomeTwice(j: Job, out: Outcome, first: int64, again: int64)
    ensures ApplyOutcome(ApplyOutcome(j, out, first), out, again) == ApplyOutcome(j, out, again)
  {
  }

  /** RecordOutcome: retries what may pass and returns at once what retrying cannot fix. Success means
      the outcome is stored; giving up means every attempt failed, though one may have landed. At most
      `faults` writes go wrong: the outcome survives any number below the attempts. */
  method RecordOutcome(store: MemoryStore, id: string, out: Outcome, attempts: int, faults: nat)
    returns (r: Recorded, tries: nat)
    modifies store
    ensures OnlyOutcome(old(store.jobs), store.jobs, id, out)
    ensures 1 <= tries <= ResolvedAttempts(attempts)
    ensures r.Done? ==> out.state.Terminal() && id in store.jobs && HasOutcome(old(store.jobs)[id], store.jobs[id], out)
    ensures r.Permanent? ==> store.jobs == old(store.jobs) || (out.state.Terminal() && id in store.jobs)
    ensures !out.state.Terminal() || id !in old(store.jobs) ==> !r.Done? && store.jobs == old(store.jobs)
    ensures r.Permanent? <==> r == Permanent(NotTerminal) || r == Permanent(NoSuchJob)
    ensures r == Permanent(NotTerminal) ==> !out.state.Terminal()
    ensures r == Permanent(NoSuchJob) ==> id !in store.jobs
    ensures r.GaveUp? ==> tries == ResolvedAttempts(attempts)
    ensures tries <= faults + 1
    ensures out.state.Terminal() && id in old(store.jobs) && faults < ResolvedAttempts(attempts) ==> r.Done?
  {
    var limit := ResolvedAttempts(attempts);
    tries := 0;
    while tries < limit
      invariant tries <= limit
      invariant OnlyOutcome(old(store.jobs), store.jobs, id, out)
      invariant !out.state.Terminal() || id !in old(store.jobs) ==> store.jobs == old(store.jobs)
      invariant tries <= faults
    {
      tries := tries + 1;
      var now: int64, lost, landed := *, *, *;
      lost := lost && tries <= faults;
      if lost && !landed {
        continue;
      }
      var result := store.Finish(id, out, now);
      if lost {
        continue;
      }
      if result.Ok? {
        return Done, tries;
      }
      return Permanent(result.error), tries;
    }
    r := GaveUp;
  }

  // ---- the lock handle of one run ----

  /** What happened to the lock, and to the repository, in order. */
  datatype Step = Took | Gave | Pruned(before: set<R.Manifest>, after: set<R.Manifest>)

  /** What Acquire returned to one run: whether it holds the Space, and how often release was called. */
  class RunLock {
    var held: bool
    var releases: nat
    ghost var log: seq<Step>

    constructor ()
      ensures !held && releases == 0 && log == []
    {
      held, releases, log := false, 0, [];
    }

    method Take()
      requires !held
      modifies this
      ensures held && releases == old(releases) && log == old(log) + [Took]
    {
      held, log := true, log + [Took];
    }

    method Release()
      requires held
      modifies this
      ensures !held && releases == old(releases) + 1 && log == old(log) + [Gave]
    {
      held, releases, log := false, releases + 1, log + [Gave];
    }
  }

  datatype RunError =
    | SpaceNotFound
    | RunInProgress
    | AcquireFailed
    | ListFailed
    | CreateFailed
    | ShuttingDown
    | RunFailed(cause: string)

  datatype LockAnswer = Granted | InProgress | Unavailable

  datatype SpaceAnswer = Found | Unknown | Unlisted

  /** What a run meets outside: what Acquire answers, whether the Space resolves, and what becomes of
      Create's write. At most `faults` writes of its outcome go wrong, and `steady` promises that a prune
      meets no failure in its repository. */
  datatype Outside = Outside(lock: LockAnswer, space: SpaceAnswer, create: Ack, faults: nat, steady: bool)

  /** The error that stops a run before its record is open. */
  function Refusal(space: string, o: Outside): Option<RunError> {
    if space == "" then Some(SpaceNotFound)
    else if o.lock.InProgress? then Some(RunInProgress)
    else if o.lock.Unavailable? then Some(AcquireFailed)
    else if o.space.Unknown? then Some(SpaceNotFound)
    else if o.space.Unlisted? then Some(ListFailed)
    else if !o.create.Acked? then Some(CreateFailed)
    else None
  }

  /** Create's write lands and its acknowledgement is lost. */
  predicate LosesCreate(space: string, o: Outside) {
    Refusal(space, o) == Some(CreateFailed) && o.create.Unacked?
  }

  /** How the work of a run ends; a panic is converted into an error. */
  datatype Work = Finished(snapshotID: string, files: int, bytes: int) | Broke(cause: string) | Panicked

  /** The record a run created, if it created one. */
  function OwnRecord(before: map<string, Job>, after: map<string, Job>, id: string): Option<Job> {
    if id !in before && id in after then Some(after[id]) else None
  }

  /** When the lock is given back, this run has no record or a terminal one. */
  ghost predicate SettledIfReleased(lock: RunLock, before: map<string, Job>, after: map<string, Job>, id: string)
    reads lock
  {
    lock.releases <= 1 && (lock.held ==> lock.releases == 0)
    && (lock.releases == 1 ==> OwnRecord(before, after, id).None? || OwnRecord(before, after, id).value.state.Terminal())
  }

  ghost predicate OthersUntouched(before: map<string, Job>, after: map<string, Job>, id: string) {
    after - {id} == before - {id} && (id in before ==> id in after && after[id] == before[id])
  }

  /** Whose record it is, and what started the run. */
  predicate FiledAs(j: Job, id: string, space: string, kind: string, trigger: Trigger) {
    && j.id == id && j.space == space && j.kind == kind
    && j.trigger == if trigger.NoTrigger? then Manual else trigger
  }

  /** A record as a run opens it: under way, and nothing to report yet. */
  predicate Opened(j: Job) {
    && j.state == Running && j.updated == j.created && j.finished == 0
    && j.error == "" && j.snapshotID == ""
    && j.fileCount == 0 && j.totalBytes == 0 && j.snapshotsDeleted == 0 && j.snapshotsKept == 0
  }

  /** The record says what became of the work: the snapshot with its files and bytes, or why there is none. */
  predicate Reports(j: Job, work: Work) {
    match work
    case Finished(snapshotID, files, bytes) =>
      && j.state == Succeeded && j.error == "" && j.snapshotID == snapshotID
      && j.fileCount == (if files < 0 then 0 else files) && j.totalBytes == (if bytes < 0 then 0 else bytes)
      && j.snapshotsDeleted == 0 && j.snapshotsKept == 0
    case Broke(cause) => ReportsFailure(j, cause)
    case Panicked => ReportsFailure(j, "the backup run failed")
  }

  predicate ReportsFailure(j: Job, message: string) {
    && j.state == Failed && j.error == message && j.snapshotID == "" && j.fileCount == 0 && j.totalBytes == 0
    && j.snapshotsDeleted == 0 && j.snapshotsKept == 0
  }

  /** The record says what a prune did. */
  predicate ReportsPrune(j: Job, stats: R.Stats) {
    && j.state == Succeeded && j.error == "" && j.snapshotID == "" && j.fileCount == 0 && j.totalBytes == 0
    && j.snapshotsDeleted == stats.deleted && j.snapshotsKept == stats.kept
  }

  /** begin: takes the lock, checks the Space, opens a running record. On an error the lock is already
      given back and no record was made, with one exception: a Create whose acknowledgement was lost
      leaves a running record that nothing holds. */
  method Begin(store: MemoryStore, lock: RunLock, space: string, kind: string, trigger: Trigger, freshID: string, o: Outside)
    returns (r: Result<(), RunError>)
    requires !lock.held && lock.releases == 0 && freshID != "" && freshID !in store.jobs && kind != ""
    modifies store, lock
    ensures OthersUntouched(old(store.jobs), store.jobs, freshID)
    ensures r == match Refusal(space, o) case None => Ok(()) case Some(e) => Err(e)
    ensures r.Ok? ==> lock.held && lock.releases == 0 && freshID in store.jobs
    ensures r.Ok? || LosesCreate(space, o) ==>
              freshID in store.jobs && FiledAs(store.jobs[freshID], freshID, space, kind, trigger)
              && Opened(store.jobs[freshID])
    ensures r.Err? ==> !lock.held && lock.releases == (if space == "" || !o.lock.Granted? then 0 else 1)
                       && (freshID in store.jobs <==> LosesCreate(space, o))
    ensures lock.log == old(lock.log) + if r.Ok? then [Took] else if lock.releases == 1 then [Took, Gave] else []
  {
    if space == "" {
      return Err(SpaceNotFound);
    }
    if !o.lock.Granted? {
      return Err(if o.lock.InProgress? then RunInProgress else AcquireFailed);
    }
    lock.Take();
    if !o.space.Found? {
      lock.Release();
      return Err(if o.space.Unknown? then SpaceNotFound else ListFailed);
    }
    var now: int64 := *;
    var job := Job("", space, kind, Running, trigger, now, now, 0, 0, 0, "", "", 0, 0);
    if o.create.Landed() {
      var created := store.Create(job, now, freshID);
    }
    if !o.create.Acked? {
      lock.Release();
      return Err(CreateFailed);
    }
    r := Ok(());
  }

  /** settle: records the outcome and then, and only then, gives the lock back. */
  method Settle(store: MemoryStore, lock: RunLock, id: string, out: Outcome, faults: nat)
    requires lock.held && lock.releases == 0 && id in store.jobs && out.state.Terminal()
    modifies store, lock
    ensures OnlyOutcome(old(store.jobs), store.jobs, id, out)
    ensures lock.held <==> lock.releases == 0
    ensures lock.releases <= 1 && lock.log == old(lock.log) + if lock.held then [] else [Gave]
    ensures lock.releases == 1 ==> HasOutcome(old(store.jobs)[id], store.jobs[id], out)
    ensures faults < 3 ==> lock.releases == 1
  {
    var r, tries := RecordOutcome(store, id, out, 0, faults);
    if !r.Done? {
      return;
    }
    lock.Release();
  }

  /** fail: the record says failed, with a message fit to show. */
  method Fail(store: MemoryStore, lock: RunLock, id: string, message: string, faults: nat)
    requires lock.held && lock.releases == 0 && id in store.jobs
    modifies store, lock
    ensures OnlyOutcome(old(store.jobs), store.jobs, id, Outcome(Failed, message, "", 0, 0, 0, 0))
    ensures (lock.held <==> lock.releases == 0) && lock.releases <= 1
    ensures lock.log == old(lock.log) + if lock.held then [] else [Gave]
    ensures lock.releases == 1 ==> store.jobs[id].state == Failed && store.jobs[id].error == message
    ensures faults < 3 ==> lock.releases == 1
  {
    Settle(store, lock, id, Outcome(Failed, message, "", 0, 0, 0, 0), faults);
  }

  /** finish: owns the lock from the moment begin returned it. Its record is as it was opened or reports the
      work, and it does report it once the lock is given back. */
  method Finish(store: MemoryStore, lock: RunLock, id: string, work: Work, faults: nat)
    requires lock.held && lock.releases == 0 && id in store.jobs && Opened(store.jobs[id])
    modifies store, lock
    ensures store.jobs.Keys == old(store.jobs).Keys
    ensures forall k :: k in store.jobs && k != id ==> store.jobs[k] == old(store.jobs)[k]
    ensures (lock.held <==> lock.releases == 0) && lock.releases <= 1
    ensures lock.releases == 1 ==> Reports(store.jobs[id], work)
    ensures store.jobs[id] == old(store.jobs)[id] || Reports(store.jobs[id], work)
    ensures var was, j := old(store.jobs)[id], store.jobs[id];
            j.id == was.id && j.space == was.space && j.kind == was.kind && j.trigger == was.trigger
            && j.created == was.created
    ensures faults < 3 ==> lock.releases == 1
  {
    match work {
      case Finished(snapshotID, files, bytes) =>
        Settle(store, lock, id, Outcome(Succeeded, "", snapshotID, files, bytes, 0, 0), faults);
      case Broke(cause) => Fail(store, lock, id, cause, faults);
      case Panicked => Fail(store, lock, id, "the backup run failed", faults);
    }
  }

  /** RunBackup, RunScheduled: begin, then finish. On every path release runs at most once, and only
      when this run has no record or a terminal one, unless Create's acknowledgement was lost. */
  method Run(store: MemoryStore, lock: RunLock, space: string, trigger: Trigger, freshID: string, o: Outside, work: Work)
    returns (r: Result<(), RunError>)
    requires !lock.held && lock.releases == 0 && freshID != "" && freshID !in store.jobs
    modifies store, lock
    ensures OthersUntouched(old(store.jobs), store.jobs, freshID)
    ensures SettledIfReleased(lock, old(store.jobs), store.jobs, freshID) <==> !LosesCreate(space, o)
    ensures r == match Refusal(space, o)
                 case Some(e) => Err(e)
                 case None => if work.Finished? then Ok(()) else Err(RunFailed("backup"))
    ensures Refusal(space, o).Some? ==> !lock.held && (freshID in store.jobs <==> LosesCreate(space, o))
    ensures Refusal(space, o).None? ==>
              freshID in store.jobs && (lock.held <==> lock.releases == 0)
              && FiledAs(store.jobs[freshID], freshID, space, "backup", trigger)
              && (Reports(store.jobs[freshID], work) || (lock.held && Opened(store.jobs[freshID])))
    ensures LosesCreate(space, o) ==>
              FiledAs(store.jobs[freshID], freshID, space, "backup", trigger) && Opened(store.jobs[freshID])
    ensures o.faults < 3 ==> !lock.held
  {
    r := Begin(store, lock, space, "backup", trigger, freshID, o);
    if r.Err? {
      return;
    }
    Finish(store, lock, freshID, work, o.faults);
    r := if work.Finished? then Ok(()) else Err(RunFailed("backup"));
  }

  /** StartBackup: the same, with the work handed to a background task that may be refused; `refused`
      work is recorded as failed. The task is followed here to its end. */
  method StartBackup(store: MemoryStore, lock: RunLock, space: string, freshID: string, o: Outside, refused: bool, work: Work)
    returns (r: Result<string, RunError>)
    requires !lock.held && lock.releases == 0 && freshID != "" && freshID !in store.jobs
    modifies store, lock
    ensures OthersUntouched(old(store.jobs), store.jobs, freshID)
    ensures SettledIfReleased(lock, old(store.jobs), store.jobs, freshID) <==> !LosesCreate(space, o)
    ensures r == match Refusal(space, o) case Some(e) => Err(e) case None => if refused then Err(ShuttingDown) else Ok(freshID)
    ensures Refusal(space, o).Some? ==> !lock.held && (freshID in store.jobs <==> LosesCreate(space, o))
    ensures Refusal(space, o).None? ==>
              freshID in store.jobs && (lock.held <==> lock.releases == 0)
              && FiledAs(store.jobs[freshID], freshID, space, "backup", Manual)
              && (Reports(store.jobs[freshID], if refused then Broke("the backup run failed") else work)
                  || (lock.held && Opened(store.jobs[freshID])))
    ensures LosesCreate(space, o) ==>
              FiledAs(store.jobs[freshID], freshID, space, "backup", Manual) && Opened(store.jobs[freshID])
    ensures o.faults < 3 ==> !lock.held
  {
    var begun := Begin(store, lock, space, "backup", Manual, freshID, o);
    if begun.Err? {
      return Err(begun.error);
    }
    if refused {
      Fail(store, lock, freshID, "the backup run failed", o.faults);
      return Err(ShuttingDown);
    }
    Finish(store, lock, freshID, work, o.faults);
    r := Ok(freshID);
  }

  /** pruneSpace, which only the holder of the lock may call. */
  method PruneSpace(lock: RunLock, repo: R.Repository, storedWindow: int, now: int, steady: bool)
    returns (stats: Result<R.Stats, R.EngineError>, ghost keep: Option<R.Manifest>)
    requires lock.held && R.DistinctIDs(repo.mans)
    modifies lock`log, repo
    ensures lock.log == old(lock.log) + [Pruned(old(repo.mans), repo.mans)]
    ensures R.Protects(old(repo.mans), keep) && repo.mans <= old(repo.mans)
    ensures old(repo.mans) - repo.mans <= R.Expired(old(repo.mans), keep, now - R.EffectiveWindow(storedWindow))
    ensures stats.Ok? ==> repo.mans == old(repo.mans) - R.Expired(old(repo.mans), keep, now - R.EffectiveWindow(storedWindow))
    ensures stats.Ok? ==> stats.value.kept == |repo.mans| && stats.value.deleted + stats.value.kept == |old(repo.mans)|
    ensures R.Honours(old(repo.mans), repo.mans, storedWindow, now, stats.Ok?)
    ensures steady ==> stats.Ok?
  {
    hide R.Protects, R.Expired, R.Complete, R.Incomplete, R.Honours;
    ghost var before := repo.mans;
    stats, keep := repo.Prune(storedWindow, now, steady);
    lock.log := lock.log + [Pruned(before, repo.mans)];
  }

  /** RunPrune: the same lock and the same settling around a prune with the Space's stored window. All that
      changes the repository happens between taking the lock and giving it back; the record says exactly
      what was done; and the last complete snapshot is never taken. */
  method RunPrune(store: MemoryStore, lock: RunLock, repo: R.Repository, space: string, storedWindow: int, now: int,
                  freshID: string, o: Outside)
    returns (r: Result<R.Stats, RunError>)
    requires !lock.held && lock.releases == 0 && freshID != "" && freshID !in store.jobs && R.DistinctIDs(repo.mans)
    modifies store, lock, repo
    ensures OthersUntouched(old(store.jobs), store.jobs, freshID)
    ensures SettledIfReleased(lock, old(store.jobs), store.jobs, freshID) <==> !LosesCreate(space, o)
    ensures Refusal(space, o).Some? ==> r == Err(Refusal(space, o).value) && repo.mans == old(repo.mans)
                                        && !lock.held && (freshID in store.jobs <==> LosesCreate(space, o))
    ensures Refusal(space, o).None? ==> freshID in store.jobs && (lock.held <==> lock.releases == 0)
                                        && (r.Ok? || r == Err(RunFailed("prune")))
    ensures Refusal(space, o).None? || LosesCreate(space, o) ==>
              FiledAs(store.jobs[freshID], freshID, space, "prune", Schedule)
    ensures Refusal(space, o).None? ==>
              || (lock.held && Opened(store.jobs[freshID]))
              || if r.Ok? then ReportsPrune(store.jobs[freshID], r.value)
                 else ReportsFailure(store.jobs[freshID], "cleaning up expired backups failed")
    ensures LosesCreate(space, o) ==> Opened(store.jobs[freshID])
    ensures r.Ok? ==> r.value.kept == |repo.mans| && r.value.deleted + r.value.kept == |old(repo.mans)|
    ensures o.faults < 3 ==> !lock.held
    ensures o.steady ==> (r.Ok? <==> Refusal(space, o).None?)
    ensures lock.log == old(lock.log)
                        + (if Refusal(space, o).None?
                           then [Took, Pruned(old(repo.mans), repo.mans)] + if lock.held then [] else [Gave]
                           else if lock.releases == 1 then [Took, Gave] else [])
    ensures repo.mans <= old(repo.mans)
    ensures Refusal(space, o).None? ==> R.Honours(old(repo.mans), repo.mans, storedWindow, now, r.Ok?)
    ensures forall m :: m in R.Complete(old(repo.mans)) ==>
              (m in repo.mans || m.start < now - R.EffectiveWindow(storedWindow))
              && exists n :: n in R.Complete(repo.mans) && n.start >= m.start
  {
    hide R.Protects, R.Expired, R.Complete, R.Incomplete, R.Honours;
    ghost var before := repo.mans;
    SelfSurvives(before);
    var accepted := Begin(store, lock, space, "prune", Schedule, freshID, o);
    if accepted.Err? {
      return Err(accepted.error);
    }
    var stats, keep := PruneSpace(lock, repo, storedWindow, now, o.steady);
    PruneLeaves(before, repo.mans, keep, now - R.EffectiveWindow(storedWindow));
    if stats.Err? {
      Fail(store, lock, freshID, "cleaning up expired backups failed", o.faults);
      return Err(RunFailed("prune"));
    }
    Settle(store, lock, freshID, Outcome(Succeeded, "", "", 0, 0, stats.value.deleted, stats.value.kept), o.faults);
    r := Ok(stats.value);
  }

  lemma SelfSurvives(mans: set<R.Manifest>)
    ensures forall m :: m in R.Complete(mans) ==> m in mans && exists n :: n in R.Complete(mans) && n.start >= m.start
  {
    forall m | m in R.Complete(mans) ensures exists n :: n in R.Complete(mans) && n.start >= m.start {
      assert m in R.Complete(mans) && m.start >= m.start;
    }
  }

  lemma PruneLeaves(before: set<R.Manifest>, after: set<R.Manifest>, keep: Option<R.Manifest>, cutoff: int)
    requires R.Protects(before, keep) && after <= before && before - after <= R.Expired(before, keep, cutoff)
    ensures forall m :: m in R.Complete(before) ==>
              (m in after || m.start < cutoff) && exists n :: n in R.Complete(after) && n.start >= m.start
  {
    R.ExpiredIsOldAndOutlived(before, keep, cutoff, before - after);
    assert before - (before - after) == after;
    forall m | m in R.Complete(before) ensures m in after || m.start < cutoff {
      assert m in before - after ==> m.start < cutoff;
    }
  }
}
