/** Job records and the reference job store (internal/jobs/jobs.go, internal/jobs/memory.go). */
module Jobs {
  import opened Wrappers
  import opened Ordered
  import opened Text

  datatype State = NoState | Pending | Running | Succeeded | Failed {
    /** Whether no further transition is expected. */
    predicate Terminal() { Succeeded? || Failed? }
  }

  datatype Trigger = NoTrigger | Manual | Schedule

  /** One run's record. Times are nanoseconds since the epoch; the kind is a string as stored. */
  datatype Job = Job(id: string, space: string, kind: string, state: State, trigger: Trigger,
                     created: int64, updated: int64, finished: int64,
                     fileCount: int, totalBytes: int, error: string, snapshotID: string,
                     snapshotsDeleted: int, snapshotsKept: int)

  /** What a finishing run records in one write. */
  datatype Outcome = Outcome(state: State, error: string, snapshotID: string, fileCount: int, totalBytes: int,
                             snapshotsDeleted: int, snapshotsKept: int)

  datatype JobError = NoSuchJob | NotTerminal | DuplicateID | Invalid

  /** prepare: validates and completes a new record; freshID stands for the random id drawn when the
      caller gives none. */
  function Prepare(j: Job, now: int64, freshID: string): Result<Job, JobError> {
    if j.space == "" || j.kind == "" then Err(Invalid)
    else Ok(j.(state := if j.state.NoState? then Pending else j.state,
               trigger := if j.trigger.NoTrigger? then Manual else j.trigger,
               id := if j.id == "" then freshID else j.id,
               created := now, updated := now))
  }

  /** What a caller's record becomes: its own fields where they are set, waiting and started by hand where
      they are not, under a drawn id if it names none, and made now. */
  predicate Completes(j: Job, now: int64, freshID: string, p: Job) {
    && p.id == (if j.id != "" then j.id else freshID) && p.space == j.space && p.kind == j.kind
    && (j.state != NoState ==> p.state == j.state) && (j.state == NoState ==> p.state == Pending)
    && (j.trigger != NoTrigger ==> p.trigger == j.trigger) && (j.trigger == NoTrigger ==> p.trigger == Manual)
    && p.created == p.updated == now && p.finished == j.finished && p.error == j.error
    && p.snapshotID == j.snapshotID && p.fileCount == j.fileCount && p.totalBytes == j.totalBytes
    && p.snapshotsDeleted == j.snapshotsDeleted && p.snapshotsKept == j.snapshotsKept
  }

  lemma PreparedIff(j: Job, now: int64, freshID: string)
    ensures Prepare(j, now, freshID).Ok? <==> j.space != "" && j.kind != ""
    ensures Prepare(j, now, freshID).Err? ==> Prepare(j, now, freshID) == Err(Invalid)
    ensures forall p :: Prepare(j, now, freshID) == Ok(p) ==> Completes(j, now, freshID, p)
  {
  }

  /** applyOutcome: counts and ids are only overwritten by values the outcome carries. */
  function ApplyOutcome(j: Job, out: Outcome, now: int64): (r: Job)
    ensures r.id == j.id && r.space == j.space && r.kind == j.kind && r.created == j.created && r.trigger == j.trigger
    ensures r.state == out.state && r.error == out.error
  {
    j.(state := out.state, error := out.error,
       snapshotID := if out.snapshotID != "" then out.snapshotID else j.snapshotID,
       fileCount := if out.fileCount > 0 then out.fileCount else j.fileCount,
       totalBytes := if out.totalBytes > 0 then out.totalBytes else j.totalBytes,
       snapshotsDeleted := if out.snapshotsDeleted > 0 then out.snapshotsDeleted else j.snapshotsDeleted,
       snapshotsKept := if out.snapshotsKept > 0 then out.snapshotsKept else j.snapshotsKept,
       updated := now, finished := now)
  }

  /** A count an outcome reports replaces the one on record; one it does not leaves it. */
  predicate CountTaken(was: int, reported: int, after: int) {
    (reported > 0 ==> after == reported) && (reported <= 0 ==> after == was)
  }

  /** Each part of an outcome goes to its own place in the record. */
  lemma OutcomeTaken(j: Job, out: Outcome, now: int64)
    ensures var r := ApplyOutcome(j, out, now);
            && r.updated == now && r.finished == now
            && (out.snapshotID != "" ==> r.snapshotID == out.snapshotID)
            && (out.snapshotID == "" ==> r.snapshotID == j.snapshotID)
            && CountTaken(j.fileCount, out.fileCount, r.fileCount)
            && CountTaken(j.totalBytes, out.totalBytes, r.totalBytes)
            && CountTaken(j.snapshotsDeleted, out.snapshotsDeleted, r.snapshotsDeleted)
            && CountTaken(j.snapshotsKept, out.snapshotsKept, r.snapshotsKept)
  {
  }

  /** Old enough and finished enough to drop. */
  predicate Prunable(j: Job, cutoff: int) { j.state.Terminal() && j.created < cutoff }

  /** Newest first, the id breaking ties. */
  predicate NewestFirst(a: Job, b: Job) {
    a.created > b.created || (a.created == b.created && Less(a.id, b.id))
  }

  ghost predicate DistinctIDs(s: set<Job>) {
    forall a, b :: a in s && b in s && a.id == b.id ==> a == b
  }

  lemma NewestFirstIsOrder(s: set<Job>)
    requires DistinctIDs(s)
    ensures StrictOrder(NewestFirst) && ConnectedOn(s, NewestFirst)
  {
    forall x ensures !NewestFirst(x, x) { LessTrichotomy(x.id, x.id); }
    forall x, y, z | NewestFirst(x, y) && NewestFirst(y, z) ensures NewestFirst(x, z) {
      if x.created == y.created == z.created { LessTransitive(x.id, y.id, z.id); }
    }
    forall x, y | x in s && y in s && x != y ensures NewestFirst(x, y) || NewestFirst(y, x) {
      LessTrichotomy(x.id, y.id);
    }
  }

  /** The one newest-first list of some jobs. */
  ghost function History(s: set<Job>): (list: seq<Job>)
    requires DistinctIDs(s)
    ensures Lists(list, s, NewestFirst)
  {
    NewestFirstIsOrder(s);
    SortedOf(s, NewestFirst)
  }

  lemma HistoryIs(list: seq<Job>, s: set<Job>)
    requires DistinctIDs(s) && Lists(list, s, NewestFirst)
    ensures list == History(s)
  {
    NewestFirstIsOrder(s);
    ListsUnique(list, History(s), s, NewestFirst);
  }

  /** sortNewestFirst. */
  method SortNewestFirst(list: seq<Job>) returns (out: seq<Job>)
    requires DistinctIDs(Elements(list)) && NoRepeats(list)
    ensures out == History(Elements(list))
  {
    NewestFirstIsOrder(Elements(list));
    out := SortedList(Elements(list), NewestFirst);
    HistoryIs(out, Elements(list));
  }

  function ApplyLimit<T>(list: seq<T>, limit: int): seq<T> {
    if limit > 0 && |list| > limit then list[..limit] else list
  }

  // ---- the store as a map from ids to jobs ----

  /** Records are filed under their own id and name a Space. */
  ghost predicate WellKeyed(jobs: map<string, Job>) {
    forall id :: id in jobs ==> jobs[id].id == id && jobs[id].space != "" && id != ""
  }

  /** The jobs of one Space, of one kind unless the kind is empty. */
  function Matching(jobs: map<string, Job>, space: string, kind: string): set<Job> {
    set id | id in jobs && jobs[id].space == space && (kind == "" || jobs[id].kind == kind) :: jobs[id]
  }

  function Unfinished(jobs: map<string, Job>): set<Job> {
    set id | id in jobs && !jobs[id].state.Terminal() :: jobs[id]
  }

  function Lookup(jobs: map<string, Job>, id: string): Result<Job, JobError> {
    if id in jobs then Ok(jobs[id]) else Err(NoSuchJob)
  }

  function LookupInSpace(jobs: map<string, Job>, space: string, id: string): Result<Job, JobError> {
    if id in jobs && jobs[id].space == space then Ok(jobs[id]) else Err(NoSuchJob)
  }

  ghost function Recent(jobs: map<string, Job>, space: string, kind: string, limit: int): seq<Job>
    requires WellKeyed(jobs)
  {
    ApplyLimit(History(Matching(jobs, space, kind)), limit)
  }

  /** Finish refuses a non-terminal outcome and an unknown id. */
  function FinishResult(jobs: map<string, Job>, id: string, out: Outcome): Result<(), JobError> {
    if !out.state.Terminal() then Err(NotTerminal) else if id in jobs then Ok(()) else Err(NoSuchJob)
  }

  function Finished(jobs: map<string, Job>, id: string, out: Outcome, now: int64): map<string, Job> {
    if out.state.Terminal() && id in jobs then jobs[id := ApplyOutcome(jobs[id], out, now)] else jobs
  }

  function PrunableIDs(jobs: map<string, Job>, cutoff: int): set<string> {
    set id | id in jobs && Prunable(jobs[id], cutoff)
  }

  /** What a history prune may do, stores aside: of the jobs before, those that have not ended and those
      from the cutoff on are there afterwards, nothing that is left has changed, and a prune that is done
      has dropped every other job it could see. */
  ghost predicate PrunedHistory(before: map<string, Job>, seen: map<string, Job>, after: map<string, Job>,
                                cutoff: int, done: bool) {
    && (forall id :: id in after ==> id in before && after[id] == before[id])
    && (forall id :: id in before && before[id].state in {NoState, Pending, Running} ==> id in after)
    && (forall id :: id in before && before[id].created >= cutoff ==> id in after)
    && (done ==> forall id :: id in seen && seen[id].state in {Succeeded, Failed} && seen[id].created < cutoff ==> id !in after)
  }

  lemma PrunableIsHistory(before: map<string, Job>, seen: map<string, Job>, gone: set<string>, cutoff: int, done: bool)
    requires forall id :: id in seen ==> id in before && seen[id] == before[id]
    requires gone <= PrunableIDs(seen, cutoff) && (done ==> gone == PrunableIDs(seen, cutoff))
    ensures PrunedHistory(before, seen, before - gone, cutoff, done)
    ensures Unfinished(before - gone) == Unfinished(before)
  {
    forall id | id in before && (before[id].state in {NoState, Pending, Running} || before[id].created >= cutoff)
      ensures id !in gone
    {
      assert id in gone ==> id in PrunableIDs(seen, cutoff);
    }
    assert forall id :: id in before && !before[id].state.Terminal() ==> id in before - gone;
  }

  /** An outcome that does not end the run is refused and changes nothing; one that does is taken by the
      job it names, and by no other. */
  lemma FinishIs(jobs: map<string, Job>, id: string, out: Outcome, now: int64)
    ensures var r, after := FinishResult(jobs, id, out), Finished(jobs, id, out, now);
            && (out.state in {NoState, Pending, Running} ==> r == Err(NotTerminal) && after == jobs)
            && (out.state in {Succeeded, Failed} && id !in jobs ==> r == Err(NoSuchJob) && after == jobs)
            && (out.state in {Succeeded, Failed} && id in jobs ==>
                  r == Ok(()) && after == jobs[id := ApplyOutcome(jobs[id], out, now)])
  {
  }

  class MemoryStore {
    var jobs: map<string, Job>

    constructor ()
      ensures jobs == map[]
    {
      jobs := map[];
    }

    method Create(j: Job, now: int64, freshID: string) returns (r: Result<Job, JobError>)
      modifies this
      ensures r == Err(Invalid) <==> j.space == "" || j.kind == ""
      ensures r.Ok? ==> Completes(j, now, freshID, r.value)
      ensures Prepare(j, now, freshID).Err? ==> r == Err(Invalid) && jobs == old(jobs)
      ensures Prepare(j, now, freshID).Ok? ==>
                var p := Prepare(j, now, freshID).value;
                if p.id in old(jobs) then r == Err(DuplicateID) && jobs == old(jobs)
                else r == Ok(p) && jobs == old(jobs)[p.id := p]
    {
      var p := Prepare(j, now, freshID);
      if p.Err? {
        return Err(Invalid);
      }
      if p.value.id in jobs {
        return Err(DuplicateID);
      }
      jobs := jobs[p.value.id := p.value];
      r := p;
    }

    method Get(id: string) returns (r: Result<Job, JobError>)
      ensures r == Lookup(jobs, id)
    {
      r := if id in jobs then Ok(jobs[id]) else Err(NoSuchJob);
    }

    method GetInSpace(space: string, id: string) returns (r: Result<Job, JobError>)
      ensures r == LookupInSpace(jobs, space, id)
    {
      var j := Get(id);
      r := if j.Err? || j.value.space != space then Err(NoSuchJob) else j;
    }

    /** list: at most `limit` of a Space's jobs, newest first; no limit when it is not positive. */
    method ListRecent(space: string, kind: string, limit: int) returns (out: seq<Job>)
      requires WellKeyed(jobs)
      ensures out == Recent(jobs, space, kind, limit)
    {
      NewestFirstIsOrder(Matching(jobs, space, kind));
      var list := SortedList(Matching(jobs, space, kind), NewestFirst);
      HistoryIs(list, Matching(jobs, space, kind));
      out := ApplyLimit(list, limit);
    }

    /** ListRecentOfKind: an empty kind matches every kind. */
    method ListRecentOfKind(space: string, kind: string, limit: int) returns (r: Result<seq<Job>, JobError>)
      requires WellKeyed(jobs)
      ensures r == Ok(Recent(jobs, space, kind, limit))
    {
      var out := ListRecent(space, kind, limit);
      r := Ok(out);
    }

    method ListRunning() returns (out: seq<Job>)
      requires WellKeyed(jobs)
      ensures out == History(Unfinished(jobs))
    {
      NewestFirstIsOrder(Unfinished(jobs));
      out := SortedList(Unfinished(jobs), NewestFirst);
      HistoryIs(out, Unfinished(jobs));
    }

    method Finish(id: string, out: Outcome, now: int64) returns (r: Result<(), JobError>)
      modifies this
      ensures r == FinishResult(old(jobs), id, out) && jobs == Finished(old(jobs), id, out, now)
    {
      if !out.state.Terminal() {
        return Err(NotTerminal);
      }
      if id !in jobs {
        return Err(NoSuchJob);
      }
      jobs := jobs[id := ApplyOutcome(jobs[id], out, now)];
      r := Ok(());
    }

    /** PruneBefore drops exactly the prunable jobs and says how many there were. */
    method PruneBefore(cutoff: int) returns (removed: nat)
      modifies this
      ensures jobs == old(jobs) - PrunableIDs(old(jobs), cutoff)
      ensures removed == |PrunableIDs(old(jobs), cutoff)| == |old(jobs)| - |jobs|
      ensures PrunedHistory(old(jobs), old(jobs), jobs, cutoff, true) && Unfinished(jobs) == Unfinished(old(jobs))
    {
      hide Prunable, PrunedHistory, Unfinished;
      removed := 0;
      var rest := jobs.Keys;
      ghost var was, dropped: set<string> := jobs, {};
      while rest != {}
        invariant rest <= was.Keys && dropped !! rest
        invariant jobs == was - dropped && removed == |dropped|
        invariant forall id :: id in was && id !in rest ==> (id in dropped <==> Prunable(was[id], cutoff))
        invariant dropped <= was.Keys
        decreases rest
      {
        var id :| id in rest;
        if Prunable(jobs[id], cutoff) {
          jobs := jobs - {id};
          removed := removed + 1;
          dropped := dropped + {id};
        }
        rest := rest - {id};
      }
      assert dropped == PrunableIDs(was, cutoff);
      assert |was.Keys - dropped| == |was.Keys| - |dropped| && jobs.Keys == was.Keys - dropped;
      PrunableIsHistory(was, was, dropped, cutoff, true);
    }
  }
}
