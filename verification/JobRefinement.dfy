/** The durable job store behaves as the in-memory one over any sequence of operations
    (internal/jobs/state.go against internal/jobs/memory.go). */
module JobRefinement {
  import opened Wrappers
  import opened Text
  import opened Jobs
  import opened JobKeys
  import opened JobStore

  datatype Op =
    | Create(j: Job, now: int64, freshID: string)
    | Get(id: string)
    | GetInSpace(space: string, id: string)
    | ListRecent(space: string, kind: string, limit: int)
    | ListRecentOfKind(space: string, kind: string, limit: int)
    | ListRunning
    | Finish(id: string, out: Outcome, now: int64)
    | PruneBefore(cutoff: int)

  datatype Answer =
    | OneJob(r: Result<Job, JobError>)
    | SomeJobs(list: seq<Job>)
    | Listed(listed: Result<seq<Job>, JobError>)
    | Done(result: Result<(), JobError>)
    | Count(n: nat)

  /** What the stores are compared on: a new record has a fresh hex id, a known kind and a non-negative
      time; a listing names a Space, its limit does not cut through one creation time, and a listing by
      kind names a kind. */
  ghost predicate Compared(jobs: map<string, Job>, op: Op)
    requires WellKeyed(jobs)
  {
    match op
    case Create(j, now, freshID) =>
      Prepare(j, now, freshID).Ok? ==> Nameable(Prepare(j, now, freshID).value) && Prepare(j, now, freshID).value.id !in jobs
    case ListRecent(space, kind, limit) => space != "" && CleanCut(Recent(jobs, space, kind, 0), limit)
    case ListRecentOfKind(space, kind, limit) => space != "" && kind != "" && CleanCut(Recent(jobs, space, kind, 0), limit)
    case _ => true
  }

  /** The answer, as a function of the map of jobs. */
  ghost function AnswerOf(jobs: map<string, Job>, op: Op): Answer
    requires WellKeyed(jobs)
  {
    match op
    case Create(j, now, freshID) => OneJob(Prepare(j, now, freshID))
    case Get(id) => OneJob(Lookup(jobs, id))
    case GetInSpace(space, id) => OneJob(LookupInSpace(jobs, space, id))
    case ListRecent(space, kind, limit) => SomeJobs(Recent(jobs, space, kind, limit))
    case ListRecentOfKind(space, kind, limit) => Listed(Ok(Recent(jobs, space, kind, limit)))
    case ListRunning => SomeJobs(History(Unfinished(jobs)))
    case Finish(id, out, _) => Done(FinishResult(jobs, id, out))
    case PruneBefore(cutoff) => Count(|PrunableIDs(jobs, cutoff)|)
  }

  /** The map of jobs afterwards. */
  function JobsAfter(jobs: map<string, Job>, op: Op): map<string, Job> {
    match op
    case Create(j, now, freshID) =>
      var p := Prepare(j, now, freshID);
      if p.Ok? then jobs[p.value.id := p.value] else jobs
    case Finish(id, out, now) => Finished(jobs, id, out, now)
    case PruneBefore(cutoff) => jobs - PrunableIDs(jobs, cutoff)
    case _ => jobs
  }

  lemma StaysWellKeyed(jobs: map<string, Job>, op: Op)
    requires WellKeyed(jobs) && Compared(jobs, op)
    ensures WellKeyed(JobsAfter(jobs, op))
  {
    hide Recent, CleanCut;
    if op.Create? && Prepare(op.j, op.now, op.freshID).Ok? {
      var p := Prepare(op.j, op.now, op.freshID).value;
      assert IsHexID(p.id) && p.space != "";
    }
  }

  ghost predicate AllCompared(jobs: map<string, Job>, ops: seq<Op>)
    requires WellKeyed(jobs)
    decreases |ops|
  {
    ops == [] ||
    (Compared(jobs, ops[0]) && (StaysWellKeyed(jobs, ops[0]); AllCompared(JobsAfter(jobs, ops[0]), ops[1..])))
  }

  ghost function AnswersOf(jobs: map<string, Job>, ops: seq<Op>): (answers: seq<Answer>)
    requires WellKeyed(jobs) && AllCompared(jobs, ops)
    ensures |answers| == |ops|
    decreases |ops|
  {
    if ops == [] then []
    else
      StaysWellKeyed(jobs, ops[0]);
      [AnswerOf(jobs, ops[0])] + AnswersOf(JobsAfter(jobs, ops[0]), ops[1..])
  }

  method OnMemory(m: MemoryStore, op: Op) returns (a: Answer)
    requires WellKeyed(m.jobs) && Compared(m.jobs, op)
    modifies m
    ensures a == AnswerOf(old(m.jobs), op) && m.jobs == JobsAfter(old(m.jobs), op) && WellKeyed(m.jobs)
  {
    hide Recent, CleanCut, Nameable, WellKeyed, History, Unfinished, ApplyOutcome, PrunableIDs;
    StaysWellKeyed(m.jobs, op);
    match op
    case Create(j, now, freshID) =>
      var r := m.Create(j, now, freshID);
      a := OneJob(r);
      PrepareErr(j, now, freshID);
    case Get(id) => var r := m.Get(id); a := OneJob(r);
    case GetInSpace(space, id) => var r := m.GetInSpace(space, id); a := OneJob(r);
    case ListRecent(space, kind, limit) => var r := m.ListRecent(space, kind, limit); a := SomeJobs(r);
    case ListRecentOfKind(space, kind, limit) => var r := m.ListRecentOfKind(space, kind, limit); a := Listed(r);
    case ListRunning => var r := m.ListRunning(); a := SomeJobs(r);
    case Finish(id, out, now) => var r := m.Finish(id, out, now); a := Done(r);
    case PruneBefore(cutoff) => var n := m.PruneBefore(cutoff); a := Count(n);
  }

  lemma PrepareErr(j: Job, now: int64, freshID: string)
    ensures Prepare(j, now, freshID).Err? ==> Prepare(j, now, freshID) == Err(Invalid)
  {
  }

  /** A fresh nameable job collides with no key and no cached key. */
  lemma FreshKey(docs: map<string, Job>, index: map<string, string>, terminal: set<string>, p: Job)
    requires WellFiled(docs) && NothingStale(docs, index, terminal) && Nameable(p) && p.id !in JobsOf(docs)
    ensures DocumentKey(p) !in docs && DocumentKey(p) !in terminal
  {
    hide Filed, DocumentKey, Nameable, IdFromKey, CreatedFromKey, KindFromKey, JobsOf;
    var key := DocumentKey(p);
    FiledUnderOwnName(p);
    KeyFacts(key, p);
    forall k | k in docs ensures k != key {
      KeyFacts(k, docs[k]);
      assert IsIdOf(docs, k, docs[k].id);
    }
  }

  method OnState(s: StateStore, op: Op) returns (a: Answer)
    requires s.Exact() && Compared(JobsOf(s.docs), op)
    modifies s
    ensures s.Exact() && a == AnswerOf(old(JobsOf(s.docs)), op) && JobsOf(s.docs) == JobsAfter(old(JobsOf(s.docs)), op)
  {
    hide Recent, RecentByKey, CleanCut, Nameable, WellFiled, JobsOf, IndexAgrees, TerminalAgrees, History, Unfinished,
         ApplyOutcome, PrunableIDs, DocumentKey;
    match op
    case Create(j, now, freshID) =>
      PrepareErr(j, now, freshID);
      var p := Prepare(j, now, freshID);
      if p.Ok? {
        FreshKey(s.docs, s.index, s.terminal, p.value);
      }
      var r := s.Create(j, now, freshID);
      a := OneJob(r);
    case Get(id) => var r := s.Get(id); a := OneJob(r);
    case GetInSpace(space, id) => var r := s.GetInSpace(space, id); a := OneJob(r);
    case ListRecent(space, kind, limit) =>
      RecentByKeyAgrees(s.docs, space, kind, limit);
      var r := s.ListRecent(space, kind, limit, {});
      a := SomeJobs(r);
    case ListRecentOfKind(space, kind, limit) =>
      RecentByKeyAgrees(s.docs, space, kind, limit);
      var r := s.ListRecentOfKind(space, kind, limit, {});
      a := Listed(r);
    case ListRunning => var r := s.ListRunning({}); a := SomeJobs(r);
    case Finish(id, out, now) => var r := s.Finish(id, out, now); a := Done(r);
    case PruneBefore(cutoff) => var n, ok, gone := s.PruneBefore(cutoff, {}, true); a := Count(n);
  }

  /** A listing by kind is answered alike exactly when it names a kind: the durable store refuses the empty
      one, the reference lists every kind. */
  method OfKindAgreesIff(s: StateStore, m: MemoryStore, space: string, kind: string, limit: int)
    returns (durable: Result<seq<Job>, JobError>, reference: Result<seq<Job>, JobError>)
    requires s.Exact() && WellKeyed(m.jobs) && JobsOf(s.docs) == m.jobs
    requires space != "" && CleanCut(Recent(m.jobs, space, kind, 0), limit)
    modifies s
    ensures s.Exact() && (durable == reference <==> kind != "")
  {
    hide Recent, RecentByKey, CleanCut, WellFiled, JobsOf, IndexAgrees, TerminalAgrees, History;
    RecentByKeyAgrees(s.docs, space, kind, limit);
    durable := s.ListRecentOfKind(space, kind, limit, {});
    reference := m.ListRecentOfKind(space, kind, limit);
  }

  lemma FirstAnswer(jobs: map<string, Job>, ops: seq<Op>)
    requires WellKeyed(jobs) && ops != [] && AllCompared(jobs, ops)
    ensures Compared(jobs, ops[0]) && WellKeyed(JobsAfter(jobs, ops[0])) && AllCompared(JobsAfter(jobs, ops[0]), ops[1..])
    ensures AnswersOf(jobs, ops) == [AnswerOf(jobs, ops[0])] + AnswersOf(JobsAfter(jobs, ops[0]), ops[1..])
  {
    hide Compared, AnswerOf, JobsAfter, WellKeyed;
    StaysWellKeyed(jobs, ops[0]);
  }

  /** Both stores, from any state they agree on, answer any sequence of operations alike and end in
      agreement. */
  method ReplayBoth(s: StateStore, m: MemoryStore, ops: seq<Op>) returns (durable: seq<Answer>, reference: seq<Answer>)
    requires s.Exact() && WellKeyed(m.jobs) && JobsOf(s.docs) == m.jobs && AllCompared(m.jobs, ops)
    modifies s, m
    ensures s.Exact() && WellKeyed(m.jobs) && JobsOf(s.docs) == m.jobs
    ensures durable == reference == AnswersOf(old(m.jobs), ops) && m.jobs == JobsAfterAll(old(m.jobs), ops)
  {
    hide WellKeyed, Compared, AnswerOf, JobsAfter, JobsOf, AllCompared, AnswersOf, WellFiled, IndexAgrees, TerminalAgrees,
         NothingStale;
    durable, reference := [], [];
    ghost var start := m.jobs;
    assert ops[0..] == ops;
    assert [] + AnswersOf(start, ops) == AnswersOf(start, ops);
    for i := 0 to |ops|
      invariant s.Exact() && WellKeyed(m.jobs) && JobsOf(s.docs) == m.jobs
      invariant AllCompared(m.jobs, ops[i..]) && durable == reference
      invariant JobsAfterAll(start, ops) == JobsAfterAll(m.jobs, ops[i..])
      invariant AnswersOf(start, ops) == durable + AnswersOf(m.jobs, ops[i..])
    {
      ghost var rest := ops[i..];
      assert rest[0] == ops[i] && rest[1..] == ops[i + 1..];
      FirstAnswer(m.jobs, rest);
      var a := OnState(s, ops[i]);
      var b := OnMemory(m, ops[i]);
      ghost var tail := AnswersOf(m.jobs, ops[i + 1..]);
      assert durable + ([a] + tail) == (durable + [a]) + tail;
      durable, reference := durable + [a], reference + [b];
    }
    NoAnswers(m.jobs, ops[|ops|..]);
    assert durable + [] == durable;
  }

  function JobsAfterAll(jobs: map<string, Job>, ops: seq<Op>): map<string, Job>
    decreases |ops|
  {
    if ops == [] then jobs else JobsAfterAll(JobsAfter(jobs, ops[0]), ops[1..])
  }

  /** The operation records how the run with this id ended. */
  predicate Ends(op: Op, id: string) { op.Finish? && op.id == id && op.out.state in {Succeeded, Failed} }

  /** Whatever else is done to the store, prunes included, a job that has not ended stays as it is until
      its own outcome is recorded. */
  lemma {:induction false} OnlyItsOutcomeEndsIt(jobs: map<string, Job>, ops: seq<Op>, id: string)
    requires WellKeyed(jobs) && AllCompared(jobs, ops)
    requires id in jobs && jobs[id].state in {NoState, Pending, Running}
    requires forall i :: 0 <= i < |ops| ==> !Ends(ops[i], id)
    ensures id in JobsAfterAll(jobs, ops) && JobsAfterAll(jobs, ops)[id] == jobs[id]
    decreases |ops|
  {
    hide Recent, CleanCut, Nameable, ApplyOutcome;
    if ops != [] {
      StaysWellKeyed(jobs, ops[0]);
      assert !Ends(ops[0], id);
      OnlyItsOutcomeEndsIt(JobsAfter(jobs, ops[0]), ops[1..], id);
    }
  }

  /** A job never changes its id, Space, kind, trigger or time, and leaves only by a prune with a cutoff
      past that time. */
  lemma {:induction false} OnlyOldJobsLeave(jobs: map<string, Job>, ops: seq<Op>, id: string)
    requires WellKeyed(jobs) && AllCompared(jobs, ops) && id in jobs
    requires forall i :: 0 <= i < |ops| && ops[i].PruneBefore? ==> ops[i].cutoff <= jobs[id].created
    ensures id in JobsAfterAll(jobs, ops)
    ensures var was, j := jobs[id], JobsAfterAll(jobs, ops)[id];
            j.id == was.id && j.space == was.space && j.kind == was.kind && j.trigger == was.trigger && j.created == was.created
    decreases |ops|
  {
    hide Recent, CleanCut, Nameable;
    if ops != [] {
      StaysWellKeyed(jobs, ops[0]);
      OnlyOldJobsLeave(JobsAfter(jobs, ops[0]), ops[1..], id);
    }
  }

  lemma NoAnswers(jobs: map<string, Job>, ops: seq<Op>)
    requires WellKeyed(jobs) && ops == [] && AllCompared(jobs, ops)
    ensures AnswersOf(jobs, ops) == []
  {
  }
}
