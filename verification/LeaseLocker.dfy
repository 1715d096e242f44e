/** The per-Space run lock and its recovery (internal/jobs/lease.go): a local reservation backed by
    an expiring lease document, and the two passes that close out runs nothing executes any more.
    One process acts at a time here; RunProtocol interleaves the same steps. */
module LeaseLocker {
  import opened Wrappers
  import opened Ordered
  import opened Text
  import opened Jobs

  datatype Lease = Lease(space: string, owner: string, acquired: int, expires: int)

  datatype LockError = SpaceRequired | Locked | StoreFailed

  /** What can go wrong with the stores during a call: the lease documents and job records that may not be
      readable, and whether anything else may fail. A write that fails may have landed. */
  datatype Outage = Outage(leases: set<string>, jobs: set<string>, other: bool)

  const NO_OUTAGE := Outage({}, {}, false)

  const MESSAGE_INTERRUPTED := "the run was interrupted before it finished"

  const INTERRUPTED := Outcome(Failed, MESSAGE_INTERRUPTED, "", 0, 0, 0, 0)

  /** A lease that has not expired: the instant of expiry itself is expired. */
  predicate LiveAt(leases: map<string, Lease>, space: string, now: int) {
    space in leases && now < leases[space].expires
  }

  ghost predicate WellLeased(leases: map<string, Lease>) {
    forall s :: s in leases ==> leases[s].space == s && s != ""
  }

  // ---- what recovery does to the job records ----

  /** A record as recovery closes it: failed, with the interrupted message, otherwise as it was. */
  predicate ClosedOut(before: Job, after: Job) {
    after == before.(state := Failed, error := MESSAGE_INTERRUPTED, updated := after.updated, finished := after.finished)
  }

  /** The hit records were unfinished and are closed out; every other record is untouched. */
  ghost predicate Closes(before: map<string, Job>, after: map<string, Job>, hit: set<string>) {
    && after.Keys == before.Keys && hit <= before.Keys
    && (forall id :: id in hit ==> !before[id].state.Terminal() && ClosedOut(before[id], after[id]))
    && (forall id :: id in before && id !in hit ==> after[id] == before[id])
  }

  lemma ClosesOne(before: map<string, Job>, after: map<string, Job>, hit: set<string>, id: string, now: int64)
    requires Closes(before, after, hit) && id in before && id !in hit && !before[id].state.Terminal()
    ensures Closes(before, Finished(after, id, INTERRUPTED, now), hit + {id})
  {
  }

  lemma ClosesKeepsKeys(before: map<string, Job>, after: map<string, Job>, hit: set<string>)
    requires Closes(before, after, hit) && WellKeyed(before)
    ensures WellKeyed(after)
    ensures forall id :: id in before ==> after[id].space == before[id].space
  {
  }

  lemma ClosesBoth(a: map<string, Job>, b: map<string, Job>, c: map<string, Job>, h: set<string>, g: set<string>)
    requires Closes(a, b, h) && Closes(b, c, g)
    ensures Closes(a, c, h + g) && |h + g| == |h| + |g|
  {
    assert h !! g;
  }

  /** The unfinished records of one Space. */
  function UnfinishedIn(jobs: map<string, Job>, space: string): set<string> {
    set id | id in jobs && jobs[id].space == space && !jobs[id].state.Terminal()
  }

  lemma UnfinishedReadable(jobs: map<string, Job>, unread: set<string>, space: string)
    ensures UnfinishedIn(jobs - unread, space) == UnfinishedIn(jobs, space) - unread
  {
  }

  lemma ReadableKeyed(jobs: map<string, Job>, unread: set<string>)
    requires WellKeyed(jobs)
    ensures WellKeyed(jobs - unread)
  {
  }

  lemma ClosesNothing(jobs: map<string, Job>)
    ensures Closes(jobs, jobs, {})
  {
  }

  /** A Space's history lists each of its jobs once. */
  lemma ListedOnce(jobs: map<string, Job>, space: string, list: seq<Job>)
    requires WellKeyed(jobs) && list == Recent(jobs, space, "", 0)
    ensures forall j :: 0 <= j < |list| ==> list[j].id in jobs && jobs[list[j].id] == list[j] && list[j].space == space
    ensures forall id :: id in UnfinishedIn(jobs, space) <==> exists j :: 0 <= j < |list| && list[j].id == id && !list[j].state.Terminal()
    ensures forall i, j :: 0 <= i < j < |list| ==> list[i].id != list[j].id
  {
    hide History;
    NewestFirstIsOrder(Matching(jobs, space, ""));
    forall j | 0 <= j < |list| ensures list[j].id in jobs && jobs[list[j].id] == list[j] && list[j].space == space {
      assert list[j] in Elements(list);
    }
    forall id | id in UnfinishedIn(jobs, space) ensures exists j :: 0 <= j < |list| && list[j].id == id && !list[j].state.Terminal() {
      assert jobs[id] in Elements(list);
    }
    forall i, j | 0 <= i < j < |list| ensures list[i].id != list[j].id {
      assert NewestFirst(list[i], list[j]);
    }
  }

  /** After i jobs of a Space's history: the unfinished ones among them are hit. */
  ghost predicate HitSoFar(jobs: map<string, Job>, space: string, list: seq<Job>, i: nat, hit: set<string>) {
    && i <= |list|
    && (forall j :: 0 <= j < |list| ==> list[j].id in jobs && jobs[list[j].id] == list[j] && list[j].space == space)
    && (forall j, k :: 0 <= j < k < |list| ==> list[j].id != list[k].id)
    && (forall id :: id in UnfinishedIn(jobs, space) ==> exists j :: 0 <= j < |list| && list[j].id == id)
    && (forall id :: id in hit <==> exists j :: 0 <= j < i && list[j].id == id && !list[j].state.Terminal())
  }

  lemma HitNone(jobs: map<string, Job>, space: string, list: seq<Job>)
    requires WellKeyed(jobs) && list == Recent(jobs, space, "", 0)
    ensures HitSoFar(jobs, space, list, 0, {})
  {
    hide History, Matching, UnfinishedIn;
    ListedOnce(jobs, space, list);
  }

  lemma HitStep(jobs: map<string, Job>, space: string, list: seq<Job>, i: nat, hit: set<string>)
    requires HitSoFar(jobs, space, list, i, hit) && i < |list|
    ensures list[i].state.Terminal() ==> HitSoFar(jobs, space, list, i + 1, hit)
    ensures !list[i].state.Terminal() ==> HitSoFar(jobs, space, list, i + 1, hit + {list[i].id})
    ensures list[i].id in jobs && jobs[list[i].id] == list[i] && list[i].id !in hit
  {
    hide UnfinishedIn;
  }

  lemma HitIsUnfinished(jobs: map<string, Job>, space: string, list: seq<Job>, i: nat, hit: set<string>)
    requires HitSoFar(jobs, space, list, i, hit)
    ensures hit <= UnfinishedIn(jobs, space) && (i == |list| ==> hit == UnfinishedIn(jobs, space))
  {
    forall id | id in hit ensures id in UnfinishedIn(jobs, space) {
      var j :| 0 <= j < i && list[j].id == id && !list[j].state.Terminal();
    }
    if i == |list| {
      forall id | id in UnfinishedIn(jobs, space) ensures id in hit {
        var j :| 0 <= j < |list| && list[j].id == id;
      }
    }
  }

  /** A Space whose lease has run out and whose run this process does not hold. */
  predicate Abandoned(leases: map<string, Lease>, local: map<string, nat>, space: string, now: int) {
    space in leases && leases[space].expires <= now && space !in local
  }

  ghost predicate OnlyAbandoned(before: map<string, Job>, hit: set<string>, local: map<string, nat>,
                                leases: map<string, Lease>, now: int) {
    forall id :: id in hit ==> id in before && Abandoned(leases, local, before[id].space, now)
  }

  /** Leases only disappear, and only abandoned ones. */
  ghost predicate Reaped(before: map<string, Lease>, after: map<string, Lease>, local: map<string, nat>, now: int) {
    && (forall s :: s in after ==> s in before && after[s] == before[s])
    && (forall s :: s in before && s !in after ==> Abandoned(before, local, s, now))
  }

  /** After i leases of the pass: each is still due, or was passed over, or its Space is settled. */
  ghost predicate SweptSoFar(leased: map<string, Lease>, leases: map<string, Lease>, jobs: map<string, Job>,
                             local: map<string, nat>, now: int, keys: seq<string>, i: nat, skipped: set<string>) {
    && i <= |keys| && Ascending(keys, Less)
    && (forall j :: i <= j < |keys| ==> keys[j] in leases && keys[j] in leased && leases[keys[j]] == leased[keys[j]])
    && (forall j :: 0 <= j < i && Abandoned(leased, local, keys[j], now) && keys[j] !in skipped ==> Settled(leases, jobs, keys[j]))
  }

  ghost predicate Settled(leases: map<string, Lease>, jobs: map<string, Job>, space: string) {
    space !in leases && UnfinishedIn(jobs, space) == {}
  }

  lemma NothingAbandoned(jobs: map<string, Job>, local: map<string, nat>, leases: map<string, Lease>, now: int)
    ensures OnlyAbandoned(jobs, {}, local, leases, now) && Reaped(leases, leases, local, now)
  {
  }

  lemma SweepStarts(jobs: map<string, Job>, local: map<string, nat>, leases: map<string, Lease>, keys: seq<string>,
                    now: int, skipped: set<string>)
    requires keys == Listing(leases.Keys)
    ensures SweptSoFar(leases, leases, jobs, local, now, keys, 0, skipped)
    ensures OnlyAbandoned(jobs, {}, local, leases, now) && Reaped(leases, leases, local, now)
  {
    hide Less;
    forall j | 0 <= j < |keys| ensures keys[j] in leases { assert keys[j] in keys; }
  }

  lemma SweepAt(leased: map<string, Lease>, leases: map<string, Lease>, jobs: map<string, Job>,
                local: map<string, nat>, now: int, keys: seq<string>, i: nat, skipped: set<string>)
    requires SweptSoFar(leased, leases, jobs, local, now, keys, i, skipped) && i < |keys| && WellLeased(leases)
    ensures keys[i] in leases && keys[i] in leased && leases[keys[i]] == leased[keys[i]] && leases[keys[i]].space == keys[i]
    ensures Abandoned(leased, local, keys[i], now) <==> leases[keys[i]].expires <= now && keys[i] !in local
  {
  }

  lemma SweepSkips(leased: map<string, Lease>, leases: map<string, Lease>, jobs: map<string, Job>,
                   local: map<string, nat>, now: int, keys: seq<string>, i: nat, skipped: set<string>)
    requires SweptSoFar(leased, leases, jobs, local, now, keys, i, skipped) && i < |keys|
    ensures keys[i] in skipped ==> SweptSoFar(leased, leases, jobs, local, now, keys, i + 1, skipped)
  {
  }

  lemma SweepPasses(leased: map<string, Lease>, leases: map<string, Lease>, jobs: map<string, Job>,
                    local: map<string, nat>, now: int, keys: seq<string>, i: nat, skipped: set<string>)
    requires SweptSoFar(leased, leases, jobs, local, now, keys, i, skipped) && i < |keys|
    requires !Abandoned(leased, local, keys[i], now)
    ensures SweptSoFar(leased, leases, jobs, local, now, keys, i + 1, skipped)
  {
  }

  lemma SweepReaps(leased: map<string, Lease>, held: map<string, Lease>, leases: map<string, Lease>,
                   jobs: map<string, Job>, after: map<string, Job>, local: map<string, nat>, now: int, keys: seq<string>,
                   i: nat, outage: Outage, more: set<string>)
    requires SweptSoFar(leased, held, jobs - outage.jobs, local, now, keys, i, outage.leases) && i < |keys|
    requires Closes(jobs, after, more) && UnfinishedIn(jobs, keys[i]) - outage.jobs <= more && leases == held - {keys[i]}
    ensures SweptSoFar(leased, leases, after - outage.jobs, local, now, keys, i + 1, outage.leases)
  {
    hide Less, Closes, UnfinishedIn;
    RanksDistinct(keys, i);
    StillFinished(jobs, after, more, outage.jobs, keys[i]);
    forall j | 0 <= j < i && Abandoned(leased, local, keys[j], now) && keys[j] !in outage.leases
      ensures Settled(leases, after - outage.jobs, keys[j])
    {
      assert Settled(held, jobs - outage.jobs, keys[j]);
      StillFinished(jobs, after, more, outage.jobs, keys[j]);
    }
  }

  /** What could be read and was finished stays so. */
  lemma StillFinished(before: map<string, Job>, after: map<string, Job>, hit: set<string>, unread: set<string>, space: string)
    requires Closes(before, after, hit)
    ensures UnfinishedIn(before - unread, space) == {} ==> UnfinishedIn(after - unread, space) == {}
    ensures UnfinishedIn(before, space) - unread <= hit ==> UnfinishedIn(after - unread, space) == {}
  {
    hide ClosedOut;
    NoneReopened(before, after, hit);
    UnfinishedReadable(before, unread, space);
    UnfinishedReadable(after, unread, space);
  }

  lemma SweepEnds(leased: map<string, Lease>, leases: map<string, Lease>, jobs: map<string, Job>,
                  local: map<string, nat>, now: int, keys: seq<string>, skipped: set<string>)
    requires SweptSoFar(leased, leases, jobs, local, now, keys, |keys|, skipped) && keys == Listing(leased.Keys)
    ensures forall s :: Abandoned(leased, local, s, now) && s !in skipped ==> Settled(leases, jobs, s)
  {
    hide Less, Settled;
    forall s | Abandoned(leased, local, s, now) && s !in skipped ensures Settled(leases, jobs, s) {
      assert s in keys;
    }
  }

  lemma ReapedMore(before: map<string, Lease>, held: map<string, Lease>, after: map<string, Lease>,
                   local: map<string, nat>,
                   key: string, now: int)
    requires Reaped(before, held, local, now) && after in {held, held - {key}}
    requires key in before && Abandoned(before, local, key, now)
    ensures Reaped(before, after, local, now)
  {
  }

  lemma RanksDistinct(keys: seq<string>, i: nat)
    requires Ascending(keys, Less) && i < |keys|
    ensures forall j :: 0 <= j < |keys| && j != i ==> keys[j] != keys[i]
  {
    forall j | 0 <= j < |keys| && j != i ensures keys[j] != keys[i] {
      LessTrichotomy(keys[j], keys[i]);
    }
  }

  lemma MoreAbandoned(was: map<string, Job>, before: map<string, Job>, hit: set<string>, more: set<string>,
                      local: map<string, nat>, leases: map<string, Lease>, space: string, now: int)
    requires Closes(was, before, hit) && OnlyAbandoned(was, hit, local, leases, now)
    requires more <= UnfinishedIn(before, space) && Abandoned(leases, local, space, now)
    ensures OnlyAbandoned(was, hit + more, local, leases, now)
  {
  }

  /** Closing records out finishes them and reopens none. */
  lemma NoneReopened(before: map<string, Job>, after: map<string, Job>, hit: set<string>)
    requires Closes(before, after, hit)
    ensures forall s :: UnfinishedIn(after, s) == UnfinishedIn(before, s) - hit
  {
  }

  /** The lease pass after i leases: what it has done and what is settled. */
  ghost predicate LeasePassAt(was: map<string, Job>, leased: map<string, Lease>, jobs: map<string, Job>,
                              leases: map<string, Lease>, local: map<string, nat>, now: int, keys: seq<string>, i: nat,
                              hit: set<string>, outage: Outage) {
    && Closes(was, jobs, hit) && OnlyAbandoned(was, hit, local, leased, now) && Reaped(leased, leases, local, now)
    && SweptSoFar(leased, leases, jobs - outage.jobs, local, now, keys, i, outage.leases)
  }

  lemma LeasePassStarts(was: map<string, Job>, leased: map<string, Lease>, local: map<string, nat>, now: int,
                        keys: seq<string>, outage: Outage)
    requires keys == Listing(leased.Keys)
    ensures LeasePassAt(was, leased, was, leased, local, now, keys, 0, {}, outage)
  {
    hide SweptSoFar, Closes, OnlyAbandoned, Reaped;
    ClosesNothing(was);
    NothingAbandoned(was, local, leased, now);
    SweepStarts(was - outage.jobs, local, leased, keys, now, outage.leases);
  }

  lemma LeasePassSkips(was: map<string, Job>, leased: map<string, Lease>, jobs: map<string, Job>,
                       leases: map<string, Lease>, local: map<string, nat>, now: int, keys: seq<string>, i: nat,
                       hit: set<string>, outage: Outage)
    requires LeasePassAt(was, leased, jobs, leases, local, now, keys, i, hit, outage) && i < |keys|
    requires keys[i] in outage.leases || !Abandoned(leased, local, keys[i], now)
    ensures LeasePassAt(was, leased, jobs, leases, local, now, keys, i + 1, hit, outage)
  {
    hide SweptSoFar, Closes, OnlyAbandoned, Reaped, Abandoned;
    if keys[i] in outage.leases {
      SweepSkips(leased, leases, jobs - outage.jobs, local, now, keys, i, outage.leases);
    } else {
      SweepPasses(leased, leases, jobs - outage.jobs, local, now, keys, i, outage.leases);
    }
  }

  /** One abandoned Space: what was closed there adds up, and a completed turn settles it. */
  lemma LeasePassReaps(was: map<string, Job>, leased: map<string, Lease>, jobs: map<string, Job>, after: map<string, Job>,
                       held: map<string, Lease>, leases: map<string, Lease>, local: map<string, nat>, now: int,
                       keys: seq<string>, i: nat, hit: set<string>, more: set<string>, outage: Outage)
    requires LeasePassAt(was, leased, jobs, held, local, now, keys, i, hit, outage) && i < |keys|
    requires keys[i] in leased && Abandoned(leased, local, keys[i], now)
    requires Closes(jobs, after, more) && more <= UnfinishedIn(jobs, keys[i]) && leases in {held, held - {keys[i]}}
    ensures Closes(was, after, hit + more) && |hit + more| == |hit| + |more|
    ensures OnlyAbandoned(was, hit + more, local, leased, now) && Reaped(leased, leases, local, now)
    ensures UnfinishedIn(jobs, keys[i]) - outage.jobs <= more && leases == held - {keys[i]}
            ==> LeasePassAt(was, leased, after, leases, local, now, keys, i + 1, hit + more, outage)
  {
    hide SweptSoFar, Closes, OnlyAbandoned, Reaped, Abandoned, UnfinishedIn;
    ClosesBoth(was, jobs, after, hit, more);
    MoreAbandoned(was, jobs, hit, more, local, leased, keys[i], now);
    ReapedMore(leased, held, leases, local, keys[i], now);
    if UnfinishedIn(jobs, keys[i]) - outage.jobs <= more && leases == held - {keys[i]} {
      SweepReaps(leased, held, leases, jobs, after, local, now, keys, i, outage, more);
    }
  }

  lemma LeasePassKey(was: map<string, Job>, leased: map<string, Lease>, jobs: map<string, Job>,
                     leases: map<string, Lease>, local: map<string, nat>, now: int, keys: seq<string>, i: nat,
                     hit: set<string>, outage: Outage)
    requires LeasePassAt(was, leased, jobs, leases, local, now, keys, i, hit, outage) && i < |keys| && WellLeased(leases)
    ensures keys[i] in leases && keys[i] in leased && leases[keys[i]] == leased[keys[i]] && leases[keys[i]].space == keys[i]
    ensures Abandoned(leased, local, keys[i], now) <==> leases[keys[i]].expires <= now && keys[i] !in local
  {
    SweepAt(leased, leases, jobs - outage.jobs, local, now, keys, i, outage.leases);
  }

  lemma LeasePassEnds(was: map<string, Job>, leased: map<string, Lease>, jobs: map<string, Job>,
                      leases: map<string, Lease>, local: map<string, nat>, now: int, keys: seq<string>, hit: set<string>,
                      outage: Outage)
    requires LeasePassAt(was, leased, jobs, leases, local, now, keys, |keys|, hit, outage) && keys == Listing(leased.Keys)
    ensures Closes(was, jobs, hit) && OnlyAbandoned(was, hit, local, leased, now) && Reaped(leased, leases, local, now)
    ensures forall s :: Abandoned(leased, local, s, now) && s !in outage.leases ==> Settled(leases, jobs - outage.jobs, s)
  {
    hide SweptSoFar, Closes, OnlyAbandoned, Reaped, Abandoned, Settled;
    SweepEnds(leased, leases, jobs - outage.jobs, local, now, keys, outage.leases);
  }

  // ---- the orphan pass ----

  predicate HeldSomewhere(local: map<string, nat>, leases: map<string, Lease>, space: string, now: int) {
    space in local || LiveAt(leases, space, now)
  }

  /** Only jobs of Spaces that nothing holds were closed. */
  ghost predicate OnlyUnheld(before: map<string, Job>, hit: set<string>, local: map<string, nat>,
                             leases: map<string, Lease>, now: int) {
    forall id :: id in hit ==> id in before && !HeldSomewhere(local, leases, before[id].space, now)
  }

  /** Every unfinished job belongs to a Space that is held here or by a live lease. */
  ghost predicate AllHeld(jobs: map<string, Job>, local: map<string, nat>, leases: map<string, Lease>, now: int) {
    forall id :: id in jobs && !jobs[id].state.Terminal() ==> HeldSomewhere(local, leases, jobs[id].space, now)
  }

  /** After i unfinished jobs: each was closed or is held, and the rest are as they were. */
  ghost predicate ClosedSoFar(was: map<string, Job>, running: seq<Job>, i: nat, hit: set<string>, local: map<string,
                              nat>,
                              leases: map<string, Lease>, start: int, now: int) {
    && i <= |running|
    && (forall j :: 0 <= j < |running| ==> running[j].id in was && was[running[j].id] == running[j] && !running[j].state.Terminal())
    && (forall j :: i <= j < |running| ==> running[j].id !in hit)
    && (forall j, k :: 0 <= j < k < |running| ==> running[j].id != running[k].id)
    && (forall j :: 0 <= j < i ==> running[j].id in hit || HeldSomewhere(local, leases, running[j].space, start))
  }

  lemma ClosedAtStart(was: map<string, Job>, running: seq<Job>, hit: set<string>, local: map<string, nat>,
                      leases: map<string, Lease>, start: int, now: int)
    requires WellKeyed(was) && (running == [] || exists unread :: running == History(Unfinished(was - unread))) && hit == {}
    ensures ClosedSoFar(was, running, 0, hit, local, leases, start, now) && OnlyUnheld(was, hit, local, leases, now)
  {
    if running != [] {
      var unread :| running == History(Unfinished(was - unread));
      NewestFirstIsOrder(Unfinished(was - unread));
      forall j | 0 <= j < |running|
        ensures running[j].id in was && was[running[j].id] == running[j] && !running[j].state.Terminal()
      {
        assert running[j] in Elements(running);
      }
      forall j, k | 0 <= j < k < |running| ensures running[j].id != running[k].id {
        assert NewestFirst(running[j], running[k]);
      }
    }
  }

  lemma ClosedPasses(was: map<string, Job>, running: seq<Job>, i: nat, hit: set<string>, local: map<string, nat>,
                     leases: map<string, Lease>, start: int, prior: int, now: int)
    requires ClosedSoFar(was, running, i, hit, local, leases, start, prior) && i < |running| && start <= now
    requires running[i].space in local || LiveAt(leases, running[i].space, now)
    ensures ClosedSoFar(was, running, i + 1, hit, local, leases, start, now)
  {
  }

  lemma ClosedHits(was: map<string, Job>, running: seq<Job>, i: nat, hit: set<string>, local: map<string, nat>,
                   leases: map<string, Lease>, start: int, prior: int, now: int)
    requires ClosedSoFar(was, running, i, hit, local, leases, start, prior) && i < |running|
    ensures ClosedSoFar(was, running, i + 1, hit + {running[i].id}, local, leases, start, now)
  {
    hide HeldSomewhere;
  }

  lemma StillUnheld(was: map<string, Job>, hit: set<string>, local: map<string, nat>, leases: map<string, Lease>,
                    prior: int, now: int)
    requires OnlyUnheld(was, hit, local, leases, prior) && prior <= now
    ensures OnlyUnheld(was, hit, local, leases, now)
  {
  }

  lemma OneMoreUnheld(was: map<string, Job>, hit: set<string>, id: string, local: map<string, nat>,
                      leases: map<string, Lease>, now: int)
    requires OnlyUnheld(was, hit, local, leases, now)
    requires id in was && was[id].space !in local && !LiveAt(leases, was[id].space, now)
    ensures OnlyUnheld(was, hit + {id}, local, leases, now)
  {
  }

  lemma RunningIsUnfinished(was: map<string, Job>, jobs: map<string, Job>, running: seq<Job>, i: nat, hit: set<string>,
                            local: map<string, nat>, leases: map<string, Lease>, start: int, now: int)
    requires ClosedSoFar(was, running, i, hit, local, leases, start, now) && i < |running|
    requires Closes(was, jobs, hit)
    ensures running[i].id in was && was[running[i].id] == running[i] && running[i].id !in hit
    ensures running[i].id in jobs && jobs[running[i].id] == was[running[i].id] && !was[running[i].id].state.Terminal()
  {
  }

  lemma ClosedAtEnd(was: map<string, Job>, jobs: map<string, Job>, running: seq<Job>, hit: set<string>,
                    local: map<string, nat>,
                    leases: map<string, Lease>, start: int, now: int, unread: set<string>, outage: set<string>)
    requires WellKeyed(was) && running == History(Unfinished(was - unread)) && Closes(was, jobs, hit) && unread <= outage
    requires ClosedSoFar(was, running, |running|, hit, local, leases, start, now)
    ensures AllHeld(jobs - outage, local, leases, start)
  {
    hide NewestFirst, HeldSomewhere;
    forall id | id in jobs - outage && !jobs[id].state.Terminal() ensures HeldSomewhere(local, leases, jobs[id].space, start) {
      assert id !in hit && id in was - unread;
      assert was[id] in Elements(running);
      var j :| 0 <= j < |running| && running[j] == was[id];
    }
  }

  /** No Space whose lease had run out keeps an unfinished record, unless its lease was unreadable. */
  ghost predicate NoneLeftBehind(leases: map<string, Lease>, jobs: map<string, Job>, local: map<string, nat>,
                                 skipped: set<string>, now: int) {
    forall s :: Abandoned(leases, local, s, now) && s !in skipped ==> UnfinishedIn(jobs, s) == {}
  }

  lemma LeftBehindEarlier(leased: map<string, Lease>, leases: map<string, Lease>, jobs: map<string, Job>,
                          local: map<string, nat>,
                          skipped: set<string>, start: int, now: int)
    requires start <= now && forall s :: Abandoned(leased, local, s, now) && s !in skipped ==> Settled(leases, jobs, s)
    ensures NoneLeftBehind(leased, jobs, local, skipped, start)
  {
    hide UnfinishedIn;
    forall s | Abandoned(leased, local, s, start) && s !in skipped ensures UnfinishedIn(jobs, s) == {} {
      assert Abandoned(leased, local, s, now);
    }
  }

  lemma StillNone(leased: map<string, Lease>, before: map<string, Job>, after: map<string, Job>, hit: set<string>,
                  local: map<string, nat>, outage: Outage, now: int)
    requires NoneLeftBehind(leased, before - outage.jobs, local, outage.leases, now) && Closes(before, after, hit)
    ensures NoneLeftBehind(leased, after - outage.jobs, local, outage.leases, now)
  {
    hide Closes, UnfinishedIn, Abandoned;
    forall s | Abandoned(leased, local, s, now) && s !in outage.leases ensures UnfinishedIn(after - outage.jobs, s) == {} {
      StillFinished(before, after, hit, outage.jobs, s);
    }
  }

  lemma AbandonedIsUnheld(before: map<string, Job>, hit: set<string>, local: map<string, nat>,
                          leases: map<string, Lease>, now: int)
    requires OnlyAbandoned(before, hit, local, leases, now)
    ensures OnlyUnheld(before, hit, local, leases, now)
  {
  }

  /** What the second pass found unheld was unheld before the first dropped any lease. */
  lemma UnheldBoth(was: map<string, Job>, between: map<string, Job>, hit: set<string>, more: set<string>,
                   local: map<string, nat>, leased: map<string, Lease>, leases: map<string, Lease>, prior: int, now: int)
    requires OnlyUnheld(was, hit, local, leased, prior) && OnlyUnheld(between, more, local, leases, now) && prior <= now
    requires Closes(was, between, hit) && Reaped(leased, leases, local, prior)
    ensures OnlyUnheld(was, hit + more, local, leased, now)
  {
    forall id | id in more ensures id in was && !HeldSomewhere(local, leased, was[id].space, now) {
      assert between[id].space == was[id].space;
    }
  }

  lemma ReapedLater(before: map<string, Lease>, after: map<string, Lease>, local: map<string, nat>, prior: int,
                    now: int)
    requires Reaped(before, after, local, prior) && prior <= now
    ensures Reaped(before, after, local, now)
  {
  }

  lemma HeldUnderOldLeases(jobs: map<string, Job>, local: map<string, nat>, leased: map<string, Lease>,
                           leases: map<string, Lease>, prior: int, start: int)
    requires AllHeld(jobs, local, leases, prior) && Reaped(leased, leases, local, prior) && start <= prior
    ensures AllHeld(jobs, local, leased, start)
  {
    forall id | id in jobs && !jobs[id].state.Terminal() ensures HeldSomewhere(local, leased, jobs[id].space, start) {
      assert HeldSomewhere(local, leases, jobs[id].space, prior);
    }
  }

  class Locker {
    /** The Spaces this process holds, each with the token of its reservation. */
    var local: map<string, nat>
    var tokens: nat
    var leases: map<string, Lease>
    var clock: int
    var lastOrphan: int
    const ttl: int
    const orphanSweep: int
    const owner: string

    ghost predicate Valid()
      reads this
    {
      WellLeased(leases) && "" !in local && forall s :: s in local ==> local[s] < tokens
    }

    constructor (leases: map<string, Lease>, clock: int, owner: string, ttl: int, orphanSweep: int)
      requires WellLeased(leases)
      ensures Valid() && local == map[] && this.leases == leases && this.clock == clock && lastOrphan == clock
    {
      this.leases, this.clock, this.owner, this.ttl, this.orphanSweep := leases, clock, owner, ttl, orphanSweep;
      local, tokens, lastOrphan := map[], 0, clock;
    }

    /** Reads the clock, which never runs backwards. */
    method Now() returns (now: int)
      modifies `clock
      ensures now == clock >= old(clock)
    {
      now :| now >= clock;
      clock := now;
    }

    predicate Reserved(space: string)
      reads this
    {
      space in local
    }

    method Reserve(space: string) returns (token: Option<nat>)
      requires Valid() && space != ""
      modifies `local, `tokens
      ensures Valid()
      ensures space in old(local) ==> token.None? && local == old(local)
      ensures space !in old(local) ==> token == Some(old(tokens)) && local == old(local)[space := old(tokens)]
    {
      if space in local {
        return None;
      }
      token := Some(tokens);
      local := local[space := tokens];
      tokens := tokens + 1;
    }

    /** Gives a reservation back, but only the caller's own. */
    method UndoReserve(space: string, token: nat)
      requires Valid()
      modifies `local
      ensures Valid()
      ensures local == if space in old(local) && old(local)[space] == token then old(local) - {space} else old(local)
    {
      if space in local && local[space] == token {
        local := local - {space};
      }
    }

    /** Replaces the lease with one valid from now. The write may fail, having landed or not. */
    method Write(space: string, now: int, outage: Outage) returns (ok: bool)
      requires Valid() && space != ""
      modifies `leases
      ensures Valid()
      ensures var written := old(leases)[space := Lease(space, owner, now, now + ttl)];
              if ok then leases == written else leases in {old(leases), written}
      ensures !outage.other ==> ok
    {
      var broken, landed := *, *;
      ok := !broken || !outage.other;
      if ok || landed {
        leases := leases[space := Lease(space, owner, now, now + ttl)];
      }
    }

    /** Acquire. A refusal leaves no reservation behind, and no other process's live lease is ever
        overwritten. */
    method Acquire(space: string, outage: Outage) returns (r: Result<nat, LockError>)
      requires Valid()
      modifies this
      ensures Valid() && lastOrphan == old(lastOrphan) && clock >= old(clock)
      ensures r.Err? ==> local == old(local)
      ensures r.Ok? ==> space !in old(local) && local == old(local)[space := r.value] && space in leases
                        && leases[space] == Lease(space, owner, leases[space].expires - ttl, leases[space].expires)
                        && old(clock) + ttl <= leases[space].expires <= clock + ttl
      ensures r.Ok? ==> !LiveAt(old(leases), space, clock)
      ensures r == Err(SpaceRequired) <==> space == ""
      ensures space != "" && space in old(local) ==> r == Err(Locked)
      ensures r == Err(Locked) ==> space in old(local) || LiveAt(old(leases), space, old(clock))
      ensures r == Err(StoreFailed) ==> outage.other || space in outage.leases
      ensures leases - {space} == old(leases) - {space}
      ensures space in old(local) || LiveAt(old(leases), space, clock) ==> leases == old(leases)
    {
      if space == "" {
        return Err(SpaceRequired);
      }
      var token := Reserve(space);
      if token.None? {
        return Err(Locked);
      }
      var now := Now();
      var unreadable := *;
      if unreadable && space in outage.leases {
        UndoReserve(space, token.value);
        return Err(StoreFailed);
      }
      if space in leases && now < leases[space].expires {
        UndoReserve(space, token.value);
        return Err(Locked);
      }
      var ok := Write(space, now, outage);
      if !ok {
        UndoReserve(space, token.value);
        return Err(StoreFailed);
      }
      r := Ok(token.value);
    }

    /** One renewal; a failed write leaves the lease to expire. */
    method Renew(space: string, outage: Outage) returns (ok: bool)
      requires Valid() && space in local
      modifies `leases, `clock
      ensures Valid() && clock >= old(clock)
      ensures leases - {space} == old(leases) - {space}
      ensures ok ==> space in leases && leases[space] == Lease(space, owner, clock, clock + ttl)
      ensures leases == old(leases) || (space in leases && leases[space] == Lease(space, owner, clock, clock + ttl))
      ensures !outage.other ==> ok
    {
      var now := Now();
      ok := Write(space, now, outage);
    }

    /** Drops the reservation first, then the lease, which may stay behind until it expires. */
    method Release(space: string, outage: Outage)
      requires Valid()
      modifies `local, `leases
      ensures Valid() && local == old(local) - {space}
      ensures leases in {old(leases), old(leases) - {space}}
      ensures !outage.other ==> leases == old(leases) - {space}
    {
      local := local - {space};
      var broken, landed := *, *;
      if !broken || !outage.other || landed {
        leases := leases - {space};
      }
    }

    /** Busy: held here, or leased and not expired; an unreadable lease is an error unless it is held
        here, which needs no reading. */
    method Busy(space: string, outage: Outage) returns (r: Result<bool, LockError>)
      modifies `clock
      ensures clock >= old(clock)
      ensures space in local ==> r == Ok(true)
      ensures space !in local ==> r == Ok(LiveAt(leases, space, clock)) || (r == Err(StoreFailed) && space in outage.leases)
    {
      if space in local {
        return Ok(true);
      }
      r := LeaseLive(space, outage);
    }

    method LeaseLive(space: string, outage: Outage) returns (r: Result<bool, LockError>)
      modifies `clock
      ensures clock >= old(clock)
      ensures r.Ok? ==> r.value == LiveAt(leases, space, clock)
      ensures r.Err? ==> r == Err(StoreFailed) && space in outage.leases
    {
      var unreadable := *;
      if unreadable && space in outage.leases {
        return Err(StoreFailed);
      }
      var now := Now();
      r := Ok(LiveAt(leases, space, now));
    }

    /** Claims the slow pass when it is due. */
    method OrphanSweepDue() returns (due: bool)
      modifies `clock, `lastOrphan
      ensures clock >= old(clock)
      ensures due <==> clock - old(lastOrphan) >= orphanSweep
      ensures lastOrphan == if due then clock else old(lastOrphan)
    {
      var now := Now();
      due := now - lastOrphan >= orphanSweep;
      if due {
        lastOrphan := now;
      }
    }

    /** The jobs as the store can read them just now: a listing leaves an unreadable document out and
        says nothing of it. */
    method Readable(store: MemoryStore, outage: Outage) returns (view: MemoryStore, ghost unread: set<string>)
      requires WellKeyed(store.jobs)
      ensures fresh(view) && view.jobs == store.jobs - unread && WellKeyed(view.jobs) && unread <= outage.jobs
    {
      hide WellKeyed;
      var missing: set<string> := *;
      missing := missing * outage.jobs;
      ReadableKeyed(store.jobs, missing);
      view := new MemoryStore();
      view.jobs, unread := store.jobs - missing, missing;
    }

    method ListReadable(store: MemoryStore, space: string, outage: Outage)
      returns (list: seq<Job>, ghost unread: set<string>)
      requires WellKeyed(store.jobs)
      ensures unread <= outage.jobs
      ensures list == Recent(store.jobs - unread, space, "", 0) && WellKeyed(store.jobs - unread)
    {
      hide WellKeyed;
      var view;
      view, unread := Readable(store, outage);
      list := view.ListRecent(space, "", 0);
    }

    method RunningReadable(store: MemoryStore, outage: Outage) returns (running: seq<Job>, ghost unread: set<string>)
      requires WellKeyed(store.jobs)
      ensures unread <= outage.jobs
      ensures running == History(Unfinished(store.jobs - unread))
    {
      hide WellKeyed;
      var view;
      view, unread := Readable(store, outage);
      running := view.ListRunning();
    }

    /** Marks a Space's unfinished jobs as failed, one write each, stopping at the first failure; a record
        that cannot be read is passed over. */
    method FailAbandoned(store: MemoryStore, space: string, outage: Outage)
      returns (failed: nat, ok: bool, ghost hit: set<string>)
      requires WellKeyed(store.jobs)
      modifies store
      ensures WellKeyed(store.jobs) && Closes(old(store.jobs), store.jobs, hit)
      ensures hit <= UnfinishedIn(old(store.jobs), space) && failed <= |hit|
      ensures ok ==> UnfinishedIn(old(store.jobs), space) - outage.jobs <= hit && failed == |hit|
      ensures !outage.other ==> ok
    {
      hide Closes, ClosedOut, NewestFirst, Lists, HitSoFar, WellKeyed, UnfinishedIn, Matching, History;
      failed, ok, hit := 0, false, {};
      ghost var was := store.jobs;
      ClosesNothing(was);
      var broken := *;
      if broken && outage.other {
        return;
      }
      ghost var unread;
      var list;
      list, unread := ListReadable(store, space, outage);
      ghost var seen := was - unread;
      UnfinishedReadable(was, unread, space);
      HitNone(seen, space, list);
      for i := 0 to |list|
        invariant Closes(was, store.jobs, hit) && WellKeyed(store.jobs) && failed == |hit|
        invariant HitSoFar(seen, space, list, i, hit)
      {
        HitStep(seen, space, list, i, hit);
        if list[i].state.Terminal() {
          continue;
        }
        var id := list[i].id;
        var landed, lost, stamp: int64 := *, *, *;
        lost := lost && outage.other;
        if !lost || landed {
          ClosesOne(was, store.jobs, hit, id, stamp);
          hit := hit + {id};
          var r := store.Finish(id, INTERRUPTED, stamp);
          ClosesKeepsKeys(was, store.jobs, hit);
        }
        if lost {
          HitIsUnfinished(seen, space, list, if id in hit then i + 1 else i, hit);
          return;
        }
        failed := failed + 1;
      }
      HitIsUnfinished(seen, space, list, |list|, hit);
      ok := true;
    }

    /** The expired-lease pass. A lease document that cannot be read is skipped. */
    method RecoverExpired(store: MemoryStore, outage: Outage)
      returns (recovered: nat, ok: bool, ghost hit: set<string>, ghost now: int)
      requires Valid() && WellKeyed(store.jobs)
      modifies `leases, `clock, store
      ensures Valid() && WellKeyed(store.jobs) && old(clock) <= now == clock
      ensures Closes(old(store.jobs), store.jobs, hit) && recovered <= |hit| && (ok ==> recovered == |hit|)
      ensures OnlyAbandoned(old(store.jobs), hit, local, old(leases), now)
      ensures Reaped(old(leases), leases, local, now)
      ensures ok ==> forall s :: Abandoned(old(leases), local, s, now) && s !in outage.leases
                                 ==> Settled(leases, store.jobs - outage.jobs, s)
      ensures !outage.other ==> ok
    {
      hide Closes, WellKeyed, Less, UnfinishedIn, OnlyAbandoned, Reaped, Settled, WellLeased, LeasePassAt;
      recovered, ok, hit := 0, false, {};
      ghost var was, leased := store.jobs, leases;
      ClosesNothing(was);
      NothingAbandoned(was, local, leases, clock);
      now := clock;
      var broken := *;
      if broken && outage.other {
        return;
      }
      var keys := SortStrings(leases.Keys);
      var at := Now();
      now := at;
      LeasePassStarts(was, leases, local, now, keys, outage);
      for i := 0 to |keys|
        invariant Valid() && WellKeyed(store.jobs) && clock == now && recovered == |hit|
        invariant LeasePassAt(was, leased, store.jobs, leases, local, now, keys, i, hit, outage)
      {
        ghost var jobs, held := store.jobs, leases;
        var key := keys[i];
        LeasePassKey(was, leased, store.jobs, leases, local, now, keys, i, hit, outage);
        var unreadable := *;
        if (unreadable && key in outage.leases) || at < leases[key].expires || Reserved(leases[key].space) {
          LeasePassSkips(was, leased, store.jobs, leases, local, now, keys, i, hit, outage);
          continue;
        }
        var failed, done, more := RecoverSpace(store, key, outage);
        LeasePassReaps(was, leased, jobs, store.jobs, held, leases, local, now, keys, i, hit, more, outage);
        hit := hit + more;
        if !done {
          return;
        }
        recovered := recovered + failed;
      }
      LeasePassEnds(was, leased, store.jobs, leases, local, now, keys, hit, outage);
      ok := true;
    }

    /** Closes one Space's runs out, then drops its lease; the lease stays when a run could not be
        closed. */
    method RecoverSpace(store: MemoryStore, key: string, outage: Outage)
      returns (failed: nat, ok: bool, ghost more: set<string>)
      requires Valid() && WellKeyed(store.jobs) && key in leases
      modifies `leases, store
      ensures Valid() && WellKeyed(store.jobs) && Closes(old(store.jobs), store.jobs, more)
      ensures more <= UnfinishedIn(old(store.jobs), key) && failed <= |more|
      ensures ok ==> failed == |more|
      ensures leases == old(leases) || leases == old(leases) - {key}
      ensures ok ==> leases == old(leases) - {key}
      ensures ok || leases != old(leases) ==> UnfinishedIn(old(store.jobs), key) - outage.jobs <= more
      ensures !outage.other ==> ok
    {
      hide Closes, WellKeyed, UnfinishedIn;
      failed, ok, more := FailAbandoned(store, leases[key].space, outage);
      if !ok {
        return;
      }
      var dropped, lost := *, *;
      ok := !lost || !outage.other;
      if ok || dropped {
        leases := leases - {key};
      }
    }

    /** Marks one unfinished job failed. */
    method CloseOrphan(store: MemoryStore, id: string, outage: Outage) returns (ok: bool, ghost more: set<string>)
      requires WellKeyed(store.jobs) && id in store.jobs && !store.jobs[id].state.Terminal()
      modifies store
      ensures WellKeyed(store.jobs) && Closes(old(store.jobs), store.jobs, more)
      ensures (more == {} || more == {id}) && (ok ==> more == {id}) && (!outage.other ==> ok)
    {
      var landed, lost, stamp: int64 := *, *, *;
      ok, more := !lost || !outage.other, {};
      ghost var was := store.jobs;
      ClosesNothing(was);
      if ok || landed {
        ClosesOne(was, was, {}, id, stamp);
        assert {} + {id} == {id};
        more := {id};
        var r := store.Finish(id, INTERRUPTED, stamp);
      }
      ClosesKeepsKeys(was, store.jobs, more);
    }

    /** The orphan pass: unfinished jobs of Spaces that nothing holds. It stops at the first lease it
        cannot read, so it never takes an outage for an absent lease. */
    method RecoverOrphans(store: MemoryStore, outage: Outage)
      returns (recovered: nat, ok: bool, due: bool, ghost hit: set<string>)
      requires Valid() && WellKeyed(store.jobs)
      modifies `clock, `lastOrphan, store
      ensures Valid() && WellKeyed(store.jobs) && old(clock) <= clock
      ensures clock - old(lastOrphan) < orphanSweep ==> !due
      ensures old(clock) - old(lastOrphan) >= orphanSweep ==> due
      ensures Closes(old(store.jobs), store.jobs, hit) && recovered <= |hit| && (ok ==> recovered == |hit|)
      ensures OnlyUnheld(old(store.jobs), hit, local, leases, clock)
      ensures !due ==> ok && hit == {} && lastOrphan == old(lastOrphan)
      ensures due ==> old(clock) <= lastOrphan <= clock
      ensures ok && due ==> AllHeld(store.jobs - outage.jobs, local, leases, old(clock))
      ensures !outage.other && outage.leases == {} ==> ok
    {
      hide Closes, WellKeyed, WellLeased, AllHeld, NewestFirst, History, LiveAt, INTERRUPTED, ClosedSoFar, OnlyUnheld;
      recovered, ok, hit := 0, false, {};
      ghost var was, start := store.jobs, clock;
      ClosesNothing(was);
      due := OrphanSweepDue();
      ClosedAtStart(was, [], hit, local, leases, start, clock);
      if !due {
        ok := true;
        return;
      }
      var broken := *;
      if broken && outage.other {
        return;
      }
      ghost var unread;
      var running;
      running, unread := RunningReadable(store, outage);
      ClosedAtStart(was, running, hit, local, leases, start, clock);
      for i := 0 to |running|
        invariant WellKeyed(store.jobs) && Closes(was, store.jobs, hit) && recovered == |hit|
        invariant start <= lastOrphan <= clock && lastOrphan - old(lastOrphan) >= orphanSweep
        invariant ClosedSoFar(was, running, i, hit, local, leases, start, clock)
        invariant OnlyUnheld(was, hit, local, leases, clock)
      {
        var j := running[i];
        ghost var prior := clock;
        if Reserved(j.space) {
          ClosedPasses(was, running, i, hit, local, leases, start, prior, clock);
          continue;
        }
        var live := LeaseLive(j.space, outage);
        StillUnheld(was, hit, local, leases, prior, clock);
        if live.Err? {
          return;
        }
        if live.value {
          ClosedPasses(was, running, i, hit, local, leases, start, prior, clock);
          continue;
        }
        RunningIsUnfinished(was, store.jobs, running, i, hit, local, leases, start, prior);
        ghost var jobs := store.jobs;
        var closed, more := CloseOrphan(store, j.id, outage);
        ClosesBoth(was, jobs, store.jobs, hit, more);
        if more != {} {
          OneMoreUnheld(was, hit, j.id, local, leases, clock);
          ClosedHits(was, running, i, hit, local, leases, start, prior, clock);
        } else {
          assert hit + more == hit;
        }
        hit := hit + more;
        if !closed {
          return;
        }
        recovered := recovered + 1;
      }
      ClosedAtEnd(was, store.jobs, running, hit, local, leases, start, clock, unread, outage.jobs);
      ok := true;
    }

    /** Recover. Whatever fails on the way, it only ever closes unfinished records of Spaces that this
        process does not hold and whose lease is not live, and drops only abandoned leases. When the
        slow pass ran and nothing failed, every readable record still unfinished belongs to a Space held
        here or by a live lease: so after a crash, once the leases have run out, there is none. */
    method Recover(store: MemoryStore, outage: Outage)
      returns (recovered: nat, ok: bool, swept: bool, ghost hit: set<string>)
      requires Valid() && WellKeyed(store.jobs)
      modifies `clock, `leases, `lastOrphan, store
      ensures Valid() && WellKeyed(store.jobs) && old(clock) <= clock
      ensures Closes(old(store.jobs), store.jobs, hit) && recovered <= |hit| && (ok ==> recovered == |hit|)
      ensures OnlyUnheld(old(store.jobs), hit, local, old(leases), clock)
      ensures forall id :: id in old(store.jobs) && HeldSomewhere(local, old(leases), old(store.jobs)[id].space, clock)
                           ==> id in store.jobs && store.jobs[id] == old(store.jobs)[id]
      ensures Reaped(old(leases), leases, local, clock)
      ensures !outage.other && outage.leases == {} ==> ok
      ensures ok && old(clock) - old(lastOrphan) >= orphanSweep ==> swept
      ensures ok && swept ==> AllHeld(store.jobs - outage.jobs, local, old(leases), old(clock))
      ensures ok ==> NoneLeftBehind(old(leases), store.jobs - outage.jobs, local, outage.leases, old(clock))
      ensures outage == NO_OUTAGE && old(clock) - old(lastOrphan) >= orphanSweep && local == map[]
              && (forall s :: s in old(leases) ==> old(leases)[s].expires <= old(clock))
              ==> Unfinished(store.jobs) == {} && leases == map[]
    {
      hide Closes, WellKeyed, WellLeased, AllHeld, OnlyUnheld, OnlyAbandoned, Reaped, Settled, Abandoned,
           UnfinishedIn, NoneLeftBehind, HeldSomewhere, Unfinished;
      ghost var was, leased, start := store.jobs, leases, clock;
      ghost var now: int;
      swept := false;
      recovered, ok, hit, now := RecoverExpired(store, outage);
      AbandonedIsUnheld(was, hit, local, leased, now);
      HeldIsUntouched(was, store.jobs, hit, local, leased, clock);
      if !ok {
        return;
      }
      ghost var between := store.jobs;
      AllReaped(leased, leases, between - outage.jobs, local, outage.leases, start, now);
      LeftBehindEarlier(leased, leases, between - outage.jobs, local, outage.leases, start, now);
      var orphans, done, due, more := RecoverOrphans(store, outage);
      StillNone(leased, between, store.jobs, more, local, outage, start);
      ClosesBoth(was, between, store.jobs, hit, more);
      UnheldBoth(was, between, hit, more, local, leased, leases, now, clock);
      ReapedLater(leased, leases, local, now, clock);
      if done && due {
        HeldUnderOldLeases(store.jobs - outage.jobs, local, leased, leases, now, start);
        AllClosedAfterCrash(store.jobs - outage.jobs, local, leased, start);
        assert store.jobs - {} == store.jobs;
      }
      hit := hit + more;
      HeldIsUntouched(was, store.jobs, hit, local, leased, clock);
      recovered, ok, swept := recovered + orphans, done, due;
    }
  }

  /** With nothing held here, every lease readable and run out, the lease pass drops them all. */
  lemma AllReaped(leased: map<string, Lease>, leases: map<string, Lease>, jobs: map<string, Job>, local: map<string, nat>,
                  skipped: set<string>, start: int, now: int)
    requires Reaped(leased, leases, local, now) && start <= now
    requires forall s :: Abandoned(leased, local, s, now) && s !in skipped ==> Settled(leases, jobs, s)
    ensures skipped == {} && local == map[] && (forall s :: s in leased ==> leased[s].expires <= start) ==> leases == map[]
  {
    hide UnfinishedIn;
    if skipped == {} && local == map[] && forall s :: s in leased ==> leased[s].expires <= start {
      forall s ensures s !in leases {
        assert s in leased ==> Abandoned(leased, local, s, now);
      }
    }
  }

  /** With nothing held here and every lease run out, no record is held any more. */
  lemma AllClosedAfterCrash(jobs: map<string, Job>, local: map<string, nat>, leases: map<string, Lease>, now: int)
    requires AllHeld(jobs, local, leases, now)
    ensures local == map[] && (forall s :: s in leases ==> leases[s].expires <= now) ==> Unfinished(jobs) == {}
  {
  }

  /** A record of a Space held here, or whose lease is still live when recovery ends, is untouched. */
  lemma HeldIsUntouched(before: map<string, Job>, after: map<string, Job>, hit: set<string>, local: map<string, nat>,
                        leases: map<string, Lease>, now: int)
    requires Closes(before, after, hit) && OnlyUnheld(before, hit, local, leases, now)
    ensures forall id :: id in before && HeldSomewhere(local, leases, before[id].space, now)
                         ==> id in after && after[id] == before[id]
  {
  }
}
