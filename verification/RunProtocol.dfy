/** The run lock and the job record as an interleaved protocol: lease.go's Acquire, renewal, release and
    both passes of Recover against runner.go's begin, finish and settle, each cut at its I/O points. Any
    number of attempts run at once; any read or write may fail, with or without having landed; the
    process may stop at any point; and the lease documents may change under it. */
module RunProtocol {
  import opened Wrappers
  import opened Jobs

  /** Where one attempt to run a Space has got to. */
  datatype Phase =
    | Reserved                  // the local reservation is taken
    | Cleared(at: int)          // the lease was read and lets the run through
    | Refused                   // the read or the write refused it; the reservation is still there
    | Held                      // Acquire has returned
    | Executing(id: string)     // the job record exists and the work is under way
    | Settling(id: string)      // the work is over; its outcome is being recorded
    | Lost(id: string)          // the outcome could not be recorded; the lock is kept
    | Releasing                 // release was called
    | Unleasing                 // the reservation is gone, the lease not yet
    | Gone
  {
    /** The attempt holds the Space's reservation in this process. */
    predicate Holds() { !Unleasing? && !Gone? }

    /** The attempt has a lease that its renewal goroutine keeps alive. */
    predicate Renews() { Held? || Executing? || Settling? || Lost? }

    /** The job record the attempt answers for. */
    function Record(): Option<string> {
      if Executing? || Settling? || Lost? then Some(id) else None
    }
  }

  datatype Attempt = Attempt(space: string, phase: Phase)

  datatype Record = Record(space: string, state: State)

  /** Recovery under way: the records listed as running and those of them whose Space was found not held
      here; the Spaces whose lease was found lapsed; and the records about to be closed. */
  datatype Pass = Pass(listed: set<string>, unheld: set<string>, lapsed: set<string>, condemned: set<string>)

  function NoPass(): Pass { Pass({}, {}, {}, {}) }

  /** `local` is the process's map of reservations; `leases` holds expiries; `renewals` are lease
      writes under way; `orphans` are the records whose run was lost with a crash, or whose creation
      was never acknowledged. */
  datatype World = World(ttl: int, clock: int, local: map<string, nat>, attempts: map<nat, Attempt>,
                         leases: map<string, int>, renewals: set<(string, int)>,
                         records: map<string, Record>, orphans: set<string>, recovery: Pass)

  datatype Event =
    | Reserve(a: nat, space: string)
    | ReadLease(a: nat, readable: bool)
    | WriteLease(a: nat, ack: Ack)
    | UndoReserve(a: nat)
    | CreateRecord(a: nat, id: string, ack: Ack)
    | GiveBack(a: nat)
    | EndWork(a: nat)
    | RecordOutcome(a: nat, state: State, ack: Ack)
    | GiveUp(a: nat)
    | ReleaseLocal(a: nat)
    | ReleaseLease(a: nat, ack: Ack)
    | StartRenewal(a: nat)
    | LandRenewal(write: (string, int), ack: Ack)
    | Advance(passed: nat)
    | Crash
    | ListOrphans(ids: set<string>)             // the orphan pass: list the running records
    | CheckUnheld(id: string)                   // look up one's Space in `local`
    | CheckUnleased(id: string)                 // and read its lease
    | CheckLapsed(space: string)                // the lease pass: a lapsed lease, its Space not held here
    | ListLapsed(space: string, ids: set<string>)  // then list the Space's running records
    | Close(id: string, ack: Ack)               // either pass: mark a record failed
    | DropLease(space: string, ack: Ack)        // the lease pass: drop the lease
    | ForeignLeases(leases: map<string, int>)

  predicate LeaseLive(w: World, space: string) { space in w.leases && w.clock < w.leases[space] }

  predicate InPhase(w: World, a: nat, p: Phase -> bool) { a in w.attempts && p(w.attempts[a].phase) }

  /** The unfinished records of a Space. */
  function RunningIn(w: World, space: string): set<string> {
    set id | id in w.records && w.records[id].space == space && !w.records[id].state.Terminal()
  }

  function AllRunning(w: World): set<string> {
    set id | id in w.records && !w.records[id].state.Terminal()
  }

  predicate Enabled(w: World, e: Event) {
    match e
    case Reserve(a, space) => a !in w.attempts && space != "" && space !in w.local
    case ReadLease(a, _) => InPhase(w, a, (p: Phase) => p.Reserved?)
    case WriteLease(a, _) => InPhase(w, a, (p: Phase) => p.Cleared?)
    case UndoReserve(a) => InPhase(w, a, (p: Phase) => p.Refused?)
    case CreateRecord(a, id, _) => InPhase(w, a, (p: Phase) => p.Held?) && id !in w.records
    case GiveBack(a) => InPhase(w, a, (p: Phase) => p.Held?)
    case EndWork(a) => InPhase(w, a, (p: Phase) => p.Executing?)
    case RecordOutcome(a, state, _) => InPhase(w, a, (p: Phase) => p.Settling?) && state.Terminal()
    case GiveUp(a) => InPhase(w, a, (p: Phase) => p.Settling?)
    case ReleaseLocal(a) => InPhase(w, a, (p: Phase) => p.Releasing?)
    case ReleaseLease(a, _) => InPhase(w, a, (p: Phase) => p.Unleasing?)
    case StartRenewal(a) => InPhase(w, a, (p: Phase) => p.Renews())
    case LandRenewal(write, _) => write in w.renewals
    case Advance(_) => true
    case Crash => true
    case ListOrphans(ids) => ids <= AllRunning(w)
    case CheckUnheld(id) => id in w.recovery.listed && id in w.records && w.records[id].space !in w.local
    case CheckUnleased(id) => id in w.recovery.unheld && id in w.records && !LeaseLive(w, w.records[id].space)
    case CheckLapsed(space) => space in w.leases && !LeaseLive(w, space) && space !in w.local
    case ListLapsed(space, ids) => space in w.recovery.lapsed && ids <= RunningIn(w, space)
    case Close(id, _) => id in w.recovery.condemned
    case DropLease(space, _) => space in w.recovery.lapsed
    case ForeignLeases(_) => true
  }

  function SetPhase(w: World, a: nat, p: Phase): World
    requires a in w.attempts
  {
    w.(attempts := w.attempts[a := w.attempts[a].(phase := p)])
  }

  /** Mark an unfinished or finished record failed; a document gone since stays gone. */
  function MarkFailed(records: map<string, Record>, id: string): map<string, Record> {
    if id in records then records[id := records[id].(state := Failed)] else records
  }

  function Next(w: World, e: Event): World
    requires Enabled(w, e)
  {
    match e
    case Reserve(a, space) =>
      w.(local := w.local[space := a], attempts := w.attempts[a := Attempt(space, Reserved)])
    case ReadLease(a, readable) =>
      SetPhase(w, a, if readable && !LeaseLive(w, w.attempts[a].space) then Cleared(w.clock) else Refused)
    case WriteLease(a, ack) =>
      var s, at := w.attempts[a].space, w.attempts[a].phase.at;
      SetPhase(w, a, if ack.Acked? then Held else Refused)
        .(leases := if ack.Landed() then w.leases[s := at + w.ttl] else w.leases)
    case UndoReserve(a) =>
      var s := w.attempts[a].space;
      SetPhase(w, a, Gone).(local := if s in w.local && w.local[s] == a then w.local - {s} else w.local)
    case CreateRecord(a, id, ack) =>
      var s := w.attempts[a].space;
      SetPhase(w, a, if ack.Acked? then Executing(id) else Releasing)
        .(records := if ack.Landed() then w.records[id := Record(s, Running)] else w.records,
          orphans := if ack.Unacked? then w.orphans + {id} else w.orphans)
    case GiveBack(a) => SetPhase(w, a, Releasing)
    case EndWork(a) => SetPhase(w, a, Settling(w.attempts[a].phase.id))
    case RecordOutcome(a, state, ack) =>
      var id := w.attempts[a].phase.id;
      (if ack.Acked? then SetPhase(w, a, Releasing) else w)
        .(records := if ack.Landed() && id in w.records then w.records[id := w.records[id].(state := state)] else w.records)
    case GiveUp(a) => SetPhase(w, a, Lost(w.attempts[a].phase.id))
    case ReleaseLocal(a) => SetPhase(w, a, Unleasing).(local := w.local - {w.attempts[a].space})
    case ReleaseLease(a, ack) =>
      SetPhase(w, a, Gone).(leases := if ack.Landed() then w.leases - {w.attempts[a].space} else w.leases)
    case StartRenewal(a) => w.(renewals := w.renewals + {(w.attempts[a].space, w.clock + w.ttl)})
    case LandRenewal(write, ack) =>
      w.(renewals := w.renewals - {write},
         leases := if ack.Landed() then w.leases[write.0 := write.1] else w.leases)
    case Advance(passed) => w.(clock := w.clock + passed)
    case Crash => w.(local := map[], attempts := map a | a in w.attempts :: w.attempts[a].(phase := Gone),
                     orphans := w.orphans + AllRunning(w), recovery := NoPass())
    case ListOrphans(ids) => w.(recovery := w.recovery.(listed := ids))
    case CheckUnheld(id) => w.(recovery := w.recovery.(unheld := w.recovery.unheld + {id}))
    case CheckUnleased(id) => w.(recovery := w.recovery.(condemned := w.recovery.condemned + {id}))
    case CheckLapsed(space) => w.(recovery := w.recovery.(lapsed := w.recovery.lapsed + {space}))
    case ListLapsed(_, ids) => w.(recovery := w.recovery.(condemned := w.recovery.condemned + ids))
    case Close(id, ack) =>
      w.(records := if ack.Landed() then MarkFailed(w.records, id) else w.records,
         recovery := w.recovery.(condemned := w.recovery.condemned - {id}))
    case DropLease(space, ack) =>
      w.(leases := if ack.Landed() then w.leases - {space} else w.leases,
         recovery := w.recovery.(lapsed := w.recovery.lapsed - {space}))
    case ForeignLeases(leases) => w.(leases := leases)
  }

  // ---- the invariant ----

  predicate HoldsSpace(w: World, a: nat, space: string) {
    a in w.attempts && w.attempts[a].space == space && w.attempts[a].phase.Holds()
  }

  /** `local` holds exactly the Spaces with an Acquire in flight or an unreleased run, under the token
      of that attempt. */
  ghost predicate LocalIsExact(w: World) {
    forall space, a :: space in w.local && w.local[space] == a <==> HoldsSpace(w, a, space)
  }

  predicate Owns(w: World, a: nat, id: string) {
    a in w.attempts && w.attempts[a].phase.Record() == Some(id)
  }

  /** The record of a run under way exists, in its Space. */
  ghost predicate OwnedExist(w: World) {
    forall a, id :: Owns(w, a, id) ==> id in w.records && w.records[id].space == w.attempts[a].space
  }

  /** A record is owned by at most one attempt, and an unfinished one that is owned by none is an
      orphan. */
  ghost predicate UnfinishedIsAccountedFor(w: World) {
    forall id :: id in AllRunning(w) ==> id in w.orphans || exists a :: Owns(w, a, id)
  }

  /** What every step keeps. */
  ghost predicate Inv(w: World) {
    LocalIsExact(w) && OwnedExist(w) && UnfinishedIsAccountedFor(w)
  }

  /** The record exists and no attempt answers for it. */
  ghost predicate Unowned(w: World, id: string) {
    id in w.records && forall a :: !Owns(w, a, id)
  }

  /** What every step keeps but a listing that races: a live run's record says running, and recovery is
      about to close nothing that an attempt answers for. */
  ghost predicate Safe(w: World) {
    && (forall a, id :: Owns(w, a, id) && w.attempts[a].phase.Executing? ==> id in w.records && w.records[id].state.Running?)
    && (forall id :: id in w.recovery.unheld + w.recovery.condemned ==> Unowned(w, id))
  }

  /** The Space's reservation is held by a run whose record is unfinished. */
  predicate RunIsRecorded(w: World, space: string) {
    space in w.local && w.local[space] in w.attempts
    && var r := w.attempts[w.local[space]].phase.Record(); r.Some? && r.value in RunningIn(w, space)
  }

  /** The lease pass lists a Space's records after a run has started there since its check. */
  predicate Races(w: World, e: Event) { e.ListLapsed? && RunIsRecorded(w, e.space) }

  /** A process that has just started over whatever an earlier one left behind. */
  ghost predicate Initial(w: World) {
    w.local == map[] && w.attempts == map[] && AllRunning(w) <= w.orphans && w.recovery == NoPass()
  }

  lemma InitialInv(w: World)
    requires Initial(w)
    ensures Inv(w) && Safe(w)
  {
  }

  /** One holder per Space, so one attempt per owned record. */
  lemma OneOwner(w: World, a: nat, b: nat, id: string)
    requires LocalIsExact(w) && OwnedExist(w) && Owns(w, a, id) && Owns(w, b, id)
    ensures a == b
  {
    assert HoldsSpace(w, a, w.attempts[a].space) && HoldsSpace(w, b, w.attempts[b].space);
  }

  lemma StepKeepsLocal(w: World, e: Event)
    requires LocalIsExact(w) && Enabled(w, e)
    ensures LocalIsExact(Next(w, e))
  {
    var v := Next(w, e);
    forall space, a ensures space in v.local && v.local[space] == a <==> HoldsSpace(v, a, space) {
      assert space in w.local && w.local[space] == a <==> HoldsSpace(w, a, space);
      if e.UndoReserve? || e.ReleaseLocal? {
        var s := w.attempts[e.a].space;
        assert HoldsSpace(w, e.a, s);
      }
    }
  }

  lemma StepKeepsOwned(w: World, e: Event)
    requires OwnedExist(w) && Enabled(w, e)
    ensures OwnedExist(Next(w, e))
  {
    var v := Next(w, e);
    forall a, id | Owns(v, a, id) ensures id in v.records && v.records[id].space == v.attempts[a].space {
      if e.CreateRecord? && e.a == a {
      } else {
        assert Owns(w, a, id);
      }
    }
  }

  lemma StepKeepsAccount(w: World, e: Event)
    requires OwnedExist(w) && UnfinishedIsAccountedFor(w) && Enabled(w, e)
    ensures UnfinishedIsAccountedFor(Next(w, e))
  {
    var v := Next(w, e);
    forall id | id in AllRunning(v) ensures id in v.orphans || exists a :: Owns(v, a, id) {
      if e.CreateRecord? && e.id == id {
        assert id in v.orphans || Owns(v, e.a, id);
      } else {
        assert id in AllRunning(w);
        if id !in v.orphans {
          var a :| Owns(w, a, id);
          assert Owns(v, a, id);
        }
      }
    }
  }

  /** Every step keeps the invariant, whatever the stores answer and wherever a pass has got to. */
  lemma StepKeepsInv(w: World, e: Event)
    requires Inv(w) && Enabled(w, e)
    ensures Inv(Next(w, e))
  {
    hide LocalIsExact, OwnedExist, UnfinishedIsAccountedFor, Next, Enabled;
    StepKeepsLocal(w, e);
    StepKeepsOwned(w, e);
    StepKeepsAccount(w, e);
  }

  /** A record that nobody owns is never owned again: attempts only create fresh ones. */
  lemma StaysUnowned(w: World, e: Event, id: string)
    requires Unowned(w, id) && Enabled(w, e)
    ensures Unowned(Next(w, e), id)
  {
    var v := Next(w, e);
    forall a ensures !Owns(v, a, id) {
      assert !Owns(w, a, id);
    }
  }

  /** A Space that nobody holds here has no owned record. */
  lemma FreeIsUnowned(w: World, id: string)
    requires LocalIsExact(w) && OwnedExist(w) && id in w.records && w.records[id].space !in w.local
    ensures Unowned(w, id)
  {
    forall a ensures !Owns(w, a, id) {
      assert Owns(w, a, id) ==> HoldsSpace(w, a, w.records[id].space);
    }
  }

  /** Nor has one whose run has no unfinished record, among the unfinished ones. */
  lemma UnrecordedIsUnowned(w: World, space: string, id: string)
    requires LocalIsExact(w) && OwnedExist(w) && id in RunningIn(w, space) && !RunIsRecorded(w, space)
    ensures Unowned(w, id)
  {
    forall a ensures !Owns(w, a, id) {
      assert Owns(w, a, id) ==> HoldsSpace(w, a, space);
    }
  }

  lemma StepKeepsRunning(w: World, e: Event, a: nat, id: string)
    requires Inv(w) && Safe(w) && Enabled(w, e)
    requires Owns(Next(w, e), a, id) && Next(w, e).attempts[a].phase.Executing?
    ensures id in Next(w, e).records && Next(w, e).records[id].state.Running?
  {
    if e.CreateRecord? && e.a == a {
    } else {
      assert Owns(w, a, id);
      if e.RecordOutcome? && w.attempts[e.a].phase.id == id {
        assert Owns(w, e.a, id);
        OneOwner(w, a, e.a, id);
      }
      if e.Close? {
        assert Unowned(w, e.id);
      }
    }
  }

  lemma StepKeepsPass(w: World, e: Event, id: string)
    requires Inv(w) && Safe(w) && Enabled(w, e) && !Races(w, e)
    requires id in Next(w, e).recovery.unheld + Next(w, e).recovery.condemned
    ensures Unowned(Next(w, e), id)
  {
    hide Inv, Unowned, Races;
    if id in w.recovery.unheld + w.recovery.condemned {
      StaysUnowned(w, e, id);
    } else {
      Condemning(w, e, id);
    }
  }

  lemma Condemning(w: World, e: Event, id: string)
    requires Inv(w) && Enabled(w, e) && !Races(w, e) && id !in w.recovery.unheld + w.recovery.condemned
    requires id in Next(w, e).recovery.unheld + Next(w, e).recovery.condemned
    ensures Unowned(Next(w, e), id)
  {
    if e.CheckUnheld? {
      FreeIsUnowned(w, id);
      StaysUnowned(w, e, id);
    } else {
      UnrecordedIsUnowned(w, e.space, id);
      StaysUnowned(w, e, id);
    }
  }

  lemma StepKeepsSafe(w: World, e: Event)
    requires Inv(w) && Safe(w) && Enabled(w, e) && !Races(w, e)
    ensures Safe(Next(w, e))
  {
    hide Inv, Unowned, Races, Next, Enabled;
    var v := Next(w, e);
    forall a, id | Owns(v, a, id) && v.attempts[a].phase.Executing? ensures id in v.records && v.records[id].state.Running? {
      StepKeepsRunning(w, e, a, id);
    }
    forall id | id in v.recovery.unheld + v.recovery.condemned ensures Unowned(v, id) {
      StepKeepsPass(w, e, id);
    }
  }

  // ---- over whole runs ----

  predicate Legal(w: World, es: seq<Event>)
    decreases |es|
  {
    es == [] || (Enabled(w, es[0]) && Legal(Next(w, es[0]), es[1..]))
  }

  function After(w: World, es: seq<Event>): World
    requires Legal(w, es)
    decreases |es|
  {
    if es == [] then w else After(Next(w, es[0]), es[1..])
  }

  /** No listing of the lease pass races with a run. */
  predicate Unraced(w: World, es: seq<Event>)
    requires Legal(w, es)
    decreases |es|
  {
    es == [] || (!Races(w, es[0]) && Unraced(Next(w, es[0]), es[1..]))
  }

  lemma {:induction false} AlwaysInv(w: World, es: seq<Event>)
    requires Inv(w) && Legal(w, es)
    ensures Inv(After(w, es))
    decreases |es|
  {
    hide Inv, Enabled, Next;
    if es != [] {
      StepKeepsInv(w, es[0]);
      AlwaysInv(Next(w, es[0]), es[1..]);
    }
  }

  lemma {:induction false} AlwaysSafe(w: World, es: seq<Event>)
    requires Inv(w) && Safe(w) && Legal(w, es) && Unraced(w, es)
    ensures Safe(After(w, es))
    decreases |es|
  {
    hide Inv, Safe, Races, Enabled, Next;
    if es != [] {
      StepKeepsInv(w, es[0]);
      StepKeepsSafe(w, es[0]);
      AlwaysSafe(Next(w, es[0]), es[1..]);
    }
  }

  // ---- leases ----

  /** The outside is not held back: the process may crash, time pass and the lease documents change at any
      point; a write under way may land, and a step of recovery be taken, whenever it is there to take. */
  lemma OutsideIsFree(w: World)
    ensures Enabled(w, Crash)
    ensures forall leases :: Enabled(w, ForeignLeases(leases)) && Next(w, ForeignLeases(leases)) == w.(leases := leases)
    ensures forall passed :: Enabled(w, Advance(passed)) && Next(w, Advance(passed)) == w.(clock := w.clock + passed)
    ensures forall write, ack :: write in w.renewals ==> Enabled(w, LandRenewal(write, ack))
    ensures forall space, ack :: space in w.recovery.lapsed ==> Enabled(w, DropLease(space, ack))
    ensures forall id, ack :: id in w.recovery.condemned ==> Enabled(w, Close(id, ack))
  {
  }

  /** A renewal started now is under way until it lands, whatever else happens; when it lands, the lease runs
      for its whole length from the start of the renewal, no other lease changes, and it does not land again. */
  lemma {:induction false} RenewalLands(w: World, a: nat, es: seq<Event>, ack: Ack)
    requires InPhase(w, a, (p: Phase) => p.Renews())
    requires Legal(Next(w, StartRenewal(a)), es)
    requires forall i :: 0 <= i < |es| && es[i].LandRenewal? ==> es[i].write != (w.attempts[a].space, w.clock + w.ttl)
    ensures var s, v := w.attempts[a].space, After(Next(w, StartRenewal(a)), es);
            var landing := LandRenewal((s, w.clock + w.ttl), ack);
            && Enabled(v, landing) && (s, w.clock + w.ttl) !in Next(v, landing).renewals
            && Next(v, landing).leases == if ack.Dropped? then v.leases else v.leases[s := w.clock + w.ttl]
  {
    StaysUnderWay(Next(w, StartRenewal(a)), es, (w.attempts[a].space, w.clock + w.ttl));
  }

  lemma {:induction false} StaysUnderWay(w: World, es: seq<Event>, write: (string, int))
    requires Legal(w, es) && write in w.renewals
    requires forall i :: 0 <= i < |es| && es[i].LandRenewal? ==> es[i].write != write
    ensures write in After(w, es).renewals
    decreases |es|
  {
    if es != [] {
      assert es[0].LandRenewal? ==> es[0].write != write;
      assert write in Next(w, es[0]).renewals;
      StaysUnderWay(Next(w, es[0]), es[1..], write);
    }
  }

  /** No attempt has read the Space's lease as free, answers for a record there or renews there. */
  ghost predicate NobodyNear(w: World, space: string) {
    && (forall a :: a in w.attempts && w.attempts[a].space == space ==>
          w.attempts[a].phase.Reserved? || w.attempts[a].phase.Refused? || w.attempts[a].phase.Gone?)
    && (forall a, id :: Owns(w, a, id) && id in w.records ==> w.records[id].space != space)
    && (forall write :: write in w.renewals ==> write.0 != space)
  }

  /** Recovery has not found the Space's lease lapsed and is about to close none of its records. */
  predicate LeftAlone(w: World, space: string) {
    && space !in w.recovery.lapsed
    && (forall id :: id in w.recovery.condemned ==> id in w.records && w.records[id].space != space)
  }

  /** Another process has the Space's lease until then, and this one is nowhere near taking it. */
  ghost predicate KeptOut(w: World, space: string, until: int) {
    space in w.leases && w.leases[space] >= until && NobodyNear(w, space) && LeftAlone(w, space)
  }

  /** What the other process may meanwhile do to its own lease. */
  predicate Respects(e: Event, space: string, until: int) {
    e.ForeignLeases? ==> space in e.leases && e.leases[space] >= until
  }

  lemma NobodyNearStep(w: World, e: Event, space: string)
    requires NobodyNear(w, space) && Enabled(w, e) && LeaseLive(w, space)
    ensures NobodyNear(Next(w, e), space)
  {
    var v := Next(w, e);
    forall a, id | Owns(v, a, id) && id in v.records ensures v.records[id].space != space {
      assert (e.CreateRecord? && e.a == a) || Owns(w, a, id);
    }
  }

  lemma KeptOutStep(w: World, e: Event, space: string, until: int)
    requires KeptOut(w, space, until) && Enabled(w, e) && Respects(e, space, until) && w.clock < until
    ensures KeptOut(Next(w, e), space, until)
    ensures RecordsOf(Next(w, e), space) == RecordsOf(w, space)
  {
    hide RecordsOf, NobodyNear, LeftAlone, Next, Enabled;
    NobodyNearStep(w, e, space);
    NoneTouched(w, e, space);
    LeaseStays(w, e, space, until);
    LeftAloneStep(w, e, space);
  }

  /** The events that write leases. */
  predicate WritesLeases(e: Event) {
    e.WriteLease? || e.ReleaseLease? || e.LandRenewal? || e.DropLease? || e.ForeignLeases?
  }

  lemma OtherLeasesStay(w: World, e: Event)
    requires Enabled(w, e) && !WritesLeases(e)
    ensures Next(w, e).leases == w.leases
  {
  }

  lemma LeaseStays(w: World, e: Event, space: string, until: int)
    requires KeptOut(w, space, until) && Enabled(w, e) && Respects(e, space, until)
    ensures space in Next(w, e).leases && Next(w, e).leases[space] >= until
  {
    if !WritesLeases(e) {
      OtherLeasesStay(w, e);
    }
  }

  lemma LeftAloneStep(w: World, e: Event, space: string)
    requires LeftAlone(w, space) && Enabled(w, e) && LeaseLive(w, space)
    ensures LeftAlone(Next(w, e), space)
  {
  }

  lemma NoneTouched(w: World, e: Event, space: string)
    requires NobodyNear(w, space) && LeftAlone(w, space) && Enabled(w, e)
    ensures RecordsOf(Next(w, e), space) == RecordsOf(w, space)
  {
    if e.RecordOutcome? {
      assert Owns(w, e.a, w.attempts[e.a].phase.id);
    }
    var v := Next(w, e);
    forall id ensures id in RecordsOf(v, space) <==> id in RecordsOf(w, space) {
    }
  }

  /** The Space's records as they stand. */
  function RecordsOf(w: World, space: string): map<string, Record> {
    map id | id in w.records && w.records[id].space == space :: w.records[id]
  }

  /** As long as another process's lease is live, no attempt of this one gets past it and no recovery touches
      a record of that Space: however many are made, whatever fails, and through any number of crashes. */
  lemma {:induction false} LiveLeaseKeepsOut(w: World, es: seq<Event>, space: string, until: int)
    requires KeptOut(w, space, until) && Legal(w, es) && After(w, es).clock < until
    requires forall i :: 0 <= i < |es| ==> Respects(es[i], space, until)
    ensures KeptOut(After(w, es), space, until) && RecordsOf(After(w, es), space) == RecordsOf(w, space)
    decreases |es|
  {
    hide KeptOut, RecordsOf, Respects, NobodyNear, LeftAlone, Enabled, Next;
    if es != [] {
      assert Respects(es[0], space, until);
      ClockRuns(w, es);
      KeptOutStep(w, es[0], space, until);
      LiveLeaseKeepsOut(Next(w, es[0]), es[1..], space, until);
    }
  }

  lemma {:induction false} ClockRuns(w: World, es: seq<Event>)
    requires Legal(w, es)
    ensures After(w, es).clock >= w.clock
    decreases |es|
  {
    if es != [] {
      ClockRuns(Next(w, es[0]), es[1..]);
    }
  }

  /** The same event with another fate for its write. */
  function WithAck(e: Event, ack: Ack): Event {
    match e
    case WriteLease(a, _) => WriteLease(a, ack)
    case CreateRecord(a, id, _) => CreateRecord(a, id, ack)
    case RecordOutcome(a, state, _) => RecordOutcome(a, state, ack)
    case ReleaseLease(a, _) => ReleaseLease(a, ack)
    case LandRenewal(write, _) => LandRenewal(write, ack)
    case Close(id, _) => Close(id, ack)
    case DropLease(space, _) => DropLease(space, ack)
    case _ => e
  }

  /** A write that is dropped changes no document, and one that landed unacknowledged changes exactly what
      the acknowledged one would. */
  lemma WritesLandOrNot(w: World, e: Event)
    requires Enabled(w, e) && WithAck(e, Dropped) != WithAck(e, Acked)
    ensures Enabled(w, WithAck(e, Acked)) && Enabled(w, WithAck(e, Unacked)) && Enabled(w, WithAck(e, Dropped))
    ensures Next(w, WithAck(e, Dropped)).leases == w.leases && Next(w, WithAck(e, Dropped)).records == w.records
    ensures Next(w, WithAck(e, Unacked)).leases == Next(w, WithAck(e, Acked)).leases
    ensures Next(w, WithAck(e, Unacked)).records == Next(w, WithAck(e, Acked)).records
  {
  }

  /** What the acknowledged ones change. */
  lemma LeaseWritten(w: World, a: nat)
    requires InPhase(w, a, (p: Phase) => p.Cleared? || p.Unleasing?)
    ensures var s := w.attempts[a].space;
            if w.attempts[a].phase.Cleared? then
              Next(w, WriteLease(a, Acked)).leases == w.leases[s := w.attempts[a].phase.at + w.ttl]
            else Next(w, ReleaseLease(a, Acked)).leases == w.leases - {s}
  {
  }

  /** Before its lease is written. */
  predicate Unstarted(w: World, a: nat) {
    a in w.attempts ==> w.attempts[a].phase.Reserved? || w.attempts[a].phase.Cleared? || w.attempts[a].phase.Refused?
                        || w.attempts[a].phase.Gone?
  }

  lemma StartsByWriting(w: World, e: Event, a: nat)
    requires Unstarted(w, a) && Enabled(w, e) && e != WriteLease(a, Acked)
    ensures Unstarted(Next(w, e), a)
  {
  }

  /** Nobody gets to run without its own acknowledged lease write, over every history. */
  lemma {:induction false} RunsOnItsOwnLease(w: World, es: seq<Event>, a: nat)
    requires Unstarted(w, a) && Legal(w, es) && InPhase(After(w, es), a, (p: Phase) => p.Renews())
    ensures WriteLease(a, Acked) in es
    decreases |es|
  {
    hide Enabled, Next;
    if es != [] && es[0] != WriteLease(a, Acked) {
      StartsByWriting(w, es[0], a);
      RunsOnItsOwnLease(Next(w, es[0]), es[1..], a);
    }
  }

  /** How often recovery found the Space's lease lapsed, and how often it went to drop it. */
  function Findings(es: seq<Event>, space: string): nat {
    if es == [] then 0 else (if es[0] == CheckLapsed(space) then 1 else 0) + Findings(es[1..], space)
  }

  function Drops(es: seq<Event>, space: string): nat {
    if es == [] then 0 else (if es[0].DropLease? && es[0].space == space then 1 else 0) + Drops(es[1..], space)
  }

  /** A lease is dropped at most once for each time it was found lapsed, with its Space not held here. */
  lemma {:induction false} DropsAreFound(w: World, es: seq<Event>, space: string)
    requires Legal(w, es)
    ensures Drops(es, space) <= Findings(es, space) + if space in w.recovery.lapsed then 1 else 0
    ensures forall i :: 0 <= i < |es| && es[i] == CheckLapsed(space) ==>
                          (LegalPrefix(w, es, i);
                           space in After(w, es[..i]).leases && After(w, es[..i]).clock >= After(w, es[..i]).leases[space]
                           && space !in After(w, es[..i]).local)
    decreases |es|
  {
    forall i | 0 <= i < |es| && es[i] == CheckLapsed(space)
      ensures (LegalPrefix(w, es, i);
               space in After(w, es[..i]).leases && After(w, es[..i]).clock >= After(w, es[..i]).leases[space]
               && space !in After(w, es[..i]).local)
    {
      LegalPrefix(w, es, i);
    }
    if es != [] {
      DropsAreFound(Next(w, es[0]), es[1..], space);
    }
  }

  lemma {:induction false} LegalPrefix(w: World, es: seq<Event>, i: nat)
    requires Legal(w, es) && i <= |es|
    ensures Legal(w, es[..i]) && (i < |es| ==> Enabled(After(w, es[..i]), es[i]))
    decreases |es|
  {
    if i > 0 {
      LegalPrefix(Next(w, es[0]), es[1..], i - 1);
      assert es[..i][1..] == es[1..][..i - 1];
    }
  }

  /** Recovery comes to close only what it read as unfinished: an orphan's record whose Space is free in
      both places, or one of a Space whose lease it found lapsed. */
  lemma CondemnedIsOpen(w: World, e: Event, id: string)
    requires Enabled(w, e) && id in Next(w, e).recovery.condemned && id !in w.recovery.condemned
    ensures id in w.records
    ensures e.CheckUnleased? ==> id in w.recovery.unheld && !LeaseLive(w, w.records[id].space)
    ensures e.ListLapsed? ==> w.records[id].state !in {Succeeded, Failed} && w.records[id].space == e.space
                              && e.space in w.recovery.lapsed
    ensures e.CheckUnleased? || e.ListLapsed?
  {
  }

  /** At every point of every run, `local` holds exactly the Spaces that some attempt holds: one whose
      Acquire is in flight or whose run has not been released. */
  lemma LocalHoldsExactly(start: World, es: seq<Event>, space: string)
    requires Initial(start) && Legal(start, es)
    ensures space in After(start, es).local <==> exists a :: HoldsSpace(After(start, es), a, space)
  {
    InitialInv(start);
    AlwaysInv(start, es);
    var w := After(start, es);
    if space in w.local {
      assert HoldsSpace(w, w.local[space], space);
    }
  }

  /** However attempts, renewals, crashes and recoveries interleave and whatever the stores answer: a
      Space has at most one attempt that holds it, so never two live runs. */
  lemma OneLiveRunPerSpace(start: World, es: seq<Event>, a: nat, b: nat)
    requires Initial(start) && Legal(start, es)
    ensures var w := After(start, es);
            (a in w.attempts && b in w.attempts && w.attempts[a].space == w.attempts[b].space
             && w.attempts[a].phase.Holds() && w.attempts[b].phase.Holds()) ==> a == b
  {
    InitialInv(start);
    AlwaysInv(start, es);
    var w := After(start, es);
    if a in w.attempts && b in w.attempts {
      assert w.attempts[a].phase.Holds() ==> HoldsSpace(w, a, w.attempts[a].space);
      assert w.attempts[b].phase.Holds() ==> HoldsSpace(w, b, w.attempts[b].space);
    }
  }

  /** And a live run's record says running, unless a listing of the lease pass has raced with it. */
  lemma LiveRunSaysRunning(start: World, es: seq<Event>, a: nat)
    requires Initial(start) && Legal(start, es) && Unraced(start, es)
    ensures var w := After(start, es);
            a in w.attempts && w.attempts[a].phase.Executing?
            ==> w.attempts[a].phase.id in w.records && w.records[w.attempts[a].phase.id] == Record(w.attempts[a].space, Running)
  {
    InitialInv(start);
    AlwaysInv(start, es);
    AlwaysSafe(start, es);
    var w := After(start, es);
    if a in w.attempts && w.attempts[a].phase.Executing? {
      assert Owns(w, a, w.attempts[a].phase.id);
    }
  }

  /** An unfinished record of a Space that is not an orphan means the Space is held: its run is under
      way or its outcome was lost. */
  lemma UnfinishedMeansHeld(start: World, es: seq<Event>, id: string)
    requires Initial(start) && Legal(start, es)
    ensures var w := After(start, es);
            id in AllRunning(w) && id !in w.orphans ==> w.records[id].space in w.local
  {
    InitialInv(start);
    AlwaysInv(start, es);
    var w := After(start, es);
    if id in AllRunning(w) && id !in w.orphans {
      var a :| Owns(w, a, id);
      assert HoldsSpace(w, a, w.attempts[a].space);
    }
  }

  /** A terminal record stays terminal, in its Space; only the verdict may be overwritten. */
  lemma {:induction false} TerminalForever(w: World, es: seq<Event>, id: string)
    requires Legal(w, es) && id in w.records && w.records[id].state.Terminal()
    ensures var v := After(w, es); id in v.records && v.records[id].space == w.records[id].space && v.records[id].state.Terminal()
    decreases |es|
  {
    if es != [] {
      TerminalForever(Next(w, es[0]), es[1..], id);
    }
  }

  /** The event records an outcome of this attempt, or stops the process. */
  predicate Disturbs(e: Event, a: nat) { e.Crash? || (e.RecordOutcome? && e.a == a) }

  /** From the moment a run has its record until it records its own outcome or the process stops,
      nothing else touches the record: no other attempt, no renewal, and no recovery whose listing has
      not raced with a run. */
  lemma {:induction false} OwnRecordIsUndisturbed(w: World, es: seq<Event>, a: nat, id: string)
    requires Inv(w) && Safe(w) && Legal(w, es) && Unraced(w, es) && Owns(w, a, id)
    requires forall e :: e in es ==> !Disturbs(e, a)
    ensures var v := After(w, es);
            && Owns(v, a, id) && v.attempts[a].space == w.attempts[a].space
            && id in v.records && v.records[id] == w.records[id]
            && v.attempts[a].space in v.local
    decreases |es|
  {
    hide Next, Enabled, Races;
    assert HoldsSpace(w, a, w.attempts[a].space);
    if es != [] {
      assert es[0] in es;
      StepKeepsInv(w, es[0]);
      StepKeepsSafe(w, es[0]);
      OwnStep(w, es[0], a, id);
      forall f | f in es[1..] ensures !Disturbs(f, a) { assert f in es; }
      OwnRecordIsUndisturbed(Next(w, es[0]), es[1..], a, id);
    }
  }

  lemma OwnStep(w: World, e: Event, a: nat, id: string)
    requires Inv(w) && Safe(w) && Enabled(w, e) && Owns(w, a, id) && !Disturbs(e, a)
    ensures var v := Next(w, e);
            && Owns(v, a, id) && v.attempts[a].space == w.attempts[a].space && id in v.records && v.records[id] == w.records[id]
  {
    if e.RecordOutcome? && w.attempts[e.a].phase.id == id {
      assert Owns(w, e.a, id);
      OneOwner(w, a, e.a, id);
    }
    if e.Close? {
      assert Unowned(w, e.id);
    }
  }

  /** A run whose outcome was lost keeps its Space until the process stops: no length of time and no
      recovery frees it. */
  lemma {:induction false} LostUntilCrash(w: World, es: seq<Event>, a: nat)
    requires LocalIsExact(w) && Legal(w, es) && a in w.attempts && w.attempts[a].phase.Lost?
    requires forall e :: e in es ==> !e.Crash?
    ensures var v := After(w, es); a in v.attempts && v.attempts[a] == w.attempts[a] && w.attempts[a].space in v.local
    decreases |es|
  {
    assert HoldsSpace(w, a, w.attempts[a].space);
    if es != [] {
      assert es[0] in es;
      StepKeepsLocal(w, es[0]);
      forall f | f in es[1..] ensures !f.Crash? { assert f in es; }
      LostUntilCrash(Next(w, es[0]), es[1..], a);
    }
  }

  /** Nor is its record closed, unless a listing has raced. */
  lemma LostStaysOpen(w: World, es: seq<Event>, a: nat, id: string)
    requires Inv(w) && Safe(w) && Legal(w, es) && Unraced(w, es) && Owns(w, a, id) && w.attempts[a].phase.Lost?
    requires forall e :: e in es ==> !e.Crash?
    ensures id in After(w, es).records && After(w, es).records[id] == w.records[id]
  {
    LostRecordsNothing(w, es, a);
    OwnRecordIsUndisturbed(w, es, a, id);
  }

  lemma {:induction false} LostRecordsNothing(w: World, es: seq<Event>, a: nat)
    requires Legal(w, es) && a in w.attempts && w.attempts[a].phase.Lost? && forall e :: e in es ==> !e.Crash?
    ensures forall e :: e in es ==> !Disturbs(e, a)
    decreases |es|
  {
    if es != [] {
      var v := Next(w, es[0]);
      assert es[0] in es;
      assert es == [es[0]] + es[1..];
      LostRecordsNothing(v, es[1..], a);
    }
  }

  // ---- what recovery can get wrong ----

  lemma {:induction false} NeverOwnedAgain(w: World, es: seq<Event>, id: string)
    requires Unowned(w, id) && Legal(w, es)
    ensures Unowned(After(w, es), id)
    decreases |es|
  {
    hide Unowned, Next, Enabled;
    if es != [] {
      StaysUnowned(w, es[0], id);
      NeverOwnedAgain(Next(w, es[0]), es[1..], id);
    }
  }

  /** The orphan pass lists first and looks at `local` afterwards: then whatever happens later, no attempt
      answers for the record any more and closing it disturbs no run. */
  lemma ListThenCheckIsSafe(w: World, between: seq<Event>, later: seq<Event>, id: string)
    requires Inv(w) && id in AllRunning(w) && Legal(w, between)
    requires id in After(w, between).records && After(w, between).records[id].space !in After(w, between).local
    requires Legal(After(w, between), later)
    ensures Unowned(After(After(w, between), later), id)
  {
    hide Inv, Unowned, Legal, After;
    AlwaysInv(w, between);
    CheckedIsUnowned(After(w, between), id);
    NeverOwnedAgain(After(w, between), later, id);
  }

  lemma CheckedIsUnowned(w: World, id: string)
    requires Inv(w) && id in w.records && w.records[id].space !in w.local
    ensures Unowned(w, id)
  {
    FreeIsUnowned(w, id);
  }

  /** Closing these records disturbs no run, now and at any later time. */
  ghost predicate ClosableForEver(w: World, ids: set<string>) {
    forall es, id :: Legal(w, es) && id in ids ==> Unowned(After(w, es), id)
  }

  /** The lease pass looks first and lists afterwards: what it lists can be closed at any later time
      without disturbing a run exactly when, as it lists, no run with an unfinished record holds the
      Space's reservation. */
  lemma CheckThenListIsSafeIff(w: World, space: string)
    requires Inv(w) && Enabled(w, ListLapsed(space, RunningIn(w, space)))
    ensures ClosableForEver(Next(w, ListLapsed(space, RunningIn(w, space))), RunningIn(w, space)) <==> !RunIsRecorded(w, space)
  {
    var ids := RunningIn(w, space);
    var v := Next(w, ListLapsed(space, ids));
    if RunIsRecorded(w, space) {
      var a := w.local[space];
      var id := w.attempts[a].phase.Record().value;
      NoMoreSteps(v);
      assert Owns(v, a, id) && !Unowned(After(v, []), id);
    } else {
      forall es, id | Legal(v, es) && id in ids ensures Unowned(After(v, es), id) {
        UnrecordedIsUnowned(w, space, id);
        StaysUnowned(w, ListLapsed(space, ids), id);
        NeverOwnedAgain(v, es, id);
      }
    }
  }

  /** The attempt is still going to record an outcome. */
  predicate WillSettle(w: World, a: nat, id: string) {
    Owns(w, a, id) && (w.attempts[a].phase.Executing? || w.attempts[a].phase.Settling?)
  }

  /** The orphan pass is about to mark failed a record that says succeeded. */
  predicate Overturns(w: World, id: string) {
    id in w.recovery.condemned && id in w.records && w.records[id].state.Succeeded?
  }

  /** No success is recorded and no attempt will record one. */
  ghost predicate NoSuccess(w: World, id: string) {
    id in w.records && !w.records[id].state.Succeeded? && forall a :: !WillSettle(w, a, id)
  }

  lemma NoSuccessStep(w: World, e: Event, id: string)
    requires NoSuccess(w, id) && Enabled(w, e)
    ensures NoSuccess(Next(w, e), id)
  {
    var v := Next(w, e);
    if e.RecordOutcome? {
      assert !WillSettle(w, e.a, id);
    }
    forall a ensures !WillSettle(v, a, id) {
      assert !WillSettle(w, a, id);
    }
  }

  lemma {:induction false} NoSuccessEver(w: World, es: seq<Event>, id: string)
    requires NoSuccess(w, id) && Legal(w, es)
    ensures NoSuccess(After(w, es), id)
    decreases |es|
  {
    hide NoSuccess, Next, Enabled;
    if es != [] {
      NoSuccessStep(w, es[0], id);
      NoSuccessEver(Next(w, es[0]), es[1..], id);
    }
  }

  /** A run that finishes between the listing and the check: its success is recorded, its lock given
      back, and the pass finds the Space free. */
  function FinishAndCondemn(w: World, a: nat, id: string): seq<Event>
    requires a in w.attempts
  {
    (if w.attempts[a].phase.Executing? then [EndWork(a)] else [])
    + [RecordOutcome(a, Succeeded, Acked), ReleaseLocal(a), ReleaseLease(a, Acked), CheckUnheld(id), CheckUnleased(id)]
  }

  lemma SettlingIsOverturned(w: World, a: nat, id: string)
    requires a in w.attempts && w.attempts[a].phase == Settling(id) && id in w.recovery.listed
    requires id in w.records && w.records[id].space == w.attempts[a].space
    ensures Legal(w, FinishAndCondemn(w, a, id)) && Overturns(After(w, FinishAndCondemn(w, a, id)), id)
  {
    hide Legal, After;
    var checks := [CheckUnheld(id), CheckUnleased(id)];
    var w1 := Next(w, RecordOutcome(a, Succeeded, Acked));
    var w2 := Next(w1, ReleaseLocal(a));
    var w3 := Next(w2, ReleaseLease(a, Acked));
    Condemned(w3, id);
    FirstStep(w2, ReleaseLease(a, Acked), checks);
    FirstStep(w1, ReleaseLocal(a), [ReleaseLease(a, Acked)] + checks);
    FirstStep(w, RecordOutcome(a, Succeeded, Acked), [ReleaseLocal(a)] + ([ReleaseLease(a, Acked)] + checks));
    assert FinishAndCondemn(w, a, id)
        == [RecordOutcome(a, Succeeded, Acked)] + ([ReleaseLocal(a)] + ([ReleaseLease(a, Acked)] + checks));
  }

  lemma Condemned(w: World, id: string)
    requires id in w.recovery.listed && id in w.records && w.records[id].state.Succeeded?
    requires w.records[id].space !in w.local && w.records[id].space !in w.leases
    ensures var checks := [CheckUnheld(id), CheckUnleased(id)]; Legal(w, checks) && Overturns(After(w, checks), id)
  {
    var w1 := Next(w, CheckUnheld(id));
    Chain([w, w1, Next(w1, CheckUnleased(id))], [CheckUnheld(id), CheckUnleased(id)]);
  }

  lemma WillSettleIsOverturned(w: World, a: nat, id: string)
    requires Inv(w) && WillSettle(w, a, id) && id in w.recovery.listed
    ensures Legal(w, FinishAndCondemn(w, a, id)) && Overturns(After(w, FinishAndCondemn(w, a, id)), id)
  {
    hide Legal, After, LocalIsExact, UnfinishedIsAccountedFor, Overturns;
    assert Owns(w, a, id);
    if w.attempts[a].phase.Executing? {
      var v := Next(w, EndWork(a));
      SettlingIsOverturned(v, a, id);
      assert FinishAndCondemn(w, a, id) == [EndWork(a)] + FinishAndCondemn(v, a, id);
      FirstStep(w, EndWork(a), FinishAndCondemn(v, a, id));
    } else {
      SettlingIsOverturned(w, a, id);
    }
  }

  /** Some way of going on brings the orphan pass to overturn a recorded success. */
  ghost predicate CanOverturn(w: World, id: string) {
    exists es :: Legal(w, es) && Overturns(After(w, es), id)
  }

  /** A recorded success can be overturned by the orphan pass exactly when, as the pass lists the record,
      its run is still under way or recording its outcome. */
  lemma SuccessIsOverturnedIff(w: World, listed: set<string>, id: string)
    requires Inv(w) && Enabled(w, ListOrphans(listed)) && id in listed
    ensures CanOverturn(Next(w, ListOrphans(listed)), id) <==> exists a :: WillSettle(w, a, id)
  {
    hide Inv, Legal, After, Overturns;
    var v := Next(w, ListOrphans(listed));
    StepKeepsInv(w, ListOrphans(listed));
    assert forall a :: WillSettle(v, a, id) <==> WillSettle(w, a, id);
    if a :| WillSettle(w, a, id) {
      WillSettleIsOverturned(v, a, id);
    } else {
      forall es | Legal(v, es) ensures !Overturns(After(v, es), id) {
        NoSuccessEver(v, es, id);
        NotOverturned(After(v, es), id);
      }
    }
  }

  lemma NotOverturned(w: World, id: string)
    requires NoSuccess(w, id)
    ensures !Overturns(w, id)
  {
  }

  /** States that follow each other by their events are a run. */
  lemma {:induction false} Chain(worlds: seq<World>, es: seq<Event>)
    requires |worlds| == |es| + 1
    requires forall i :: 0 <= i < |es| ==> Enabled(worlds[i], es[i]) && worlds[i + 1] == Next(worlds[i], es[i])
    ensures Legal(worlds[0], es) && After(worlds[0], es) == worlds[|es|]
    decreases |es|
  {
    hide Enabled, Next;
    if es != [] {
      Chain(worlds[1..], es[1..]);
    }
  }

  /** A lapsed lease is found, its Space free; a run starts there before the pass lists the records; and
      the pass marks the live run's record failed. */
  lemma LeasePassClosesALiveRun(ttl: nat, clock: int, space: string)
    requires space != ""
    ensures var start := World(ttl, clock, map[], map[], map[space := clock], {}, map[], {}, NoPass());
            var es := [CheckLapsed(space)] + (FullStart(0, space, "a") + [ListLapsed(space, {"a"}), Close("a", Acked)]);
            && Initial(start) && Legal(start, es)
            && HoldsSpace(After(start, es), 0, space) && After(start, es).attempts[0].phase == Executing("a")
            && After(start, es).records == map["a" := Record(space, Failed)]
  {
    hide Legal, After, FullStart;
    var start := World(ttl, clock, map[], map[], map[space := clock], {}, map[], {}, NoPass());
    var w := Next(start, CheckLapsed(space));
    var v := Started(w, 0, space, "a");
    var closing := [ListLapsed(space, {"a"}), Close("a", Acked)];
    ClosesTheLive(v, space, "a");
    StartRuns(w, 0, space, "a", closing);
    FirstStep(start, CheckLapsed(space), FullStart(0, space, "a") + closing);
  }

  lemma ClosesTheLive(v: World, space: string, id: string)
    requires v.records == map[id := Record(space, Running)] && space in v.recovery.lapsed
    ensures var closing := [ListLapsed(space, {id}), Close(id, Acked)];
            && Legal(v, closing) && After(v, closing).attempts == v.attempts
            && After(v, closing).records == map[id := Record(space, Failed)]
  {
    hide Legal, After;
    assert RunningIn(v, space) == {id};
    var v1 := Next(v, ListLapsed(space, {id}));
    var v2 := Next(v1, Close(id, Acked));
    NoMoreSteps(v2);
    FirstStep(v1, Close(id, Acked), []);
    FirstStep(v, ListLapsed(space, {id}), [Close(id, Acked)] + []);
    assert [ListLapsed(space, {id})] + ([Close(id, Acked)] + []) == [ListLapsed(space, {id}), Close(id, Acked)];
  }

  // ---- after a crash ----

  /** The rest of an orphan pass that goes through: each record looked up, found unleased, closed. */
  function Closing(ids: seq<string>): seq<Event> {
    if ids == [] then [] else [CheckUnheld(ids[0]), CheckUnleased(ids[0]), Close(ids[0], Acked)] + Closing(ids[1..])
  }

  /** Waiting and one orphan pass close the record. */
  ghost predicate Recoverable(w: World, id: string) {
    exists passed: nat :: Legal(Next(w, Advance(passed)), [ListOrphans({id})] + Closing([id]))
  }

  /** An unfinished record can be closed by waiting and one orphan pass exactly when its Space is not
      held here. */
  lemma RecoverableIff(w: World, id: string)
    requires id in AllRunning(w)
    ensures Recoverable(w, id) <==> w.records[id].space !in w.local
  {
    hide Legal, After, Closing;
    var space := w.records[id].space;
    if space !in w.local {
      var passed: nat := if space in w.leases && w.leases[space] > w.clock then w.leases[space] - w.clock else 0;
      PassIsLegal(Next(w, Advance(passed)), id);
    }
    forall passed: nat | Legal(Next(w, Advance(passed)), [ListOrphans({id})] + Closing([id])) ensures space !in w.local {
      PassNeedsFree(Next(w, Advance(passed)), id);
    }
  }

  lemma PassIsLegal(v: World, id: string)
    requires id in AllRunning(v) && v.records[id].space !in v.local && !LeaseLive(v, v.records[id].space)
    ensures Legal(v, [ListOrphans({id})] + Closing([id]))
  {
    hide Legal, After;
    var u := Next(v, ListOrphans({id}));
    FirstStep(v, ListOrphans({id}), Closing([id]));
    ClosesOne(u, id, []);
    NoMoreSteps(Closed(u, id));
    assert Closing([id]) == [CheckUnheld(id), CheckUnleased(id), Close(id, Acked)] + [];
  }

  lemma PassNeedsFree(v: World, id: string)
    requires id in AllRunning(v) && Legal(v, [ListOrphans({id})] + Closing([id]))
    ensures v.records[id].space !in v.local
  {
    hide Legal, After, LeaseLive;
    FirstStep(v, ListOrphans({id}), Closing([id]));
    assert Closing([id]) == [CheckUnheld(id)] + [CheckUnleased(id), Close(id, Acked)];
    FirstLegal(Next(v, ListOrphans({id})), CheckUnheld(id), [CheckUnleased(id), Close(id, Acked)]);
  }

  lemma FirstLegal(w: World, e: Event, rest: seq<Event>)
    ensures Legal(w, [e] + rest) <==> Enabled(w, e) && Legal(Next(w, e), rest)
  {
    assert ([e] + rest)[1..] == rest;
  }

  /** The world after one record has been closed. */
  function Closed(w: World, id: string): World {
    w.(records := MarkFailed(w.records, id),
       recovery := w.recovery.(unheld := w.recovery.unheld + {id}, condemned := w.recovery.condemned + {id} - {id}))
  }

  lemma ClosesOne(w: World, id: string, rest: seq<Event>)
    requires id in w.recovery.listed && id in w.records
    requires w.records[id].space !in w.local && !LeaseLive(w, w.records[id].space)
    ensures var one := [CheckUnheld(id), CheckUnleased(id), Close(id, Acked)] + rest;
            && (Legal(w, one) <==> Legal(Closed(w, id), rest))
            && (Legal(Closed(w, id), rest) ==> After(w, one) == After(Closed(w, id), rest))
  {
    hide Legal, After;
    var w1 := Next(w, CheckUnheld(id));
    var w2 := Next(w1, CheckUnleased(id));
    FirstStep(w, CheckUnheld(id), [CheckUnleased(id)] + ([Close(id, Acked)] + rest));
    FirstStep(w1, CheckUnleased(id), [Close(id, Acked)] + rest);
    FirstStep(w2, Close(id, Acked), rest);
    assert [CheckUnheld(id)] + ([CheckUnleased(id)] + ([Close(id, Acked)] + rest))
        == [CheckUnheld(id), CheckUnleased(id), Close(id, Acked)] + rest;
  }

  /** Nothing is held here and no lease is live. */
  ghost predicate AllFree(w: World) {
    w.local == map[] && forall space :: !LeaseLive(w, space)
  }

  /** What a pass over some records leaves: those failed, the others as they were. */
  function AllMarkedFailed(records: map<string, Record>, ids: seq<string>): map<string, Record> {
    map id | id in records :: if id in ids then records[id].(state := Failed) else records[id]
  }

  lemma {:induction false} ClosesListed(w: World, ids: seq<string>)
    requires AllFree(w) && forall id :: id in ids ==> id in w.recovery.listed && id in w.records
    ensures Legal(w, Closing(ids)) && After(w, Closing(ids)).records == AllMarkedFailed(w.records, ids)
    ensures AllFree(After(w, Closing(ids)))
    decreases |ids|
  {
    hide Legal, After;
    if ids == [] {
      NoMoreSteps(w);
    } else {
      var v := Closed(w, ids[0]);
      ClosesOne(w, ids[0], Closing(ids[1..]));
      assert forall space :: LeaseLive(v, space) == LeaseLive(w, space);
      ClosesListed(v, ids[1..]);
      assert ids == [ids[0]] + ids[1..];
    }
  }

  /** After any run and a crash, once the leases have run out, an orphan pass that goes through, in
      whatever order it lists the unfinished records, leaves none: takeovers and lost outcomes included.
      They are failed, no other record changes, and every Space is free again. */
  lemma PassClosesAllAfterCrash(start: World, es: seq<Event>, passed: nat, ids: seq<string>)
    requires Legal(start, es)
    requires var v := Next(Next(After(start, es), Crash), Advance(passed));
             AllFree(v) && forall id :: id in ids <==> id in AllRunning(v)
    ensures var v := Next(Next(After(start, es), Crash), Advance(passed));
            var pass := [ListOrphans(AllRunning(v))] + Closing(ids);
            && Legal(v, pass) && AllRunning(After(v, pass)) == {} && AllFree(After(v, pass))
            && After(v, pass).records == AllMarkedFailed(v.records, ids)
  {
    hide Legal, After;
    var x := Next(After(start, es), Crash);
    var v := Next(x, Advance(passed));
    var u := Next(v, ListOrphans(AllRunning(v)));
    StaysFree(v, AllRunning(v));
    ClosesListed(u, ids);
    FirstStep(v, ListOrphans(AllRunning(v)), Closing(ids));
  }

  lemma StaysFree(w: World, ids: set<string>)
    requires AllFree(w) && ids <= AllRunning(w)
    ensures AllFree(Next(w, ListOrphans(ids)))
  {
    var v := Next(w, ListOrphans(ids));
    assert forall space :: LeaseLive(v, space) == LeaseLive(w, space);
  }

  lemma {:induction false} LatestExpiry(leases: map<string, int>) returns (t: int)
    ensures forall space :: space in leases ==> leases[space] <= t
    decreases |leases|
  {
    if leases == map[] {
      t := 0;
    } else {
      var space :| space in leases;
      var rest := leases - {space};
      t := LatestExpiry(rest);
      if leases[space] > t {
        t := leases[space];
      }
      assert forall s :: s in leases && s != space ==> s in rest;
    }
  }

  lemma {:induction false} Enumerated(s: set<string>) returns (ids: seq<string>)
    ensures forall id :: id in ids <==> id in s
    decreases |s|
  {
    if s == {} {
      ids := [];
    } else {
      var id :| id in s;
      var rest := Enumerated(s - {id});
      ids := [id] + rest;
    }
  }

  /** So after any run and a crash, waiting and one pass leave nothing unfinished. */
  lemma CrashIsRecovered(start: World, es: seq<Event>)
    requires Legal(start, es)
    ensures exists passed: nat, ids: seq<string> ::
              var v := Next(Next(After(start, es), Crash), Advance(passed));
              var pass := [ListOrphans(AllRunning(v))] + Closing(ids);
              Legal(v, pass) && AllRunning(After(v, pass)) == {}
  {
    hide Legal, After;
    var x := Next(After(start, es), Crash);
    var t := LatestExpiry(x.leases);
    var passed: nat := if t > x.clock then t - x.clock else 0;
    var v := Next(x, Advance(passed));
    var ids := Enumerated(AllRunning(v));
    PassClosesAllAfterCrash(start, es, passed, ids);
  }

  /** One attempt of one Space, from reservation to a running record. */
  function FullStart(a: nat, space: string, id: string): seq<Event> {
    [Reserve(a, space), ReadLease(a, true), WriteLease(a, Acked), CreateRecord(a, id, Acked)]
  }

  /** A Space can carry two running records: a run starts, the process stops, the lease runs out, and a
      second run takes the lease over before recovery has closed the first. One of them is live. */
  lemma TwoRunningRecords(ttl: nat, clock: int, space: string)
    requires space != ""
    ensures var start := World(ttl, clock, map[], map[], map[], {}, map[], {}, NoPass());
            var es := FullStart(0, space, "a") + [Crash, Advance(ttl)] + FullStart(1, space, "b");
            && Initial(start) && Legal(start, es)
            && RunningIn(After(start, es), space) == {"a", "b"}
            && After(start, es).orphans == {"a"}
  {
    hide Legal, After, FullStart, RunningIn;
    var start := World(ttl, clock, map[], map[], map[], {}, map[], {}, NoPass());
    var second := FullStart(1, space, "b");
    var v := Started(start, 0, space, "a");
    var x := Next(v, Crash);
    var y := Next(x, Advance(ttl));
    var end := Started(y, 1, space, "b");
    TwoRecords(y, v, x, space);
    NoMoreSteps(end);
    StartRuns(y, 1, space, "b", []);
    assert second + [] == second;
    FirstStep(x, Advance(ttl), second);
    FirstStep(v, Crash, [Advance(ttl)] + second);
    StartRuns(start, 0, space, "a", [Crash] + ([Advance(ttl)] + second));
    assert FullStart(0, space, "a") + ([Crash] + ([Advance(ttl)] + second))
        == FullStart(0, space, "a") + [Crash, Advance(ttl)] + second;
  }

  lemma NoMoreSteps(w: World)
    ensures Legal(w, []) && After(w, []) == w
  {
  }

  lemma TwoRecords(y: World, v: World, x: World, space: string)
    requires v.records == map["a" := Record(space, Running)] && v.orphans == {} && x == Next(v, Crash)
    requires y.records == x.records && y.orphans == x.orphans
    ensures RunningIn(Started(y, 1, space, "b"), space) == {"a", "b"} && Started(y, 1, space, "b").orphans == {"a"}
  {
    assert AllRunning(v) == {"a"};
  }

  /** The world after an unobstructed start. */
  function Started(w: World, a: nat, space: string, id: string): World {
    w.(local := w.local[space := a], attempts := w.attempts[a := Attempt(space, Executing(id))],
       leases := w.leases[space := w.clock + w.ttl], records := w.records[id := Record(space, Running)])
  }

  /** A start goes through whenever the Space is free here, its lease is not live and the names are
      fresh. */
  lemma StartRuns(w: World, a: nat, space: string, id: string, rest: seq<Event>)
    requires a !in w.attempts && id !in w.records && space != "" && space !in w.local && !LeaseLive(w, space)
    ensures Legal(w, FullStart(a, space, id) + rest) <==> Legal(Started(w, a, space, id), rest)
    ensures Legal(Started(w, a, space, id), rest)
            ==> After(w, FullStart(a, space, id) + rest) == After(Started(w, a, space, id), rest)
  {
    hide *;
    var w1, w2, w3 := StartSteps(w, a, space, id);
    var r3 := [CreateRecord(a, id, Acked)] + rest;
    var r2 := [WriteLease(a, Acked)] + r3;
    var r1 := [ReadLease(a, true)] + r2;
    FirstStep(w3, CreateRecord(a, id, Acked), rest);
    FirstStep(w2, WriteLease(a, Acked), r3);
    FirstStep(w1, ReadLease(a, true), r2);
    FirstStep(w, Reserve(a, space), r1);
    StartGlue(a, space, id, rest);
  }

  lemma StartGlue(a: nat, space: string, id: string, rest: seq<Event>)
    ensures [Reserve(a, space)] + ([ReadLease(a, true)] + ([WriteLease(a, Acked)] + ([CreateRecord(a, id, Acked)] + rest)))
         == FullStart(a, space, id) + rest
  {
  }

  lemma StartSteps(w: World, a: nat, space: string, id: string) returns (w1: World, w2: World, w3: World)
    requires a !in w.attempts && id !in w.records && space != "" && space !in w.local && !LeaseLive(w, space)
    ensures Enabled(w, Reserve(a, space)) && w1 == Next(w, Reserve(a, space))
    ensures Enabled(w1, ReadLease(a, true)) && w2 == Next(w1, ReadLease(a, true))
    ensures Enabled(w2, WriteLease(a, Acked)) && w3 == Next(w2, WriteLease(a, Acked))
    ensures Enabled(w3, CreateRecord(a, id, Acked)) && Next(w3, CreateRecord(a, id, Acked)) == Started(w, a, space, id)
  {
    w1 := Next(w, Reserve(a, space));
    w2 := Next(w1, ReadLease(a, true));
    w3 := Next(w2, WriteLease(a, Acked));
  }

  lemma FirstStep(w: World, e: Event, rest: seq<Event>)
    requires Enabled(w, e)
    ensures Legal(w, [e] + rest) <==> Legal(Next(w, e), rest)
    ensures Legal(Next(w, e), rest) ==> After(w, [e] + rest) == After(Next(w, e), rest)
  {
    assert ([e] + rest)[1..] == rest;
  }
}
