/** A tick of the scheduler (internal/scheduler/scheduler.go): one pass over the configurations in their
    order, each evaluated against its own history (Cadence) and dispatched into the shared slots
    (Dispatch). The pass interleaves with the goroutines it started earlier. */
module Ticks {
  import opened Wrappers
  import C = Cadence
  import D = Dispatch

  // ---- the pass as the code runs it ----

  /** One configuration as a tick finds it: whether it takes part, and what evaluating it decided, or None
      when its lock or history could not be read. */
  datatype Candidate = Candidate(space: string, eligible: bool, decided: Option<C.Action>) {
    /** The pass asks for a run. */
    predicate Wants() { eligible && decided.Some? && !decided.value.Nothing? }
  }

  datatype Outcome = Passed | Running | Deferred

  /** How many Spaces ahead of place k ask for a slot. */
  function Ahead(cs: seq<Candidate>, k: nat, inflight: set<string>): nat
    requires k <= |cs|
  {
    if k == 0 then 0
    else Ahead(cs, k - 1, inflight) + if cs[k - 1].Wants() && cs[k - 1].space !in inflight then 1 else 0
  }

  ghost predicate DistinctSpaces(cs: seq<Candidate>) {
    forall i, j :: 0 <= i < j < |cs| ==> cs[i].space != cs[j].space
  }

  /** What becomes of the candidate at place k: it is deferred exactly when it asks, is not in flight, and
      at least as many Spaces ahead of it ask for a slot as there are slots free. */
  ghost predicate PlaceIs(cs: seq<Candidate>, k: nat, inflight: set<string>, slots: nat, capacity: nat,
                          outcome: Outcome)
    requires k < |cs|
  {
    && (outcome.Passed? <==> !cs[k].Wants())
    && (outcome.Deferred? <==> cs[k].Wants() && cs[k].space !in inflight && slots + Ahead(cs, k, inflight) >= capacity)
  }

  /** RunOnce's pass over the configurations in order, with no goroutine ending meanwhile. */
  method RunOnce(s: D.Scheduler, cs: seq<Candidate>, ghost unused: nat) returns (outcomes: seq<Outcome>)
    requires D.Inv(s.State()) && DistinctSpaces(cs) && forall w :: w in s.workers ==> w < unused
    modifies s
    ensures D.Inv(s.State()) && |outcomes| == |cs|
    ensures forall k :: 0 <= k < |cs| ==> PlaceIs(cs, k, old(s.inflight), old(s.slots), s.maxConcurrent, outcomes[k])
    ensures forall k :: 0 <= k < |cs| && outcomes[k].Running? ==> cs[k].space in s.inflight
  {
    hide D.Inv, D.Next, D.Starts, PlaceIs, PassedTo, DistinctSpaces, Ahead;
    outcomes := [];
    ghost var w := unused;
    ghost var was, used := s.inflight, s.slots;
    PassBegins(s.State(), cs);
    for i := 0 to |cs|
      invariant D.Inv(s.State()) && |outcomes| == i && forall v :: v in s.workers ==> v < w
      invariant PassedTo(cs, i, was, used, s.maxConcurrent, s.slots, s.inflight)
      invariant forall k :: 0 <= k < i ==> PlaceIs(cs, k, was, used, s.maxConcurrent, outcomes[k])
      invariant forall k :: 0 <= k < i && outcomes[k].Running? ==> cs[k].space in s.inflight
    {
      PassStep(cs, i, was, used, s.maxConcurrent, s.slots, s.inflight);
      var outcome := Passed;
      if cs[i].Wants() {
        var started := s.Dispatch(cs[i].space, w);
        w := w + 1;
        outcome := if started then Running else Deferred;
      }
      outcomes := outcomes + [outcome];
    }
  }

  /** Where the pass stands after i candidates: the slots used and the Spaces in flight. */
  ghost predicate PassedTo(cs: seq<Candidate>, i: nat, was: set<string>, used: nat, capacity: nat, slots: nat,
                           inflight: set<string>) {
    && i <= |cs|
    && slots == (if used + Ahead(cs, i, was) < capacity then used + Ahead(cs, i, was) else capacity)
    && was <= inflight && forall k :: i <= k < |cs| ==> (cs[k].space in inflight <==> cs[k].space in was)
  }

  lemma PassBegins(p: D.Pool, cs: seq<Candidate>)
    requires D.Inv(p)
    ensures PassedTo(cs, 0, p.inflight, p.slots, p.capacity, p.slots, p.inflight)
  {
  }

  /** One candidate of the pass: nothing asked, a run already in flight, a free slot, or none. */
  lemma PassStep(cs: seq<Candidate>, i: nat, was: set<string>, used: nat, capacity: nat, slots: nat,
                 inflight: set<string>)
    requires PassedTo(cs, i, was, used, capacity, slots, inflight) && i < |cs| && DistinctSpaces(cs)
    ensures !cs[i].Wants() ==> PassedTo(cs, i + 1, was, used, capacity, slots, inflight)
                               && PlaceIs(cs, i, was, used, capacity, Passed)
    ensures cs[i].Wants() && cs[i].space in inflight
            ==> PassedTo(cs, i + 1, was, used, capacity, slots, inflight) && PlaceIs(cs, i, was, used, capacity, Running)
    ensures cs[i].Wants() && cs[i].space !in inflight && slots < capacity
            ==> PassedTo(cs, i + 1, was, used, capacity, slots + 1, inflight + {cs[i].space})
                && PlaceIs(cs, i, was, used, capacity, Running)
    ensures cs[i].Wants() && cs[i].space !in inflight && slots >= capacity
            ==> PassedTo(cs, i + 1, was, used, capacity, slots, inflight) && PlaceIs(cs, i, was, used, capacity, Deferred)
  {
  }

  // ---- the whole scheduler, interleaved ----

  /** Every configured Space with its history, the slots they share, and every deferral so far. */
  datatype World = World(pool: D.Pool, spaces: map<string, C.State>, deferred: seq<string>)

  /** A tick evaluates a Space, having read its lock and history or not, and dispatches it under a fresh
      goroutine w; something happens to one Space alone; a goroutine leaves the in-flight set, or frees
      its slot; the process restarts. */
  datatype Event =
    | Evaluate(space: string, busy: bool, readable: bool, w: nat)
    | OneSpace(space: string, e: C.Event)
    | EndRun(w: nat)
    | FreeSlot(w: nat)
    | Restart

  /** What can happen to a Space without the scheduler's slots. */
  predicate Alone(e: C.Event) { !e.Evaluate? && !e.Withdraw? && !e.Leave? && !e.Restart? }

  predicate Enabled(w: World, e: Event) {
    match e
    case Evaluate(space, _, _, g) => space in w.spaces && g !in w.pool.workers
    case OneSpace(space, x) => space in w.spaces && Alone(x) && C.Enabled(w.spaces[space], x)
    case EndRun(g) => D.Enabled(w.pool, D.EndRun(g)) && w.pool.workers[g].space in w.spaces
    case FreeSlot(g) => D.Enabled(w.pool, D.FreeSlot(g))
    case Restart => true
  }

  /** The Space the event is about, and what it is in that Space's own history: nothing for a failed read,
      for a Space with nothing due, or for another Space. */
  function Part(ps: map<string, C.Policy>, w: World, e: Event, space: string): seq<C.Event>
    requires Enabled(w, e) && space in w.spaces && space in ps
  {
    match e
    case Evaluate(s, busy, readable, g) =>
      if s == space && readable && !C.Decision(ps[s], w.spaces[s], busy).Nothing?
      then [C.Evaluate(busy, D.Starts(w.pool, s))] else []
    case OneSpace(s, x) => if s == space then [x] else []
    case EndRun(g) =>
      if w.pool.workers[g].space == space && w.spaces[space].flight.Some?
      then [if w.spaces[space].flight.value.Decided? then C.Withdraw else C.Leave] else []
    case FreeSlot(_) => []
    case Restart => [C.Restart]
  }

  function Apply(p: C.Policy, s: C.State, part: seq<C.Event>): C.State
    requires |part| <= 1 && (part != [] ==> C.Enabled(s, part[0]))
  {
    if part == [] then s else C.Next(p, s, part[0])
  }

  lemma PartFits(ps: map<string, C.Policy>, w: World, e: Event, space: string)
    requires Enabled(w, e) && space in w.spaces && space in ps
    ensures var part := Part(ps, w, e, space); |part| <= 1 && (part != [] ==> C.Enabled(w.spaces[space], part[0]))
  {
  }

  /** Evaluating asks for a run. */
  predicate Asks(ps: map<string, C.Policy>, w: World, e: Event)
    requires Enabled(w, e) && w.spaces.Keys <= ps.Keys
  {
    e.Evaluate? && e.readable && !C.Decision(ps[e.space], w.spaces[e.space], e.busy).Nothing?
  }

  /** It asks, has no run dispatched, and no slot is free. */
  predicate Defers(ps: map<string, C.Policy>, w: World, e: Event)
    requires Enabled(w, e) && w.spaces.Keys <= ps.Keys
  {
    Asks(ps, w, e) && w.spaces[e.space].flight.None? && !D.Starts(w.pool, e.space)
  }

  function PoolAfter(ps: map<string, C.Policy>, w: World, e: Event): D.Pool
    requires Enabled(w, e) && w.spaces.Keys <= ps.Keys
  {
    match e
    case Evaluate(s, _, _, g) => if Asks(ps, w, e) then D.Next(w.pool, D.Start(s, g)) else w.pool
    case OneSpace(_, _) => w.pool
    case EndRun(g) => D.Next(w.pool, D.EndRun(g))
    case FreeSlot(g) => D.Next(w.pool, D.FreeSlot(g))
    case Restart => D.Fresh(w.pool.capacity)
  }

  function Next(ps: map<string, C.Policy>, w: World, e: Event): World
    requires Enabled(w, e) && w.spaces.Keys <= ps.Keys
  {
    World(PoolAfter(ps, w, e),
          map s | s in w.spaces :: (PartFits(ps, w, e, s); Apply(ps[s], w.spaces[s], Part(ps, w, e, s))),
          if Defers(ps, w, e) then w.deferred + [e.space] else w.deferred)
  }

  /** The slots are exact, and a Space has a dispatched run exactly while it is in flight. */
  ghost predicate Inv(w: World) {
    && D.Inv(w.pool) && w.pool.inflight <= w.spaces.Keys
    && forall s :: s in w.spaces ==> (w.spaces[s].flight.Some? <==> s in w.pool.inflight)
  }

  lemma PoolKeepsInv(ps: map<string, C.Policy>, w: World, e: Event)
    requires Inv(w) && Enabled(w, e) && w.spaces.Keys <= ps.Keys
    ensures D.Inv(PoolAfter(ps, w, e)) && PoolAfter(ps, w, e).capacity == w.pool.capacity
    ensures PoolAfter(ps, w, e).inflight
         == (match e
             case Evaluate(s, _, _, _) => w.pool.inflight + if Asks(ps, w, e) && D.Starts(w.pool, s) then {s} else {}
             case EndRun(g) => w.pool.inflight - {w.pool.workers[g].space}
             case Restart => {}
             case _ => w.pool.inflight)
    ensures e.EndRun? ==> w.pool.workers[e.w].space in w.pool.inflight
  {
    hide D.Inv;
    match e
    case Evaluate(s, _, _, g) =>
      if Asks(ps, w, e) {
        D.StepKeepsInv(w.pool, D.Start(s, g));
      }
    case EndRun(g) =>
      D.StepKeepsInv(w.pool, D.EndRun(g));
      EndingIsInFlight(w.pool, g);
    case FreeSlot(g) => D.StepKeepsInv(w.pool, D.FreeSlot(g));
    case Restart => FreshPool(w.pool.capacity);
    case _ =>
  }

  lemma FreshPool(capacity: nat)
    ensures D.Inv(D.Fresh(capacity))
  {
  }

  lemma EndingIsInFlight(p: D.Pool, g: nat)
    requires D.Inv(p) && g in p.workers && p.workers[g].Executing?
    ensures p.workers[g].space in p.inflight
  {
    assert g in D.ExecutingNow(p);
  }

  lemma StepKeepsInv(ps: map<string, C.Policy>, w: World, e: Event)
    requires Inv(w) && Enabled(w, e) && w.spaces.Keys <= ps.Keys
    ensures Inv(Next(ps, w, e)) && Next(ps, w, e).spaces.Keys == w.spaces.Keys
    ensures Next(ps, w, e).pool.capacity == w.pool.capacity
  {
    hide D.Inv, PoolAfter, Part, Apply, Asks, C.Decision;
    PoolKeepsInv(ps, w, e);
    forall s | s in w.spaces ensures Next(ps, w, e).spaces[s].flight.Some? <==> s in Next(ps, w, e).pool.inflight {
      FlightFollows(ps, w, e, s);
    }
  }

  lemma FlightFollows(ps: map<string, C.Policy>, w: World, e: Event, s: string)
    requires Inv(w) && Enabled(w, e) && w.spaces.Keys <= ps.Keys && s in w.spaces
    ensures (PartFits(ps, w, e, s);
             Apply(ps[s], w.spaces[s], Part(ps, w, e, s)).flight.Some? <==> s in PoolAfter(ps, w, e).inflight)
  {
    hide D.Inv, PoolAfter, C.BackupDue, C.PruneDue, C.Kept;
    PoolKeepsInv(ps, w, e);
  }

  /** Evaluating asks for a run exactly when it could read the Space, its lock is free, and a backup or a
      prune is owed. */
  lemma AsksIff(ps: map<string, C.Policy>, w: World, e: Event)
    requires Enabled(w, e) && w.spaces.Keys <= ps.Keys && e.Evaluate?
    ensures C.Owed(ps[e.space], w.spaces[e.space]) ==> (Asks(ps, w, e) <==> e.readable && !e.busy)
    ensures C.Sound(ps[e.space]) ==>
              (Asks(ps, w, e) <==> e.readable && !e.busy
                                   && (C.Owed(ps[e.space], w.spaces[e.space]) || C.PruneOwed(ps[e.space], w.spaces[e.space])))
  {
  }

  /** A due Space is left without a run exactly when its lock or history could not be read, its lock is
      held, or every slot is taken; the goroutines that take them execute other Spaces or have just left
      one. Only the last is a deferral. */
  lemma DeferredIff(ps: map<string, C.Policy>, w: World, e: Event)
    requires Inv(w) && Enabled(w, e) && w.spaces.Keys <= ps.Keys && e.Evaluate?
    ensures Defers(ps, w, e) <==> Asks(ps, w, e) && Next(ps, w, e).spaces[e.space].flight.None?
    ensures Defers(ps, w, e) <==> Asks(ps, w, e) && w.spaces[e.space].flight.None? && |w.pool.workers| == w.pool.capacity
    ensures Defers(ps, w, e) ==> forall g :: g in w.pool.workers ==> w.pool.workers[g] != D.Executing(e.space)
    ensures C.Owed(ps[e.space], w.spaces[e.space]) && w.spaces[e.space].flight.None?
            ==> (Next(ps, w, e).spaces[e.space].flight.None? <==>
                 !e.readable || e.busy || |w.pool.workers| == w.pool.capacity)
  {
    hide C.Decision, C.Owed, C.PruneOwed;
    AsksIff(ps, w, e);
    forall g | g in w.pool.workers && w.pool.workers[g] == D.Executing(e.space) ensures e.space in w.pool.inflight {
      EndingIsInFlight(w.pool, g);
    }
  }

  // ---- over whole runs ----

  predicate Legal(ps: map<string, C.Policy>, w: World, es: seq<Event>)
    requires w.spaces.Keys <= ps.Keys
    decreases |es|
  {
    es == [] || (Enabled(w, es[0]) && Legal(ps, Next(ps, w, es[0]), es[1..]))
  }

  function After(ps: map<string, C.Policy>, w: World, es: seq<Event>): (v: World)
    requires w.spaces.Keys <= ps.Keys && Legal(ps, w, es)
    ensures v.spaces.Keys == w.spaces.Keys
    decreases |es|
  {
    if es == [] then w else After(ps, Next(ps, w, es[0]), es[1..])
  }

  lemma {:induction false} AlwaysInv(ps: map<string, C.Policy>, w: World, es: seq<Event>)
    requires w.spaces.Keys <= ps.Keys && Inv(w) && Legal(ps, w, es)
    ensures Inv(After(ps, w, es)) && After(ps, w, es).pool.capacity == w.pool.capacity
    decreases |es|
  {
    hide Inv, Enabled, Next;
    if es != [] {
      StepKeepsInv(ps, w, es[0]);
      AlwaysInv(ps, Next(ps, w, es[0]), es[1..]);
    }
  }

  /** What a run of the whole scheduler is in one Space's own history. */
  function History(ps: map<string, C.Policy>, w: World, es: seq<Event>, space: string): seq<C.Event>
    requires w.spaces.Keys <= ps.Keys && Legal(ps, w, es) && space in w.spaces
    decreases |es|
  {
    if es == [] then [] else Part(ps, w, es[0], space) + History(ps, Next(ps, w, es[0]), es[1..], space)
  }

  /** Each Space's part of a run is a legal history of that Space, and leaves it where the run does. */
  lemma {:induction false} HistoryIsLegal(ps: map<string, C.Policy>, w: World, es: seq<Event>, space: string)
    requires w.spaces.Keys <= ps.Keys && Legal(ps, w, es) && space in w.spaces
    ensures C.Legal(ps[space], w.spaces[space], History(ps, w, es, space))
    ensures C.After(ps[space], w.spaces[space], History(ps, w, es, space)) == After(ps, w, es).spaces[space]
    decreases |es|
  {
    hide Enabled, Part, C.Enabled, C.Next, C.Legal, C.After;
    if es == [] {
      NoHistory(ps[space], w.spaces[space]);
    } else {
      var part, v := Part(ps, w, es[0], space), Next(ps, w, es[0]);
      PartFits(ps, w, es[0], space);
      HistoryIsLegal(ps, v, es[1..], space);
      var rest := History(ps, v, es[1..], space);
      if part == [] {
        assert part + rest == rest;
      } else {
        assert part == [part[0]];
        C.FirstStep(ps[space], w.spaces[space], part[0], rest);
      }
    }
  }

  lemma NoHistory(p: C.Policy, s: C.State)
    ensures C.Legal(p, s, []) && C.After(p, s, []) == s
  {
  }

  /** A service that has just started, with nothing recorded. */
  predicate Started(w: World, clock: int) {
    w.pool == D.Fresh(w.pool.capacity) && w.deferred == [] && forall s :: s in w.spaces ==> w.spaces[s] == C.Fresh(clock)
  }

  /** Whatever the other Spaces and the slots do, each Space's scheduled backups are an occurrence and the
      jitter apart, and its prunes their interval, given a history kept long enough. */
  lemma EverySpaceIsSpaced(ps: map<string, C.Policy>, w: World, clock: int, es: seq<Event>, space: string)
    requires w.spaces.Keys <= ps.Keys && Started(w, clock) && Legal(ps, w, es) && space in w.spaces && C.Sound(ps[space])
    ensures C.Covered(ps[space], C.First(ps[space], clock)) ==> C.AllSpaced(ps[space], After(ps, w, es).spaces[space].scheduled)
    ensures ps[space].interval + ps[space].pruneJitter <= ps[space].window + 1
            ==> C.AllApart(ps[space], After(ps, w, es).spaces[space].pruned)
    ensures C.SawSuccess(After(ps, w, es).spaces[space].pruned)
  {
    hide C.Sound, C.Covered, C.AllSpaced, C.AllApart, C.SawSuccess, C.Legal, C.After;
    HistoryIsLegal(ps, w, es, space);
    var h := History(ps, w, es, space);
    if C.Covered(ps[space], C.First(ps[space], clock)) {
      SpacedFrom(ps[space], clock, h);
    }
    if ps[space].interval + ps[space].pruneJitter <= ps[space].window + 1 {
      C.PrunesApartIffHistoryCovers(ps[space], clock);
    }
    C.PrunesFollowSuccess(ps[space], clock, h);
  }

  lemma SpacedFrom(p: C.Policy, clock: int, es: seq<C.Event>)
    requires C.Sound(p) && C.Covered(p, C.First(p, clock)) && C.Legal(p, C.Fresh(clock), es)
    ensures C.AllSpaced(p, C.After(p, C.Fresh(clock), es).scheduled)
  {
    C.BackupsAlways(p, C.Fresh(clock), es, clock);
  }

  /** A restart may come at any point, and leaves an empty pool and every Space's history as it was. */
  lemma RestartIsFree(ps: map<string, C.Policy>, w: World)
    requires w.spaces.Keys <= ps.Keys
    ensures Enabled(w, Restart) && Next(ps, w, Restart).pool == D.Fresh(w.pool.capacity)
    ensures forall s :: s in w.spaces ==> Next(ps, w, Restart).spaces[s] == w.spaces[s].(flight := None)
  {
  }

  function Evaluations(es: seq<Event>): nat {
    if es == [] then 0 else (if es[0].Evaluate? then 1 else 0) + Evaluations(es[1..])
  }

  lemma {:induction false} SlotsGrowByEvaluations(ps: map<string, C.Policy>, w: World, es: seq<Event>)
    requires w.spaces.Keys <= ps.Keys && Legal(ps, w, es)
    ensures After(ps, w, es).pool.slots <= w.pool.slots + Evaluations(es)
    ensures After(ps, w, es).pool.capacity == w.pool.capacity
    decreases |es|
  {
    hide Part, Apply, C.Decision;
    if es != [] {
      SlotsGrowByEvaluations(ps, Next(ps, w, es[0]), es[1..]);
    }
  }

  /** What a caller can see before the tick: when more slots are free than configurations come first, the
      Space is not deferred, however runs end meanwhile. */
  lemma FreeSlotsSuffice(ps: map<string, C.Policy>, w: World, es: seq<Event>, e: Event)
    requires w.spaces.Keys <= ps.Keys && Inv(w) && Legal(ps, w, es) && Evaluations(es) < w.pool.capacity - w.pool.slots
    requires Enabled(After(ps, w, es), e) && e.Evaluate?
    ensures var v := After(ps, w, es); Asks(ps, v, e) ==> Next(ps, v, e).spaces[e.space].flight.Some? && !Defers(ps, v, e)
  {
    hide Legal, After, Next, Inv, Asks, Defers, Evaluations;
    SlotsGrowByEvaluations(ps, w, es);
    AlwaysInv(ps, w, es);
    StepKeepsInv(ps, After(ps, w, es), e);
    RoomStarts(ps, After(ps, w, es), e);
    DeferredIff(ps, After(ps, w, es), e);
  }

  lemma RoomStarts(ps: map<string, C.Policy>, w: World, e: Event)
    requires Inv(w) && Enabled(w, e) && w.spaces.Keys <= ps.Keys && w.pool.slots < w.pool.capacity
    ensures !Defers(ps, w, e)
  {
  }

  // ---- waiting for ever ----

  /** A run followed by a run. */
  lemma {:induction false} Compose(ps: map<string, C.Policy>, w: World, a: seq<Event>, b: seq<Event>)
    requires w.spaces.Keys <= ps.Keys && Legal(ps, w, a) && Legal(ps, After(ps, w, a), b)
    ensures Legal(ps, w, a + b) && After(ps, w, a + b) == After(ps, After(ps, w, a), b)
    decreases |a|
  {
    hide Enabled, Next;
    if a == [] {
      assert a + b == b;
    } else {
      Compose(ps, Next(ps, w, a[0]), a[1..], b);
      assert (a + b)[1..] == a[1..] + b;
    }
  }

  ghost predicate Follows(ps: map<string, C.Policy>, v: World, e: Event, w: World) {
    v.spaces.Keys <= ps.Keys && Enabled(v, e) && w == Next(ps, v, e) && w.spaces.Keys <= ps.Keys
  }

  /** Worlds that follow each other by their events are a run. */
  lemma {:induction false} Chain(ps: map<string, C.Policy>, worlds: seq<World>, es: seq<Event>)
    requires |worlds| == |es| + 1 && worlds[0].spaces.Keys <= ps.Keys
    requires forall i :: 0 <= i < |es| ==> Follows(ps, worlds[i], es[i], worlds[i + 1])
    ensures Legal(ps, worlds[0], es) && After(ps, worlds[0], es) == worlds[|es|]
    decreases |es|
  {
    hide Enabled, Next;
    if es != [] {
      assert Follows(ps, worlds[0], es[0], worlds[0 + 1]);
      Chain(ps, worlds[1..], es[1..]);
    }
  }

  /** On the hour, in minutes. */
  function Hourly(t: int): Option<int> { Some(t - t % 60 + 60) }

  function HourlyPolicy(): C.Policy { C.Policy(Hourly, 0, Some(0), 1440, 0, 525600) }

  lemma HourlyIsSound()
    ensures C.Sound(HourlyPolicy())
  {
  }

  /** Two Spaces on the same schedule. */
  function Both(): map<string, C.Policy> { map["a" := HourlyPolicy(), "b" := HourlyPolicy()] }

  function Two(pool: D.Pool, a: C.State, b: C.State, deferred: seq<string>): World {
    World(pool, map["a" := a, "b" := b], deferred)
  }

  function Occupied(): D.Pool { D.Pool(1, 1, {"a"}, map[0 := D.Executing("a")]) }

  function Vacated(): D.Pool { D.Pool(1, 1, {}, map[0 := D.Leaving("a")]) }

  /** How the first Space runs: ticks come every `gap` minutes, and a run takes the time of `ticks` of them. */
  datatype Rhythm = Rhythm(gap: nat, ticks: nat) {
    function Length(): nat { gap * ticks }

    /** By the first tick after a run has ended, the hour after its start has struck. */
    predicate DueAgain() { ticks > 0 && Length() >= 60 }

    /** When run n starts. */
    function Start(n: nat): int { 60 + n * Length() }
  }

  /** Before run n the first Space has run n times and the second never. */
  function Runs(g: Rhythm, n: nat): seq<C.Run> { seq(n, i requires 0 <= i => C.Run(g.Start(i), Some(true))) }

  function Times(g: Rhythm, n: nat): seq<int> { seq(n, i requires 0 <= i => g.Start(i)) }

  function Turns(n: nat): seq<string> { seq(n, i => "b") }

  function First(g: Rhythm, n: nat): C.State {
    C.State(g.Start(n) - g.gap, g.Start(n) - g.gap, Runs(g, n), [], None, Times(g, n), [])
  }

  function Idle(t: int): C.State { C.State(t, t, [], [], None, [], []) }

  function Before(g: Rhythm, n: nat): World {
    Two(D.Fresh(1), First(g, n), Idle(g.Start(n) - g.gap), Turns(n * g.ticks))
  }

  /** The tick in which the first Space takes the only slot. */
  function Begins(t: int): seq<Event> {
    [OneSpace("a", C.Tick(t)), OneSpace("b", C.Tick(t)),
     Evaluate("a", false, true, 0), Evaluate("b", false, true, 1), OneSpace("a", C.Record(t))]
  }

  /** A tick while it runs. */
  function Meanwhile(t: int): seq<Event> {
    [OneSpace("a", C.Tick(t)), OneSpace("b", C.Tick(t)), Evaluate("a", true, true, 1), Evaluate("b", false, true, 1)]
  }

  function GoesOn(t: int, gap: nat, ticks: nat): seq<Event>
    decreases ticks
  {
    if ticks == 0 then [] else Meanwhile(t + gap) + GoesOn(t + gap, gap, ticks - 1)
  }

  /** It is done, just before the next tick. */
  function Ends(n: nat): seq<Event> { [OneSpace("a", C.Settle(C.Backup, n, true)), EndRun(0), FreeSlot(0)] }

  function OneRun(g: Rhythm, n: nat): seq<Event>
    requires g.ticks > 0
  {
    Begins(g.Start(n)) + (GoesOn(g.Start(n), g.gap, g.ticks - 1) + Ends(n))
  }

  lemma OneOf(pool: D.Pool, a: C.State, b: C.State, d: seq<string>, x: C.Event)
    requires Alone(x)
    ensures C.Enabled(a, x)
            ==> Follows(Both(), Two(pool, a, b, d), OneSpace("a", x), Two(pool, C.Next(HourlyPolicy(), a, x), b, d))
    ensures C.Enabled(b, x)
            ==> Follows(Both(), Two(pool, a, b, d), OneSpace("b", x), Two(pool, a, C.Next(HourlyPolicy(), b, x), d))
  {
    hide Follows, C.Enabled, C.Next;
    var w := Two(pool, a, b, d);
    if C.Enabled(a, x) {
      MovesOne(w, "a", x);
      assert w.spaces["a" := C.Next(HourlyPolicy(), a, x)] == map["a" := C.Next(HourlyPolicy(), a, x), "b" := b];
    }
    if C.Enabled(b, x) {
      MovesOne(w, "b", x);
      assert w.spaces["b" := C.Next(HourlyPolicy(), b, x)] == map["a" := a, "b" := C.Next(HourlyPolicy(), b, x)];
    }
  }

  lemma MovesOne(w: World, s: string, x: C.Event)
    requires Alone(x) && w.spaces.Keys == Both().Keys && s in w.spaces && C.Enabled(w.spaces[s], x)
    ensures Follows(Both(), w, OneSpace(s, x), w.(spaces := w.spaces[s := C.Next(Both()[s], w.spaces[s], x)]))
  {
    hide C.Enabled, C.Next, C.Decision;
  }

  /** The first Space is due and takes the slot. */
  lemma FirstTakesTheSlot(a: C.State, b: C.State, d: seq<string>)
    requires C.Decision(HourlyPolicy(), a, false).Backup? && a.flight.None?
    ensures Follows(Both(), Two(D.Fresh(1), a, b, d), Evaluate("a", false, true, 0),
                    Two(Occupied(), a.(flight := Some(C.Decided(C.Backup, a.tick, C.Newest(a.backups)))), b, d))
  {
    hide C.Decision, Follows;
    var w := Two(D.Fresh(1), a, b, d);
    var c := a.(flight := Some(C.Decided(C.Backup, a.tick, C.Newest(a.backups))));
    TakesASlot(w, "a", 0);
    assert D.Next(w.pool, D.Start("a", 0)) == Occupied() by { assert {} + {"a"} == {"a"}; }
    assert w.spaces["a" := c] == map["a" := c, "b" := b];
  }

  lemma TakesASlot(w: World, s: string, g: nat)
    requires w.spaces.Keys == Both().Keys && s in w.spaces && g !in w.pool.workers && D.Starts(w.pool, s)
    requires C.Decision(Both()[s], w.spaces[s], false).Backup? && w.spaces[s].flight.None?
    ensures var a := w.spaces[s];
            Follows(Both(), w, Evaluate(s, false, true, g),
                    World(D.Next(w.pool, D.Start(s, g)),
                          w.spaces[s := a.(flight := Some(C.Decided(C.Backup, a.tick, C.Newest(a.backups))))], w.deferred))
  {
    hide C.Decision, Hourly;
  }

  lemma LeavesItsSlot(w: World, s: string, g: nat)
    requires w.spaces.Keys == Both().Keys && s in w.spaces && g in w.pool.workers && w.pool.workers[g] == D.Executing(s)
    requires w.spaces[s].flight.Some? && w.spaces[s].flight.value.Recorded?
    ensures Follows(Both(), w, EndRun(g),
                    World(D.Next(w.pool, D.EndRun(g)), w.spaces[s := w.spaces[s].(flight := None)], w.deferred))
  {
    hide C.Decision, Hourly;
  }

  lemma BusyIsPassed(a: C.State, b: C.State, d: seq<string>)
    ensures Follows(Both(), Two(Occupied(), a, b, d), Evaluate("a", true, true, 1), Two(Occupied(), a, b, d))
  {
  }

  lemma SecondIsDeferred(a: C.State, b: C.State, d: seq<string>)
    requires C.Decision(HourlyPolicy(), b, false).Backup? && b.flight.None?
    ensures Follows(Both(), Two(Occupied(), a, b, d), Evaluate("b", false, true, 1), Two(Occupied(), a, b, d + ["b"]))
  {
    hide C.Decision;
  }

  lemma RunEnds(a: C.State, b: C.State, d: seq<string>)
    requires a.flight.Some? && a.flight.value.Recorded?
    ensures Follows(Both(), Two(Occupied(), a, b, d), EndRun(0), Two(Vacated(), a.(flight := None), b, d))
  {
    hide C.Decision, Follows;
    var w := Two(Occupied(), a, b, d);
    LeavesItsSlot(w, "a", 0);
    assert D.Next(w.pool, D.EndRun(0)) == Vacated() by { assert {"a"} - {"a"} == {}; }
    assert w.spaces["a" := a.(flight := None)] == map["a" := a.(flight := None), "b" := b];
  }

  lemma SlotIsFreed(a: C.State, b: C.State, d: seq<string>)
    ensures Follows(Both(), Two(Vacated(), a, b, d), FreeSlot(0), Two(D.Fresh(1), a, b, d))
  {
    assert map[0 := D.Leaving("a")] - {0} == map[];
  }

  lemma FirstIsDue(g: Rhythm, n: nat)
    requires g.DueAgain()
    ensures C.BackupDue(Hourly, 0, Some(0), C.CreatedOf(C.Newest(Runs(g, n))), g.Start(n))
  {
    if n > 0 {
      assert n * g.Length() == (n - 1) * g.Length() + g.Length();
    }
  }

  lemma SecondIsDue(t: int)
    requires t >= 60
    ensures C.BackupDue(Hourly, 0, Some(0), None, t)
  {
  }

  lemma RunsGrow(g: Rhythm, n: nat)
    ensures |Runs(g, n)| == n
    ensures (Runs(g, n) + [C.Run(g.Start(n), None)])[n := C.Run(g.Start(n), Some(true))] == Runs(g, n + 1)
    ensures Times(g, n) + [g.Start(n)] == Times(g, n + 1)
  {
  }

  lemma TurnsGrow(m: nat, n: nat)
    ensures Turns(m) + Turns(n) == Turns(m + n) && Turns(1) == ["b"] && Turns(0) == []
  {
  }

  /** The first Space while it runs. */
  function Busy(g: Rhythm, n: nat, t: int): C.State {
    C.State(t, t, Runs(g, n) + [C.Run(g.Start(n), None)], [], Some(C.Recorded(C.Backup)), Times(g, n) + [g.Start(n)], [])
  }

  lemma RunBegins(g: Rhythm, n: nat)
    requires g.DueAgain()
    ensures var t, d := g.Start(n), Turns(n * g.ticks);
            Legal(Both(), Before(g, n), Begins(t))
            && After(Both(), Before(g, n), Begins(t)) == Two(Occupied(), Busy(g, n, t), Idle(t), d + ["b"])
  {
    hide Follows, C.BackupDue, Runs, Times, Turns, Legal, After, Rhythm.DueAgain, Rhythm.Start;
    var t, d := g.Start(n), Turns(n * g.ticks);
    var a0, b0 := First(g, n), Idle(t - g.gap);
    var a1, b1 := a0.(clock := t, tick := t), Idle(t);
    var a2 := a1.(flight := Some(C.Decided(C.Backup, t, C.Newest(Runs(g, n)))));
    FirstIsDue(g, n);
    StartsLate(g, n);
    SecondIsDue(t);
    OneOf(D.Fresh(1), a0, b0, d, C.Tick(t));
    OneOf(D.Fresh(1), a1, b0, d, C.Tick(t));
    FirstTakesTheSlot(a1, b1, d);
    SecondIsDeferred(a2, b1, d);
    OneOf(Occupied(), a2, b1, d + ["b"], C.Record(t));
    Chain(Both(), [Before(g, n), Two(D.Fresh(1), a1, b0, d), Two(D.Fresh(1), a1, b1, d), Two(Occupied(), a2, b1, d),
                   Two(Occupied(), a2, b1, d + ["b"]), Two(Occupied(), Busy(g, n, t), b1, d + ["b"])], Begins(t));
  }

  lemma StartsLate(g: Rhythm, n: nat)
    ensures g.Start(n) >= 60
  {
    assert n * g.Length() >= 0;
  }

  lemma OneMoreTick(g: Rhythm, n: nat, was: int, t: int, d: seq<string>)
    requires 60 <= was <= t
    ensures Legal(Both(), Two(Occupied(), Busy(g, n, was), Idle(was), d), Meanwhile(t))
    ensures After(Both(), Two(Occupied(), Busy(g, n, was), Idle(was), d), Meanwhile(t))
         == Two(Occupied(), Busy(g, n, t), Idle(t), d + ["b"])
  {
    hide Follows, C.BackupDue, Runs, Times, Legal, After, Rhythm.Start;
    var a0, a1 := Busy(g, n, was), Busy(g, n, t);
    SecondIsDue(t);
    OneOf(Occupied(), a0, Idle(was), d, C.Tick(t));
    OneOf(Occupied(), a1, Idle(was), d, C.Tick(t));
    BusyIsPassed(a1, Idle(t), d);
    SecondIsDeferred(a1, Idle(t), d);
    Chain(Both(), [Two(Occupied(), a0, Idle(was), d), Two(Occupied(), a1, Idle(was), d), Two(Occupied(), a1, Idle(t), d),
                   Two(Occupied(), a1, Idle(t), d), Two(Occupied(), a1, Idle(t), d + ["b"])], Meanwhile(t));
  }

  lemma {:induction false} RunGoesOn(g: Rhythm, n: nat, t: int, ticks: nat, d: seq<string>)
    requires t >= 60
    ensures Legal(Both(), Two(Occupied(), Busy(g, n, t), Idle(t), d), GoesOn(t, g.gap, ticks))
    ensures var u := t + ticks * g.gap;
            After(Both(), Two(Occupied(), Busy(g, n, t), Idle(t), d), GoesOn(t, g.gap, ticks))
            == Two(Occupied(), Busy(g, n, u), Idle(u), d + Turns(ticks))
    decreases ticks
  {
    hide Legal, After, Busy, Meanwhile, Turns;
    var w := Two(Occupied(), Busy(g, n, t), Idle(t), d);
    if ticks == 0 {
      NoEvents(w);
      TurnsGrow(0, 0);
      assert d + [] == d;
    } else {
      OneMoreTick(g, n, t, t + g.gap, d);
      RunGoesOn(g, n, t + g.gap, ticks - 1, d + ["b"]);
      Compose(Both(), w, Meanwhile(t + g.gap), GoesOn(t + g.gap, g.gap, ticks - 1));
      TurnsGrow(1, ticks - 1);
      assert d + ["b"] + Turns(ticks - 1) == d + (["b"] + Turns(ticks - 1));
      assert t + g.gap + (ticks - 1) * g.gap == t + ticks * g.gap;
    }
  }

  lemma RunIsDone(g: Rhythm, n: nat, t: int, d: seq<string>)
    ensures var w := Two(Occupied(), Busy(g, n, t), Idle(t), d);
            Legal(Both(), w, Ends(n))
            && After(Both(), w, Ends(n))
               == Two(D.Fresh(1), C.State(t, t, Runs(g, n + 1), [], None, Times(g, n + 1), []), Idle(t), d)
  {
    hide Follows, Runs, Times, Legal, After, Rhythm.Start;
    var a0 := Busy(g, n, t);
    RunsGrow(g, n);
    var a1 := a0.(backups := Runs(g, n + 1), scheduled := Times(g, n + 1));
    OneOf(Occupied(), a0, Idle(t), d, C.Settle(C.Backup, n, true));
    RunEnds(a1, Idle(t), d);
    SlotIsFreed(a1.(flight := None), Idle(t), d);
    Chain(Both(), [Two(Occupied(), a0, Idle(t), d), Two(Occupied(), a1, Idle(t), d),
                   Two(Vacated(), a1.(flight := None), Idle(t), d), Two(D.Fresh(1), a1.(flight := None), Idle(t), d)], Ends(n));
  }

  lemma WholeRun(g: Rhythm, n: nat)
    requires g.DueAgain()
    ensures Legal(Both(), Before(g, n), OneRun(g, n)) && After(Both(), Before(g, n), OneRun(g, n)) == Before(g, n + 1)
  {
    hide Legal, After, Busy, Begins, GoesOn, Ends, Turns, Runs, Times;
    var t, k := g.Start(n), g.ticks - 1;
    var d := Turns(n * g.ticks) + ["b"];
    var u := t + k * g.gap;
    StartsLate(g, n);
    RunBegins(g, n);
    RunGoesOn(g, n, t, k, d);
    RunIsDone(g, n, u, d + Turns(k));
    Compose(Both(), Two(Occupied(), Busy(g, n, t), Idle(t), d), GoesOn(t, g.gap, k), Ends(n));
    Compose(Both(), Before(g, n), Begins(t), GoesOn(t, g.gap, k) + Ends(n));
    NextStart(g, n);
    TurnsGrow(1, k);
    TurnsGrow(n * g.ticks, g.ticks);
    assert d + Turns(k) == Turns(n * g.ticks) + (["b"] + Turns(k));
  }

  lemma NextStart(g: Rhythm, n: nat)
    requires g.ticks > 0
    ensures g.Start(n) + (g.ticks - 1) * g.gap == g.Start(n + 1) - g.gap
    ensures n * g.ticks + g.ticks == (n + 1) * g.ticks
  {
    assert (n + 1) * g.Length() == n * g.Length() + g.Length();
    assert g.ticks * g.gap == (g.ticks - 1) * g.gap + g.gap;
  }

  function AllRuns(g: Rhythm, n: nat): seq<Event>
    requires g.ticks > 0
  {
    if n == 0 then [] else AllRuns(g, n - 1) + OneRun(g, n - 1)
  }

  /** With one slot, a Space that is due again by the first tick after each of its runs, as every Space
      whose runs outlast its schedule is, keeps the slot for ever: however often the ticks come and after
      any number of its runs, the Space behind it has been due at every tick, deferred every time, and
      never backed up. */
  lemma {:induction false} StarvedForEver(g: Rhythm, n: nat)
    requires g.DueAgain()
    ensures C.Sound(HourlyPolicy()) && Started(Before(g, 0), 60 - g.gap)
    ensures Legal(Both(), Before(g, 0), AllRuns(g, n)) && After(Both(), Before(g, 0), AllRuns(g, n)) == Before(g, n)
    ensures |Before(g, n).spaces["a"].scheduled| == n && Before(g, n).spaces["b"].scheduled == []
    ensures |Before(g, n).deferred| == n * g.ticks && forall i :: 0 <= i < n * g.ticks ==> Before(g, n).deferred[i] == "b"
  {
    hide Legal, After, OneRun, C.Sound;
    HourlyIsSound();
    if n == 0 {
      NoEvents(Before(g, 0));
      assert Runs(g, 0) == [] && Times(g, 0) == [] && Turns(0) == [];
    } else {
      StarvedForEver(g, n - 1);
      WholeRun(g, n - 1);
      Compose(Both(), Before(g, 0), AllRuns(g, n - 1), OneRun(g, n - 1));
    }
  }

  lemma NoEvents(w: World)
    requires w.spaces.Keys <= Both().Keys
    ensures Legal(Both(), w, []) && After(Both(), w, []) == w
  {
  }
}
