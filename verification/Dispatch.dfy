/** The scheduler's run slots and in-flight set (internal/scheduler/scheduler.go, dispatch): ticks start
    runs, and each run's goroutine first leaves the in-flight set and then gives its slot back. */
module Dispatch {
  /** A goroutine that dispatch started: its run is executing, or it is between leaving the in-flight
      set and giving back its slot. */
  datatype Worker = Executing(space: string) | Leaving(space: string)

  datatype Pool = Pool(capacity: nat, slots: nat, inflight: set<string>, workers: map<nat, Worker>)

  datatype Event = Start(space: string, w: nat) | EndRun(w: nat) | FreeSlot(w: nat)

  predicate Enabled(p: Pool, e: Event) {
    match e
    case Start(_, w) => w !in p.workers
    case EndRun(w) => w in p.workers && p.workers[w].Executing?
    case FreeSlot(w) => w in p.workers && p.workers[w].Leaving? && p.slots > 0
  }

  /** A start is refused when the slots are used up, and does nothing for a Space already in flight. */
  predicate Starts(p: Pool, space: string) { space !in p.inflight && p.slots < p.capacity }

  function Next(p: Pool, e: Event): Pool
    requires Enabled(p, e)
  {
    match e
    case Start(space, w) =>
      if Starts(p, space) then
        p.(slots := p.slots + 1, inflight := p.inflight + {space}, workers := p.workers[w := Executing(space)])
      else p
    case EndRun(w) =>
      p.(inflight := p.inflight - {p.workers[w].space}, workers := p.workers[w := Leaving(p.workers[w].space)])
    case FreeSlot(w) => p.(slots := p.slots - 1, workers := p.workers - {w})
  }

  function ExecutingNow(p: Pool): set<nat> { set w | w in p.workers && p.workers[w].Executing? }

  /** Every goroutine has a slot and no slot is used by anything else; the in-flight set holds exactly
      the Spaces executing, each executed once. */
  ghost predicate Inv(p: Pool) {
    && p.slots == |p.workers| && p.slots <= p.capacity
    && p.inflight == (set w | w in ExecutingNow(p) :: p.workers[w].space)
    && forall v, w :: v in ExecutingNow(p) && w in ExecutingNow(p) && p.workers[v].space == p.workers[w].space ==> v == w
  }

  lemma StepKeepsInv(p: Pool, e: Event)
    requires Inv(p) && Enabled(p, e)
    ensures Inv(Next(p, e))
  {
    match e
    case Start(space, w) =>
      if Starts(p, space) {
        StartKeepsInv(p, space, w);
      }
    case EndRun(w) => EndKeepsInv(p, w);
    case FreeSlot(w) => FreeKeepsInv(p, w);
  }

  lemma StartKeepsInv(p: Pool, space: string, w: nat)
    requires Inv(p) && w !in p.workers && Starts(p, space)
    ensures Inv(Next(p, Start(space, w)))
  {
    var q := Next(p, Start(space, w));
    assert ExecutingNow(q) == ExecutingNow(p) + {w};
    forall v | v in ExecutingNow(p) ensures p.workers[v].space in p.inflight { }
    assert forall v :: v in ExecutingNow(p) ==> q.workers[v] == p.workers[v];
  }

  lemma EndKeepsInv(p: Pool, w: nat)
    requires Inv(p) && w in ExecutingNow(p)
    ensures Inv(Next(p, EndRun(w)))
  {
    var q := Next(p, EndRun(w));
    assert ExecutingNow(q) == ExecutingNow(p) - {w};
    assert q.workers.Keys == p.workers.Keys;
    assert forall v :: v in ExecutingNow(q) ==> q.workers[v] == p.workers[v] && p.workers[v].space != p.workers[w].space;
  }

  lemma FreeKeepsInv(p: Pool, w: nat)
    requires Inv(p) && w in p.workers && p.workers[w].Leaving? && p.slots > 0
    ensures Inv(Next(p, FreeSlot(w)))
  {
    var q := Next(p, FreeSlot(w));
    assert ExecutingNow(q) == ExecutingNow(p);
    assert q.workers.Keys == p.workers.Keys - {w};
    assert forall v :: v in ExecutingNow(q) ==> q.workers[v] == p.workers[v];
  }

  lemma {:induction false} SizeOfImage(ws: set<nat>, p: Pool)
    requires ws <= ExecutingNow(p)
    requires forall v, w :: v in ws && w in ws && p.workers[v].space == p.workers[w].space ==> v == w
    ensures |set w | w in ws :: p.workers[w].space| == |ws|
    decreases |ws|
  {
    if ws != {} {
      var w :| w in ws;
      SizeOfImage(ws - {w}, p);
      assert (set v | v in ws :: p.workers[v].space) == (set v | v in ws - {w} :: p.workers[v].space) + {p.workers[w].space};
    }
  }

  // ---- over whole runs ----

  predicate Legal(p: Pool, es: seq<Event>)
    decreases |es|
  {
    es == [] || (Enabled(p, es[0]) && Legal(Next(p, es[0]), es[1..]))
  }

  function After(p: Pool, es: seq<Event>): Pool
    requires Legal(p, es)
    decreases |es|
  {
    if es == [] then p else After(Next(p, es[0]), es[1..])
  }

  function Fresh(capacity: nat): Pool { Pool(capacity, 0, {}, map[]) }

  lemma {:induction false} AlwaysInv(p: Pool, es: seq<Event>)
    requires Inv(p) && Legal(p, es)
    ensures Inv(After(p, es)) && After(p, es).capacity == p.capacity
    decreases |es|
  {
    if es != [] {
      StepKeepsInv(p, es[0]);
      AlwaysInv(Next(p, es[0]), es[1..]);
    }
  }

  /** However ticks and completions interleave: no Space is executed twice at once; executing runs are
      exactly the in-flight entries and never more than the slots in use, which never exceed the limit;
      and once every goroutine has ended, every slot and every entry is back. */
  lemma SlotsAreExact(capacity: nat, es: seq<Event>)
    requires Legal(Fresh(capacity), es)
    ensures var p := After(Fresh(capacity), es);
            && |ExecutingNow(p)| == |p.inflight| <= p.slots == |p.workers| <= capacity
            && (forall v, w :: v in ExecutingNow(p) && w in ExecutingNow(p) && p.workers[v].space == p.workers[w].space ==> v == w)
            && (p.workers == map[] ==> p == Fresh(capacity))
  {
    AlwaysInv(Fresh(capacity), es);
    var p := After(Fresh(capacity), es);
    SizeOfImage(ExecutingNow(p), p);
    assert ExecutingNow(p) <= p.workers.Keys;
    Smaller(ExecutingNow(p), p.workers.Keys);
  }

  lemma Smaller(a: set<nat>, b: set<nat>)
    requires a <= b
    ensures |a| <= |b|
  {
    assert b == a + (b - a);
  }

  /** No goroutine is ever stuck: each can take its own next step whatever the others do, and taking
      every one of them returns the pool to empty. */
  lemma {:induction false} EverythingDrains(p: Pool) returns (es: seq<Event>)
    requires Inv(p)
    ensures Legal(p, es) && (forall e :: e in es ==> !e.Start?) && After(p, es) == Fresh(p.capacity)
    decreases |p.workers|, |ExecutingNow(p)|
  {
    if p.workers == map[] {
      return [];
    }
    var w :| w in p.workers;
    var e;
    if p.workers[w].Executing? {
      e := EndRun(w);
      assert ExecutingNow(Next(p, e)) == ExecutingNow(p) - {w};
      assert Next(p, e).workers.Keys == p.workers.Keys;
    } else {
      e := FreeSlot(w);
      assert Next(p, e).workers.Keys == p.workers.Keys - {w};
    }
    StepKeepsInv(p, e);
    var rest := EverythingDrains(Next(p, e));
    es := [e] + rest;
    assert es[1..] == rest;
  }

  // ---- the scheduler's own fields ----

  class Scheduler {
    const maxConcurrent: nat
    var slots: nat
    var inflight: set<string>
    /** The goroutines dispatch has started and that have not returned. */
    ghost var workers: map<nat, Worker>

    ghost function State(): Pool
      reads this
    {
      Pool(maxConcurrent, slots, inflight, workers)
    }

    constructor (maxConcurrent: nat)
      ensures State() == Fresh(maxConcurrent) && Inv(State())
    {
      this.maxConcurrent, slots, inflight, workers := maxConcurrent, 0, {}, map[];
    }

    /** Says whether the Space is being run; false means every slot is taken. */
    method Dispatch(space: string, ghost w: nat) returns (started: bool)
      requires Inv(State()) && w !in workers
      modifies this
      ensures State() == Next(old(State()), Start(space, w)) && Inv(State())
      ensures started <==> space in inflight
      ensures !started ==> old(slots) == maxConcurrent && State() == old(State())
      ensures space !in old(inflight) && old(slots) < maxConcurrent ==>
                slots == old(slots) + 1 && inflight == old(inflight) + {space} && workers == old(workers)[w := Executing(space)]
      ensures space in old(inflight) || old(slots) >= maxConcurrent ==> State() == old(State())
    {
      StepKeepsInv(State(), Start(space, w));
      if space in inflight {
        return true;
      }
      if slots == maxConcurrent {
        return false;
      }
      slots := slots + 1;
      inflight := inflight + {space};
      workers := workers[w := Executing(space)];
      started := true;
    }

    /** A goroutine's deferred cleanup, first half: it runs whether the run returned or panicked. */
    method LeaveInflight(space: string, ghost w: nat)
      requires Inv(State()) && w in workers && workers[w] == Executing(space)
      modifies this
      ensures State() == Next(old(State()), EndRun(w)) && Inv(State())
    {
      StepKeepsInv(State(), EndRun(w));
      inflight := inflight - {space};
      workers := workers[w := Leaving(space)];
    }

    /** The second half: the slot is free only now. */
    method FreeOne(ghost w: nat)
      requires Inv(State()) && w in workers && workers[w].Leaving?
      modifies this
      ensures State() == Next(old(State()), FreeSlot(w)) && Inv(State()) && slots < old(slots)
    {
      HasSlot(State(), w);
      StepKeepsInv(State(), FreeSlot(w));
      slots := slots - 1;
      workers := workers - {w};
    }
  }

  lemma HasSlot(p: Pool, w: nat)
    requires Inv(p) && w in p.workers
    ensures p.slots > 0
  {
  }
}
