/** When a Space is due (internal/scheduler/scheduler.go): schedule, baseline and jitter, over whole
    histories of ticks, manual backups and downtime. A cron schedule is known only as a function that
    gives the next occurrence after an instant. */
module Cadence {
  import opened Wrappers

  /** NextAfter of a cron expression: strictly after its argument, monotone, and once it has no further
      occurrence it never has one again. */
  ghost predicate IsSchedule(next: int -> Option<int>) {
    && (forall t :: next(t).Some? ==> next(t).value > t)
    && (forall s, t :: s <= t && next(t).Some? ==> next(s).Some? && next(s).value <= next(t).value)
  }

  /** jitterFor: a stable offset inside the window, from a 64-bit hash of the Space id. */
  function Jitter(hash: nat, window: int): (j: int)
    ensures window > 0 ==> 0 <= j < window
    ensures window <= 0 ==> j == 0
  {
    if window <= 0 then 0 else hash % window
  }

  /** The offset is the hash, taken round and round the window: Spaces spread over all of it, and each keeps
      its own offset. */
  lemma JitterSpreads(hash: nat, window: int)
    ensures hash < window ==> Jitter(hash, window) == hash
    ensures window > 0 ==> Jitter(hash + window, window) == Jitter(hash, window)
  {
    if window > 0 {
      var q := hash / window;
      assert hash + window == (q + 1) * window + hash % window;
      SameRemainder(hash + window, window, q + 1, hash % window);
    }
  }

  lemma SameRemainder(a: int, m: int, q: int, r: int)
    requires m > 0 && 0 <= r < m && a == q * m + r
    ensures a % m == r
  {
    var d := a / m - q;
    Multiples(d, m);
    assert a == (a / m) * m + a % m;
    assert (a / m) * m == (q + d) * m == q * m + d * m;
  }

  lemma Multiples(d: int, m: int)
    requires m > 0
    ensures d >= 1 ==> d * m >= m
    ensures d <= -1 ==> d * m <= -m
  {
  }

  /** baseline: the last attempt, or when the Space was configured, or now. */
  function Baseline(updated: Option<int>, last: Option<int>, now: int): int {
    match (last, updated)
    case (Some(t), _) => t
    case (None, Some(t)) => t
    case (None, None) => now
  }

  function NextOccurrence(next: int -> Option<int>, base: int, jitter: int): Option<int> {
    match next(base)
    case None => None
    case Some(t) => Some(t + jitter)
  }

  predicate BackupDue(next: int -> Option<int>, jitter: int, updated: Option<int>, last: Option<int>, now: int) {
    var at := NextOccurrence(next, Baseline(updated, last, now), jitter);
    at.Some? && now >= at.value
  }

  /** A stored run record; `ended` is its verdict, or None while it says running. */
  datatype Run = Run(created: int, ended: Option<bool>)

  /** pruneDue: something succeeded to prune, and the last prune attempt is long enough ago. */
  predicate PruneDue(interval: int, jitter: int, lastBackup: Option<Run>, lastPrune: Option<int>, now: int) {
    lastBackup.Some? && lastBackup.value.ended == Some(true)
    && (lastPrune.None? || now >= lastPrune.value + interval + jitter)
  }

  datatype Action = Nothing | Backup | Prune

  /** evaluate: at most one kind of run per tick, and a backup before a prune. */
  function Decide(busy: bool, backupDue: bool, pruneDue: bool): Action {
    if busy then Nothing else if backupDue then Backup else if pruneDue then Prune else Nothing
  }

  /** A Space that is due stays due until it is attempted: no amount of waiting, and no downtime, lets
      an occurrence slip. */
  lemma DueStaysDue(next: int -> Option<int>, jitter: int, updated: Option<int>, last: Option<int>, now: int,
                    later: int)
    requires IsSchedule(next) && jitter >= 0 && now <= later
    requires BackupDue(next, jitter, updated, last, now)
    ensures BackupDue(next, jitter, updated, last, later)
  {
  }

  /** A Space that never ran becomes due at some time exactly when its configuration carries a time and
      its schedule has an occurrence after it. */
  lemma FirstRunIff(next: int -> Option<int>, jitter: int, updated: Option<int>)
    requires IsSchedule(next) && jitter >= 0
    ensures (exists now :: BackupDue(next, jitter, updated, None, now)) <==> updated.Some? && next(updated.value).Some?
  {
    if updated.Some? && next(updated.value).Some? {
      assert BackupDue(next, jitter, updated, None, next(updated.value).value + jitter);
    }
  }

  // ---- one Space's history ----

  /** What decides when a Space runs: its schedule and jitter, when it was configured, the prune interval
      with its jitter, and how long finished records are kept. */
  datatype Policy = Policy(next: int -> Option<int>, jitter: int, updated: Option<int>,
                           interval: int, pruneJitter: int, window: int)

  ghost predicate Sound(p: Policy) {
    IsSchedule(p.next) && p.jitter >= 0 && p.interval > 0 && p.pruneJitter >= 0 && p.window > 0
  }

  /** A dispatched run: decided in a tick on the newest backup it saw, or with its record made. */
  datatype Flight = Decided(kind: Action, now: int, seen: Option<Run>) | Recorded(kind: Action)

  /** A recorded prune, with the backup its decision saw. */
  datatype PruneMade = PruneMade(created: int, seen: Run)

  /** `tick` is the instant the latest tick started; `backups` and `prunes` are the stored records, oldest
      first; `scheduled` and `pruned` are all scheduled attempts ever recorded, kept or not. */
  datatype State = State(clock: int, tick: int, backups: seq<Run>, prunes: seq<Run>, flight: Option<Flight>,
                         scheduled: seq<int>, pruned: seq<PruneMade>)

  /** A tick starts; it evaluates the Space, with or without a free slot; the dispatched goroutine records
      its run or gives up; the run leaves; a manual backup is recorded; a record gets its verdict, from
      its run or from recovery; the tick trims old records; time passes; the process restarts. */
  datatype Event =
    | Tick(now: int)
    | Evaluate(busy: bool, room: bool)
    | Record(created: int)
    | Withdraw
    | Leave
    | Manual(created: int)
    | Settle(kind: Action, i: nat, ok: bool)
    | Trim
    | Wait(passed: nat)
    | Restart

  function Newest(runs: seq<Run>): Option<Run> { if runs == [] then None else Some(runs[|runs| - 1]) }

  function CreatedOf(r: Option<Run>): Option<int> { if r.Some? then Some(r.value.created) else None }

  /** What evaluate decides from the history it reads, at the instant its tick started. */
  function Decision(p: Policy, s: State, busy: bool): Action {
    Decide(busy, BackupDue(p.next, p.jitter, p.updated, CreatedOf(Newest(s.backups)), s.tick),
           PruneDue(p.interval, p.pruneJitter, Newest(s.backups), CreatedOf(Newest(s.prunes)), s.tick))
  }

  /** trimHistory: finished records from before the cutoff go. */
  function Kept(runs: seq<Run>, cutoff: int): seq<Run> {
    if runs == [] then []
    else
      var init, last := Kept(runs[..|runs| - 1], cutoff), runs[|runs| - 1];
      if last.ended.Some? && last.created < cutoff then init else init + [last]
  }

  predicate Enabled(s: State, e: Event) {
    match e
    case Tick(now) => now >= s.clock
    case Record(created) => s.flight.Some? && s.flight.value.Decided? && created >= s.clock
    case Withdraw => s.flight.Some? && s.flight.value.Decided?
    case Leave => s.flight.Some? && s.flight.value.Recorded?
    case Manual(created) => created >= s.clock
    case Settle(kind, i, _) =>
      var runs := if kind.Prune? then s.prunes else s.backups;
      i < |runs| && runs[i].ended.None?
    case _ => true
  }

  function Next(p: Policy, s: State, e: Event): State
    requires Enabled(s, e)
  {
    match e
    case Tick(now) => s.(clock := now, tick := now)
    case Evaluate(busy, room) =>
      var action := Decision(p, s, busy);
      if action.Nothing? || s.flight.Some? || !room then s
      else s.(flight := Some(Decided(action, s.tick, Newest(s.backups))))
    case Record(created) =>
      var f := s.flight.value;
      if f.kind.Prune? then
        s.(clock := created, flight := Some(Recorded(Prune)), prunes := s.prunes + [Run(created, None)],
           pruned := if f.seen.Some? then s.pruned + [PruneMade(created, f.seen.value)] else s.pruned)
      else
        s.(clock := created, flight := Some(Recorded(Backup)), backups := s.backups + [Run(created, None)],
           scheduled := s.scheduled + [created])
    case Withdraw => s.(flight := None)
    case Leave => s.(flight := None)
    case Manual(created) => s.(clock := created, backups := s.backups + [Run(created, None)])
    case Settle(kind, i, ok) =>
      if kind.Prune? then s.(prunes := s.prunes[i := s.prunes[i].(ended := Some(ok))])
      else s.(backups := s.backups[i := s.backups[i].(ended := Some(ok))])
    case Trim => s.(backups := Kept(s.backups, s.tick - p.window), prunes := Kept(s.prunes, s.tick - p.window))
    case Wait(passed) => s.(clock := s.clock + passed)
    case Restart => s.(flight := None)
  }

  predicate Legal(p: Policy, s: State, es: seq<Event>)
    decreases |es|
  {
    es == [] || (Enabled(s, es[0]) && Legal(p, Next(p, s, es[0]), es[1..]))
  }

  function After(p: Policy, s: State, es: seq<Event>): State
    requires Legal(p, s, es)
    decreases |es|
  {
    if es == [] then s else After(p, Next(p, s, es[0]), es[1..])
  }

  function Fresh(clock: int): State { State(clock, clock, [], [], None, [], []) }

  lemma FirstStep(p: Policy, s: State, e: Event, rest: seq<Event>)
    requires Enabled(s, e)
    ensures Legal(p, s, [e] + rest) <==> Legal(p, Next(p, s, e), rest)
    ensures Legal(p, Next(p, s, e), rest) ==> After(p, s, [e] + rest) == After(p, Next(p, s, e), rest)
  {
    assert ([e] + rest)[1..] == rest;
  }

  // ---- stored records ----

  /** Records in the order of their times, none from the future. */
  ghost predicate InOrder(runs: seq<Run>, from: int, clock: int) {
    && (forall i :: 0 <= i < |runs| ==> from <= runs[i].created <= clock)
    && (forall i, j :: 0 <= i <= j < |runs| ==> runs[i].created <= runs[j].created)
  }

  /** The newest stored record is not from before t. */
  predicate NotOlder(runs: seq<Run>, t: int) { runs != [] && runs[|runs| - 1].created >= t }

  lemma OneMoreInOrder(runs: seq<Run>, last: Run, from: int, clock: int)
    requires InOrder(runs, from, clock) && from <= last.created <= clock
    requires runs != [] ==> runs[|runs| - 1].created <= last.created
    ensures InOrder(runs + [last], from, clock)
  {
  }

  lemma {:induction false} KeptInOrder(runs: seq<Run>, cutoff: int, from: int, clock: int)
    requires InOrder(runs, from, clock)
    ensures InOrder(Kept(runs, cutoff), from, clock)
    ensures runs != [] && Kept(runs, cutoff) != [] ==> Newest(Kept(runs, cutoff)).value.created <= runs[|runs| - 1].created
    ensures runs != [] && runs[|runs| - 1].created >= cutoff ==> Newest(Kept(runs, cutoff)) == Newest(runs)
  {
    if runs != [] {
      var init, last := runs[..|runs| - 1], runs[|runs| - 1];
      KeptInOrder(init, cutoff, from, clock);
      var kept := Kept(init, cutoff);
      assert kept != [] ==> kept[|kept| - 1].created <= last.created;
      if last.ended.Some? && last.created < cutoff {
        assert Kept(runs, cutoff) == kept;
      } else {
        assert Kept(runs, cutoff) == kept + [last];
        OneMoreInOrder(kept, last, from, clock);
      }
    }
  }

  /** Trimming loses sight of t only once t itself is older than the cutoff. */
  lemma KeptNotOlder(runs: seq<Run>, cutoff: int, from: int, clock: int, t: int)
    requires InOrder(runs, from, clock) && NotOlder(runs, t)
    ensures NotOlder(Kept(runs, cutoff), t) || t < cutoff
  {
    KeptInOrder(runs, cutoff, from, clock);
  }

  /** Trimming drops the finished records from before the cutoff, and nothing else. */
  lemma {:induction false} KeptExactly(runs: seq<Run>, cutoff: int)
    ensures forall r :: multiset(Kept(runs, cutoff))[r]
                        == if r.ended.Some? && r.created < cutoff then 0 else multiset(runs)[r]
  {
    if runs != [] {
      var init, last := runs[..|runs| - 1], runs[|runs| - 1];
      KeptExactly(init, cutoff);
      assert runs == init + [last];
      assert multiset(runs) == multiset(init) + multiset{last};
    }
  }

  // ---- when a Space is due ----

  /** The first occurrence after c has passed by d, and the Space's offset after it. */
  predicate Spaced(p: Policy, c: int, d: int) { p.next(c).Some? && d >= p.next(c).value + p.jitter }

  /** A backup is owed: an occurrence and the offset have passed since the newest attempt on record, or,
      with none on record, since the Space was configured. */
  predicate Owed(p: Policy, s: State) {
    if s.backups != [] then Spaced(p, s.backups[|s.backups| - 1].created, s.tick)
    else p.updated.Some? && Spaced(p, p.updated.value, s.tick)
  }

  /** A prune is owed: the newest backup succeeded, and the newest prune on record, if any, lies the
      interval and its own offset back. */
  predicate PruneOwed(p: Policy, s: State) {
    && s.backups != [] && s.backups[|s.backups| - 1].ended == Some(true)
    && (s.prunes == [] || s.tick >= s.prunes[|s.prunes| - 1].created + p.interval + p.pruneJitter)
  }

  /** A tick that reads the Space, finds its lock free and has a slot dispatches a backup exactly when one
      is owed, a prune exactly when one is owed and a backup is not, and nothing otherwise. */
  lemma DispatchedIff(p: Policy, s: State)
    requires Sound(p) && s.flight.None?
    ensures var f := Next(p, s, Evaluate(false, true)).flight;
            && (f.Some? && f.value.kind.Backup? <==> Owed(p, s))
            && (f.Some? && f.value.kind.Prune? <==> !Owed(p, s) && PruneOwed(p, s))
            && (f.Some? ==> f.value.Decided? && !f.value.kind.Nothing? && f.value.now == s.tick
                            && f.value.seen == if s.backups == [] then None else Some(s.backups[|s.backups| - 1]))
    ensures forall busy, room :: busy || !room ==> Next(p, s, Evaluate(busy, room)) == s
  {
  }

  /** The same in terms of the latest attempt, whichever place its record has: it is backed up from the
      next occurrence and the offset on, and not before. */
  lemma BackedUpIff(p: Policy, s: State, from: int, last: Run)
    requires Sound(p) && Ordered(s, from) && s.flight.None?
    requires last in s.backups && forall r :: r in s.backups ==> r.created <= last.created
    ensures var f := Next(p, s, Evaluate(false, true)).flight;
            f.Some? && f.value.kind.Backup?
            <==> p.next(last.created).Some? && s.tick >= p.next(last.created).value + p.jitter
  {
    DispatchedIff(p, s);
    assert s.backups[|s.backups| - 1] in s.backups;
  }

  /** After any history, whatever it missed: the first tick after a restart that finds the Space free and
      a slot for it dispatches a backup exactly when one is owed by then, and its record is a scheduled
      attempt. */
  lemma MissedIsCaughtUp(p: Policy, clock: int, es: seq<Event>, now: int, created: int)
    requires Sound(p) && Legal(p, Fresh(clock), es) && After(p, Fresh(clock), es).clock <= now <= created
    ensures var s := After(p, Fresh(clock), es);
            var t := Next(p, Next(p, Next(p, s, Restart), Tick(now)), Evaluate(false, true));
            && (t.flight.Some? && t.flight.value.kind.Backup? <==> Owed(p, s.(tick := now)))
            && (Owed(p, s.(tick := now)) ==>
                  Enabled(t, Record(created)) && Next(p, t, Record(created)).scheduled == s.scheduled + [created])
  {
    var s := After(p, Fresh(clock), es);
    var u := Next(p, Next(p, s, Restart), Tick(now));
    assert Owed(p, u) <==> Owed(p, s.(tick := now));
    DispatchedIff(p, u);
  }

  // ---- the invariant ----

  ghost predicate AllSpaced(p: Policy, c: seq<int>) {
    forall i :: 0 <= i < |c| - 1 ==> Spaced(p, c[i], c[i + 1])
  }

  /** Any occurrence and its jitter come before a record of that age is trimmed. */
  predicate CoveredAt(p: Policy, c: int) { p.next(c).Some? && p.next(c).value + p.jitter <= c + p.window + 1 }

  ghost predicate Covered(p: Policy, first: int) { forall c :: c >= first ==> CoveredAt(p, c) }

  ghost predicate Ordered(s: State, from: int) {
    from <= s.tick <= s.clock && InOrder(s.backups, from, s.clock) && InOrder(s.prunes, from, s.clock)
  }

  /** The last scheduled attempt is still in sight, or its record's time in the history is over. */
  ghost predicate BackupsInv(p: Policy, s: State, first: int) {
    && (forall i :: 0 <= i < |s.scheduled| ==> first <= s.scheduled[i] <= s.clock)
    && AllSpaced(p, s.scheduled)
    && (s.scheduled != [] ==> var c := s.scheduled[|s.scheduled| - 1]; NotOlder(s.backups, c) || s.tick > c + p.window)
    && (s.flight.Some? && s.flight.value.Decided? && !s.flight.value.kind.Prune? ==>
          first <= s.flight.value.now <= s.clock
          && (s.scheduled != [] ==> Spaced(p, s.scheduled[|s.scheduled| - 1], s.flight.value.now)))
  }

  lemma OrderGrows(runs: seq<Run>, from: int, clock: int, later: int)
    requires InOrder(runs, from, clock) && from <= clock <= later
    ensures InOrder(runs, from, later) && InOrder(runs + [Run(later, None)], from, later)
  {
  }

  lemma OrderSettles(runs: seq<Run>, from: int, clock: int, i: nat, ok: bool)
    requires InOrder(runs, from, clock) && i < |runs|
    ensures InOrder(runs[i := runs[i].(ended := Some(ok))], from, clock)
  {
  }

  lemma OrderedStep(p: Policy, s: State, e: Event, from: int)
    requires Ordered(s, from) && Enabled(s, e)
    ensures Ordered(Next(p, s, e), from)
  {
    hide InOrder, Decision;
    var t := Next(p, s, e);
    OrderGrows(s.backups, from, s.clock, if t.clock < s.clock then s.clock else t.clock);
    OrderGrows(s.prunes, from, s.clock, if t.clock < s.clock then s.clock else t.clock);
    match e
    case Trim =>
      KeptInOrder(s.backups, s.tick - p.window, from, s.clock);
      KeptInOrder(s.prunes, s.tick - p.window, from, s.clock);
    case Settle(kind, i, ok) => OrderSettles(if kind.Prune? then s.prunes else s.backups, from, s.clock, i, ok);
    case _ =>
  }

  /** A due tick is an occurrence and the jitter after the last scheduled attempt. */
  lemma DueIsSpaced(p: Policy, s: State, from: int, first: int)
    requires Sound(p) && Ordered(s, from) && BackupsInv(p, s, first) && Covered(p, first)
    requires BackupDue(p.next, p.jitter, p.updated, CreatedOf(Newest(s.backups)), s.tick)
    ensures s.scheduled != [] ==> Spaced(p, s.scheduled[|s.scheduled| - 1], s.tick)
  {
    if s.scheduled != [] {
      var c := s.scheduled[|s.scheduled| - 1];
      assert CoveredAt(p, c);
    }
  }

  /** Configured by then, with an occurrence to come. */
  predicate Starts(p: Policy, from: int) {
    p.updated.Some? && p.updated.value <= from && p.next(p.updated.value).Some?
  }

  /** No scheduled attempt comes before this: the first occurrence with its jitter, once configured. */
  function First(p: Policy, from: int): int {
    if Starts(p, from) && p.next(p.updated.value).value + p.jitter > from then p.next(p.updated.value).value + p.jitter else from
  }

  lemma DueIsLateEnough(p: Policy, s: State, from: int)
    requires Sound(p) && Ordered(s, from)
    requires BackupDue(p.next, p.jitter, p.updated, CreatedOf(Newest(s.backups)), s.tick)
    ensures s.tick >= First(p, from)
  {
  }

  lemma BackupsStep(p: Policy, s: State, e: Event, from: int)
    requires Sound(p) && Ordered(s, from) && Enabled(s, e)
    requires Covered(p, First(p, from)) && BackupsInv(p, s, First(p, from))
    ensures BackupsInv(p, Next(p, s, e), First(p, from))
  {
    hide Sound, First;
    var first := First(p, from);
    var t := Next(p, s, e);
    match e
    case Evaluate(busy, room) =>
      if Decision(p, s, busy).Backup? {
        DueIsSpaced(p, s, from, first);
        DueIsLateEnough(p, s, from);
      }
    case Trim =>
      if s.scheduled != [] {
        var c := s.scheduled[|s.scheduled| - 1];
        if NotOlder(s.backups, c) {
          KeptNotOlder(s.backups, s.tick - p.window, from, s.clock, c);
        }
      }
    case Record(created) =>
      forall i | 0 <= i < |t.scheduled| - 1 ensures Spaced(p, t.scheduled[i], t.scheduled[i + 1]) {
        if i + 1 < |s.scheduled| {
          assert Spaced(p, s.scheduled[i], s.scheduled[i + 1]);
        }
      }
    case _ =>
  }

  lemma {:induction false} BackupsAlways(p: Policy, s: State, es: seq<Event>, from: int)
    requires Sound(p) && Ordered(s, from) && Legal(p, s, es)
    requires Covered(p, First(p, from)) && BackupsInv(p, s, First(p, from))
    ensures AllSpaced(p, After(p, s, es).scheduled)
    decreases |es|
  {
    if es != [] {
      OrderedStep(p, s, es[0], from);
      BackupsStep(p, s, es[0], from);
      BackupsAlways(p, Next(p, s, es[0]), es[1..], from);
    }
  }

  /** A scheduled backup at c, run to success, and then nothing until its record is just too old. */
  function BackUpAt(c: int): seq<Event> {
    [Tick(c), Evaluate(false, true), Record(c), Settle(Backup, 0, true), Leave]
  }

  /** A tick that starts nothing here, for want of a slot if the Space is due, and then trims; and the
      tick after it. */
  function TrimAt(t: int): seq<Event> {
    [Tick(t), Evaluate(false, false), Trim, Tick(t), Evaluate(false, true), Record(t)]
  }

  lemma BackedUp(p: Policy, clock: int, c: int)
    requires Sound(p) && Starts(p, clock) && c >= First(p, clock)
    ensures Legal(p, Fresh(clock), BackUpAt(c))
    ensures After(p, Fresh(clock), BackUpAt(c)) == State(c, c, [Run(c, Some(true))], [], None, [c], [])
  {
    var es := BackUpAt(c);
    var s0 := Fresh(clock);
    var s1 := Next(p, s0, es[0]);
    var s2 := Next(p, s1, es[1]);
    assert s2.flight == Some(Decided(Backup, c, None));
    var s3 := Next(p, s2, es[2]);
    var s4 := Next(p, s3, es[3]);
    var s5 := Next(p, s4, es[4]);
    assert s5 == State(c, c, [Run(c, Some(true))], [], None, [c], []);
    Chain(p, [s0, s1, s2, s3, s4, s5], es);
  }

  lemma TrimmedAndRepeated(p: Policy, clock: int, c: int, t: int)
    requires Sound(p) && Starts(p, clock) && c >= First(p, clock) && t == c + p.window + 1
    ensures var s := State(c, c, [Run(c, Some(true))], [], None, [c], []);
            Legal(p, s, TrimAt(t)) && After(p, s, TrimAt(t)).scheduled == [c, t]
  {
    var es := TrimAt(t);
    var s0 := State(c, c, [Run(c, Some(true))], [], None, [c], []);
    var s1 := Next(p, s0, es[0]);
    var s2 := Next(p, s1, es[1]);
    var s3 := Next(p, s2, es[2]);
    assert [Run(c, Some(true))][..0] == [] && s3.backups == [];
    var s4 := Next(p, s3, es[3]);
    var s5 := Next(p, s4, es[4]);
    assert s5.flight == Some(Decided(Backup, t, None));
    var s6 := Next(p, s5, es[5]);
    assert s6.scheduled == [c, t];
    Chain(p, [s0, s1, s2, s3, s4, s5, s6], es);
  }

  /** When the history is trimmed before the next occurrence, the Space looks as if it never ran and is
      backed up again at once. */
  lemma TrimmedHistoryRepeats(p: Policy, clock: int, c: int)
    requires Sound(p) && Starts(p, clock) && c >= First(p, clock)
    ensures var es := BackUpAt(c) + TrimAt(c + p.window + 1);
            Legal(p, Fresh(clock), es) && After(p, Fresh(clock), es).scheduled == [c, c + p.window + 1]
  {
    BackedUp(p, clock, c);
    TrimmedAndRepeated(p, clock, c, c + p.window + 1);
    Compose(p, Fresh(clock), BackUpAt(c), TrimAt(c + p.window + 1));
  }

  /** A run followed by a run. */
  lemma {:induction false} Compose(p: Policy, s: State, a: seq<Event>, b: seq<Event>)
    requires Legal(p, s, a) && Legal(p, After(p, s, a), b)
    ensures Legal(p, s, a + b) && After(p, s, a + b) == After(p, After(p, s, a), b)
    decreases |a|
  {
    hide Enabled, Next;
    if a == [] {
      assert a + b == b;
    } else {
      Compose(p, Next(p, s, a[0]), a[1..], b);
      assert (a + b)[1..] == a[1..] + b;
    }
  }

  /** States that follow each other by their events are a run. */
  lemma {:induction false} Chain(p: Policy, states: seq<State>, es: seq<Event>)
    requires |states| == |es| + 1
    requires forall i :: 0 <= i < |es| ==> Enabled(states[i], es[i]) && states[i + 1] == Next(p, states[i], es[i])
    ensures Legal(p, states[0], es) && After(p, states[0], es) == states[|es|]
    decreases |es|
  {
    hide Enabled, Next;
    if es != [] {
      Chain(p, states[1..], es[1..]);
    }
  }

  /** Scheduled attempts are an occurrence and the jitter apart over every history, with manual backups,
      crashes, lost verdicts and trimming anywhere, exactly when no occurrence after the first one is
      further away than the job history is kept. */
  lemma SpacedIffHistoryCovers(p: Policy, clock: int)
    requires Sound(p) && Starts(p, clock)
    ensures (forall es :: Legal(p, Fresh(clock), es) ==> AllSpaced(p, After(p, Fresh(clock), es).scheduled))
       <==> Covered(p, First(p, clock))
  {
    var first := First(p, clock);
    if Covered(p, first) {
      forall es | Legal(p, Fresh(clock), es) ensures AllSpaced(p, After(p, Fresh(clock), es).scheduled) {
        BackupsAlways(p, Fresh(clock), es, clock);
      }
    } else {
      var c :| c >= first && !CoveredAt(p, c);
      TrimmedHistoryRepeats(p, clock, c);
      var es := BackUpAt(c) + TrimAt(c + p.window + 1);
      assert Legal(p, Fresh(clock), es);
      var made := After(p, Fresh(clock), es).scheduled;
      assert !Spaced(p, made[0], made[0 + 1]);
    }
  }

  // ---- how many attempts ----

  lemma {:induction false} FirstIsLeast(p: Policy, c: seq<int>, i: nat)
    requires Sound(p) && i < |c| && AllSpaced(p, c)
    ensures c[0] <= c[i]
  {
    if i > 0 {
      FirstIsLeast(p, c, i - 1);
      assert Spaced(p, c[i - 1], c[i - 1 + 1]);
    }
  }

  /** Spaced attempts in an interval are at most its occurrences plus one. */
  lemma {:induction false} AttemptsBounded(p: Policy, c: seq<int>, from: int, to: int, occurrences: set<int>)
    requires Sound(p) && AllSpaced(p, c)
    requires forall i :: 0 <= i < |c| ==> from <= c[i] <= to
    requires forall t :: p.next(t).Some? && from < p.next(t).value <= to ==> p.next(t).value in occurrences
    ensures |c| <= |occurrences| + 1
    decreases |c|
  {
    if |c| > 1 {
      assert Spaced(p, c[0], c[0 + 1]);
      var o := p.next(c[0]).value;
      assert o in occurrences;
      var rest := c[1..];
      forall i | 0 <= i < |rest| - 1 ensures Spaced(p, rest[i], rest[i + 1]) {
        assert Spaced(p, c[i + 1], c[i + 1 + 1]);
      }
      forall i | 0 <= i < |rest| ensures o <= rest[i] <= to {
        FirstIsLeast(p, rest, i);
      }
      forall t | p.next(t).Some? && o < p.next(t).value <= to ensures p.next(t).value in occurrences - {o} {
      }
      AttemptsBounded(p, rest, o, to, occurrences - {o});
    }
  }

  /** So over any history the scheduled attempts of a stretch that lie in an interval are at most the
      interval's occurrences plus one. */
  lemma AttemptsInInterval(p: Policy, clock: int, es: seq<Event>, i: nat, j: nat, from: int, to: int,
                           occurrences: set<int>)
    requires Sound(p) && Covered(p, First(p, clock)) && Legal(p, Fresh(clock), es)
    requires i <= j <= |After(p, Fresh(clock), es).scheduled|
    requires forall k :: i <= k < j ==> from <= After(p, Fresh(clock), es).scheduled[k] <= to
    requires forall t :: p.next(t).Some? && from < p.next(t).value <= to ==> p.next(t).value in occurrences
    ensures j - i <= |occurrences| + 1
  {
    BackupsAlways(p, Fresh(clock), es, clock);
    var all := After(p, Fresh(clock), es).scheduled;
    var c := all[i..j];
    forall k | 0 <= k < |c| - 1 ensures Spaced(p, c[k], c[k + 1]) {
      assert Spaced(p, all[i + k], all[i + k + 1]);
    }
    AttemptsBounded(p, c, from, to, occurrences);
  }

  // ---- downtime ----

  /** An attempt at or after c is in sight, and no backup has been decided but not recorded. */
  ghost predicate CaughtUp(s: State, c: int, from: int) {
    Ordered(s, from) && NotOlder(s.backups, c)
    && (s.flight.Some? && s.flight.value.Decided? ==> s.flight.value.kind.Prune?)
  }

  lemma ClockRuns(p: Policy, s: State, e: Event, from: int)
    requires Ordered(s, from) && Enabled(s, e)
    ensures Next(p, s, e).clock >= s.clock
  {
  }

  lemma {:induction false} ClockNeverTurns(p: Policy, s: State, es: seq<Event>, from: int)
    requires Ordered(s, from) && Legal(p, s, es)
    ensures After(p, s, es).clock >= s.clock
    decreases |es|
  {
    if es != [] {
      OrderedStep(p, s, es[0], from);
      ClockRuns(p, s, es[0], from);
      ClockNeverTurns(p, Next(p, s, es[0]), es[1..], from);
    }
  }

  lemma CaughtUpStep(p: Policy, s: State, e: Event, c: int, from: int)
    requires Sound(p) && CaughtUp(s, c, from) && Enabled(s, e)
    requires Next(p, s, e).clock <= c + p.window
    requires p.next(c).Some? ==> Next(p, s, e).clock < p.next(c).value + p.jitter
    ensures CaughtUp(Next(p, s, e), c, from) && Next(p, s, e).scheduled == s.scheduled
  {
    OrderedStep(p, s, e, from);
    if e.Trim? {
      KeptNotOlder(s.backups, s.tick - p.window, from, s.clock, c);
    }
  }

  /** With an attempt at c in sight nothing more is attempted before the next occurrence after c, however
      many occurrences lie before it. */
  lemma {:induction false} NothingTwice(p: Policy, s: State, es: seq<Event>, c: int, from: int)
    requires Sound(p) && CaughtUp(s, c, from) && Legal(p, s, es)
    requires After(p, s, es).clock <= c + p.window
    requires p.next(c).Some? ==> After(p, s, es).clock < p.next(c).value + p.jitter
    ensures After(p, s, es).scheduled == s.scheduled
    decreases |es|
  {
    if es != [] {
      var t := Next(p, s, es[0]);
      OrderedStep(p, s, es[0], from);
      ClockNeverTurns(p, t, es[1..], from);
      CaughtUpStep(p, s, es[0], c, from);
      NothingTwice(p, t, es[1..], c, from);
    }
  }

  /** Whatever downtime missed is caught up by exactly one run: a Space that is owed a backup and is not
      busy, with a slot free, is attempted, and then not again before its next occurrence. */
  lemma CaughtUpExactlyOnce(p: Policy, s: State, created: int, es: seq<Event>, from: int)
    requires Sound(p) && Ordered(s, from) && s.flight.None? && created >= s.clock
    requires Owed(p, s)
    requires Legal(p, s, [Evaluate(false, true), Record(created)] + es)
    requires After(p, s, [Evaluate(false, true), Record(created)] + es).clock <= created + p.window
    requires p.next(created).Some? ==>
               After(p, s, [Evaluate(false, true), Record(created)] + es).clock < p.next(created).value + p.jitter
    ensures After(p, s, [Evaluate(false, true), Record(created)] + es).scheduled == s.scheduled + [created]
  {
    var attempt := [Evaluate(false, true), Record(created)] + es;
    var s1 := Next(p, s, Evaluate(false, true));
    assert s1.flight == Some(Decided(Backup, s.tick, Newest(s.backups)));
    var s2 := Next(p, s1, Record(created));
    assert attempt == [Evaluate(false, true)] + ([Record(created)] + es);
    FirstStep(p, s, Evaluate(false, true), [Record(created)] + es);
    FirstStep(p, s1, Record(created), es);
    OrderedStep(p, s, Evaluate(false, true), from);
    OrderedStep(p, s1, Record(created), from);
    NothingTwice(p, s2, es, created, from);
  }

  // ---- prunes ----

  /** Two prune attempts are at least the interval and its jitter apart. */
  predicate PrunesApart(p: Policy, a: PruneMade, b: PruneMade) {
    b.created >= a.created + p.interval + p.pruneJitter
  }

  ghost predicate AllApart(p: Policy, made: seq<PruneMade>) {
    forall i :: 0 <= i < |made| - 1 ==> PrunesApart(p, made[i], made[i + 1])
  }

  /** A prune was decided on a newest backup that had succeeded. */
  ghost predicate SawSuccess(made: seq<PruneMade>) {
    forall i :: 0 <= i < |made| ==> made[i].seen.ended == Some(true) && made[i].seen.created <= made[i].created
  }

  ghost predicate PrunesInv(p: Policy, s: State) {
    && SawSuccess(s.pruned)
    && (s.pruned != [] ==> var q := s.pruned[|s.pruned| - 1];
                           q.created <= s.clock && (NotOlder(s.prunes, q.created) || s.tick > q.created + p.window))
    && (s.flight.Some? && s.flight.value.Decided? && s.flight.value.kind.Prune? ==>
          && s.flight.value.now <= s.clock
          && s.flight.value.seen.Some? && s.flight.value.seen.value.ended == Some(true)
          && s.flight.value.seen.value.created <= s.clock)
  }

  /** The last prune, if any, lies far enough before a prune that is decided. */
  ghost predicate PrunesSpacedInv(p: Policy, s: State) {
    && AllApart(p, s.pruned)
    && (s.flight.Some? && s.flight.value.Decided? && s.flight.value.kind.Prune? && s.pruned != [] ==>
          s.flight.value.now >= s.pruned[|s.pruned| - 1].created + p.interval + p.pruneJitter)
  }

  lemma PrunesStep(p: Policy, s: State, e: Event, from: int)
    requires Sound(p) && Ordered(s, from) && Enabled(s, e) && PrunesInv(p, s)
    ensures PrunesInv(p, Next(p, s, e))
  {
    hide Sound;
    match e
    case Trim =>
      if s.pruned != [] {
        var q := s.pruned[|s.pruned| - 1];
        if NotOlder(s.prunes, q.created) {
          KeptNotOlder(s.prunes, s.tick - p.window, from, s.clock, q.created);
        }
      }
    case _ =>
  }

  lemma PrunesSpacedStep(p: Policy, s: State, e: Event, from: int)
    requires Sound(p) && Ordered(s, from) && Enabled(s, e) && PrunesInv(p, s) && PrunesSpacedInv(p, s)
    requires p.interval + p.pruneJitter <= p.window + 1
    ensures PrunesSpacedInv(p, Next(p, s, e))
  {
    hide Sound, BackupDue;
    var t := Next(p, s, e);
    forall i | 0 <= i < |t.pruned| - 1 ensures PrunesApart(p, t.pruned[i], t.pruned[i + 1]) {
      if i + 1 < |s.pruned| {
        assert PrunesApart(p, s.pruned[i], s.pruned[i + 1]);
      }
    }
  }

  lemma {:induction false} PrunesAlways(p: Policy, s: State, es: seq<Event>, from: int)
    requires Sound(p) && Ordered(s, from) && Legal(p, s, es) && PrunesInv(p, s)
    ensures PrunesInv(p, After(p, s, es))
    ensures p.interval + p.pruneJitter <= p.window + 1 && PrunesSpacedInv(p, s) ==> AllApart(p, After(p, s, es).pruned)
    decreases |es|
  {
    hide PrunesInv, PrunesSpacedInv, Next, Enabled, Ordered, Sound;
    if es != [] {
      OrderedStep(p, s, es[0], from);
      PrunesStep(p, s, es[0], from);
      if p.interval + p.pruneJitter <= p.window + 1 && PrunesSpacedInv(p, s) {
        PrunesSpacedStep(p, s, es[0], from);
      }
      PrunesAlways(p, Next(p, s, es[0]), es[1..], from);
    } else if PrunesSpacedInv(p, s) {
      JustApart(p, s);
    }
  }

  lemma JustApart(p: Policy, s: State)
    requires PrunesSpacedInv(p, s)
    ensures AllApart(p, s.pruned)
  {
  }

  /** Over every history each recorded prune was decided when the newest backup had succeeded. */
  lemma PrunesFollowSuccess(p: Policy, clock: int, es: seq<Event>)
    requires Sound(p) && Legal(p, Fresh(clock), es)
    ensures SawSuccess(After(p, Fresh(clock), es).pruned)
  {
    PrunesAlways(p, Fresh(clock), es, clock);
  }

  /** A successful manual backup, and a prune at the same instant. */
  function PruneAt(c: int): seq<Event> {
    [Manual(c), Settle(Backup, 0, true), Tick(c), Evaluate(false, true), Record(c), Settle(Prune, 0, true), Leave]
  }

  function RefreshAt(t: int): seq<Event> {
    [Manual(t), Settle(Backup, 1, true), Tick(t), Evaluate(false, false), Trim, Tick(t)]
  }

  function PruneAgainAt(t: int): seq<Event> { RefreshAt(t) + [Evaluate(false, true), Record(t)] }

  lemma Pruned(p: Policy, c: int)
    requires Sound(p)
    ensures Legal(p, Fresh(c), PruneAt(c))
    ensures After(p, Fresh(c), PruneAt(c))
         == State(c, c, [Run(c, Some(true))], [Run(c, Some(true))], None, [], [PruneMade(c, Run(c, Some(true)))])
  {
    var es := PruneAt(c);
    var s0 := Fresh(c);
    var s1 := Next(p, s0, es[0]);
    var s2 := Next(p, s1, es[1]);
    var s3 := Next(p, s2, es[2]);
    assert s3 == State(c, c, [Run(c, Some(true))], [], None, [], []);
    var s4 := Next(p, s3, es[3]);
    assert s4.flight == Some(Decided(Prune, c, Some(Run(c, Some(true)))));
    var s5 := Next(p, s4, es[4]);
    var s6 := Next(p, s5, es[5]);
    var s7 := Next(p, s6, es[6]);
    assert s7.prunes == [Run(c, Some(true))];
    Chain(p, [s0, s1, s2, s3, s4, s5, s6, s7], es);
  }

  /** A newer backup, and the first one's records trimmed. */
  lemma Refreshed(p: Policy, c: int, t: int)
    requires Sound(p) && t == c + p.window + 1
    ensures var s := State(c, c, [Run(c, Some(true))], [Run(c, Some(true))], None, [], [PruneMade(c, Run(c, Some(true)))]);
            && Legal(p, s, RefreshAt(t))
            && After(p, s, RefreshAt(t)) == State(t, t, [Run(t, Some(true))], [], None, [], [PruneMade(c, Run(c, Some(true)))])
  {
    var es := RefreshAt(t);
    var before, fresher := Run(c, Some(true)), Run(t, Some(true));
    var s0 := State(c, c, [before], [before], None, [], [PruneMade(c, before)]);
    var s1 := Next(p, s0, es[0]);
    var s2 := Next(p, s1, es[1]);
    assert s2.backups == [before, fresher];
    var s3 := Next(p, s2, es[2]);
    var s4 := Next(p, s3, es[3]);
    var s5 := Next(p, s4, es[4]);
    KeptOfTwo(before, fresher, t - p.window);
    var s6 := Next(p, s5, es[5]);
    Chain(p, [s0, s1, s2, s3, s4, s5, s6], es);
  }

  lemma PrunedAgain(p: Policy, c: int, t: int)
    requires Sound(p) && t == c + p.window + 1
    ensures var s := State(c, c, [Run(c, Some(true))], [Run(c, Some(true))], None, [], [PruneMade(c, Run(c, Some(true)))]);
            Legal(p, s, PruneAgainAt(t)) && |After(p, s, PruneAgainAt(t)).pruned| == 2
            && After(p, s, PruneAgainAt(t)).pruned[0].created == c && After(p, s, PruneAgainAt(t)).pruned[1].created == t
  {
    hide Legal, After, Sound;
    var before, fresher := Run(c, Some(true)), Run(t, Some(true));
    var s := State(c, c, [before], [before], None, [], [PruneMade(c, before)]);
    var s0 := State(t, t, [fresher], [], None, [], [PruneMade(c, before)]);
    Refreshed(p, c, t);
    var s1 := Next(p, s0, Evaluate(false, true));
    assert s1.flight == Some(Decided(Prune, t, Some(fresher))) by { NotDueNow(p, t); }
    var s2 := Next(p, s1, Record(t));
    var es := [Evaluate(false, true), Record(t)];
    Chain(p, [s0, s1, s2], es);
    Compose(p, s, RefreshAt(t), es);
  }

  /** A backup just made is not due again. */
  lemma NotDueNow(p: Policy, t: int)
    requires Sound(p)
    ensures !BackupDue(p.next, p.jitter, p.updated, Some(t), t)
  {
  }

  lemma KeptOfTwo(a: Run, b: Run, cutoff: int)
    requires a.ended.Some? && a.created < cutoff <= b.created
    ensures Kept([a, b], cutoff) == [b] && Kept([a], cutoff) == []
  {
    var one, two := [a], [a, b];
    assert one[..|one| - 1] == [] && two[..|two| - 1] == one;
    assert Kept(one, cutoff) == [];
  }

  /** Recorded prunes are the interval and its jitter apart over every history exactly when the job
      history is kept that long. */
  lemma PrunesApartIffHistoryCovers(p: Policy, clock: int)
    requires Sound(p)
    ensures (forall es :: Legal(p, Fresh(clock), es) ==> AllApart(p, After(p, Fresh(clock), es).pruned))
       <==> p.interval + p.pruneJitter <= p.window + 1
  {
    if p.interval + p.pruneJitter <= p.window + 1 {
      forall es | Legal(p, Fresh(clock), es) ensures AllApart(p, After(p, Fresh(clock), es).pruned) {
        PrunesAlways(p, Fresh(clock), es, clock);
      }
    } else {
      var t := clock + p.window + 1;
      Pruned(p, clock);
      PrunedAgain(p, clock, t);
      var es := PruneAt(clock) + PruneAgainAt(t);
      Compose(p, Fresh(clock), PruneAt(clock), PruneAgainAt(t));
      var made := After(p, Fresh(clock), es).pruned;
      assert !PrunesApart(p, made[0], made[0 + 1]);
    }
  }

  /** Prunes in an interval are bounded by its length. */
  lemma {:induction false} PrunesBounded(p: Policy, made: seq<PruneMade>, from: int, to: int)
    requires Sound(p) && AllApart(p, made) && made != []
    requires from <= made[0].created && made[|made| - 1].created <= to
    ensures (|made| - 1) * (p.interval + p.pruneJitter) <= to - from
    decreases |made|
  {
    var n := |made| - 1;
    if n > 0 {
      var init := made[..n];
      assert PrunesApart(p, made[n - 1], made[n - 1 + 1]);
      forall i | 0 <= i < |init| - 1 ensures PrunesApart(p, init[i], init[i + 1]) {
        assert PrunesApart(p, made[i], made[i + 1]);
      }
      PrunesBounded(p, init, from, made[n - 1].created);
      assert n * (p.interval + p.pruneJitter) == (n - 1) * (p.interval + p.pruneJitter) + (p.interval + p.pruneJitter);
    }
  }

  /** Over any history, the prunes of a stretch number at most its length over the interval, plus one. */
  lemma PrunesInInterval(p: Policy, clock: int, es: seq<Event>, i: nat, j: nat, from: int, to: int)
    requires Sound(p) && p.interval + p.pruneJitter <= p.window + 1 && Legal(p, Fresh(clock), es)
    requires i < j <= |After(p, Fresh(clock), es).pruned|
    requires forall k :: i <= k < j ==> from <= After(p, Fresh(clock), es).pruned[k].created <= to
    ensures (j - i - 1) * (p.interval + p.pruneJitter) <= to - from
  {
    PrunesAlways(p, Fresh(clock), es, clock);
    var all := After(p, Fresh(clock), es).pruned;
    var made := all[i..j];
    forall k | 0 <= k < |made| - 1 ensures PrunesApart(p, made[k], made[k + 1]) {
      assert PrunesApart(p, all[i + k], all[i + k + 1]);
    }
    PrunesBounded(p, made, from, to);
  }
}
