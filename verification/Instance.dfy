/** The single-instance guard (internal/instance/instance.go): a starting service watches every other
    instance's record until it expires, is withdrawn or is renewed. What the store shows of one record
    over time is a timeline; reads and clock checks happen at different instants on it. */
module Instance {
  import opened Wrappers

  /** What a read of one record shows. */
  datatype Answer = Live(expires: int) | Absent | Unreadable

  type Timeline = int -> Answer

  /** TookOver: the record expired unrenewed. Withdrawn: it disappeared. */
  datatype Verdict = TookOver | Withdrawn | AnotherInstance | Cancelled

  function Min(a: int, b: int): int { if a < b then a else b }

  function Max(a: int, b: int): int { if a < b then b else a }

  /** At this instant the record is readable and will stay unexpired for longer than it takes to get
      from a read to the clock check after it. */
  predicate HasMargin(record: Timeline, t: int, latency: nat) {
    record(t).Live? && record(t).expires > t + latency
  }

  /** One look at a record: the instant it is read and the instant of the clock check after it. */
  datatype Look = Look(read: int, check: int)

  /** The wait between two looks: a watch interval, or until the expiry; a timer may be late by `slack`. */
  predicate Waited(a: Look, b: Look, seen: int, watch: int, slack: nat) {
    a.check < seen && 0 <= b.read - a.check - Min(watch, seen - a.check) <= slack
  }

  /** Looks that found the same live record, each waited for as the watch says. A read is followed by its
      clock check within `latency`. */
  ghost predicate Watching(record: Timeline, looks: seq<Look>, seen: int, watch: int, slack: nat, latency: nat) {
    && (forall i :: 0 <= i < |looks| ==> record(looks[i].read) == Live(seen))
    && (forall i :: 0 <= i < |looks| ==> looks[i].read <= looks[i].check <= looks[i].read + latency)
    && (forall i :: 0 <= i < |looks| - 1 ==> Waited(looks[i], looks[i + 1], seen, watch, slack))
  }

  /** Looks that lead a challenger past the record: it is found expired, or it has been withdrawn. */
  ghost predicate Passes(record: Timeline, looks: seq<Look>, watch: int, slack: nat, latency: nat) {
    looks != [] && record(looks[0].read).Live?
    && var seen, n := record(looks[0].read).expires, |looks| - 1;
       if record(looks[n].read) == Absent
       then n > 0 && Watching(record, looks[..n], seen, watch, slack, latency)
            && Waited(looks[n - 1], looks[n], seen, watch, slack)
       else Watching(record, looks, seen, watch, slack, latency) && seen <= looks[n].check
  }

  /** From w on the record is no longer what was seen of it: renewed, withdrawn or unreadable. */
  ghost predicate ChangedFrom(record: Timeline, seen: int, w: int) { forall t :: t >= w ==> record(t) != Live(seen) }

  /** awaitExpiry, from a read at `read` that showed `seen`; `steady` promises that it is not cancelled. */
  method AwaitExpiry(record: Timeline, seen: int, read: int, watch: int, slack: nat, latency: nat, steady: bool)
    returns (v: Verdict, end: int, ghost looks: seq<Look>)
    requires watch > 0 && record(read) == Live(seen)
    ensures looks != [] && looks[0].read == read <= looks[|looks| - 1].read <= end
    ensures v == TookOver || v == Withdrawn ==> Passes(record, looks, watch, slack, latency)
    ensures v == TookOver ==> seen <= end == looks[|looks| - 1].check
    ensures v == Withdrawn ==> record(end) == Absent && end == looks[|looks| - 1].read
    ensures v == AnotherInstance ==> record(end) == Unreadable || (record(end).Live? && record(end).expires != seen)
    ensures read < seen ==> end <= seen + slack + latency
    ensures forall w :: w > read && ChangedFrom(record, seen, w) ==> end <= w + latency + watch + slack
    ensures (forall t :: t >= read ==> record(t) == Live(seen)) ==> v == TookOver || v == Cancelled
    ensures steady ==> v != Cancelled
  {
    hide Watching;
    var now :| read <= now <= read + latency;
    end, looks := now, [Look(read, now)];
    FirstLook(record, looks[0], seen, watch, slack, latency);
    while true
      invariant looks != [] && looks[0].read == read <= looks[|looks| - 1].read <= now
      invariant end == now == looks[|looks| - 1].check
      invariant Watching(record, looks, seen, watch, slack, latency)
      invariant record(looks[0].read) == record(looks[|looks| - 1].read) == Live(seen)
      invariant read < seen ==> now <= seen + slack + latency
      invariant now <= looks[|looks| - 1].read + latency
      decreases seen - now
    {
      var remaining := seen - now;
      if remaining <= 0 {
        return TookOver, now, looks;
      }
      var cancelled := *;
      if cancelled && !steady {
        return Cancelled, now, looks;
      }
      var wait := Min(watch, remaining);
      var at :| now + wait <= at <= now + wait + slack;
      match record(at) {
        case Absent =>
          assert (looks + [Look(at, at)])[..|looks|] == looks;
          return Withdrawn, at, looks + [Look(at, at)];
        case Unreadable => return AnotherInstance, at, looks;
        case Live(expires) =>
          if expires != seen {
            return AnotherInstance, at, looks;
          }
      }
      var check :| at <= check <= at + latency;
      OneMoreLook(record, looks, Look(at, check), seen, watch, slack, latency);
      now, end, looks := check, check, looks + [Look(at, check)];
    }
  }

  lemma FirstLook(record: Timeline, look: Look, seen: int, watch: int, slack: nat, latency: nat)
    requires record(look.read) == Live(seen) && look.read <= look.check <= look.read + latency
    ensures Watching(record, [look], seen, watch, slack, latency)
  {
  }

  lemma OneMoreLook(record: Timeline, looks: seq<Look>, look: Look, seen: int, watch: int, slack: nat, latency: nat)
    requires looks != [] && Watching(record, looks, seen, watch, slack, latency)
    requires record(look.read) == Live(seen) && look.read <= look.check <= look.read + latency
    requires Waited(looks[|looks| - 1], look, seen, watch, slack)
    ensures Watching(record, looks + [look], seen, watch, slack, latency)
  {
  }

  /** Whoever gets past a record has read it, at some look, without its margin. */
  lemma PassedWithoutMargin(record: Timeline, looks: seq<Look>, watch: int, slack: nat, latency: nat)
    requires Passes(record, looks, watch, slack, latency)
    ensures !HasMargin(record, looks[|looks| - 1].read, latency)
  {
  }

  lemma {:induction false} LaterLooks(record: Timeline, looks: seq<Look>, seen: int, watch: int, slack: nat,
                                      latency: nat)
    requires watch > 0 && looks != [] && Watching(record, looks, seen, watch, slack, latency)
    ensures looks[|looks| - 1].check >= looks[|looks| - 1].read >= looks[0].read
    decreases |looks|
  {
    if |looks| > 1 {
      var n := |looks| - 1;
      assert Waited(looks[n - 1], looks[n - 1 + 1], seen, watch, slack);
      LaterLooks(record, looks[..n], seen, watch, slack, latency);
    }
  }

  lemma LastLookIsLater(record: Timeline, looks: seq<Look>, watch: int, slack: nat, latency: nat)
    requires watch > 0 && Passes(record, looks, watch, slack, latency)
    ensures looks[|looks| - 1].read >= looks[0].read
  {
    hide Watching;
    var n := |looks| - 1;
    LaterLooks(record, if record(looks[n].read) == Absent then looks[..n] else looks, record(looks[0].read).expires,
               watch, slack, latency);
  }

  /** Some challenger that first reads the record at `from` or later gets past it. */
  ghost predicate Passable(record: Timeline, from: int, watch: int, slack: nat, latency: nat) {
    exists looks: seq<Look> :: looks != [] && looks[0].read >= from && Passes(record, looks, watch, slack, latency)
  }

  /** While it can be read, a record protects its instance from every challenger, however its timers and
      reads fall, exactly when it keeps its margin throughout. */
  lemma NobodyPassesIff(record: Timeline, from: int, watch: int, slack: nat, latency: nat)
    requires watch > 0 && forall t :: t >= from ==> record(t).Live?
    ensures !Passable(record, from, watch, slack, latency) <==> forall t :: t >= from ==> HasMargin(record, t, latency)
  {
    hide Passes;
    forall looks: seq<Look> | looks != [] && looks[0].read >= from && Passes(record, looks, watch, slack, latency)
      ensures looks[|looks| - 1].read >= from && !HasMargin(record, looks[|looks| - 1].read, latency)
    {
      PassedWithoutMargin(record, looks, watch, slack, latency);
      LastLookIsLater(record, looks, watch, slack, latency);
    }
    forall t | t >= from && !HasMargin(record, t, latency) ensures Passable(record, from, watch, slack, latency) {
      LeftOpen(record, t, watch, slack, latency);
    }
  }

  lemma LeftOpen(record: Timeline, t: int, watch: int, slack: nat, latency: nat)
    requires record(t).Live? && !HasMargin(record, t, latency)
    ensures Passable(record, t, watch, slack, latency)
  {
    var looks := [Look(t, if record(t).expires < t then t else record(t).expires)];
    assert Passes(record, looks, watch, slack, latency);
  }

  // ---- a renewing incumbent ----

  /** One write of the incumbent: the instant it was stamped with and the instant it landed. */
  datatype Renewal = Renewal(stamp: int, landed: int)

  /** Each write lands, stamped before it lands, and the next lands early enough that the one before it
      is still unexpired a latency later. */
  predicate RenewsInTime(writes: seq<Renewal>, ttl: int, latency: nat) {
    && (forall i :: 0 <= i < |writes| ==> writes[i].stamp <= writes[i].landed)
    && (forall i :: 0 <= i < |writes| - 1 ==> writes[i].landed <= writes[i + 1].landed
                                              && writes[i + 1].landed + latency < writes[i].stamp + ttl)
  }

  /** The record as the last write landed by t left it. */
  function Visible(writes: seq<Renewal>, ttl: int, t: int): Answer {
    if writes == [] then Absent
    else if writes[|writes| - 1].landed <= t then Live(writes[|writes| - 1].stamp + ttl)
    else Visible(writes[..|writes| - 1], ttl, t)
  }

  /** An incumbent that renews in time keeps its margin at every instant from its first write until its
      last write stops protecting it. */
  lemma {:induction false} RenewingKeepsMargin(writes: seq<Renewal>, ttl: int, latency: nat, t: int)
    requires writes != [] && RenewsInTime(writes, ttl, latency) && writes[0].landed <= t
    requires t + latency < writes[|writes| - 1].stamp + ttl
    ensures Visible(writes, ttl, t).Live? && Visible(writes, ttl, t).expires > t + latency
  {
    var n := |writes| - 1;
    if t < writes[n].landed {
      var init := writes[..n];
      assert n > 0;
      assert init[|init| - 1] == writes[n - 1];
      assert writes[n - 1 + 1].landed + latency < writes[n - 1].stamp + ttl;
      RenewingKeepsMargin(init, ttl, latency, t);
    }
  }

  /** Renewing every third of the TTL, with each write taking at most d to land, is in time whenever a
      third of the TTL, two landing delays and the latency of a read fit into the TTL. */
  lemma ThirdsAreInTime(writes: seq<Renewal>, ttl: int, d: nat, latency: nat)
    requires forall i :: 0 <= i < |writes| ==> writes[i].stamp <= writes[i].landed <= writes[i].stamp + d
    requires forall i :: 0 <= i < |writes| - 1 ==> writes[i].landed <= writes[i + 1].stamp <= writes[i].landed + ttl / 3
    requires ttl / 3 + 2 * d + latency < ttl
    ensures RenewsInTime(writes, ttl, latency)
  {
  }

  /** Renewing before the record expires is not enough: an instance whose every write lands while the
      last one is unexpired can be passed by a challenger that reads just before a renewal and checks
      the clock just after it. */
  lemma RenewalIsOverlooked(ttl: nat, watch: int, slack: nat, latency: nat)
    requires 2 <= latency <= ttl && watch > 0
    ensures var writes := [Renewal(0, 0), Renewal(ttl - 1, ttl - 1)];
            && RenewsInTime(writes, ttl, 0)
            && Visible(writes, ttl, ttl - 2) == Live(ttl) && Visible(writes, ttl, ttl) == Live(2 * ttl - 1)
            && Passes(t => Visible(writes, ttl, t), [Look(ttl - 2, ttl)], watch, slack, latency)
  {
    var writes := [Renewal(0, 0), Renewal(ttl - 1, ttl - 1)];
    assert writes[..1] == [Renewal(0, 0)];
    assert Visible(writes[..1], ttl, ttl - 2) == Live(ttl);
  }

  // ---- checkAlone and Claim ----

  datatype Claimed = Alone | Refused | GaveUp | StoreFailed

  /** At some instant between two the record was without its margin. */
  ghost predicate LostMargin(record: Timeline, start: int, end: int, latency: nat) {
    exists t :: start <= t <= end && !HasMargin(record, t, latency)
  }

  lemma LostWithin(record: Timeline, start: int, end: int, sooner: int, later: int, latency: nat)
    requires LostMargin(record, start, end, latency) && sooner <= start && end <= later
    ensures LostMargin(record, sooner, later, latency)
  {
  }

  /** The cleared records had lost their margin. */
  ghost predicate OnlyStale(records: map<string, Timeline>, cleared: set<string>, start: int, end: int, latency: nat) {
    forall k :: k in cleared ==> k in records && LostMargin(records[k], start, end, latency)
  }

  lemma StillStale(records: map<string, Timeline>, cleared: set<string>, start: int, end: int, later: int, latency: nat)
    requires OnlyStale(records, cleared, start, end, latency) && end <= later
    ensures OnlyStale(records, cleared, start, later, latency)
  {
    hide LostMargin;
    forall k | k in cleared ensures LostMargin(records[k], start, later, latency) {
      LostWithin(records[k], start, end, start, later, latency);
    }
  }

  /** Some challenger that first reads the record at `start` or later has got past it by `end`. */
  ghost predicate PassedBetween(record: Timeline, start: int, end: int, watch: int, slack: nat, latency: nat) {
    exists looks: seq<Look> :: looks != [] && start <= looks[0].read && looks[|looks| - 1].read <= end
                               && Passes(record, looks, watch, slack, latency)
  }

  /** Each of these records was found expired or withdrawn, at the end of a watch. */
  ghost predicate OnlyPassed(records: map<string, Timeline>, cleared: set<string>, start: int, end: int, watch: int,
                             slack: nat, latency: nat) {
    forall k :: k in cleared ==> k in records && PassedBetween(records[k], start, end, watch, slack, latency)
  }

  lemma OneMorePassed(records: map<string, Timeline>, cleared: set<string>, key: string, start: int, before: int,
                      at: int, end: int, watch: int, slack: nat, latency: nat)
    requires OnlyPassed(records, cleared, start, before, watch, slack, latency) && start <= at && before <= end
    ensures OnlyPassed(records, cleared, start, end, watch, slack, latency)
    ensures key in records && PassedBetween(records[key], at, end, watch, slack, latency)
            ==> OnlyPassed(records, cleared + {key}, start, end, watch, slack, latency)
  {
    hide Passes;
    forall k | k in cleared ensures PassedBetween(records[k], start, end, watch, slack, latency) {
      var looks: seq<Look> :| looks != [] && start <= looks[0].read && looks[|looks| - 1].read <= before
                              && Passes(records[k], looks, watch, slack, latency);
    }
    if key in records && PassedBetween(records[key], at, end, watch, slack, latency) {
      var looks: seq<Look> :| looks != [] && at <= looks[0].read && looks[|looks| - 1].read <= end
                              && Passes(records[key], looks, watch, slack, latency);
    }
  }

  /** Every one of these records was readable as live at some instant. */
  ghost predicate SeenLive(record: Timeline, start: int, end: int) {
    exists t :: start <= t <= end && record(t).Live?
  }

  ghost predicate AllSeen(records: map<string, Timeline>, keys: seq<string>, start: int, end: int) {
    forall k :: k in keys ==> k in records && SeenLive(records[k], start, end)
  }

  lemma OneMoreSeen(records: map<string, Timeline>, keys: seq<string>, key: string, start: int, before: int, at: int, end: int)
    requires AllSeen(records, keys, start, before) && start <= at <= end && before <= end
    requires key in records && records[key](at).Live?
    ensures AllSeen(records, keys + [key], start, end)
  {
    forall k | k in keys + [key] ensures k in records && SeenLive(records[k], start, end) {
      if k in keys {
        var t :| start <= t <= before && records[k](t).Live?;
      }
    }
  }

  /** Why a record refuses: its first read, at t, did not show it live; or, if it is another's, a later read
      could not be understood or showed it renewed. */
  predicate Refuses(own: bool, record: Timeline, t: int, u: int) {
    !record(t).Live?
    || (!own && (record(u) == Unreadable || (record(u).Live? && record(u).expires != record(t).expires)))
  }

  ghost predicate Objects(own: bool, record: Timeline, start: int, end: int) {
    exists t, u :: start <= t <= u <= end && Refuses(own, record, t, u)
  }

  ghost predicate SomeObjects(id: string, listed: seq<string>, records: map<string, Timeline>, start: int, end: int) {
    exists k :: k in listed && k in records && Objects(k == id, records[k], start, end)
  }

  lemma ObjectsWithin(id: string, listed: seq<string>, records: map<string, Timeline>, k: string, start: int, at: int,
                      u: int, end: int)
    requires k in listed && k in records && start <= at <= u <= end && Refuses(k == id, records[k], at, u)
    ensures SomeObjects(id, listed, records, start, end)
  {
    assert Objects(k == id, records[k], start, end);
  }

  // ---- getting through ----

  /** A dead instance's record: readable, no longer written, expired by `last`. */
  ghost predicate Dead(record: Timeline, start: int, last: int) {
    forall t :: t >= start ==> record(t).Live? && record(t) == record(start) && record(t).expires <= last
  }

  /** Nobody else is there: every other listed record is a dead instance's, and one's own is readable. */
  ghost predicate AllDead(id: string, listed: seq<string>, records: map<string, Timeline>, start: int, last: int) {
    forall k :: k in listed ==> k in records && if k == id then IsReadable(records[k], start) else Dead(records[k], start, last)
  }

  ghost predicate IsReadable(record: Timeline, start: int) { forall t :: t >= start ==> record(t).Live? }

  /** A record nobody writes any more, live until it expires or, from some instant after `due`, withdrawn by
      an instance that stands down. */
  ghost predicate Quiet(record: Timeline, start: int, due: int) {
    record(start).Live? && forall t :: t >= start ==> record(t) == record(start) || (t > due && record(t) == Absent)
  }

  ghost predicate ReadableTo(record: Timeline, start: int, due: int) { forall t :: start <= t <= due ==> record(t).Live? }

  /** When the check of the record in place i begins at the latest: each one before it takes until it
      expires, with a timer's slack, and two delays. */
  ghost function BeginsBy(id: string, listed: seq<string>, records: map<string, Timeline>, start: int, slack: nat,
                          latency: nat, i: nat): int
    requires i <= |listed| && forall k :: k in listed ==> k in records
  {
    if i == 0 then start
    else
      var due, record := BeginsBy(id, listed, records, start, slack, latency, i - 1), records[listed[i - 1]];
      if listed[i - 1] == id || !record(start).Live? then due + 2 * latency
      else Max(due, record(start).expires + slack) + 2 * latency
  }

  /** Nobody else stays: every other listed record is quiet, and is withdrawn only after its first read; and
      one's own can be read. */
  ghost predicate AllQuiet(id: string, listed: seq<string>, records: map<string, Timeline>, start: int, slack: nat,
                           latency: nat)
    requires forall k :: k in listed ==> k in records
  {
    forall i :: 0 <= i < |listed| ==>
                  var due := BeginsBy(id, listed, records, start, slack, latency, i) + latency;
                  if listed[i] == id then ReadableTo(records[listed[i]], start, due) else Quiet(records[listed[i]], start, due)
  }

  /** When a check of n dead records is over at the latest: two delays a record after the later of its start
      and the last expiry, with a timer's slack. */
  function DoneBy(start: int, last: int, slack: nat, latency: nat, n: nat): int { Max(start, last + slack) + 2 * n * latency }

  /** Dead instances' records are quiet ones. */
  lemma {:induction false} DeadBeginsBy(id: string, listed: seq<string>, records: map<string, Timeline>, start: int,
                                        last: int, slack: nat, latency: nat, i: nat)
    requires AllDead(id, listed, records, start, last) && i <= |listed|
    ensures BeginsBy(id, listed, records, start, slack, latency, i) <= DoneBy(start, last, slack, latency, i)
  {
    if i > 0 {
      DeadBeginsBy(id, listed, records, start, last, slack, latency, i - 1);
      assert 2 * i * latency == 2 * (i - 1) * latency + 2 * latency;
      assert listed[i - 1] in listed;
      assert listed[i - 1] != id ==> Dead(records[listed[i - 1]], start, last);
      assert 0 <= 2 * (i - 1) * latency;
    }
  }

  lemma DeadIsQuiet(id: string, listed: seq<string>, records: map<string, Timeline>, start: int, last: int, slack: nat,
                    latency: nat)
    requires AllDead(id, listed, records, start, last)
    ensures AllQuiet(id, listed, records, start, slack, latency)
  {
    forall i | 0 <= i < |listed|
      ensures var due := BeginsBy(id, listed, records, start, slack, latency, i) + latency;
              if listed[i] == id then ReadableTo(records[listed[i]], start, due) else Quiet(records[listed[i]], start, due)
    {
      var k := listed[i];
      assert k in listed;
      assert if k == id then IsReadable(records[k], start) else Dead(records[k], start, last);
    }
  }

  /** What a quiet world shows at a first read in place i. */
  lemma QuietRead(id: string, listed: seq<string>, records: map<string, Timeline>, start: int, slack: nat, latency: nat,
                  i: nat, at: int)
    requires i < |listed| && forall k :: k in listed ==> k in records
    requires AllQuiet(id, listed, records, start, slack, latency)
    requires start <= at <= BeginsBy(id, listed, records, start, slack, latency, i) + latency
    ensures records[listed[i]](at).Live? && (listed[i] != id ==> records[listed[i]](at) == records[listed[i]](start)
                                                                 && StaysQuiet(records[listed[i]], at))
  {
  }

  /** From a read on, the record shows the same or nothing. */
  ghost predicate StaysQuiet(record: Timeline, at: int) {
    forall t :: t >= at ==> record(t) == record(at) || record(t) == Absent
  }

  /** checkAlone over the records a listing showed, in order: others that renew refuse, others that do
      not are waited out and cleared. It clears no record but one it watched until it expired or was
      withdrawn, and passes only when it has cleared every other and could read every one; it refuses only
      for a record that could not be read or was renewed. With nobody else there it does pass, and in time:
      `steady` promises that nothing fails or is cancelled and that no read starts late. */
  method CheckAlone(id: string, listed: seq<string>, records: map<string, Timeline>, start: int, ttl: int,
                    slack: nat, latency: nat, steady: bool, ghost last: int)
    returns (r: Claimed, end: int, cleared: set<string>)
    requires ttl >= 12 && forall k :: k in listed ==> k in records
    ensures start <= end
    ensures OnlyStale(records, cleared, start, end, latency)
    ensures OnlyPassed(records, cleared, start, end, ttl / 12, slack, latency)
    ensures cleared <= (set k | k in listed && k != id)
    ensures r == Alone ==> cleared == (set k | k in listed && k != id) && AllSeen(records, listed, start, end)
    ensures r == Refused ==> SomeObjects(id, listed, records, start, end)
    ensures steady ==> r == Alone || r == Refused
    ensures steady && AllQuiet(id, listed, records, start, slack, latency)
            ==> r == Alone && end <= BeginsBy(id, listed, records, start, slack, latency, |listed|)
    ensures steady && AllDead(id, listed, records, start, last)
            ==> r == Alone && end <= DoneBy(start, last, slack, latency, |listed|)
  {
    hide HasMargin, LostMargin, OnlyStale, OnlyPassed, AllSeen, AllDead, DoneBy, AllQuiet, BeginsBy, SomeObjects,
         PassedBetween, StaysQuiet, Refuses;
    if AllDead(id, listed, records, start, last) {
      DeadIsQuiet(id, listed, records, start, last, slack, latency);
      DeadBeginsBy(id, listed, records, start, last, slack, latency, |listed|);
    }
    end, cleared := start, {};
    NothingYet(id, listed, records, start, ttl / 12, slack, latency);
    var broken := *;
    if broken && !steady {
      return StoreFailed, end, cleared;
    }
    for i := 0 to |listed|
      invariant steady && AllQuiet(id, listed, records, start, slack, latency)
                ==> end <= BeginsBy(id, listed, records, start, slack, latency, i)
      invariant start <= end && OnlyStale(records, cleared, start, end, latency)
      invariant OnlyPassed(records, cleared, start, end, ttl / 12, slack, latency)
      invariant AllSeen(records, listed[..i], start, end)
      invariant cleared == (set k | k in listed[..i] && k != id)
    {
      var key := listed[i];
      ghost var before := end;
      var at :| at >= end && (steady ==> at <= end + latency);
      if steady && AllQuiet(id, listed, records, start, slack, latency) {
        QuietRead(id, listed, records, start, slack, latency, i, at);
      }
      ghost var u;
      r, end, u := CheckOne(id, key, records[key], at, ttl, slack, latency, steady);
      if steady && AllQuiet(id, listed, records, start, slack, latency) {
        QuietStep(id, listed, records, start, slack, latency, i, before, at, end);
      }
      StillStale(records, cleared, start, before, end, latency);
      OneMorePassed(records, cleared, key, start, before, at, end, ttl / 12, slack, latency);
      assert listed[..i + 1] == listed[..i] + [key];
      if r != Alone {
        if r == Refused {
          ObjectsWithin(id, listed, records, key, start, at, u, end);
        }
        return;
      }
      OneMoreSeen(records, listed[..i], key, start, before, at, end);
      if key != id {
        OneMoreCleared(records, cleared, key, start, at, end, latency);
        cleared := cleared + {key};
      }
    }
    assert listed[..|listed|] == listed;
    r := Alone;
  }

  lemma NothingYet(id: string, listed: seq<string>, records: map<string, Timeline>, start: int, watch: int, slack: nat,
                   latency: nat)
    requires forall k :: k in listed ==> k in records
    ensures OnlyStale(records, {}, start, start, latency) && OnlyPassed(records, {}, start, start, watch, slack, latency)
    ensures AllSeen(records, listed[..0], start, start) && BeginsBy(id, listed, records, start, slack, latency, 0) == start
  {
  }

  /** One more check is over in time for the next one. */
  lemma QuietStep(id: string, listed: seq<string>, records: map<string, Timeline>, start: int, slack: nat, latency: nat,
                  i: nat, before: int, at: int, end: int)
    requires i < |listed| && forall k :: k in listed ==> k in records
    requires before <= BeginsBy(id, listed, records, start, slack, latency, i) && at <= before + latency
    requires listed[i] == id ==> end == at
    requires listed[i] != id ==> records[listed[i]](at) == records[listed[i]](start) && records[listed[i]](at).Live?
                                 && end <= Max(at, records[listed[i]](at).expires + slack) + latency
    ensures end <= BeginsBy(id, listed, records, start, slack, latency, i + 1)
  {
  }

  lemma OneMoreCleared(records: map<string, Timeline>, cleared: set<string>, key: string, start: int, before: int,
                       end: int, latency: nat)
    requires OnlyStale(records, cleared, start, end, latency) && key in records && start <= before <= end
    requires LostMargin(records[key], before, end, latency)
    ensures OnlyStale(records, cleared + {key}, start, end, latency)
  {
    LostWithin(records[key], before, end, start, end, latency);
  }

  /** One listed record, first read at `at`: unreadable refuses, one's own is passed over, a live one is
      watched until it is passed or refuses at u. */
  method CheckOne(id: string, key: string, record: Timeline, at: int, ttl: int, slack: nat, latency: nat, steady: bool)
    returns (r: Claimed, end: int, ghost u: int)
    requires ttl >= 12
    ensures at <= end && r != StoreFailed && (steady ==> r != GaveUp)
    ensures !record(at).Live? ==> r == Refused && end == at
    ensures record(at).Live? && key == id ==> r == Alone && end == at
    ensures r == Alone && key != id ==>
              PassedBetween(record, at, end, ttl / 12, slack, latency) && LostMargin(record, at, end, latency)
    ensures r == Refused ==> at <= u <= end && Refuses(key == id, record, at, u)
    ensures record(at).Live? && key != id ==> end <= Max(at, record(at).expires + slack) + latency
    ensures record(at).Live? && StaysQuiet(record, at) ==> r != Refused
    ensures record(at).Live? ==>
              forall w :: w > at && ChangedFrom(record, record(at).expires, w) ==> end <= w + latency + ttl / 12 + slack
  {
    hide HasMargin, Passes;
    end, u := at, at;
    if !record(at).Live? {
      return Refused, end, u;
    }
    if key == id {
      return Alone, end, u;
    }
    var seen := record(at).expires;
    var now :| at <= now <= at + latency;
    end := now;
    if now < seen {
      var v, done, looks := AwaitExpiry(record, seen, at, ttl / 12, slack, latency, steady);
      end, u := if now < done then done else now, done;
      if v == AnotherInstance {
        return Refused, end, u;
      }
      if v == Cancelled {
        return GaveUp, end, u;
      }
      PassedWithoutMargin(record, looks, ttl / 12, slack, latency);
    } else {
      ExpiredIsPassed(record, at, now, ttl / 12, slack, latency);
    }
    r := Alone;
  }

  lemma ExpiredIsPassed(record: Timeline, at: int, now: int, watch: int, slack: nat, latency: nat)
    requires record(at).Live? && record(at).expires <= now <= at + latency && at <= now
    ensures !HasMargin(record, at, latency) && PassedBetween(record, at, now, watch, slack, latency)
  {
    var looks := [Look(at, now)];
    assert Passes(record, looks, watch, slack, latency);
  }

  /** What the store shows of an instance that renews. */
  ghost predicate Shows(record: Timeline, writes: seq<Renewal>, ttl: int) {
    forall t :: record(t) == Visible(writes, ttl, t)
  }

  /** An instance that was there by `start` and renews in time. */
  ghost predicate Renewing(record: Timeline, writes: seq<Renewal>, ttl: int, start: int, latency: nat) {
    writes != [] && Shows(record, writes, ttl) && RenewsInTime(writes, ttl, latency) && writes[0].landed <= start
  }

  /** A renewing incumbent has lost its margin only once its last write protects it no more. */
  lemma RenewingIsNotPassed(record: Timeline, writes: seq<Renewal>, ttl: int, start: int, end: int, latency: nat)
    requires Renewing(record, writes, ttl, start, latency) && LostMargin(record, start, end, latency)
    ensures end + latency >= writes[|writes| - 1].stamp + ttl
  {
    var t :| start <= t <= end && !HasMargin(record, t, latency);
    if t + latency < writes[|writes| - 1].stamp + ttl {
      RenewingKeepsMargin(writes, ttl, latency, t);
    }
  }

  /** Claim: announces this instance only after the check, with a record valid from then. A challenger
      never gets through before the last write of a listed incumbent that renews in time has stopped
      protecting it, and refuses only for a record that could not be read or was renewed; and with nobody
      else there, or with every other instance standing down while it is watched, it does get through, once
      the last record left behind has expired. */
  method Claim(id: string, listed: seq<string>, records: map<string, Timeline>, start: int, ttl: int, slack: nat,
               latency: nat, steady: bool, ghost last: int)
    returns (r: Claimed, end: int, cleared: set<string>, written: Option<Answer>)
    requires ttl >= 12 && forall k :: k in listed ==> k in records
    ensures start <= end
    ensures OnlyStale(records, cleared, start, end, latency) && cleared <= (set k | k in listed && k != id)
    ensures OnlyPassed(records, cleared, start, end, ttl / 12, slack, latency)
    ensures r == Alone ==> cleared == (set k | k in listed && k != id) && written == Some(Live(end + ttl))
                           && AllSeen(records, listed, start, end)
    ensures r == Refused ==> SomeObjects(id, listed, records, start, end)
    ensures r == Refused || r == GaveUp ==> written.None?
    ensures steady ==> r == Alone || r == Refused
    ensures steady && AllQuiet(id, listed, records, start, slack, latency)
            ==> r == Alone && end <= BeginsBy(id, listed, records, start, slack, latency, |listed|) + latency
    ensures forall k, writes: seq<Renewal> ::
              r == Alone && k in listed && k != id && writes != [] && Renewing(records[k], writes, ttl, start, latency)
              ==> end + latency >= writes[|writes| - 1].stamp + ttl
    ensures steady && AllDead(id, listed, records, start, last)
            ==> r == Alone && end <= DoneBy(start, last, slack, latency, |listed|) + latency
  {
    hide LostMargin, Renewing, AllDead, DoneBy, AllQuiet, BeginsBy, SomeObjects, OnlyPassed, AllSeen, OnlyStale;
    r, end, cleared := CheckAlone(id, listed, records, start, ttl, slack, latency, steady, last);
    written := None;
    if r == Alone {
      ghost var checked := end;
      var now :| now >= end && (steady ==> now <= end + latency);
      end := now;
      StillStale(records, cleared, start, checked, end, latency);
      StillPassed(records, cleared, listed, start, checked, end, ttl / 12, slack, latency);
      var failed, landed := *, *;
      failed := failed && !steady;
      if !failed || landed {
        written := Some(Live(now + ttl));
      }
      if failed {
        r := StoreFailed;
      }
    }
    forall k, writes: seq<Renewal> |
      r == Alone && k in listed && k != id && writes != [] && Renewing(records[k], writes, ttl, start, latency)
      ensures end + latency >= writes[|writes| - 1].stamp + ttl
    {
      StaleOnes(records, cleared, start, end, latency);
      RenewingIsNotPassed(records[k], writes, ttl, start, end, latency);
    }
  }

  lemma StillPassed(records: map<string, Timeline>, cleared: set<string>, listed: seq<string>, start: int, end: int,
                    later: int, watch: int, slack: nat, latency: nat)
    requires OnlyPassed(records, cleared, start, end, watch, slack, latency) && AllSeen(records, listed, start, end)
    requires start <= end <= later
    ensures OnlyPassed(records, cleared, start, later, watch, slack, latency) && AllSeen(records, listed, start, later)
  {
    hide Passes;
    OneMorePassed(records, cleared, "", start, end, start, later, watch, slack, latency);
    forall k | k in listed ensures SeenLive(records[k], start, later) {
      var t :| start <= t <= end && records[k](t).Live?;
    }
  }

  lemma StaleOnes(records: map<string, Timeline>, cleared: set<string>, start: int, end: int, latency: nat)
    requires OnlyStale(records, cleared, start, end, latency)
    ensures forall k :: k in cleared ==> k in records && LostMargin(records[k], start, end, latency)
  {
  }

  /** So an incumbent that renews every third of the TTL, with landing delays that fit, is passed by nobody
      before its last write runs out: no challenger gets past it with a read before then. */
  lemma ThirdsAreNotPassed(record: Timeline, writes: seq<Renewal>, ttl: int, d: nat, slack: nat, latency: nat,
                           looks: seq<Look>)
    requires ttl >= 12 && writes != [] && Shows(record, writes, ttl)
    requires forall i :: 0 <= i < |writes| ==> writes[i].stamp <= writes[i].landed <= writes[i].stamp + d
    requires forall i :: 0 <= i < |writes| - 1 ==> writes[i].landed <= writes[i + 1].stamp <= writes[i].landed + ttl / 3
    requires ttl / 3 + 2 * d + latency < ttl
    requires looks != [] && Passes(record, looks, ttl / 12, slack, latency) && writes[0].landed <= looks[0].read
    ensures looks[|looks| - 1].read + latency >= writes[|writes| - 1].stamp + ttl
  {
    hide Passes, Shows, RenewsInTime;
    ThirdsAreInTime(writes, ttl, d, latency);
    PassedWithoutMargin(record, looks, ttl / 12, slack, latency);
    LastLookIsLater(record, looks, ttl / 12, slack, latency);
    var last := looks[|looks| - 1].read;
    assert LostMargin(record, looks[0].read, last, latency);
    RenewingIsNotPassed(record, writes, ttl, looks[0].read, last, latency);
  }
}
