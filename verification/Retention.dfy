/** Time-based retention (internal/snapshot/engine.go, internal/backup/prune.go,
    internal/spacecfg/spacecfg.go): which manifests a prune deletes, and what whole histories of
    backups, checkpoints, killed runs and prunes can never do to a Space's snapshots. */
module Retention {
  import opened Wrappers
  import opened Ordered

  const HOUR: int := 3_600_000_000_000
  const DEFAULT_WINDOW: int := 90 * 24 * HOUR
  const MIN_WINDOW: int := 7 * 24 * HOUR

  /** EffectiveRetentionWindow of a stored window, in nanoseconds. */
  function EffectiveWindow(stored: int): int {
    if stored <= 0 then DEFAULT_WINDOW else if stored < MIN_WINDOW then MIN_WINDOW else stored
  }

  /** No stored window makes a prune keep less than seven days, a window at or above that is honoured as it
      is and nothing else is, and one that is not set means ninety days. */
  lemma WindowHasFloor(stored: int)
    ensures EffectiveWindow(stored) >= 7 * 24 * HOUR
    ensures EffectiveWindow(stored) == stored <==> stored >= 7 * 24 * HOUR
    ensures stored <= 0 ==> EffectiveWindow(stored) == 90 * 24 * HOUR
    ensures forall other :: 0 < stored <= other ==> EffectiveWindow(stored) <= EffectiveWindow(other)
  {
  }

  /** A snapshot manifest; an incomplete one is a checkpoint or a cancelled run. */
  datatype Manifest = Manifest(id: nat, start: int, complete: bool)

  ghost predicate DistinctIDs(mans: set<Manifest>) {
    forall m, n :: m in mans && n in mans && m.id == n.id ==> m == n
  }

  function Complete(mans: set<Manifest>): set<Manifest> { set m | m in mans && m.complete }

  function Incomplete(mans: set<Manifest>): set<Manifest> { set m | m in mans && !m.complete }

  /** A newest snapshot that can be restored. */
  predicate IsNewest(mans: set<Manifest>, keep: Manifest) {
    keep in Complete(mans) && forall m :: m in Complete(mans) ==> m.start <= keep.start
  }

  /** What a prune that protects `keep` deletes. */
  function Expired(mans: set<Manifest>, keep: Option<Manifest>, cutoff: int): set<Manifest> {
    set m | m in mans && (!m.complete || (Some(m) != keep && m.start < cutoff))
  }

  /** The protected manifest of a prune: a newest complete one, whichever of a tie, if there is any. */
  ghost predicate Protects(mans: set<Manifest>, keep: Option<Manifest>) {
    if Complete(mans) == {} then keep.None? else keep.Some? && IsNewest(mans, keep.value)
  }

  /** One prune: what goes is incomplete or old, and everything complete that goes leaves a survivor at
      least as new. */
  lemma ExpiredIsOldAndOutlived(mans: set<Manifest>, keep: Option<Manifest>, cutoff: int, gone: set<Manifest>)
    requires Protects(mans, keep) && gone <= Expired(mans, keep, cutoff)
    ensures forall m :: m in gone && m.complete ==> m.start < cutoff
    ensures forall m :: m in Complete(mans) ==> exists n :: n in Complete(mans - gone) && n.start >= m.start
  {
    forall m | m in Complete(mans) ensures exists n :: n in Complete(mans - gone) && n.start >= m.start {
      assert keep.value in Complete(mans - gone) && keep.value.start >= m.start;
    }
  }

  /** `keep` is a newest complete manifest, if there is any; it and everything complete from the cutoff on is
      left, and once the prune is done nothing else is. */
  ghost predicate Cuts(before: set<Manifest>, after: set<Manifest>, keep: Option<Manifest>, cutoff: int, done: bool) {
    && (keep.Some? ==> keep.value in before && keep.value.complete)
    && (forall m :: m in before && m.complete ==> keep.Some? && m.start <= keep.value.start)
    && (forall m :: m in before && m.complete && (m.start >= cutoff || Some(m) == keep) ==> m in after)
    && (done ==> forall m :: m in after ==> m in before && m.complete && (m.start >= cutoff || Some(m) == keep))
  }

  ghost predicate CutAt(before: set<Manifest>, after: set<Manifest>, cutoff: int, done: bool) {
    exists keep :: Cuts(before, after, keep, cutoff, done)
  }

  /** What a prune owes a Space's stored window: unset it means ninety days, less than seven days means
      seven, and anything else is taken as it is. */
  ghost predicate Honours(before: set<Manifest>, after: set<Manifest>, stored: int, now: int, done: bool) {
    && (stored <= 0 ==> CutAt(before, after, now - 90 * 24 * HOUR, done))
    && (0 < stored < 7 * 24 * HOUR ==> CutAt(before, after, now - 7 * 24 * HOUR, done))
    && (stored >= 7 * 24 * HOUR ==> CutAt(before, after, now - stored, done))
  }

  lemma ExpiredIsCut(before: set<Manifest>, after: set<Manifest>, keep: Option<Manifest>, stored: int, now: int, done: bool)
    requires Protects(before, keep)
    requires after <= before && before - after <= Expired(before, keep, now - EffectiveWindow(stored))
    requires done ==> after == before - Expired(before, keep, now - EffectiveWindow(stored))
    ensures Honours(before, after, stored, now, done)
  {
    hide Honours;
    var cutoff := now - EffectiveWindow(stored);
    assert Cuts(before, after, keep, cutoff, done) by {
      forall m | m in before && m.complete ensures m in Complete(before) {
      }
      forall m | m in before && m.complete && (m.start >= cutoff || Some(m) == keep) ensures m in after {
        assert m !in after ==> m in before - after;
      }
    }
    CutIsHonoured(before, after, stored, now, done);
  }

  lemma CutIsHonoured(before: set<Manifest>, after: set<Manifest>, stored: int, now: int, done: bool)
    requires CutAt(before, after, now - EffectiveWindow(stored), done)
    ensures Honours(before, after, stored, now, done)
  {
    hide CutAt;
  }

  // ---- the code's loops ----

  predicate IsComplete(m: Manifest) { m.complete }

  /** completeOnly. */
  method CompleteOnly(mans: seq<Manifest>) returns (out: seq<Manifest>)
    ensures out == Filter(mans, IsComplete)
  {
    out := [];
    for i := 0 to |mans|
      invariant out == Filter(mans[..i], IsComplete)
    {
      assert mans[..i + 1][..i] == mans[..i];
      if mans[i].complete {
        out := out + [mans[i]];
      }
    }
    assert mans[..|mans|] == mans;
  }

  ghost predicate Descending(s: seq<Manifest>) {
    forall i, j :: 0 <= i < j < |s| ==> s[i].start >= s[j].start
  }

  /** Puts one manifest in place, on either side of an equal one: sort.Slice is not stable. */
  method Insert(s: seq<Manifest>, m: Manifest) returns (out: seq<Manifest>)
    requires Descending(s) && NoRepeats(s) && m !in s
    ensures Descending(out) && NoRepeats(out) && Elements(out) == Elements(s) + {m} && |out| == |s| + 1
  {
    var i := 0;
    while i < |s| && s[i].start >= m.start
      invariant 0 <= i <= |s| && forall j :: 0 <= j < i ==> s[j].start >= m.start
      decreases |s| - i
    {
      var stop := *;
      if stop && s[i].start == m.start {
        break;
      }
      i := i + 1;
    }
    assert s == s[..i] + s[i..];
    out := s[..i] + [m] + s[i..];
  }

  /** Newest first, ties in any order. */
  method SortByStart(s: seq<Manifest>) returns (out: seq<Manifest>)
    requires NoRepeats(s)
    ensures Descending(out) && NoRepeats(out) && Elements(out) == Elements(s) && |out| == |s|
  {
    out := [];
    for i := 0 to |s|
      invariant Descending(out) && NoRepeats(out) && Elements(out) == Elements(s[..i]) && |out| == i
    {
      assert s[..i + 1] == s[..i] + [s[i]];
      assert s[i] !in Elements(s[..i]);
      out := Insert(out, s[i]);
    }
    assert s[..|s|] == s;
  }

  function IDs(mans: set<Manifest>): set<nat> { set m | m in mans :: m.id }

  /** The ids are those of the manifests, one each. */
  ghost predicate Names(ids: seq<nat>, mans: set<Manifest>) { Elements(ids) == IDs(mans) && |ids| == |mans| }

  /** expiredManifests: everything incomplete, and every complete one before the cutoff except one
      newest. */
  method ExpiredManifests(mans: seq<Manifest>, cutoff: int) returns (expired: seq<nat>)
    requires NoRepeats(mans) && DistinctIDs(Elements(mans))
    ensures exists keep :: Protects(Elements(mans), keep) && Names(expired, Expired(Elements(mans), keep, cutoff))
  {
    hide Filter, IDs, Expired, Protects, OlderThan, Incomplete, Complete, IsNewest, Descending, NoRepeats,
         DistinctIDs, Elements;
    var all := Elements(mans);
    expired := [];
    ghost var gone: set<Manifest> := {};
    NoneYet(all, mans, cutoff);
    var complete := CompleteOnly(mans);
    CompleteIs(mans);
    for i := 0 to |mans|
      invariant gone == Incomplete(Elements(mans[..i])) && Elements(expired) == IDs(gone) && |expired| == |gone|
    {
      IncompleteStep(mans, i);
      if !mans[i].complete {
        OneMoreID(expired, gone, mans[i]);
        expired := expired + [mans[i].id];
        gone := gone + {mans[i]};
      }
    }
    assert mans[..|mans|] == mans;
    ghost var keep: Option<Manifest>;
    if |complete| <= 1 {
      keep := if complete == [] then None else Some(complete[0]);
      OnlyOne(all, complete, keep, cutoff);
      assert Protects(all, keep) && Names(expired, Expired(all, keep, cutoff));
      return;
    }
    FilterNoRepeats(mans);
    complete := SortByStart(complete);
    keep := Some(complete[0]);
    expired, gone := AppendOld(all, complete, cutoff, expired, gone);
    AllButFirst(all, complete, cutoff);
    assert Protects(all, keep) && Names(expired, Expired(all, keep, cutoff));
  }

  /** The second loop of expiredManifests: every complete manifest but the first, if it is old. */
  method AppendOld(ghost all: set<Manifest>, complete: seq<Manifest>, cutoff: int, ids: seq<nat>,
                   ghost incomplete: set<Manifest>)
    returns (expired: seq<nat>, ghost gone: set<Manifest>)
    requires |complete| > 0 && NoRepeats(complete) && Elements(complete) == Complete(all)
    requires incomplete == Incomplete(all) && Elements(ids) == IDs(incomplete) && |ids| == |incomplete|
    ensures gone == Incomplete(all) + OlderThan(complete[1..|complete|], cutoff)
    ensures Elements(expired) == IDs(gone) && |expired| == |gone|
  {
    hide IDs, OlderThan, Incomplete, NoRepeats;
    expired, gone := ids, incomplete;
    NoneYet(all, complete, cutoff);
    for i := 1 to |complete|
      invariant gone == Incomplete(all) + OlderThan(complete[1..i], cutoff) && Elements(expired) == IDs(gone) && |expired| == |gone|
    {
      var m := complete[i];
      OlderStep(all, complete, i, cutoff);
      if m.start < cutoff {
        OneMoreID(expired, gone, m);
        expired := expired + [m.id];
        gone := gone + {m};
      }
    }
  }

  lemma CompleteIs(mans: seq<Manifest>)
    ensures Elements(Filter(mans, IsComplete)) == Complete(Elements(mans))
  {
  }

  function OlderThan(s: seq<Manifest>, cutoff: int): set<Manifest> { set m | m in s && m.start < cutoff }

  lemma OnlyOne(all: set<Manifest>, complete: seq<Manifest>, keep: Option<Manifest>, cutoff: int)
    requires Elements(complete) == Complete(all) && |complete| <= 1
    requires keep == if complete == [] then None else Some(complete[0])
    ensures Protects(all, keep) && Expired(all, keep, cutoff) == Incomplete(all)
  {
    forall m | m in Complete(all) ensures Some(m) == keep {
      assert m in Elements(complete);
    }
    if complete != [] {
      assert complete[0] in Elements(complete);
    } else {
      assert Elements(complete) == {};
    }
  }

  lemma OneMoreID(ids: seq<nat>, gone: set<Manifest>, m: Manifest)
    requires Elements(ids) == IDs(gone)
    ensures Elements(ids + [m.id]) == IDs(gone + {m})
  {
    var more := gone + {m};
    forall x | x in Elements(ids + [m.id]) ensures x in IDs(more) {
      if x == m.id {
        assert m in more;
      } else {
        assert x in Elements(ids);
        var n :| n in gone && n.id == x;
        assert n in more;
      }
    }
    forall x | x in IDs(more) ensures x in Elements(ids + [m.id]) {
      var n :| n in more && n.id == x;
      if n in gone {
        assert x in IDs(gone);
        assert x in Elements(ids);
      }
    }
  }

  lemma IncompleteStep(mans: seq<Manifest>, i: nat)
    requires i < |mans| && NoRepeats(mans)
    ensures Incomplete(Elements(mans[..i + 1])) == Incomplete(Elements(mans[..i])) + if mans[i].complete then {} else {mans[i]}
    ensures mans[i] !in Incomplete(Elements(mans[..i]))
  {
    assert mans[..i + 1] == mans[..i] + [mans[i]];
  }

  lemma OlderStep(all: set<Manifest>, s: seq<Manifest>, i: nat, cutoff: int)
    requires 1 <= i < |s| && NoRepeats(s) && Elements(s) == Complete(all)
    ensures OlderThan(s[1..i + 1], cutoff) == OlderThan(s[1..i], cutoff) + if s[i].start < cutoff then {s[i]} else {}
    ensures s[i] !in Incomplete(all) + OlderThan(s[1..i], cutoff)
  {
    assert s[1..i + 1] == s[1..i] + [s[i]];
    assert s[i] in Elements(s);
  }

  lemma NoneYet(all: set<Manifest>, s: seq<Manifest>, cutoff: int)
    ensures Incomplete(Elements(s[..0])) == {} && IDs({}) == {} && Elements<nat>([]) == {}
    ensures |s| > 0 ==> OlderThan(s[1..1], cutoff) == {}
  {
  }

  lemma AllButFirst(all: set<Manifest>, complete: seq<Manifest>, cutoff: int)
    requires Elements(complete) == Complete(all) && Descending(complete) && NoRepeats(complete) && |complete| > 0
    ensures Protects(all, Some(complete[0]))
    ensures Expired(all, Some(complete[0]), cutoff) == Incomplete(all) + OlderThan(complete[1..|complete|], cutoff)
  {
    var first, rest := complete[0], complete[1..|complete|];
    assert complete == [first] + rest;
    assert first in Elements(complete);
    forall m | m in Complete(all) ensures m.start <= first.start && (m != first <==> m in rest) {
      assert m in Elements(complete);
      var i :| 0 <= i < |complete| && complete[i] == m;
      if m in rest {
        var j :| 0 <= j < |rest| && rest[j] == m;
        assert complete[j + 1] == m;
      }
    }
    assert forall m :: m in rest ==> m in Elements(complete);
  }

  lemma {:induction false} FilterNoRepeats(mans: seq<Manifest>)
    requires NoRepeats(mans)
    ensures NoRepeats(Filter(mans, IsComplete))
  {
    if mans != [] {
      var init := mans[..|mans| - 1];
      FilterNoRepeats(init);
      assert mans[|mans| - 1] !in init;
    }
  }

  /** keptCount: the complete manifests a prune leaves behind. */
  method KeptCount(mans: seq<Manifest>, expired: seq<nat>) returns (kept: nat)
    requires NoRepeats(mans)
    ensures kept == |set m | m in mans && m.complete && m.id !in expired|
  {
    var gone := Elements(expired);
    var complete := CompleteOnly(mans);
    FilterNoRepeats(mans);
    kept := 0;
    assert Spared(complete, 0, expired) == {};
    for i := 0 to |complete|
      invariant kept == |Spared(complete, i, expired)|
    {
      OneMoreSpared(complete, i, expired);
      if complete[i].id !in gone {
        kept := kept + 1;
      }
    }
    assert complete[..|complete|] == complete && forall m :: m in complete <==> m in mans && m.complete;
    assert Spared(complete, |complete|, expired) == set m | m in mans && m.complete && m.id !in expired;
  }

  /** The first i manifests that are not deleted. */
  ghost function Spared(complete: seq<Manifest>, i: nat, expired: seq<nat>): set<Manifest>
    requires i <= |complete|
  {
    set m | m in complete[..i] && m.id !in expired
  }

  lemma OneMoreSpared(complete: seq<Manifest>, i: nat, expired: seq<nat>)
    requires i < |complete| && NoRepeats(complete)
    ensures |Spared(complete, i + 1, expired)| == |Spared(complete, i, expired)| + if complete[i].id in expired then 0 else 1
  {
    var before, next := Spared(complete, i, expired), complete[i];
    assert complete[..i + 1] == complete[..i] + [next];
    assert Spared(complete, i + 1, expired) == if next.id in expired then before else before + {next};
    assert next !in before;
  }

  // ---- the repository, operation by operation ----

  datatype Stats = Stats(deleted: nat, kept: nat)

  datatype EngineError = BadWindow | StoreFailed | IncompleteSource

  class Repository {
    var mans: set<Manifest>

    /** ListSnapshots: every manifest of the Space once, in no particular order. */
    method ListSnapshots() returns (list: seq<Manifest>)
      ensures NoRepeats(list) && Elements(list) == mans && |list| == |mans|
    {
      list := [];
      var rest := mans;
      while rest != {}
        invariant rest <= mans && NoRepeats(list) && Elements(list) == mans - rest && |list| == |mans - rest|
        decreases rest
      {
        var m :| m in rest;
        assert m !in Elements(list);
        list := list + [m];
        assert mans - (rest - {m}) == (mans - rest) + {m};
        rest := rest - {m};
      }
    }

    /** Deletes manifests by id until one deletion fails; `steady` promises that none does. */
    method DeleteAll(ids: seq<nat>, steady: bool) returns (ok: bool)
      requires DistinctIDs(mans)
      modifies this
      ensures mans <= old(mans) && forall m :: m in old(mans) && m.id !in ids ==> m in mans
      ensures ok ==> mans == set m | m in old(mans) && m.id !in ids
      ensures steady ==> ok
    {
      for i := 0 to |ids|
        invariant mans == set m | m in old(mans) && m.id !in ids[..i]
      {
        var broken, landed := *, *;
        broken := broken && !steady;
        assert ids[..i + 1] == ids[..i] + [ids[i]];
        if !broken || landed {
          mans := set m | m in mans && m.id != ids[i];
        }
        if broken {
          return false;
        }
      }
      assert ids[..|ids|] == ids;
      ok := true;
    }

    /** Prune with a Space's stored window. Whatever fails on the way, nothing complete goes that is not
        older than the effective window, and something at least as new survives it. */
    method Prune(stored: int, now: int, steady: bool) returns (r: Result<Stats, EngineError>, ghost keep: Option<Manifest>)
      requires DistinctIDs(mans)
      modifies this
      ensures DistinctIDs(mans) && Protects(old(mans), keep)
      ensures mans <= old(mans) && old(mans) - mans <= Expired(old(mans), keep, now - EffectiveWindow(stored))
      ensures r.Ok? ==> mans == old(mans) - Expired(old(mans), keep, now - EffectiveWindow(stored))
                        && r.value.deleted + r.value.kept == |old(mans)| && r.value.kept == |mans|
                        && Incomplete(mans) == {}
      ensures Honours(old(mans), mans, stored, now, r.Ok?)
      ensures var e := PruneSome(stored, keep, old(mans) - mans);
              Enabled(History(old(mans), now), e) && Next(History(old(mans), now), e) == History(mans, now)
      ensures steady ==> r.Ok?
    {
      hide Enabled, Next, Expired, Protects, Honours;
      var cutoff := now - EffectiveWindow(stored);
      var list := ListSnapshots();
      var expired := ExpiredManifests(list, cutoff);
      keep :| Protects(mans, keep) && Names(expired, Expired(mans, keep, cutoff));
      ghost var gone := Expired(mans, keep, cutoff);
      ExpiredFacts(mans, keep, cutoff);
      ByID(mans, gone, expired);
      ExpiredIsCut(mans, mans, keep, stored, now, false);
      PruneIsStep(mans, mans, stored, now, keep);
      var broken := *;
      if broken && !steady {
        return Err(StoreFailed), keep;
      }
      var done := DeleteAll(expired, steady);
      ExpiredIsCut(old(mans), mans, keep, stored, now, done);
      PruneIsStep(old(mans), mans, stored, now, keep);
      if !done {
        return Err(StoreFailed), keep;
      }
      var kept := KeptCount(list, expired);
      KeptIsWhatIsLeft(old(mans), list, gone, expired);
      var maintained := *;
      if !maintained && !steady {
        ExpiredIsCut(old(mans), mans, keep, stored, now, false);
        return Err(StoreFailed), keep;
      }
      r := Ok(Stats(|expired|, kept));
    }

    /** deleteIncomplete. */
    method DeleteIncomplete(steady: bool) returns (ok: bool)
      requires DistinctIDs(mans)
      modifies this
      ensures mans <= old(mans) && Complete(mans) == Complete(old(mans)) && DistinctIDs(mans)
      ensures ok ==> Incomplete(mans) == {}
      ensures steady ==> ok
    {
      var list := ListSnapshots();
      ok := true;
      for i := 0 to |list|
        invariant mans <= old(mans) && Complete(mans) == Complete(old(mans))
        invariant forall j :: 0 <= j < i && !list[j].complete ==> list[j] !in mans
      {
        if list[i].complete {
          continue;
        }
        var broken, landed := *, *;
        broken := broken && !steady;
        if !broken || landed {
          mans := mans - {list[i]};
        }
        if broken {
          ok := false;
          return;
        }
      }
      forall m | m in mans ensures m.complete {
        assert m in Elements(list);
        var j :| 0 <= j < |list| && list[j] == m;
      }
    }

    /** Snapshot: checkpoints flush themselves while the upload runs; a complete manifest is saved only
        for a source read in full, in the same session that drops every incomplete one. A session that
        fails leaves its checkpoints, and removing them is best effort; one that was committed without
        being acknowledged has left its snapshot as well. */
    method Snapshot(id: nat, start: int, checkpoints: set<Manifest>, readInFull: bool, steady: bool)
      returns (r: Result<Manifest, EngineError>)
      requires DistinctIDs(mans + checkpoints + {Manifest(id, start, true)}) && Manifest(id, start, true) !in mans
      requires Complete(checkpoints) == {}
      modifies this
      ensures DistinctIDs(mans) && mans <= old(mans) + checkpoints + {Manifest(id, start, true)}
      ensures Complete(old(mans)) <= Complete(mans)
      ensures r.Ok? ==> r == Ok(Manifest(id, start, true)) && Complete(mans) == Complete(old(mans)) + {r.value} && Incomplete(mans) == {}
      ensures r.Err? ==> Complete(mans) == Complete(old(mans))
                         || Complete(mans) == Complete(old(mans)) + {Manifest(id, start, true)}
      ensures r == Err(IncompleteSource) || !readInFull ==> Complete(mans) == Complete(old(mans))
      ensures !readInFull ==> r.Err?
      ensures var es := BackupSteps(old(mans), mans, Manifest(id, start, true));
              Legal(History(old(mans), start), es) && After(History(old(mans), start), es) == History(mans, start)
      ensures steady ==> r == if readInFull then Ok(Manifest(id, start, true)) else Err(IncompleteSource)
    {
      hide Legal, After, BackupSteps;
      mans := mans + checkpoints;
      assert Complete(mans) == Complete(old(mans)) + Complete(checkpoints);
      var uploaded, saved := *, *;
      uploaded, saved := uploaded || steady, saved || steady;
      if uploaded && readInFull && saved {
        var before := mans;
        mans := mans + {Manifest(id, start, true)};
        assert Complete(mans) == Complete(before) + {Manifest(id, start, true)};
        var ok := DeleteIncomplete(steady);
        var acknowledged, landed := *, *;
        if ok && (acknowledged || steady) {
          BackupIsRun(old(mans), mans, Manifest(id, start, true), start);
          return Ok(Manifest(id, start, true));
        }
        if !ok || !landed {
          mans := before;
        }
      }
      var dropped := DeleteIncomplete(steady);
      BackupIsRun(old(mans), mans, Manifest(id, start, true), start);
      r := Err(if uploaded && !readInFull then IncompleteSource else StoreFailed);
    }
  }

  lemma ExpiredFacts(mans: set<Manifest>, keep: Option<Manifest>, cutoff: int)
    ensures Expired(mans, keep, cutoff) <= mans && Incomplete(mans) <= Expired(mans, keep, cutoff)
  {
  }

  /** Deleting by id deletes exactly those manifests. */
  lemma ByID(mans: set<Manifest>, gone: set<Manifest>, ids: seq<nat>)
    requires DistinctIDs(mans) && gone <= mans && Elements(ids) == IDs(gone)
    ensures forall m :: m in mans ==> (m.id in ids <==> m in gone)
  {
    forall m | m in mans ensures m.id in ids <==> m in gone {
      if m.id in ids {
        assert m.id in Elements(ids);
        var n :| n in gone && n.id == m.id;
      }
      if m in gone {
        assert m.id in IDs(gone);
      }
    }
  }

  lemma KeptIsWhatIsLeft(mans: set<Manifest>, list: seq<Manifest>, gone: set<Manifest>, ids: seq<nat>)
    requires Elements(list) == mans && gone <= mans && Incomplete(mans) <= gone
    requires forall m :: m in mans ==> (m.id in ids <==> m in gone)
    ensures (set m | m in list && m.complete && m.id !in ids) == mans - gone
    ensures |mans - gone| + |gone| == |mans|
  {
    assert forall m :: m in list <==> m in Elements(list);
    assert mans == (mans - gone) + gone;
  }

  // ---- whole histories ----

  /** What can happen to a Space's manifests: checkpoints are flushed, a backup saves its snapshot,
      incomplete manifests are dropped, or a prune, stopped anywhere, deletes some of what it chose. */
  datatype Event =
    | Flush(more: set<Manifest>)
    | Save(m: Manifest)
    | Discard(gone: set<Manifest>)
    | PruneSome(stored: int, keep: Option<Manifest>, gone: set<Manifest>)
    | Advance(passed: nat)

  datatype History = History(mans: set<Manifest>, now: int)

  ghost predicate Enabled(h: History, e: Event) {
    match e
    case Flush(more) => Complete(more) == {}
    case Save(m) => m.complete
    case Discard(gone) => gone <= Incomplete(h.mans)
    case PruneSome(stored, keep, gone) =>
      Protects(h.mans, keep) && gone <= Expired(h.mans, keep, h.now - EffectiveWindow(stored))
    case Advance(_) => true
  }

  function Next(h: History, e: Event): History {
    match e
    case Flush(more) => h.(mans := h.mans + more)
    case Save(m) => h.(mans := h.mans + {m})
    case Discard(gone) => h.(mans := h.mans - gone)
    case PruneSome(_, _, gone) => h.(mans := h.mans - gone)
    case Advance(passed) => h.(now := h.now + passed)
  }

  ghost predicate Legal(h: History, es: seq<Event>)
    decreases |es|
  {
    es == [] || (Enabled(h, es[0]) && Legal(Next(h, es[0]), es[1..]))
  }

  function After(h: History, es: seq<Event>): History
    decreases |es|
  {
    if es == [] then h else After(Next(h, es[0]), es[1..])
  }

  /** A prune, complete or stopped, is one step of a history. */
  lemma PruneIsStep(before: set<Manifest>, after: set<Manifest>, stored: int, now: int, keep: Option<Manifest>)
    requires Protects(before, keep) && after <= before
    requires before - after <= Expired(before, keep, now - EffectiveWindow(stored))
    ensures var e := PruneSome(stored, keep, before - after);
            Enabled(History(before, now), e) && Next(History(before, now), e) == History(after, now)
  {
    assert before - (before - after) == after;
  }

  /** What a backup that flushed some checkpoints, and saved its snapshot or not, does to a Space. */
  function BackupSteps(before: set<Manifest>, after: set<Manifest>, m: Manifest): seq<Event> {
    [Flush(Incomplete(after) - before)] + (if m in after - before then [Save(m)] else []) + [Discard(before - after)]
  }

  /** A backup, however it ends, is a few steps of a history. */
  lemma BackupIsRun(before: set<Manifest>, after: set<Manifest>, m: Manifest, now: int)
    requires m.complete && Complete(before) <= Complete(after) <= Complete(before) + {m}
    ensures Legal(History(before, now), BackupSteps(before, after, m))
    ensures After(History(before, now), BackupSteps(before, after, m)) == History(after, now)
  {
    hide Legal, After;
    var more, gone := Incomplete(after) - before, before - after;
    var h0 := History(before, now);
    var h1 := Next(h0, Flush(more));
    assert Complete(more) == {};
    var saves := if m in after - before then [Save(m)] else [];
    var h2 := if m in after - before then Next(h1, Save(m)) else h1;
    forall x | x in gone ensures x in Incomplete(h2.mans) {
      assert x in before && (x.complete ==> x in Complete(before));
    }
    forall x ensures x in h2.mans - gone <==> x in after {
      assert x in after && x.complete ==> x in Complete(after);
    }
    assert Next(h2, Discard(gone)) == History(after, now);
    NoSteps(History(after, now));
    FirstStep(h2, Discard(gone), []);
    assert [Discard(gone)] + [] == [Discard(gone)];
    if m in after - before {
      FirstStep(h1, Save(m), [Discard(gone)]);
    } else {
      assert saves + [Discard(gone)] == [Discard(gone)];
    }
    FirstStep(h0, Flush(more), saves + [Discard(gone)]);
    assert BackupSteps(before, after, m) == [Flush(more)] + (saves + [Discard(gone)]);
  }

  lemma FirstStep(h: History, e: Event, rest: seq<Event>)
    ensures Legal(h, [e] + rest) <==> Enabled(h, e) && Legal(Next(h, e), rest)
    ensures After(h, [e] + rest) == After(Next(h, e), rest)
  {
    assert ([e] + rest)[1..] == rest;
  }

  lemma NoSteps(h: History)
    ensures Legal(h, []) && After(h, []) == h
  {
  }

  /** Once a complete snapshot exists, one at least as new exists for ever: a Space never loses its last
      restorable copy, however long it goes without a backup and whatever window is stored. */
  lemma {:induction false} AlwaysRestorable(h: History, es: seq<Event>, m: Manifest) returns (n: Manifest)
    requires Legal(h, es) && m in Complete(h.mans)
    ensures n in Complete(After(h, es).mans) && n.start >= m.start
    decreases |es|
  {
    n := m;
    if es != [] {
      var e, next := es[0], Next(h, es[0]);
      var s := m;
      if e.PruneSome? && m in e.gone {
        ExpiredIsOldAndOutlived(h.mans, e.keep, h.now - EffectiveWindow(e.stored), e.gone);
        s :| s in Complete(h.mans - e.gone) && s.start >= m.start;
      }
      assert s in Complete(next.mans);
      n := AlwaysRestorable(next, es[1..], s);
    }
  }

  /** Every prune of the run was told to keep w: by the window stored, by the ninety days an unset one
      means, or by the floor. */
  ghost predicate AllKeep(es: seq<Event>, w: int) {
    forall i :: 0 <= i < |es| && es[i].PruneSome? ==>
                  w <= 7 * 24 * HOUR || 0 < w <= es[i].stored || (es[i].stored <= 0 && w <= 90 * 24 * HOUR)
  }

  /** A complete snapshot disappears only once it is older than what every prune was told to keep. */
  lemma {:induction false} OnlyExpiredDisappear(h: History, es: seq<Event>, m: Manifest, w: int)
    requires Legal(h, es) && m in Complete(h.mans) && m !in After(h, es).mans && AllKeep(es, w)
    ensures m.start < After(h, es).now - w
    decreases |es|
  {
    var e, next := es[0], Next(h, es[0]);
    TimePasses(next, es[1..]);
    if m in next.mans {
      OnlyExpiredDisappear(next, es[1..], m, w);
    } else {
      WindowHasFloor(e.stored);
    }
  }

  ghost predicate NoneStored(es: seq<Event>) {
    forall i :: 0 <= i < |es| && es[i].PruneSome? ==> es[i].stored <= 0
  }

  ghost predicate AllStore(es: seq<Event>, w: int) {
    forall i :: 0 <= i < |es| && es[i].PruneSome? ==> es[i].stored >= w
  }

  /** So nothing from the last seven days is ever lost, whatever windows are stored; nothing from the last
      ninety while none is; and nothing from within the shortest one stored. */
  lemma OnlyOldDisappear(h: History, es: seq<Event>, m: Manifest)
    requires Legal(h, es) && m in Complete(h.mans) && m !in After(h, es).mans
    ensures m.start < After(h, es).now - 7 * 24 * HOUR
    ensures NoneStored(es) ==> m.start < After(h, es).now - 90 * 24 * HOUR
    ensures forall w :: 0 < w && AllStore(es, w) ==> m.start < After(h, es).now - w
  {
    hide Legal, After;
    OnlyExpiredDisappear(h, es, m, 7 * 24 * HOUR);
    if NoneStored(es) {
      OnlyExpiredDisappear(h, es, m, 90 * 24 * HOUR);
    }
    forall w | 0 < w && AllStore(es, w) ensures m.start < After(h, es).now - w {
      OnlyExpiredDisappear(h, es, m, w);
    }
  }

  lemma {:induction false} TimePasses(h: History, es: seq<Event>)
    ensures After(h, es).now >= h.now
    decreases |es|
  {
    if es != [] {
      TimePasses(Next(h, es[0]), es[1..]);
    }
  }
}
