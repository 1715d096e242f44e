/** Re-wrapping stored ciphertext under a new custody key (internal/rotate/rotate.go): the server
    envelopes of every Space, and the sealed credentials of every target. Sealing is abstract: a box
    opens under its own key to what was sealed, and under no other. */
module Rotation {
  import opened Wrappers
  import opened Ordered
  import opened Text

  type Key = seq<bv8>
  type Plain = seq<bv8>

  const KEY_SIZE: nat := 32

  /** Sealed bytes. Two seals of the same plaintext differ by their nonce. */
  datatype Box = Box(key: Key, plain: Plain, nonce: nat) | Corrupt

  function Open(b: Box, key: Key): Option<Plain> {
    if b.Box? && b.key == key then Some(b.plain) else None
  }

  datatype Counts = Counts(rotated: nat, already: nat, skipped: nat)

  datatype Failure = BadKeys | StoreFailed | KeyMismatch(id: string)

  /** checkKeyPair. */
  predicate GoodKeys(oldKey: Key, newKey: Key) { |oldKey| == KEY_SIZE && |newKey| == KEY_SIZE && oldKey != newKey }

  /** Two different keys of thirty-two bytes. */
  lemma GoodKeysAre(oldKey: Key, newKey: Key)
    ensures GoodKeys(oldKey, newKey) <==> |oldKey| == 32 && |newKey| == 32 && oldKey != newKey
  {
  }

  /** A box gives back what was sealed, to its own key alone. */
  lemma BoxOpens(key: Key, plain: Plain, nonce: nat, other: Key)
    ensures Open(Box(key, plain, nonce), other) == if other == key then Some(plain) else None
    ensures Holds(Box(key, plain, nonce)) == Some(plain)
  {
  }

  // ---- what a rotation means, for either store ----

  /** The current sealed record under each id, if it holds one. */
  type Records = map<string, Option<Box>>

  predicate OnOld(r: Option<Box>, oldKey: Key) { r.Some? && Open(r.value, oldKey).Some? }

  predicate OnNew(r: Option<Box>, oldKey: Key, newKey: Key) { r.Some? && !OnOld(r, oldKey) && Open(r.value,
                  newKey).Some? }

  function Rotating(rs: Records, oldKey: Key): set<string> { set id | id in rs && OnOld(rs[id], oldKey) }

  function Already(rs: Records, oldKey: Key, newKey: Key): set<string> { set id | id in rs && OnNew(rs[id], oldKey,
                   newKey) }

  function Empty(rs: Records): set<string> { set id | id in rs && rs[id].None? }

  /** The record is the old one under the new key. */
  predicate Rewrapped(before: Option<Box>, after: Option<Box>, oldKey: Key, newKey: Key) {
    OnOld(before, oldKey) && after.Some? && Open(after.value, newKey) == Open(before.value, oldKey)
  }

  /** Some records were re-wrapped; the rest are as they were. */
  ghost predicate Moved(before: Records, after: Records, oldKey: Key, newKey: Key) {
    before.Keys == after.Keys && forall id :: id in before ==> after[id] == before[id] || Rewrapped(before[id], after[id], oldKey, newKey)
  }

  /** Every record that was on the old key is now on the new one, and no other changed. */
  ghost predicate Completed(before: Records, after: Records, oldKey: Key, newKey: Key) {
    && before.Keys == after.Keys
    && forall id :: id in before ==> if OnOld(before[id], oldKey) then Rewrapped(before[id], after[id], oldKey, newKey)
                                     else after[id] == before[id]
  }

  /** Every record opens under one of the two keys. */
  ghost predicate Rotatable(rs: Records, oldKey: Key, newKey: Key) {
    forall id :: id in rs && rs[id].Some? ==> OnOld(rs[id], oldKey) || OnNew(rs[id], oldKey, newKey)
  }

  ghost predicate AllOnNew(rs: Records, newKey: Key) {
    forall id :: id in rs && rs[id].Some? ==> Open(rs[id].value, newKey).Some?
  }

  /** What a box holds, whoever can open it. */
  function Holds(b: Box): Option<Plain> { if b.Box? then Some(b.plain) else None }

  /** No record lost what it holds. */
  ghost predicate SamePlain(before: Records, after: Records) {
    && before.Keys == after.Keys
    && forall id :: id in before ==> (before[id].None? <==> after[id].None?)
                                     && (before[id].Some? ==> Holds(before[id].value) == Holds(after[id].value))
  }

  /** However many attempts stopped wherever they stopped, nothing lost its plaintext and nothing that
      could be rotated no longer can. */
  lemma {:induction false} AttemptsKeepPlain(states: seq<Records>, oldKey: Key, newKey: Key)
    requires states != [] && forall i :: 0 <= i < |states| - 1 ==> Moved(states[i], states[i + 1], oldKey, newKey)
    ensures SamePlain(states[0], states[|states| - 1])
    ensures Rotatable(states[0], oldKey, newKey) ==> Rotatable(states[|states| - 1], oldKey, newKey)
  {
    if |states| > 1 {
      var init := states[..|states| - 1];
      AttemptsKeepPlain(init, oldKey, newKey);
      assert Moved(states[|states| - 2], states[|states| - 1], oldKey, newKey);
    }
  }

  /** Rotation is resumable: after any number of attempts and then one that completes, every record
      opens under the new key to its original plaintext, and none is left for a further run. */
  lemma RotationResumes(states: seq<Records>, done: Records, oldKey: Key, newKey: Key)
    requires states != [] && forall i :: 0 <= i < |states| - 1 ==> Moved(states[i], states[i + 1], oldKey, newKey)
    requires GoodKeys(oldKey, newKey) && Rotatable(states[0], oldKey, newKey)
    requires Completed(states[|states| - 1], done, oldKey, newKey)
    ensures SamePlain(states[0], done) && AllOnNew(done, newKey)
    ensures Rotating(done, oldKey) == {} && |Already(done, oldKey, newKey)| + |Empty(done)| == |done|
  {
    var last := states[|states| - 1];
    AttemptsKeepPlain(states, oldKey, newKey);
    assert Already(done, oldKey, newKey) + Empty(done) == done.Keys;
    assert Already(done, oldKey, newKey) !! Empty(done);
  }

  lemma CompletedMoves(before: Records, after: Records, oldKey: Key, newKey: Key)
    requires Completed(before, after, oldKey, newKey)
    ensures Moved(before, after, oldKey, newKey)
  {
  }

  // ---- one pass, record by record ----

  /** A record as a completed pass leaves it; one that opens under neither key stops the pass. */
  predicate Treated(before: Option<Box>, after: Option<Box>, oldKey: Key, newKey: Key) {
    if OnOld(before, oldKey) then Rewrapped(before, after, oldKey, newKey)
    else after == before && (before.Some? ==> OnNew(before, oldKey, newKey))
  }

  /** After i records of a pass: those are treated and the rest are untouched. */
  ghost predicate PassedTo(before: Records, now: Records, ids: seq<string>, i: nat, oldKey: Key, newKey: Key) {
    && i <= |ids| && before.Keys == now.Keys && (forall j :: 0 <= j < |ids| ==> ids[j] in before)
    && (forall j, k :: 0 <= j < k < |ids| ==> ids[j] != ids[k])
    && (forall j :: 0 <= j < i ==> Treated(before[ids[j]], now[ids[j]], oldKey, newKey))
    && (forall j :: i <= j < |ids| ==> now[ids[j]] == before[ids[j]])
  }

  /** The counts are the numbers of records of each kind among those passed. */
  ghost predicate Tallied(before: Records, passed: set<string>, counts: Counts, oldKey: Key, newKey: Key) {
    counts == Counts(|Rotating(before, oldKey) * passed|, |Already(before, oldKey, newKey) * passed|, |Empty(before) * passed|)
  }

  lemma PassStarts(rs: Records, ids: seq<string>, oldKey: Key, newKey: Key)
    requires ids == Listing(rs.Keys)
    ensures PassedTo(rs, rs, ids, 0, oldKey, newKey) && Tallied(rs, Elements(ids[..0]), Counts(0, 0, 0), oldKey, newKey)
  {
    hide Less;
    forall j | 0 <= j < |ids| ensures ids[j] in rs { assert ids[j] in ids; }
    forall j, k | 0 <= j < k < |ids| ensures ids[j] != ids[k] { LessTrichotomy(ids[j], ids[k]); }
    assert Elements(ids[..0]) == {};
  }

  /** Where the counts go for the record at hand. */
  function Counted(counts: Counts, r: Option<Box>, oldKey: Key, newKey: Key): Counts {
    if r.None? then counts.(skipped := counts.skipped + 1)
    else if OnOld(r, oldKey) then counts.(rotated := counts.rotated + 1)
    else if OnNew(r, oldKey, newKey) then counts.(already := counts.already + 1)
    else counts
  }

  lemma OneMore(s: set<string>, passed: set<string>, id: string)
    requires id !in passed
    ensures |s * (passed + {id})| == |s * passed| + if id in s then 1 else 0
  {
    assert s * (passed + {id}) == if id in s then s * passed + {id} else s * passed;
  }

  lemma TallyStep(before: Records, passed: set<string>, counts: Counts, id: string, oldKey: Key, newKey: Key)
    requires Tallied(before, passed, counts, oldKey, newKey) && id in before && id !in passed
    ensures Tallied(before, passed + {id}, Counted(counts, before[id], oldKey, newKey), oldKey, newKey)
  {
    OneMore(Rotating(before, oldKey), passed, id);
    OneMore(Already(before, oldKey, newKey), passed, id);
    OneMore(Empty(before), passed, id);
  }

  lemma PassStep(before: Records, now: Records, ids: seq<string>, i: nat, counts: Counts, oldKey: Key, newKey: Key,
                 next: Records)
    requires PassedTo(before, now, ids, i, oldKey, newKey) && i < |ids|
    requires Tallied(before, Elements(ids[..i]), counts, oldKey, newKey)
    requires ids[i] in next && next == now[ids[i] := next[ids[i]]] && Treated(now[ids[i]], next[ids[i]], oldKey, newKey)
    ensures PassedTo(before, next, ids, i + 1, oldKey, newKey)
    ensures Tallied(before, Elements(ids[..i + 1]), Counted(counts, now[ids[i]], oldKey, newKey), oldKey, newKey)
  {
    hide Treated, Tallied, Counted, Elements;
    ElementsStep(ids, i);
    TallyStep(before, Elements(ids[..i]), counts, ids[i], oldKey, newKey);
    TreatedStep(before, now, ids, i, oldKey, newKey, next);
  }

  lemma ElementsStep(ids: seq<string>, i: nat)
    requires i < |ids| && forall j, k :: 0 <= j < k < |ids| ==> ids[j] != ids[k]
    ensures Elements(ids[..i + 1]) == Elements(ids[..i]) + {ids[i]} && ids[i] !in Elements(ids[..i])
  {
    assert ids[..i + 1] == ids[..i] + [ids[i]];
  }

  lemma TreatedStep(before: Records, now: Records, ids: seq<string>, i: nat, oldKey: Key, newKey: Key, next: Records)
    requires PassedTo(before, now, ids, i, oldKey, newKey) && i < |ids|
    requires ids[i] in next && next == now[ids[i] := next[ids[i]]] && Treated(now[ids[i]], next[ids[i]], oldKey, newKey)
    ensures PassedTo(before, next, ids, i + 1, oldKey, newKey)
  {
    hide Treated;
  }

  lemma PassMoves(before: Records, now: Records, ids: seq<string>, i: nat, oldKey: Key, newKey: Key)
    requires PassedTo(before, now, ids, i, oldKey, newKey) && ids == Listing(before.Keys)
    ensures Moved(before, now, oldKey, newKey)
  {
    hide Less, Rewrapped;
    forall id | id in before ensures now[id] == before[id] || Rewrapped(before[id], now[id], oldKey, newKey) {
      assert id in ids;
      var j :| 0 <= j < |ids| && ids[j] == id;
      assert j < i || i <= j;
    }
  }

  /** What a write of one re-wrapped record can leave behind at any point of a pass. */
  lemma PassWrites(before: Records, now: Records, ids: seq<string>, i: nat, oldKey: Key, newKey: Key, next: Records)
    requires PassedTo(before, now, ids, i, oldKey, newKey) && ids == Listing(before.Keys) && i < |ids|
    requires ids[i] in next && next == now[ids[i] := next[ids[i]]] && Rewrapped(now[ids[i]], next[ids[i]], oldKey, newKey)
    ensures Moved(before, next, oldKey, newKey)
  {
    hide Rewrapped;
    PassMoves(before, now, ids, i, oldKey, newKey);
  }

  lemma PassEnds(before: Records, now: Records, ids: seq<string>, counts: Counts, oldKey: Key, newKey: Key)
    requires PassedTo(before, now, ids, |ids|, oldKey, newKey) && ids == Listing(before.Keys)
    requires Tallied(before, Elements(ids[..|ids|]), counts, oldKey, newKey)
    ensures Completed(before, now, oldKey, newKey) && Rotatable(before, oldKey, newKey)
    ensures counts == Counts(|Rotating(before, oldKey)|, |Already(before, oldKey, newKey)|, |Empty(before)|)
    ensures counts.rotated + counts.already + counts.skipped == |before|
  {
    hide Less, Treated, Tallied, Completed, Rotatable, Rotating, Already, Empty;
    assert ids[..|ids|] == ids;
    assert Elements(ids) == before.Keys;
    WholeTally(before, counts, oldKey, newKey);
    forall id | id in before ensures Treated(before[id], now[id], oldKey, newKey) {
      assert id in ids;
      var j :| 0 <= j < |ids| && ids[j] == id;
    }
    TreatedCompletes(before, now, oldKey, newKey);
    Partition(before, oldKey, newKey);
  }

  lemma TreatedCompletes(before: Records, now: Records, oldKey: Key, newKey: Key)
    requires before.Keys == now.Keys && forall id :: id in before ==> Treated(before[id], now[id], oldKey, newKey)
    ensures Completed(before, now, oldKey, newKey) && Rotatable(before, oldKey, newKey)
  {
    hide Rewrapped, OnOld, OnNew;
    forall id | id in before && before[id].Some? ensures OnOld(before[id], oldKey) || OnNew(before[id], oldKey, newKey) {
      assert Treated(before[id], now[id], oldKey, newKey);
    }
  }

  lemma WholeTally(before: Records, counts: Counts, oldKey: Key, newKey: Key)
    requires Tallied(before, before.Keys, counts, oldKey, newKey)
    ensures counts == Counts(|Rotating(before, oldKey)|, |Already(before, oldKey, newKey)|, |Empty(before)|)
  {
    assert Rotating(before, oldKey) * before.Keys == Rotating(before, oldKey);
    assert Already(before, oldKey, newKey) * before.Keys == Already(before, oldKey, newKey);
    assert Empty(before) * before.Keys == Empty(before);
  }

  lemma Partition(rs: Records, oldKey: Key, newKey: Key)
    requires Rotatable(rs, oldKey, newKey)
    ensures |Rotating(rs, oldKey)| + |Already(rs, oldKey, newKey)| + |Empty(rs)| == |rs|
  {
    var a, b, c := Rotating(rs, oldKey), Already(rs, oldKey, newKey), Empty(rs);
    assert rs.Keys == a + b + c && a !! b && (a + b) !! c;
    assert |a + b| == |a| + |b|;
  }

  lemma NothingMoves(rs: Records, oldKey: Key, newKey: Key)
    ensures Moved(rs, rs, oldKey, newKey)
  {
  }

  lemma AtRecord(before: Records, now: Records, ids: seq<string>, i: nat, oldKey: Key, newKey: Key)
    requires PassedTo(before, now, ids, i, oldKey, newKey) && ids == Listing(before.Keys) && i < |ids|
    ensures ids[i] in before && ids[i] in now && now[ids[i]] == before[ids[i]] && Moved(before, now, oldKey, newKey)
    ensures now == now[ids[i] := now[ids[i]]]
  {
    PassMoves(before, now, ids, i, oldKey, newKey);
  }

  /** What the pass does to a record is what it should, case by case. */
  lemma RecordCases(r: Option<Box>, oldKey: Key, newKey: Key, nonce: nat)
    requires GoodKeys(oldKey, newKey)
    ensures r.None? || (Open(r.value, oldKey).None? && Open(r.value, newKey).Some?) ==> Treated(r, r, oldKey, newKey)
    ensures r.Some? && Open(r.value, oldKey).Some?
            ==> var b := Some(Box(newKey, Open(r.value, oldKey).value, nonce));
                Rewrapped(r, b, oldKey, newKey) && Treated(r, b, oldKey, newKey)
  {
  }

  lemma NeitherOpens(rs: Records, id: string, oldKey: Key, newKey: Key)
    requires id in rs && rs[id].Some? && Open(rs[id].value, oldKey).None? && Open(rs[id].value, newKey).None?
    ensures !Rotatable(rs, oldKey, newKey)
  {
  }

  // ---- the two stores and their loops ----

  /** Versions are only ever appended. */
  ghost predicate Grown(before: map<string, seq<Box>>, after: map<string, seq<Box>>) {
    before.Keys == after.Keys && forall id :: id in before ==> before[id] <= after[id]
  }

  /** One version was appended, or nothing changed. */
  ghost predicate Appended(before: map<string, seq<Box>>, after: map<string, seq<Box>>, id: string, b: Box,
                           landed: bool) {
    id in before && after == if landed then before[id := before[id] + [b]] else before
  }

  lemma GrownIsOrder(a: map<string, seq<Box>>, b: map<string, seq<Box>>, c: map<string, seq<Box>>)
    ensures Grown(a, a) && (Grown(a, b) && Grown(b, c) ==> Grown(a, c))
  {
  }

  /** The server envelopes: append-only versions per Space, none for a half-finished setup. */
  class EnvelopeStore {
    var spaces: set<string>
    var versions: map<string, seq<Box>>

    ghost predicate Valid()
      reads this
    {
      versions.Keys == spaces
    }

    function Current(id: string): Option<Box>
      requires Valid() && id in spaces
      reads this
    {
      if versions[id] == [] then None else Some(versions[id][|versions[id]| - 1])
    }

    ghost function View(): (rs: Records)
      requires Valid()
      reads this
      ensures rs.Keys == spaces && forall id :: id in spaces ==> rs[id] == Current(id)
    {
      map id | id in spaces :: Current(id)
    }

    /** PutSRW appends a version; a failed write may have landed. `steady` promises that none fails. */
    method Put(id: string, b: Box, steady: bool) returns (ok: bool, ghost landed: bool)
      requires Valid() && id in spaces
      modifies this
      ensures Valid() && spaces == old(spaces) && (ok ==> landed)
      ensures Appended(old(versions), versions, id, b, landed)
      ensures View() == if landed then old(View())[id := Some(b)] else old(View())
      ensures Grown(old(versions), versions) && (steady ==> ok)
    {
      var lost, lands := *, *;
      lost := lost && !steady;
      ok, landed := !lost, !lost || lands;
      if !lost || lands {
        versions := versions[id := versions[id] + [b]];
      }
    }
  }

  /** SRW: moves every Space's server envelope from the old key to the new. */
  method RotateSRW(store: EnvelopeStore, oldKey: Key, newKey: Key, steady: bool)
    returns (counts: Counts, failure: Option<Failure>)
    requires store.Valid()
    modifies store
    ensures store.Valid() && store.spaces == old(store.spaces)
    ensures Grown(old(store.versions), store.versions)
    ensures failure == Some(BadKeys) <==> !(|oldKey| == 32 && |newKey| == 32 && oldKey != newKey)
    ensures failure == Some(BadKeys) ==> store.versions == old(store.versions)
    ensures Moved(old(store.View()), store.View(), oldKey, newKey)
    ensures failure.None? ==> Completed(old(store.View()), store.View(), oldKey, newKey)
    ensures failure.None? ==> counts.rotated == |Rotating(old(store.View()), oldKey)|
                              && counts.already == |Already(old(store.View()), oldKey, newKey)|
                              && counts.rotated + counts.already + counts.skipped == |store.spaces|
    ensures failure.Some? && failure.value.KeyMismatch? ==>
              failure.value.id in store.spaces && !Rotatable(old(store.View()), oldKey, newKey)
    ensures failure.None? ==> Rotatable(old(store.View()), oldKey, newKey)
    ensures steady ==> (failure.None? <==> GoodKeys(oldKey, newKey) && Rotatable(old(store.View()), oldKey, newKey))
  {
    hide PassedTo, Tallied, Moved, Rewrapped, Treated, Rotatable, Completed, Rotating, Already, Less, Grown,
         Appended, GoodKeys, Elements, Empty,
         EnvelopeStore.View, EnvelopeStore.Current, EnvelopeStore.Valid;
    counts, failure := Counts(0, 0, 0), None;
    ghost var before, versions := store.View(), store.versions;
    NothingMoves(before, oldKey, newKey);
    GrownIsOrder(versions, versions, versions);
    GoodKeysAre(oldKey, newKey);
    if !GoodKeys(oldKey, newKey) {
      return counts, Some(BadKeys);
    }
    var broken := *;
    if broken && !steady {
      return counts, Some(StoreFailed);
    }
    var ids := SortStrings(store.spaces);
    PassStarts(before, ids, oldKey, newKey);
    for i := 0 to |ids|
      invariant failure.None? && store.Valid() && store.spaces == before.Keys && Grown(versions, store.versions)
      invariant PassedTo(before, store.View(), ids, i, oldKey, newKey)
      invariant Tallied(before, Elements(ids[..i]), counts, oldKey, newKey)
    {
      ghost var now, tally, held := store.View(), counts, store.versions;
      AtRecord(before, now, ids, i, oldKey, newKey);
      ghost var landed;
      counts, failure, landed := RewrapEnvelope(store, ids[i], oldKey, newKey, counts, steady);
      GrownIsOrder(versions, held, store.versions);
      if landed {
        PassWrites(before, now, ids, i, oldKey, newKey, store.View());
      }
      if failure.Some? {
        if failure.value.KeyMismatch? {
          NeitherOpens(before, ids[i], oldKey, newKey);
        }
        return;
      }
      PassStep(before, now, ids, i, tally, oldKey, newKey, store.View());
    }
    PassEnds(before, store.View(), ids, counts, oldKey, newKey);
    CompletedMoves(before, store.View(), oldKey, newKey);
  }

  /** One turn of SRW's loop: one Space's envelope is read, re-wrapped and stored, or counted. */
  method RewrapEnvelope(store: EnvelopeStore, id: string, oldKey: Key, newKey: Key, counted: Counts, steady: bool)
    returns (counts: Counts, failure: Option<Failure>, ghost landed: bool)
    requires store.Valid() && id in store.spaces && GoodKeys(oldKey, newKey)
    modifies store
    ensures store.Valid() && store.spaces == old(store.spaces) && Grown(old(store.versions), store.versions)
    ensures store.View() == old(store.View())[id := store.View()[id]]
    ensures if landed then Rewrapped(old(store.View())[id], store.View()[id], oldKey, newKey) else store.View() == old(store.View())
    ensures failure.None? ==> Treated(old(store.View())[id], store.View()[id], oldKey, newKey)
                              && counts == Counted(counted, old(store.View())[id], oldKey, newKey)
    ensures failure.Some? ==> counts == counted && failure.value in {StoreFailed, KeyMismatch(id)}
    ensures steady ==> failure.None? || failure == Some(KeyMismatch(id))
    ensures failure == Some(KeyMismatch(id)) ==>
              var r := old(store.View())[id];
              r.Some? && Open(r.value, oldKey).None? && Open(r.value, newKey).None?
  {
    hide Rewrapped, Treated, Grown, Appended, EnvelopeStore.View, EnvelopeStore.Current, GoodKeys;
    counts, failure, landed := counted, None, false;
    GrownIsOrder(store.versions, store.versions, store.versions);
    var unreadable, nonce: nat := *, *;
    if unreadable && !steady {
      return counts, Some(StoreFailed), false;
    }
    var current := store.Current(id);
    RecordCases(current, oldKey, newKey, nonce);
    if current.None? {
      counts := counts.(skipped := counts.skipped + 1);
      return;
    }
    var dk := Open(current.value, oldKey);
    if dk.None? {
      if Open(current.value, newKey).None? {
        return counts, Some(KeyMismatch(id)), false;
      }
      counts := counts.(already := counts.already + 1);
      return;
    }
    var ok;
    ok, landed := store.Put(id, Box(newKey, dk.value, nonce), steady);
    if !ok {
      return counts, Some(StoreFailed), landed;
    }
    counts := counts.(rotated := counts.rotated + 1);
  }

  /** The targets' sealed credentials, replaced in place; a target may hold none. */
  class TargetStore {
    var creds: Records

    /** UpdateTarget; a failed write may have landed. */
    method Update(id: string, b: Box, steady: bool) returns (ok: bool, ghost landed: bool)
      requires id in creds
      modifies this
      ensures creds == (if landed then old(creds)[id := Some(b)] else old(creds)) && (ok ==> landed) && (steady ==> ok)
    {
      var lost, lands := *, *;
      lost := lost && !steady;
      ok, landed := !lost, !lost || lands;
      if !lost || lands {
        creds := creds[id := Some(b)];
      }
    }
  }

  /** TW: the same over every target, reading from one listing taken at the start. */
  method RotateTW(store: TargetStore, oldKey: Key, newKey: Key, steady: bool)
    returns (counts: Counts, failure: Option<Failure>)
    modifies store
    ensures failure == Some(BadKeys) <==> !(|oldKey| == 32 && |newKey| == 32 && oldKey != newKey)
    ensures failure == Some(BadKeys) ==> store.creds == old(store.creds)
    ensures Moved(old(store.creds), store.creds, oldKey, newKey)
    ensures failure.None? ==> Completed(old(store.creds), store.creds, oldKey, newKey)
    ensures failure.None? ==> counts.rotated == |Rotating(old(store.creds), oldKey)|
                              && counts.already == |Already(old(store.creds), oldKey, newKey)|
                              && counts.rotated + counts.already + counts.skipped == |store.creds|
    ensures failure.Some? && failure.value.KeyMismatch? ==>
              failure.value.id in store.creds && !Rotatable(old(store.creds), oldKey, newKey)
    ensures failure.None? ==> Rotatable(old(store.creds), oldKey, newKey)
    ensures steady ==> (failure.None? <==> GoodKeys(oldKey, newKey) && Rotatable(old(store.creds), oldKey, newKey))
  {
    hide PassedTo, Tallied, Moved, Rewrapped, Treated, Rotatable, Completed, Rotating, Already, Less, GoodKeys,
         Elements, Empty;
    counts, failure := Counts(0, 0, 0), None;
    ghost var before := store.creds;
    NothingMoves(before, oldKey, newKey);
    GoodKeysAre(oldKey, newKey);
    if !GoodKeys(oldKey, newKey) {
      return counts, Some(BadKeys);
    }
    var broken := *;
    if broken && !steady {
      return counts, Some(StoreFailed);
    }
    var all := store.creds;
    var ids := SortStrings(all.Keys);
    PassStarts(before, ids, oldKey, newKey);
    for i := 0 to |ids|
      invariant PassedTo(before, store.creds, ids, i, oldKey, newKey)
      invariant Tallied(before, Elements(ids[..i]), counts, oldKey, newKey)
      invariant store.creds.Keys == before.Keys && failure.None?
    {
      ghost var now, tally := store.creds, counts;
      AtRecord(before, now, ids, i, oldKey, newKey);
      ghost var landed;
      counts, failure, landed := RewrapTarget(store, ids[i], all[ids[i]], oldKey, newKey, counts, steady);
      if landed {
        PassWrites(before, now, ids, i, oldKey, newKey, store.creds);
      }
      if failure.Some? {
        if failure.value.KeyMismatch? {
          NeitherOpens(before, ids[i], oldKey, newKey);
        }
        return;
      }
      PassStep(before, now, ids, i, tally, oldKey, newKey, store.creds);
    }
    PassEnds(before, store.creds, ids, counts, oldKey, newKey);
    CompletedMoves(before, store.creds, oldKey, newKey);
  }

  /** One turn of TW's loop: one target's credentials, as listed, are re-wrapped and replaced, or counted. */
  method RewrapTarget(store: TargetStore, id: string, current: Option<Box>, oldKey: Key, newKey: Key, counted: Counts,
                      steady: bool)
    returns (counts: Counts, failure: Option<Failure>, ghost landed: bool)
    requires id in store.creds && current == store.creds[id] && GoodKeys(oldKey, newKey)
    modifies store
    ensures id in store.creds && store.creds == old(store.creds)[id := store.creds[id]]
    ensures if landed then Rewrapped(current, store.creds[id], oldKey, newKey) else store.creds == old(store.creds)
    ensures failure.None? ==> Treated(current, store.creds[id], oldKey, newKey)
                              && counts == Counted(counted, current, oldKey, newKey)
    ensures failure.Some? ==> counts == counted && failure.value in {StoreFailed, KeyMismatch(id)}
    ensures steady ==> failure.None? || failure == Some(KeyMismatch(id))
    ensures failure == Some(KeyMismatch(id)) ==>
              current.Some? && Open(current.value, oldKey).None? && Open(current.value, newKey).None?
  {
    hide Rewrapped, Treated, GoodKeys;
    counts, failure, landed := counted, None, false;
    var nonce: nat, sealFails := *, *;
    RecordCases(current, oldKey, newKey, nonce);
    if current.None? {
      counts := counts.(skipped := counts.skipped + 1);
      return;
    }
    var creds := Open(current.value, oldKey);
    if creds.None? {
      if Open(current.value, newKey).None? {
        return counts, Some(KeyMismatch(id)), false;
      }
      counts := counts.(already := counts.already + 1);
      return;
    }
    if sealFails && !steady {
      return counts, Some(StoreFailed), false;
    }
    var ok;
    ok, landed := store.Update(id, Box(newKey, creds.value, nonce), steady);
    if !ok {
      return counts, Some(StoreFailed), landed;
    }
    counts := counts.(rotated := counts.rotated + 1);
  }
}
