/** The durable job store (internal/jobs/state.go): one document per run under an ordered key name,
    an index from ids to keys and a set of keys known to hold finished runs. Proved against the map
    of jobs that MemoryStore keeps. */
module JobStore {
  import opened Wrappers
  import opened Ordered
  import opened Text
  import opened Jobs
  import opened JobKeys
  import opened FlatStore

  // ---- what the stored documents mean ----

  /** Every document lies under its own name and no two share an id. */
  ghost predicate WellFiled(docs: map<string, Job>) {
    && (forall k {:trigger Filed(k, docs[k])} :: k in docs ==> Filed(k, docs[k]))
    && (forall k, l, id :: IsIdOf(docs, k, id) && IsIdOf(docs, l, id) ==> k == l)
  }

  ghost predicate IsIdOf(docs: map<string, Job>, key: string, id: string) { key in docs && docs[key].id == id }

  lemma NamesAreWhole(docs: map<string, Job>)
    requires WellFiled(docs)
    ensures forall k :: k in docs ==> docs[k].id != "" && docs[k].space != ""
  {
    hide DocumentKey, LegacyKey;
    forall k | k in docs ensures docs[k].id != "" && docs[k].space != "" {
      assert Filed(k, docs[k]);
    }
  }

  lemma IdsAreDistinct(docs: map<string, Job>)
    requires WellFiled(docs)
    ensures forall k, l :: k in docs && l in docs && docs[k].id == docs[l].id ==> k == l
  {
    hide Filed;
    forall k, l | k in docs && l in docs && docs[k].id == docs[l].id ensures k == l {
      assert IsIdOf(docs, k, docs[k].id) && IsIdOf(docs, l, docs[k].id);
    }
  }

  /** What an id's key says of the map of jobs. */
  lemma KeyAnswers(docs: map<string, Job>, id: string, key: Option<string>)
    requires WellFiled(docs)
    requires key.Some? ==> forall k :: IsIdOf(docs, k, id) ==> k == key.value
    requires key.Some? && key.value in docs ==> docs[key.value].id == id
    requires key.None? ==> forall k :: !IsIdOf(docs, k, id)
    ensures key.Some? && key.value in docs ==> Lookup(JobsOf(docs), id) == Ok(docs[key.value])
    ensures key.None? || key.value !in docs ==> Lookup(JobsOf(docs), id) == Err(NoSuchJob) && forall k :: !IsIdOf(docs, k, id)
  {
    hide WellFiled;
    if key.Some? && key.value in docs {
      assert IsIdOf(docs, key.value, id);
    }
  }

  lemma SomeDocsWellFiled(docs: map<string, Job>, some: map<string, Job>)
    requires WellFiled(docs) && forall k :: k in some ==> k in docs && docs[k] == some[k]
    ensures WellFiled(some)
  {
    hide Filed;
    forall k | k in some ensures Filed(k, some[k]) { assert Filed(k, docs[k]); }
    forall k, l, id | IsIdOf(some, k, id) && IsIdOf(some, l, id) ensures k == l {
      assert IsIdOf(docs, k, id) && IsIdOf(docs, l, id);
    }
  }

  /** The stored jobs by id. */
  ghost function JobsOf(docs: map<string, Job>): (jobs: map<string, Job>)
    requires WellFiled(docs)
    ensures WellKeyed(jobs)
    ensures forall k, id :: IsIdOf(docs, k, id) ==> id in jobs && jobs[id] == docs[k]
    ensures forall id :: id in jobs ==> exists k :: IsIdOf(docs, k, id)
  {
    NamesAreWhole(docs);
    assert forall k :: k in docs ==> IsIdOf(docs, k, docs[k].id);
    map k | k in docs :: docs[k].id := docs[k]
  }

  /** The id index never misleads: an entry points at the document with that id or, if another
      process deleted it, at none. Once hydrated it misses no document. */
  ghost predicate IndexAgrees(docs: map<string, Job>, index: map<string, string>, indexed: bool) {
    && (forall id :: id in index ==> IdFromKey(index[id]) == Some(id))
    && (forall id :: id in index && index[id] in docs ==> docs[index[id]].id == id)
    && (forall k :: k in docs && docs[k].id in index ==> index[docs[k].id] == k)
    && (indexed ==> forall k :: k in docs ==> docs[k].id in index)
  }

  /** Every cached key that exists holds a finished run. */
  ghost predicate TerminalAgrees(docs: map<string, Job>, terminal: set<string>) {
    forall k :: k in terminal && k in docs ==> docs[k].state.Terminal()
  }

  /** No cache entry outlives its document, which holds while only this process deletes. */
  ghost predicate NothingStale(docs: map<string, Job>, index: map<string, string>, terminal: set<string>) {
    (forall id :: id in index ==> index[id] in docs) && terminal <= docs.Keys
  }

  /** A hydrated index without stale entries is exactly the id-to-key map of the stored jobs. */
  lemma HydratedIndexIsExact(docs: map<string, Job>, index: map<string, string>)
    requires WellFiled(docs)
    ensures IndexAgrees(docs, index, true) && NothingStale(docs, index, {})
       <==> (forall id, k :: id in index && index[id] == k <==> IsIdOf(docs, k, id))
  {
    hide Filed, IdFromKey, CreatedFromKey, KindFromKey;
    if forall id, k :: id in index && index[id] == k <==> IsIdOf(docs, k, id) {
      forall k | k in docs ensures docs[k].id in index && index[docs[k].id] == k {
        assert IsIdOf(docs, k, docs[k].id);
      }
      forall id | id in index ensures IsIdOf(docs, index[id], id) && IdFromKey(index[id]) == Some(id) {
        var k := index[id];
        assert IsIdOf(docs, k, id);
        KeyFacts(k, docs[k]);
      }
    }
  }

  /** Another process may delete a document without leaving this one's caches wrong. */
  lemma ForeignDeletion(docs: map<string, Job>, index: map<string, string>, indexed: bool, terminal: set<string>,
                        key: string)
    requires WellFiled(docs) && IndexAgrees(docs, index, indexed) && TerminalAgrees(docs, terminal)
    ensures var left := docs - {key}; WellFiled(left) && IndexAgrees(left, index, indexed) && TerminalAgrees(left, terminal)
  {
    hide Filed;
    SomeDocsWellFiled(docs, docs - {key});
  }

  /** The documents that can be read while some cannot. */
  ghost function Readable(docs: map<string, Job>, unread: set<string>): (seen: map<string, Job>)
    requires WellFiled(docs)
    ensures WellFiled(seen) && seen.Keys == docs.Keys - unread && forall k :: k in seen ==> seen[k] == docs[k]
    ensures unread == {} ==> seen == docs
  {
    SomeDocsWellFiled(docs, docs - unread);
    docs - unread
  }

  // ---- recent history, read off key names ----

  predicate KindFits(j: Job, kind: string) { kind == "" || j.kind == kind }

  /** The keys below a Space's folder whose documents are of the kind. */
  function MatchingKeys(docs: map<string, Job>, space: string, kind: string): set<string> {
    set k | k in docs && HasSegmentPrefix(k, SpaceFolder(space)) && KindFits(docs[k], kind)
  }

  /** The last `limit` of an ascending listing. */
  function TakeNewest(list: seq<string>, limit: int): seq<string> {
    if limit > 0 && |list| > limit then list[|list| - limit..] else list
  }

  function DocsAt(docs: map<string, Job>, keys: seq<string>): set<Job> {
    set k | k in keys && k in docs :: docs[k]
  }

  lemma DocsAreDistinct(docs: map<string, Job>, keys: seq<string>)
    requires WellFiled(docs)
    ensures DistinctIDs(DocsAt(docs, keys))
  {
    hide Filed;
    IdsAreDistinct(docs);
  }

  /** What listRecent returns: the newest keys, in newest-first order of their documents. */
  ghost function RecentByKey(docs: map<string, Job>, space: string, kind: string, limit: int): seq<Job>
    requires WellFiled(docs)
  {
    var keys := TakeNewest(Listing(MatchingKeys(docs, space, kind)), limit);
    DocsAreDistinct(docs, keys);
    History(DocsAt(docs, keys))
  }

  /** A Space's folder holds exactly its jobs; the empty id's folder holds every Space's. */
  lemma FolderIsSpace(docs: map<string, Job>, space: string, kind: string)
    requires WellFiled(docs)
    ensures MatchingKeys(docs, space, kind)
         == set k | k in docs && (space == "" || docs[k].space == space) && KindFits(docs[k], kind)
    ensures space != "" ==> Matching(JobsOf(docs), space, kind) == DocsAt(docs, Listing(MatchingKeys(docs, space, kind)))
  {
    hide SpaceFolder, HasSegmentPrefix, Filed;
    forall k | k in docs ensures HasSegmentPrefix(k, SpaceFolder(space)) <==> space == "" || space == docs[k].space {
      FolderHolds(k, docs[k], space);
    }
    assert forall k :: k in docs ==> IsIdOf(docs, k, docs[k].id);
    if space != "" {
      var jobs, keys := JobsOf(docs), Listing(MatchingKeys(docs, space, kind));
      forall j | j in Matching(jobs, space, kind) ensures j in DocsAt(docs, keys) {
        var k :| IsIdOf(docs, k, j.id);
        assert k in keys;
      }
    }
  }

  /** Along a listing of one Space, jobs grow younger. */
  lemma KeysAreChronological(docs: map<string, Job>, keys: seq<string>, space: string)
    requires WellFiled(docs) && Ascending(keys, Less)
    requires forall k :: k in keys ==> k in docs && docs[k].space == space
    ensures forall i, j :: 0 <= i < j < |keys| ==> docs[keys[i]].created <= docs[keys[j]].created
  {
    hide Filed, Less;
    forall i, j | 0 <= i < j < |keys| ensures docs[keys[i]].created <= docs[keys[j]].created {
      if docs[keys[j]].created < docs[keys[i]].created {
        KeyOrder(keys[j], keys[i], docs[keys[j]], docs[keys[i]]);
        LessTrichotomy(keys[j], keys[i]);
      }
    }
  }

  /** No job left out is younger than one taken. */
  ghost predicate Youngest(taken: set<Job>, all: set<Job>) {
    taken <= all && forall x, y :: x in taken && y in all && y !in taken ==> y.created <= x.created
  }

  lemma SubsetSize<T>(a: set<T>, b: set<T>)
    requires a <= b
    ensures |a| <= |b| && (|a| == |b| ==> a == b)
  {
    assert b == a + (b - a);
  }

  /** The first m places of a history are themselves a history, of m jobs. */
  lemma HistoryPrefix(all: set<Job>, m: nat)
    requires DistinctIDs(all) && m <= |History(all)|
    ensures |History(all)| == |all| && |Elements(History(all)[..m])| == m
    ensures Elements(History(all)[..m]) <= all && DistinctIDs(Elements(History(all)[..m]))
    ensures History(Elements(History(all)[..m])) == History(all)[..m]
  {
    hide NewestFirst;
    NewestFirstIsOrder(all);
    var h := History(all);
    ListsSize(h, all, NewestFirst);
    SplitLists(h, m, NewestFirst);
    ListsSize(h[..m], Elements(h[..m]), NewestFirst);
    HistoryIs(h[..m], Elements(h[..m]));
  }

  /** A history never grows younger. */
  lemma HistoryAges(all: set<Job>)
    requires DistinctIDs(all)
    ensures forall i, j :: 0 <= i <= j < |History(all)| ==> History(all)[i].created >= History(all)[j].created
    ensures forall x :: x in History(all) <==> x in all
  {
    assert forall x :: x in Elements(History(all)) <==> x in all;
  }

  /** Whichever youngest jobs are taken, they have the creation times the reference history starts
      with. */
  lemma YoungestTimes(taken: set<Job>, all: set<Job>, i: nat)
    requires DistinctIDs(all) && Youngest(taken, all) && i < |taken|
    ensures |History(taken)| == |taken| && |History(all)| == |all| && i < |all|
    ensures History(taken)[i].created == History(all)[i].created
  {
    hide History, DistinctIDs;
    DistinctSubset(taken, all);
    HistoryPrefix(all, 0);
    HistoryPrefix(taken, 0);
    SubsetSize(taken, all);
    TakenNotOlder(taken, all, i);
    TakenNotYounger(taken, all, i);
  }

  lemma DistinctSubset(taken: set<Job>, all: set<Job>)
    requires DistinctIDs(all) && taken <= all
    ensures DistinctIDs(taken)
  {
  }

  lemma TakenNotOlder(taken: set<Job>, all: set<Job>, i: nat)
    requires DistinctIDs(taken) && DistinctIDs(all) && Youngest(taken, all)
    requires i < |History(taken)| && i < |History(all)|
    ensures History(taken)[i].created >= History(all)[i].created
  {
    hide History, DistinctIDs, Lists, NewestFirst;
    var r, h := History(taken), History(all);
    HistoryPrefix(all, i + 1);
    HistoryPrefix(taken, i);
    if r[i].created < h[i].created {
      PlacesAbove(all, i, r[i].created);
      ElementsAbove(taken, i);
      HistoryAges(taken);
      OlderThanAll(taken, all, r[i], Elements(h[..i + 1]));
      SubsetSize(Elements(h[..i + 1]), Elements(r[..i]));
    }
  }

  lemma TakenNotYounger(taken: set<Job>, all: set<Job>, i: nat)
    requires DistinctIDs(taken) && DistinctIDs(all) && taken <= all
    requires i < |History(taken)| && i < |History(all)|
    ensures History(taken)[i].created <= History(all)[i].created
  {
    hide History, DistinctIDs, Lists, NewestFirst;
    var r, h := History(taken), History(all);
    HistoryPrefix(taken, i + 1);
    HistoryPrefix(all, i);
    if r[i].created > h[i].created {
      PlacesAbove(taken, i, h[i].created);
      ElementsAbove(all, i);
      SubsetSize(Elements(r[..i + 1]), Elements(h[..i]));
    }
  }

  /** The first i + 1 places are at least as young as place i. */
  lemma PlacesAbove(all: set<Job>, i: nat, t: int)
    requires DistinctIDs(all) && i < |History(all)| && t < History(all)[i].created
    ensures forall x :: x in Elements(History(all)[..i + 1]) ==> x in all && x.created > t
  {
    HistoryAges(all);
  }

  /** Whatever is younger than place i lies before it. */
  lemma ElementsAbove(all: set<Job>, i: nat)
    requires DistinctIDs(all) && i < |History(all)|
    ensures forall x :: x in all && x.created > History(all)[i].created ==> x in Elements(History(all)[..i])
  {
    HistoryAges(all);
    var h := History(all);
    forall x | x in all && x.created > h[i].created ensures x in h[..i] {
      assert x in h;
      var j :| 0 <= j < |h| && h[j] == x;
      assert j < i;
      assert h[..i][j] == x;
    }
  }

  /** Jobs younger than one that was taken were all taken. */
  lemma OlderThanAll(taken: set<Job>, all: set<Job>, x: Job, young: set<Job>)
    requires Youngest(taken, all) && x in taken && forall y :: y in young ==> y in all && y.created > x.created
    ensures young <= taken
  {
  }

  /** A cut between two creation times separates the places before it from all the rest. */
  lemma CleanCutSeparates(all: set<Job>, m: nat)
    requires DistinctIDs(all) && 0 < m < |History(all)|
    requires History(all)[m - 1].created != History(all)[m].created
    ensures forall y :: y in Elements(History(all)[..m]) ==> y in all && y.created > History(all)[m].created
    ensures forall x :: x in all && x !in Elements(History(all)[..m]) ==> x.created <= History(all)[m].created
  {
    hide History, DistinctIDs, NewestFirst, Lists;
    HistoryAges(all);
    var h := History(all);
    assert forall i :: 0 <= i < m ==> h[i] in h[..m];
    forall x | x in all && x !in Elements(h[..m]) ensures x.created <= h[m].created {
      var i :| 0 <= i < |h| && h[i] == x;
    }
  }

  /** Taking the youngest takes the start of the reference history when the cut falls between two
      creation times. */
  lemma CleanCutTakesPrefix(taken: set<Job>, all: set<Job>)
    requires DistinctIDs(all) && Youngest(taken, all) && |taken| <= |History(all)|
    requires 0 < |taken| < |History(all)| ==> History(all)[|taken| - 1].created != History(all)[|taken|].created
    ensures taken == Elements(History(all)[..|taken|]) && History(taken) == History(all)[..|taken|]
  {
    hide History, DistinctIDs, Lists, NewestFirst;
    var m, h := |taken|, History(all);
    HistoryPrefix(all, m);
    var first := Elements(h[..m]);
    if m == |h| {
      assert h[..m] == h;
      SubsetSize(taken, all);
      HistoryAges(all);
      assert first == all;
    } else if 0 < m {
      CleanCutSeparates(all, m);
      if taken <= first {
        SubsetSize(taken, first);
      } else {
        var x :| x in taken && x !in first;
        OlderThanAll(taken, all, x, first);
        SubsetSize(first, taken);
      }
    } else {
      assert h[..m] == [];
    }
  }

  /** Where a limit cuts a history it cuts between two creation times. */
  predicate CleanCut(full: seq<Job>, limit: int) {
    limit <= 0 || |full| <= limit || full[limit - 1].created != full[limit].created
  }

  /** One document per key, so as many documents as keys. */
  lemma {:induction false} DocsAtSize(docs: map<string, Job>, keys: seq<string>)
    requires WellFiled(docs) && Ascending(keys, Less) && forall k :: k in keys ==> k in docs
    ensures |DocsAt(docs, keys)| == |keys|
  {
    hide Filed, Less;
    IdsAreDistinct(docs);
    if keys != [] {
      var rest := keys[1..];
      DocsAtSize(docs, rest);
      assert keys == [keys[0]] + rest;
      assert DocsAt(docs, keys) == {docs[keys[0]]} + DocsAt(docs, rest);
      LessTrichotomy(keys[0], keys[0]);
      assert keys[0] !in rest;
    }
  }

  /** The last keys of a chronological listing hold youngest documents. */
  lemma LastKeysAreYoungest(docs: map<string, Job>, keys: seq<string>, space: string, cut: nat)
    requires WellFiled(docs) && Ascending(keys, Less) && cut <= |keys|
    requires forall k :: k in keys ==> k in docs && docs[k].space == space
    ensures Youngest(DocsAt(docs, keys[cut..]), DocsAt(docs, keys))
  {
    hide Filed, Less;
    KeysAreChronological(docs, keys, space);
    var taken, all := DocsAt(docs, keys[cut..]), DocsAt(docs, keys);
    assert keys == keys[..cut] + keys[cut..];
    forall x, y | x in taken && y in all && y !in taken ensures y.created <= x.created {
      var k :| k in keys[cut..] && docs[k] == x;
      var l :| l in keys[..cut] && docs[l] == y;
      var i :| cut <= i < |keys| && keys[i] == k;
      var j :| 0 <= j < cut && keys[j] == l;
    }
  }

  /** The documents a listing takes: youngest ones, as many as the limit lets through. */
  lemma TakenByKey(docs: map<string, Job>, space: string, kind: string, limit: int)
    requires WellFiled(docs)
    ensures var keys := Listing(MatchingKeys(docs, space, kind));
            var all, taken := DocsAt(docs, keys), DocsAt(docs, TakeNewest(keys, limit));
            && DistinctIDs(all) && DistinctIDs(taken) && taken <= all && |all| == |keys|
            && |taken| == (if limit > 0 && |keys| > limit then limit else |keys|)
            && (space != "" ==> Youngest(taken, all) && all == Matching(JobsOf(docs), space, kind))
  {
    hide Filed, Less, NewestFirst, SpaceFolder, HasSegmentPrefix, Youngest, DistinctIDs;
    var keys := Listing(MatchingKeys(docs, space, kind));
    var last := TakeNewest(keys, limit);
    FolderIsSpace(docs, space, kind);
    DocsAreDistinct(docs, keys);
    DocsAreDistinct(docs, last);
    var cut := if limit > 0 && |keys| > limit then |keys| - limit else 0;
    assert last == keys[cut..];
    if space != "" {
      LastKeysAreYoungest(docs, keys, space, cut);
    }
    DocsAtSize(docs, keys);
    LessIsOrder({});
    SplitLists(keys, cut, Less);
    assert forall k :: k in last ==> k in keys;
    DocsAtSize(docs, last);
  }

  /** What a listing takes from a Space, against the reference store: always the same number of jobs
      with the same creation times, place by place; the very same list when the limit does not cut
      through one creation time. */
  lemma RecentByKeyAgrees(docs: map<string, Job>, space: string, kind: string, limit: int)
    requires WellFiled(docs) && space != ""
    ensures var r, spec := RecentByKey(docs, space, kind, limit), Recent(JobsOf(docs), space, kind, limit);
            && |r| == |spec|
            && (forall i :: 0 <= i < |r| ==> r[i].created == spec[i].created && r[i] in Matching(JobsOf(docs), space, kind))
            && (CleanCut(Recent(JobsOf(docs), space, kind, 0), limit) ==> r == spec)
  {
    hide WellFiled, MatchingKeys, Matching, TakeNewest, DocsAt, NewestFirst, History, DistinctIDs, Lists, Youngest;
    TakenByKey(docs, space, kind, limit);
    var keys := Listing(MatchingKeys(docs, space, kind));
    var all, taken := DocsAt(docs, keys), DocsAt(docs, TakeNewest(keys, limit));
    HistoryPrefix(all, 0);
    HistoryPrefix(taken, 0);
    HistoryAges(taken);
    forall i | 0 <= i < |taken| ensures History(taken)[i].created == History(all)[i].created {
      YoungestTimes(taken, all, i);
    }
    if CleanCut(History(all), limit) {
      CleanCutTakesPrefix(taken, all);
      assert History(all)[..|History(all)|] == History(all);
    }
  }

  /** The condition on the cut is exact for a listing of one kind whose names all carry it: when the
      limit cuts through one creation time, the two stores break the tie the other way round. */
  lemma CutThroughATie(docs: map<string, Job>, space: string, kind: string, limit: int)
    requires WellFiled(docs) && space != "" && kind != ""
    requires forall k :: k in MatchingKeys(docs, space, kind) ==> k == DocumentKey(docs[k])
    ensures RecentByKey(docs, space, kind, limit) == Recent(JobsOf(docs), space, kind, limit)
       <==> CleanCut(Recent(JobsOf(docs), space, kind, 0), limit)
  {
    hide Filed, Less, History, MatchingKeys, DocumentKey, Matching, NewestFirst, DistinctIDs, Youngest;
    RecentByKeyAgrees(docs, space, kind, limit);
    TakenByKey(docs, space, kind, limit);
    var keys := Listing(MatchingKeys(docs, space, kind));
    var all, taken := DocsAt(docs, keys), DocsAt(docs, TakeNewest(keys, limit));
    var h := History(all);
    HistoryPrefix(all, 0);
    if !CleanCut(h, limit) {
      var x, y := h[limit - 1], h[limit];
      Neighbours(all, limit);
      MatchingFacts(docs, space, kind);
      TiedKeys(docs, keys, x, y);
      LaterKeyIsTaken(keys, DocumentKey(x), DocumentKey(y), |keys| - limit);
      KeyTaken(docs, keys, x, y, |keys| - limit);
      TieBreaksIt(all, taken, limit);
    }
  }

  /** Among the jobs created at one instant, those the reference store keeps have later keys than those it
      drops. */
  ghost predicate TiesFollowKeys(docs: map<string, Job>, history: seq<Job>, limit: int) {
    0 < limit < |history| ==>
      forall k, l | k in docs && l in docs && docs[k] in history[..limit] && docs[l] in history[limit..] ::
        docs[k].created == docs[l].created ==> Less(l, k)
  }

  /** What both stores list, in terms of one ascending listing of keys. */
  lemma BothListings(docs: map<string, Job>, space: string, kind: string, limit: int) returns (keys: seq<string>,
                     cut: nat)
    requires WellFiled(docs) && space != ""
    ensures Ascending(keys, Less) && cut <= |keys| && forall k :: k in keys ==> k in docs
    ensures var all, taken := DocsAt(docs, keys), DocsAt(docs, keys[cut..]);
            && DistinctIDs(all) && DistinctIDs(taken) && Youngest(taken, all) && |keys| == |all| == |History(all)|
            && |taken| == (if 0 < limit < |keys| then limit else |keys|)
            && RecentByKey(docs, space, kind, limit) == History(taken)
            && Recent(JobsOf(docs), space, kind, 0) == History(all)
            && Recent(JobsOf(docs), space, kind, limit) == if 0 < limit < |keys| then History(all)[..limit] else History(all)
  {
    hide WellFiled, Less, History, MatchingKeys, Matching, NewestFirst, DistinctIDs, Youngest, DocsAt;
    TakenByKey(docs, space, kind, limit);
    MatchingAreStored(docs, space, kind);
    keys := Listing(MatchingKeys(docs, space, kind));
    cut := if limit > 0 && |keys| > limit then |keys| - limit else 0;
    assert keys[0..] == keys && TakeNewest(keys, limit) == keys[cut..];
    HistoryPrefix(DocsAt(docs, keys), 0);
  }

  /** The two stores agree exactly when the limit breaks no tie, or breaks it as the keys do. */
  lemma AgreeIffTiesFollowKeys(docs: map<string, Job>, space: string, kind: string, limit: int)
    requires WellFiled(docs) && space != ""
    ensures RecentByKey(docs, space, kind, limit) == Recent(JobsOf(docs), space, kind, limit)
       <==> TiesFollowKeys(docs, Recent(JobsOf(docs), space, kind, 0), limit)
  {
    hide RecentByKey, Recent, WellFiled, Less, History, NewestFirst, DistinctIDs, Youngest, TiesFollowKeys, Lists, DocsAt,
         JobsOf;
    var keys, cut := BothListings(docs, space, kind, limit);
    var all, taken := DocsAt(docs, keys), DocsAt(docs, keys[cut..]);
    var h := History(all);
    if 0 < limit < |h| {
      HistoryPrefix(all, limit);
      HistoryElements(taken);
      if taken == Elements(h[..limit]) {
        TakenTiesFollow(docs, keys, cut, h, limit);
      } else if TiesFollowKeys(docs, h, limit) {
        OtherTiesDoNot(docs, keys, cut, h, limit);
      }
    } else {
      NoTies(docs, h, limit);
      YoungestAreSome(taken, all);
      SubsetSize(taken, all);
    }
  }

  lemma YoungestAreSome(taken: set<Job>, all: set<Job>)
    requires Youngest(taken, all)
    ensures taken <= all
  {
  }

  lemma NoTies(docs: map<string, Job>, history: seq<Job>, limit: int)
    requires !(0 < limit < |history|)
    ensures TiesFollowKeys(docs, history, limit) && CleanCut(history, limit)
  {
  }

  lemma MatchingAreStored(docs: map<string, Job>, space: string, kind: string)
    ensures forall k :: k in MatchingKeys(docs, space, kind) ==> k in docs
  {
  }

  lemma HistoryElements(all: set<Job>)
    requires DistinctIDs(all)
    ensures Elements(History(all)) == all
  {
    HistoryAges(all);
  }

  /** A key's document is among the last ones exactly when the key is. */
  lemma DocAtCut(docs: map<string, Job>, keys: seq<string>, cut: nat, k: string)
    requires WellFiled(docs) && cut <= |keys| && (forall l :: l in keys ==> l in docs) && k in docs
    ensures docs[k] in DocsAt(docs, keys[cut..]) <==> k in keys[cut..]
    ensures docs[k] in DocsAt(docs, keys) <==> k in keys
  {
    hide Filed;
    IdsAreDistinct(docs);
  }

  lemma CutOrders(keys: seq<string>, cut: nat, k: string, l: string)
    requires Ascending(keys, Less) && cut <= |keys| && l in keys && l !in keys[cut..] && k in keys[cut..]
    ensures Less(l, k)
  {
    hide Less;
    var j :| 0 <= j < |keys| && keys[j] == l;
    var i :| 0 <= i < |keys[cut..]| && keys[cut..][i] == k;
    assert forall n :: cut <= n < |keys| ==> keys[n] in keys[cut..];
    AscendingRanks(keys, j, i + cut);
  }

  lemma TakenTiesFollow(docs: map<string, Job>, keys: seq<string>, cut: nat, h: seq<Job>, m: nat)
    requires WellFiled(docs) && Ascending(keys, Less) && cut <= |keys| && m < |h| && forall k :: k in keys ==> k in docs
    requires DistinctIDs(DocsAt(docs, keys)) && h == History(DocsAt(docs, keys)) && DocsAt(docs, keys[cut..]) == Elements(h[..m])
    ensures TiesFollowKeys(docs, h, m)
  {
    hide WellFiled, Less, History, NewestFirst, DistinctIDs, DocsAt;
    HistoryElements(DocsAt(docs, keys));
    forall k, l | k in docs && l in docs && docs[k] in h[..m] && docs[l] in h[m..] && docs[k].created == docs[l].created
      ensures Less(l, k)
    {
      DocAtCut(docs, keys, cut, k);
      DocAtCut(docs, keys, cut, l);
      DroppedIsNotKept(DocsAt(docs, keys), m, docs[l]);
      assert docs[k] in Elements(h[..m]) && docs[l] in Elements(h);
      CutOrders(keys, cut, k, l);
    }
  }

  lemma DroppedIsNotKept(all: set<Job>, m: nat, y: Job)
    requires DistinctIDs(all) && m <= |History(all)| && y in History(all)[m..]
    ensures y !in Elements(History(all)[..m])
  {
    hide NewestFirst;
    NewestFirstIsOrder(all);
    SplitLists(History(all), m, NewestFirst);
    assert y in Elements(History(all)[m..]);
  }

  /** When others are taken than the reference keeps, a tie is broken against the keys. */
  lemma OtherTiesDoNot(docs: map<string, Job>, keys: seq<string>, cut: nat, h: seq<Job>, m: nat)
    requires WellFiled(docs) && Ascending(keys, Less) && cut <= |keys| && 0 < m < |h| && forall k :: k in keys ==> k in docs
    requires DistinctIDs(DocsAt(docs, keys)) && h == History(DocsAt(docs, keys))
    requires Youngest(DocsAt(docs, keys[cut..]), DocsAt(docs, keys)) && |DocsAt(docs, keys[cut..])| == m
    requires DocsAt(docs, keys[cut..]) != Elements(h[..m])
    ensures !TiesFollowKeys(docs, h, m)
  {
    hide WellFiled, Less, History, NewestFirst, DistinctIDs, Youngest, TiesFollowKeys, DocsAt;
    var all, taken := DocsAt(docs, keys), DocsAt(docs, keys[cut..]);
    var x, y := TiedAcross(taken, all, m);
    var k := KeyHolding(docs, keys, x);
    var l := KeyHolding(docs, keys[cut..], y);
    assert keys[cut..] <= keys[cut..] && forall n :: n in keys[cut..] ==> n in keys;
    DocAtCut(docs, keys, cut, k);
    CutOrders(keys, cut, l, k);
    AgainstKeys(docs, h, m, k, l);
  }

  lemma KeyHolding(docs: map<string, Job>, keys: seq<string>, x: Job) returns (k: string)
    requires x in DocsAt(docs, keys)
    ensures k in keys && k in docs && docs[k] == x
  {
    k :| k in keys && k in docs && docs[k] == x;
  }

  lemma AgainstKeys(docs: map<string, Job>, h: seq<Job>, m: nat, k: string, l: string)
    requires k in docs && l in docs && 0 < m < |h| && docs[k] in h[..m] && docs[l] in h[m..]
    requires docs[k].created == docs[l].created && Less(k, l)
    ensures !TiesFollowKeys(docs, h, m)
  {
    LessTrichotomy(k, l);
  }

  /** One job the reference keeps that is not taken, and one taken that it drops: both of one instant. */
  lemma TiedAcross(taken: set<Job>, all: set<Job>, m: nat) returns (x: Job, y: Job)
    requires DistinctIDs(all) && Youngest(taken, all) && |taken| == m && m < |History(all)|
    requires taken != Elements(History(all)[..m])
    ensures x in History(all)[..m] && x in all && x !in taken && y in taken && y in History(all)[m..] && x.created == y.created
  {
    hide History, NewestFirst, DistinctIDs;
    var h := History(all);
    var first := Elements(h[..m]);
    HistoryPrefix(all, m);
    HistoryAges(all);
    if first <= taken {
      SubsetSize(first, taken);
    }
    if taken <= first {
      SubsetSize(taken, first);
    }
    x, y := OneOfEach(first, taken);
    assert forall i :: 0 <= i < m ==> h[i] in h[..m];
    var i :| 0 <= i < |h| && h[i] == y;
    var j :| 0 <= j < m && h[j] == x;
    assert h[m..][i - m] == y;
  }

  lemma OneOfEach<T>(a: set<T>, b: set<T>) returns (x: T, y: T)
    requires !(a <= b) && !(b <= a)
    ensures x in a && x !in b && y in b && y !in a
  {
    x :| x in a && x !in b;
    y :| y in b && y !in a;
  }

  lemma MatchingFacts(docs: map<string, Job>, space: string, kind: string)
    requires WellFiled(docs) && space != "" && kind != ""
    ensures forall k :: k in MatchingKeys(docs, space, kind) ==> k in docs && docs[k].space == space && docs[k].kind == kind
  {
    hide Filed, SpaceFolder, HasSegmentPrefix;
    FolderIsSpace(docs, space, kind);
  }

  lemma Neighbours(all: set<Job>, m: nat)
    requires DistinctIDs(all) && 0 < m < |History(all)|
    ensures History(all)[m - 1] in all && History(all)[m] in all && NewestFirst(History(all)[m - 1], History(all)[m])
  {
    HistoryAges(all);
  }

  lemma KeyTaken(docs: map<string, Job>, keys: seq<string>, x: Job, y: Job, cut: nat)
    requires WellFiled(docs) && cut <= |keys|
    requires forall k :: k in keys ==> k in docs && k == DocumentKey(docs[k])
    requires DocumentKey(x) in keys && docs[DocumentKey(x)] == x && DocumentKey(y) in keys && docs[DocumentKey(y)] == y
    requires DocumentKey(x) in keys[cut..] ==> DocumentKey(y) in keys[cut..]
    ensures x in DocsAt(docs, keys[cut..]) ==> y in DocsAt(docs, keys[cut..])
  {
    hide Filed, DocumentKey;
  }

  /** A history cut between two neighbours is not the history of a set that holds the second whenever
      it holds the first. */
  lemma TieBreaksIt(all: set<Job>, taken: set<Job>, m: nat)
    requires DistinctIDs(all) && DistinctIDs(taken) && 0 < m < |History(all)|
    requires History(all)[m - 1] in taken ==> History(all)[m] in taken
    ensures History(taken) != History(all)[..m]
  {
    hide NewestFirst;
    HistoryAges(taken);
    HistoryPlace(all, m, m);
    assert History(all)[..m][m - 1] == History(all)[m - 1];
  }

  /** Two tied neighbours of a history lie in the same order in the listing. */
  lemma TiedKeys(docs: map<string, Job>, keys: seq<string>, x: Job, y: Job)
    requires WellFiled(docs) && forall k :: k in keys ==> k in docs && k == DocumentKey(docs[k])
    requires x in DocsAt(docs, keys) && y in DocsAt(docs, keys)
    requires x.space == y.space && x.kind == y.kind && x.created == y.created && NewestFirst(x, y)
    ensures DocumentKey(x) in keys && DocumentKey(y) in keys && Less(DocumentKey(x), DocumentKey(y))
    ensures docs[DocumentKey(x)] == x && docs[DocumentKey(y)] == y
  {
    hide Filed, Less, DocumentKey, Nameable;
    FiledIsNameable(DocumentKey(x), x);
    FiledIsNameable(DocumentKey(y), y);
    KeyOrderAtTie(x, y);
  }

  /** A place of a history is not repeated before it. */
  lemma HistoryPlace(all: set<Job>, m: nat, i: nat)
    requires DistinctIDs(all) && m <= i < |History(all)|
    ensures History(all)[i] !in History(all)[..m]
  {
    NewestFirstIsOrder(all);
    var h := History(all);
    assert Ascending(h, NewestFirst);
    forall j | 0 <= j < m ensures h[j] != h[i] {
      assert NewestFirst(h[j], h[i]);
    }
  }

  lemma AscendingRanks(keys: seq<string>, i: nat, j: nat)
    requires Ascending(keys, Less) && i < |keys| && j < |keys|
    ensures Less(keys[i], keys[j]) <==> i < j
    ensures keys[i] == keys[j] <==> i == j
  {
    LessTrichotomy(keys[i], keys[j]);
  }

  lemma LaterKeyIsTaken(keys: seq<string>, k: string, l: string, cut: nat)
    requires Ascending(keys, Less) && k in keys && l in keys && Less(k, l) && cut <= |keys|
    ensures k in keys[cut..] ==> l in keys[cut..]
  {
    hide Less;
    var i :| 0 <= i < |keys| && keys[i] == k;
    var j :| 0 <= j < |keys| && keys[j] == l;
    AscendingRanks(keys, i, j);
    if k in keys[cut..] {
      var n :| 0 <= n < |keys[cut..]| && keys[cut..][n] == k;
      AscendingRanks(keys, n + cut, i);
      assert keys[cut..][j - cut] == l;
    }
  }

  /** The empty Space id names every Space's folder here and no Space in the reference store: the two
      answer alike exactly when no job of the kind is stored. */
  lemma EmptySpaceListsAll(docs: map<string, Job>, kind: string, limit: int)
    requires WellFiled(docs)
    ensures RecentByKey(docs, "", kind, limit) == Recent(JobsOf(docs), "", kind, limit)
       <==> forall k :: k in docs ==> !KindFits(docs[k], kind)
  {
    hide Less, History, NewestFirst, DistinctIDs, MatchingKeys, TakeNewest, DocsAt, WellFiled, Matching;
    TakenByKey(docs, "", kind, limit);
    var keys := Listing(MatchingKeys(docs, "", kind));
    NoJobWithoutSpace(JobsOf(docs), kind);
    AllKeysOfKind(docs, kind);
    HistoryPrefix(DocsAt(docs, TakeNewest(keys, limit)), 0);
    HistoryOfNone();
    LessIsOrder({});
    ListsSize(keys, MatchingKeys(docs, "", kind), Less);
    if k :| k in docs && KindFits(docs[k], kind) {
      assert k in keys;
    }
  }

  lemma NoJobWithoutSpace(jobs: map<string, Job>, kind: string)
    requires WellKeyed(jobs)
    ensures Matching(jobs, "", kind) == {}
  {
  }

  lemma AllKeysOfKind(docs: map<string, Job>, kind: string)
    requires WellFiled(docs)
    ensures MatchingKeys(docs, "", kind) == set k | k in docs && KindFits(docs[k], kind)
  {
    hide Filed, SpaceFolder, HasSegmentPrefix;
    FolderIsSpace(docs, "", kind);
  }

  lemma HistoryOfNone()
    ensures DistinctIDs({}) && History({}) == []
  {
    HistoryPrefix({}, 0);
  }

  // ---- changing one document ----

  lemma DocAdded(docs: map<string, Job>, key: string, j: Job)
    requires WellFiled(docs) && Filed(key, j) && key !in docs && j.id !in JobsOf(docs)
    ensures WellFiled(docs[key := j]) && JobsOf(docs[key := j]) == JobsOf(docs)[j.id := j]
  {
    hide Filed, JobsOf;
    var after := docs[key := j];
    forall k | k in docs ensures docs[k].id != j.id && IsIdOf(docs, k, docs[k].id) { assert IsIdOf(docs, k, docs[k].id); }
    forall k, l, id | IsIdOf(after, k, id) && IsIdOf(after, l, id) ensures k == l {
      assert id != j.id ==> IsIdOf(docs, k, id) && IsIdOf(docs, l, id);
    }
    forall k | k in after ensures Filed(k, after[k]) { assert k != key ==> Filed(k, docs[k]); }
    var jobs := JobsOf(docs)[j.id := j];
    forall id | id in jobs ensures exists k :: IsIdOf(after, k, id) {
      if id == j.id {
        assert IsIdOf(after, key, id);
      } else {
        var k :| IsIdOf(docs, k, id);
        assert IsIdOf(after, k, id);
      }
    }
    JobsAre(after, jobs);
  }

  /** The map of stored jobs is the only one that holds each under its id and no more. */
  lemma JobsAre(docs: map<string, Job>, jobs: map<string, Job>)
    requires WellFiled(docs)
    requires forall k :: k in docs ==> docs[k].id in jobs && jobs[docs[k].id] == docs[k]
    requires forall id :: id in jobs ==> exists k :: IsIdOf(docs, k, id)
    ensures jobs == JobsOf(docs)
  {
    hide Filed, JobsOf;
    forall id | id in jobs ensures id in JobsOf(docs) && JobsOf(docs)[id] == jobs[id] {
      var k :| IsIdOf(docs, k, id);
    }
    forall id | id in JobsOf(docs) ensures id in jobs {
      var k :| IsIdOf(docs, k, id);
    }
  }

  lemma DocReplaced(docs: map<string, Job>, key: string, j: Job)
    requires WellFiled(docs) && Filed(key, j) && IsIdOf(docs, key, j.id)
    ensures WellFiled(docs[key := j]) && JobsOf(docs[key := j]) == JobsOf(docs)[j.id := j]
  {
    hide Filed, JobsOf;
    var after := docs[key := j];
    forall k, l, id | IsIdOf(after, k, id) && IsIdOf(after, l, id) ensures k == l {
      assert IsIdOf(docs, k, id) && IsIdOf(docs, l, id);
    }
    forall k | k in after ensures Filed(k, after[k]) { assert k != key ==> Filed(k, docs[k]); }
    IdsAreDistinct(docs);
    forall k | k in after ensures k == key || (docs[k].id != j.id && IsIdOf(docs, k, docs[k].id)) {
    }
    var jobs := JobsOf(docs)[j.id := j];
    forall id | id in jobs ensures exists k :: IsIdOf(after, k, id) {
      var k :| IsIdOf(docs, k, id);
      assert IsIdOf(after, k, id);
    }
    JobsAre(after, jobs);
  }

  lemma DocRemoved(docs: map<string, Job>, key: string)
    requires WellFiled(docs) && key in docs
    ensures WellFiled(docs - {key}) && JobsOf(docs - {key}) == JobsOf(docs) - {docs[key].id}
  {
    hide Filed, JobsOf;
    var after := docs - {key};
    var gone := docs[key].id;
    SomeDocsWellFiled(docs, after);
    IdsAreDistinct(docs);
    forall k | k in after ensures docs[k].id != gone && IsIdOf(docs, k, docs[k].id) {
    }
    var jobs := JobsOf(docs) - {gone};
    forall id | id in jobs ensures exists k :: IsIdOf(after, k, id) {
      var k :| IsIdOf(docs, k, id);
      assert IsIdOf(after, k, id);
    }
    JobsAre(after, jobs);
  }

  /** An outcome never moves a record to another name. */
  lemma OutcomeKeepsName(key: string, j: Job, out: Outcome, now: int64)
    requires Filed(key, j)
    ensures Filed(key, ApplyOutcome(j, out, now))
  {
    hide Stamp, IsHexID;
  }

  lemma KeyIsFiled(docs: map<string, Job>, key: string)
    requires WellFiled(docs) && key in docs
    ensures IdFromKey(key) == Some(docs[key].id) && CreatedFromKey(key) == Some(docs[key].created)
    ensures KindFromKey(key) in {None, Some(docs[key].kind)}
    ensures HasSegmentPrefix(key, JOBS_PREFIX)
    ensures docs[key].id != "" && docs[key].space != ""
    ensures forall space :: space != "" ==> (HasSegmentPrefix(key, SpaceFolder(space)) <==> docs[key].space == space)
  {
    hide Filed, IdFromKey, CreatedFromKey, KindFromKey, HasSegmentPrefix, SpaceFolder;
    KeyFacts(key, docs[key]);
    FolderHolds(key, docs[key], "");
    NamesAreWhole(docs);
    forall space | space != "" ensures HasSegmentPrefix(key, SpaceFolder(space)) <==> docs[key].space == space {
      FolderHolds(key, docs[key], space);
    }
  }

  /** Pointing an id at its own document keeps the index right. */
  lemma IndexSet(docs: map<string, Job>, index: map<string, string>, terminal: set<string>, key: string)
    requires WellFiled(docs) && key in docs && IndexAgrees(docs, index, false)
    ensures IndexAgrees(docs, index[docs[key].id := key], false)
    ensures NothingStale(docs, index, terminal) ==> NothingStale(docs, index[docs[key].id := key], terminal)
  {
    hide Filed, IdFromKey, CreatedFromKey, KindFromKey, HasSegmentPrefix, SpaceFolder;
    KeyIsFiled(docs, key);
    IdsAreDistinct(docs);
  }

  /** The ids of the first i keys are indexed. */
  ghost predicate IndexCovers(docs: map<string, Job>, keys: seq<string>, i: nat, index: map<string, string>) {
    i <= |keys| && forall j :: 0 <= j < i ==> keys[j] in docs && docs[keys[j]].id in index
  }

  lemma CoversNone(docs: map<string, Job>, keys: seq<string>, index: map<string, string>, indexed: bool)
    requires IndexAgrees(docs, index, indexed)
    ensures IndexCovers(docs, keys, 0, index) && IndexAgrees(docs, index, false)
  {
    hide IdFromKey;
  }

  lemma CoversOneMore(docs: map<string, Job>, keys: seq<string>, i: nat, index: map<string, string>)
    requires IndexCovers(docs, keys, i, index) && i < |keys| && keys[i] in docs
    ensures IndexCovers(docs, keys, i + 1, index[docs[keys[i]].id := keys[i]])
  {
  }

  lemma CoversAll(docs: map<string, Job>, keys: seq<string>, index: map<string, string>)
    requires IndexCovers(docs, keys, |keys|, index) && keys == Listing(docs.Keys) && IndexAgrees(docs, index, false)
    ensures IndexAgrees(docs, index, true)
  {
    hide Less, IdFromKey;
    forall k | k in docs ensures docs[k].id in index {
      assert k in keys;
    }
  }

  lemma AllKeys(docs: map<string, Job>)
    requires WellFiled(docs)
    ensures KeysBelow(docs, JOBS_PREFIX) == docs.Keys
  {
    hide HasSegmentPrefix, SpaceFolder, IdFromKey, CreatedFromKey, KindFromKey;
    forall k | k in docs ensures HasSegmentPrefix(k, JOBS_PREFIX) { KeyIsFiled(docs, k); }
  }

  /** Filtering a suffix of a listing one key further back. */
  lemma {:induction false} FilterGlue(a: seq<string>, b: seq<string>, keep: string -> bool)
    ensures Filter(a + b, keep) == Filter(a, keep) + Filter(b, keep)
  {
    if b == [] {
      assert a + b == a;
    } else {
      var n := |b| - 1;
      var whole, last := a + b, b[n];
      FilterGlue(a, b[..n], keep);
      assert whole[..|whole| - 1] == a + b[..n] && whole[|whole| - 1] == last;
      var front, kept := Filter(b[..n], keep), if keep(last) then [last] else [];
      assert Filter(b, keep) == front + kept;
      assert Filter(whole, keep) == Filter(a + b[..n], keep) + kept;
      assert (Filter(a, keep) + front) + kept == Filter(a, keep) + (front + kept);
    }
  }

  lemma FiledUnderOwnName(j: Job)
    requires Nameable(j)
    ensures Filed(DocumentKey(j), j)
  {
  }

  lemma CachesAfterCreate(docs: map<string, Job>, index: map<string, string>, indexed: bool, terminal: set<string>,
                          key: string, j: Job)
    requires WellFiled(docs) && IndexAgrees(docs, index, indexed) && TerminalAgrees(docs, terminal)
    requires key !in docs && j.id !in JobsOf(docs)
    requires IdFromKey(key) == Some(j.id)
    ensures IndexAgrees(docs[key := j], index[j.id := key], indexed)
    ensures key !in terminal ==> TerminalAgrees(docs[key := j], terminal)
    ensures NothingStale(docs, index, terminal) ==> NothingStale(docs[key := j], index[j.id := key], terminal)
  {
    hide Filed, JobsOf, IdFromKey;
    IdsAreDistinct(docs);
    forall k | k in docs ensures docs[k].id != j.id { assert IsIdOf(docs, k, docs[k].id); }
    hide WellFiled, IsIdOf;
  }

  /** A Space whose keys do not name the id does not hold it. */
  lemma SpaceLacksId(docs: map<string, Job>, keys: seq<string>, space: string, id: string)
    requires WellFiled(docs) && space != "" && keys == Listing(KeysBelow(docs, SpaceFolder(space)))
    requires forall k :: k in keys ==> docs[k].id != id
    ensures LookupInSpace(JobsOf(docs), space, id) == Err(NoSuchJob)
  {
    hide Filed, SpaceFolder, HasSegmentPrefix, JobsOf;
    if id in JobsOf(docs) {
      var k :| IsIdOf(docs, k, id);
      KeyIsFiled(docs, k);
    }
  }

  // ---- the backward walk ----

  /** The documents read so far, newest key first. */
  ghost predicate Paired(docs: map<string, Job>, keys: seq<string>, jobs: seq<Job>) {
    |keys| == |jobs| && forall i :: 0 <= i < |keys| ==> keys[i] in docs && docs[keys[i]] == jobs[|jobs| - 1 - i]
  }

  lemma PairedStep(docs: map<string, Job>, keys: seq<string>, jobs: seq<Job>, key: string)
    requires Paired(docs, keys, jobs) && key in docs
    ensures Paired(docs, [key] + keys, jobs + [docs[key]])
  {
  }

  lemma PairedElements(docs: map<string, Job>, keys: seq<string>, jobs: seq<Job>)
    requires WellFiled(docs) && Paired(docs, keys, jobs) && Ascending(keys, Less)
    ensures Elements(jobs) == DocsAt(docs, keys) && NoRepeats(jobs)
  {
    hide Filed, Less;
    IdsAreDistinct(docs);
    forall j | j in jobs ensures j in DocsAt(docs, keys) {
      var i :| 0 <= i < |jobs| && jobs[i] == j;
      assert keys[|jobs| - 1 - i] in keys;
    }
    forall j | j in DocsAt(docs, keys) ensures j in jobs {
      var k :| k in keys && docs[k] == j;
      var i :| 0 <= i < |keys| && keys[i] == k;
    }
    forall i, j | 0 <= i < j < |jobs| ensures jobs[i] != jobs[j] {
      var n := |jobs| - 1;
      AscendingRanks(keys, n - j, n - i);
      assert docs[keys[n - j]] == jobs[j] && docs[keys[n - i]] == jobs[i];
    }
  }

  lemma FilterStep(keys: seq<string>, i: nat, keep: string -> bool)
    requires i < |keys|
    ensures Filter(keys[i..], keep) == (if keep(keys[i]) then [keys[i]] else []) + Filter(keys[i + 1..], keep)
  {
    assert keys[i..] == [keys[i]] + keys[i + 1..];
    FilterGlue([keys[i]], keys[i + 1..], keep);
    assert [keys[i]][..0] == [];
  }

  /** Where the walk stops, the keys used are the newest matching ones. */
  lemma TakenAre(docs: map<string, Job>, seen: map<string, Job>, space: string, kind: string, limit: int,
                 keys: seq<string>,
                 i: nat, used: seq<string>, keep: string -> bool)
    requires keys == Listing(KeysBelow(docs, SpaceFolder(space))) && i <= |keys| && used == Filter(keys[i..], keep)
    requires seen.Keys <= docs.Keys && forall k :: keep(k) <==> k in seen && KindFits(seen[k], kind)
    requires i == 0 || (limit > 0 && |used| == limit)
    requires limit > 0 ==> |used| <= limit
    ensures used == TakeNewest(Listing(MatchingKeys(seen, space, kind)), limit)
    ensures Ascending(used, Less)
  {
    hide Less, SpaceFolder, HasSegmentPrefix;
    FilterListing(KeysBelow(docs, SpaceFolder(space)), keep);
    assert (set k | k in KeysBelow(docs, SpaceFolder(space)) && keep(k)) == MatchingKeys(seen, space, kind);
    LastOfFilter(keys, i, keep);
    LastOf(Listing(MatchingKeys(seen, space, kind)), used, limit);
    if i == 0 {
      assert keys[0..] == keys;
    }
  }

  /** The backward walk before place i: the matching readable keys from there on, and their documents. */
  ghost predicate Walked(seen: map<string, Job>, keys: seq<string>, i: nat, kind: string, used: seq<string>,
                         out: seq<Job>) {
    && i <= |keys| && used == Filter(keys[i..], k => k in seen && KindFits(seen[k], kind))
    && Paired(seen, used, out)
  }

  lemma WalkStarts(seen: map<string, Job>, keys: seq<string>, kind: string)
    ensures Walked(seen, keys, |keys|, kind, [], [])
  {
    assert keys[|keys|..] == [];
  }

  lemma WalkStep(seen: map<string, Job>, keys: seq<string>, i: nat, kind: string, used: seq<string>, out: seq<Job>)
    requires i < |keys| && Walked(seen, keys, i + 1, kind, used, out)
    ensures keys[i] in seen && KindFits(seen[keys[i]], kind)
            ==> Walked(seen, keys, i, kind, [keys[i]] + used, out + [seen[keys[i]]])
    ensures !(keys[i] in seen && KindFits(seen[keys[i]], kind)) ==> Walked(seen, keys, i, kind, used, out)
  {
    hide Paired;
    var keep := k => k in seen && KindFits(seen[k], kind);
    FilterStep(keys, i, keep);
    if keep(keys[i]) {
      PairedStep(seen, used, out, keys[i]);
    }
  }

  lemma WalkEnds(docs: map<string, Job>, seen: map<string, Job>, space: string, kind: string, limit: int,
                 keys: seq<string>,
                 i: nat, used: seq<string>, out: seq<Job>)
    requires WellFiled(seen) && keys == Listing(KeysBelow(docs, SpaceFolder(space))) && Walked(seen, keys, i, kind, used, out)
    requires seen.Keys <= docs.Keys && (i == 0 || (limit > 0 && |out| == limit)) && (limit > 0 ==> |out| <= limit)
    ensures NoRepeats(out) && DistinctIDs(Elements(out)) && History(Elements(out)) == RecentByKey(seen, space, kind, limit)
  {
    hide Less, SpaceFolder, HasSegmentPrefix, History, NewestFirst, DistinctIDs, WellFiled, MatchingKeys, Filter;
    TakenAre(docs, seen, space, kind, limit, keys, i, used, k => k in seen && KindFits(seen[k], kind));
    PairedElements(seen, used, out);
    DocsAreDistinct(seen, used);
  }

  /** Filtering the end of a list gives the end of the filtered list. */
  lemma LastOfFilter(keys: seq<string>, i: nat, keep: string -> bool)
    requires i <= |keys|
    ensures var full, used := Filter(keys, keep), Filter(keys[i..], keep);
            |used| <= |full| && full[|full| - |used|..] == used
  {
    FilterGlue(keys[..i], keys[i..], keep);
    assert keys == keys[..i] + keys[i..];
  }

  lemma LastOf(full: seq<string>, used: seq<string>, limit: int)
    requires Ascending(full, Less) && |used| <= |full| && full[|full| - |used|..] == used
    ensures Ascending(used, Less)
    ensures (used == full && (limit > 0 ==> |used| <= limit)) || (limit > 0 && |used| == limit)
        ==> used == TakeNewest(full, limit)
  {
    hide Less;
    forall i, j | 0 <= i < j < |used| ensures Less(used[i], used[j]) {
      var d := |full| - |used|;
      assert used[i] == full[i + d] && used[j] == full[j + d];
    }
  }

  // ---- whole-history sweeps ----

  /** After i keys: the unfinished jobs among the readable ones, once each. */
  ghost predicate RunningSoFar(seen: map<string, Job>, keys: seq<string>, i: nat, out: seq<Job>) {
    && i <= |keys| && NoRepeats(out)
    && (forall x :: x in out <==> exists j :: 0 <= j < i && keys[j] in seen && seen[keys[j]] == x && !x.state.Terminal())
  }

  lemma RunningStep(seen: map<string, Job>, keys: seq<string>, i: nat, out: seq<Job>)
    requires WellFiled(seen) && Ascending(keys, Less) && i < |keys| && RunningSoFar(seen, keys, i, out)
    ensures RunningSoFar(seen, keys, i + 1,
                         if keys[i] !in seen || seen[keys[i]].state.Terminal() then out else out + [seen[keys[i]]])
  {
    hide Filed, Less;
    if keys[i] in seen {
      IdsAreDistinct(seen);
      forall j | 0 <= j < i && keys[j] in seen ensures seen[keys[j]] != seen[keys[i]] {
        AscendingRanks(keys, j, i);
      }
      var x := seen[keys[i]];
      var next := if x.state.Terminal() then out else out + [x];
      assert x !in out;
      forall y | y in next ensures exists j :: 0 <= j < i + 1 && keys[j] in seen && seen[keys[j]] == y && !y.state.Terminal() {
        if y in out {
          var j :| 0 <= j < i && keys[j] in seen && seen[keys[j]] == y && !y.state.Terminal();
        }
      }
    }
  }

  /** Every finished document read among the first i keys is remembered as finished, and nothing else is. */
  ghost predicate SettledSoFar(docs: map<string, Job>, seen: map<string, Job>, keys: seq<string>, i: nat,
                               terminal: set<string>) {
    && i <= |keys| && TerminalAgrees(docs, terminal)
    && (forall k :: k in seen ==> k in docs && seen[k] == docs[k])
    && (forall j :: 0 <= j < i && keys[j] in seen && seen[keys[j]].state.Terminal() ==> keys[j] in terminal)
  }

  lemma SettledStart(docs: map<string, Job>, seen: map<string, Job>, keys: seq<string>, terminal: set<string>)
    requires TerminalAgrees(docs, terminal) && forall k :: k in seen ==> k in docs && seen[k] == docs[k]
    ensures SettledSoFar(docs, seen, keys, 0, terminal) && RunningSoFar(seen, keys, 0, [])
  {
  }

  lemma SettledStep(docs: map<string, Job>, seen: map<string, Job>, keys: seq<string>, i: nat, terminal: set<string>)
    requires i < |keys| && keys[i] in docs && SettledSoFar(docs, seen, keys, i, terminal)
    ensures keys[i] in seen && seen[keys[i]].state.Terminal() ==> SettledSoFar(docs, seen, keys, i + 1, terminal + {keys[i]})
    ensures keys[i] !in seen || !seen[keys[i]].state.Terminal() || keys[i] in terminal
            ==> SettledSoFar(docs, seen, keys, i + 1, terminal)
    ensures keys[i] in terminal ==> docs[keys[i]].state.Terminal()
  {
  }

  lemma SettledAtEnd(docs: map<string, Job>, seen: map<string, Job>, keys: seq<string>, terminal: set<string>)
    requires keys == Listing(docs.Keys) && SettledSoFar(docs, seen, keys, |keys|, terminal)
    ensures TerminalAgrees(docs, terminal) && forall k :: k in seen && seen[k].state.Terminal() ==> k in terminal
  {
    hide Less;
    forall k | k in seen && seen[k].state.Terminal() ensures k in terminal { assert k in keys; }
  }

  lemma RunningAtEnd(docs: map<string, Job>, seen: map<string, Job>, keys: seq<string>, out: seq<Job>)
    requires WellFiled(seen) && keys == Listing(docs.Keys) && seen.Keys <= docs.Keys
    requires RunningSoFar(seen, keys, |keys|, out)
    ensures Elements(out) == Unfinished(JobsOf(seen)) && DistinctIDs(Elements(out)) && NoRepeats(out)
  {
    hide Filed, Less, JobsOf;
    IdsAreDistinct(seen);
    var jobs := JobsOf(seen);
    forall x | x in out ensures x in Unfinished(jobs) {
      var j :| 0 <= j < |keys| && keys[j] in seen && seen[keys[j]] == x && !x.state.Terminal();
      assert IsIdOf(seen, keys[j], x.id);
    }
    forall x | x in Unfinished(jobs) ensures x in out {
      var k :| IsIdOf(seen, k, x.id);
      assert k in keys;
      var j :| 0 <= j < |keys| && keys[j] == k;
      assert seen[keys[j]] == x;
    }
  }

  /** After i keys of the sweep: the prunable among the readable ones are gone, and nothing else. */
  ghost predicate PrunedSoFar(was: map<string, Job>, seen: map<string, Job>, docs: map<string, Job>,
                              keys: seq<string>, i: nat,
                              gone: set<string>, cutoff: int) {
    && i <= |keys| && (forall k :: k in seen ==> k in was && seen[k] == was[k])
    && (forall j :: i <= j < |keys| ==> keys[j] in was && keys[j] in docs && docs[keys[j]] == was[keys[j]])
    && (forall id :: id in gone <==>
                     exists j :: 0 <= j < i && keys[j] in seen && seen[keys[j]].id == id && Prunable(seen[keys[j]], cutoff))
  }

  lemma PrunedAtStart(was: map<string, Job>, seen: map<string, Job>, keys: seq<string>, cutoff: int)
    requires (forall j :: 0 <= j < |keys| ==> keys[j] in was) && forall k :: k in seen ==> k in was && seen[k] == was[k]
    ensures PrunedSoFar(was, seen, was, keys, 0, {}, cutoff)
  {
  }

  /** The stamp alone rules out what is too young to prune. */
  lemma PrunableIsOld(j: Job, cutoff: int)
    ensures Prunable(j, cutoff) ==> j.created < cutoff
  {
  }

  lemma MinusOneMore<V>(m: map<string, V>, gone: set<string>, id: string)
    ensures m - (gone + {id}) == m - gone - {id}
    ensures id !in gone ==> |gone + {id}| == |gone| + 1
  {
  }

  lemma PruneStep(was: map<string, Job>, seen: map<string, Job>, docs: map<string, Job>, keys: seq<string>, i: nat,
                  gone: set<string>, cutoff: int)
    requires WellFiled(was) && Ascending(keys, Less) && i < |keys| && PrunedSoFar(was, seen, docs, keys, i, gone, cutoff)
    ensures keys[i] in docs && keys[i] in was && docs[keys[i]] == was[keys[i]] && was[keys[i]].id !in gone
    ensures keys[i] in seen ==> seen[keys[i]] == was[keys[i]]
    ensures keys[i] in seen && Prunable(was[keys[i]], cutoff)
            ==> PrunedSoFar(was, seen, docs - {keys[i]}, keys, i + 1, gone + {was[keys[i]].id}, cutoff)
    ensures keys[i] !in seen || !Prunable(was[keys[i]], cutoff) ==> PrunedSoFar(was, seen, docs, keys, i + 1, gone, cutoff)
  {
    hide Filed, Less, Prunable;
    IdsAreDistinct(was);
    forall j | 0 <= j < |keys| && j != i && keys[j] in seen ensures keys[j] != keys[i] && was[keys[j]].id != was[keys[i]].id {
      AscendingRanks(keys, j, i);
    }
    forall j | 0 <= j < |keys| && j != i ensures keys[j] != keys[i] {
      AscendingRanks(keys, j, i);
    }
  }

  /** A prune of what can be read is a prune of the jobs. */
  lemma HistoryLeft(docs: map<string, Job>, unread: set<string>, gone: set<string>, cutoff: int, done: bool)
    requires WellFiled(docs)
    requires var prunable := PrunableIDs(JobsOf(Readable(docs, unread)), cutoff);
             gone <= prunable && (done ==> gone == prunable)
    ensures PrunedHistory(JobsOf(docs), JobsOf(Readable(docs, unread)), JobsOf(docs) - gone, cutoff, done)
    ensures Unfinished(JobsOf(docs) - gone) == Unfinished(JobsOf(docs))
  {
    hide Filed, JobsOf, Prunable, Unfinished, PrunableIDs, PrunedHistory;
    var seen := Readable(docs, unread);
    PrunableIsHistory(JobsOf(docs), JobsOf(seen), gone, cutoff, done) by {
      SeenJobs(docs, seen);
    }
  }

  /** What can be read of the jobs is part of them. */
  lemma SeenJobs(docs: map<string, Job>, seen: map<string, Job>)
    requires WellFiled(docs) && WellFiled(seen) && forall k :: k in seen ==> k in docs && seen[k] == docs[k]
    ensures forall id :: id in JobsOf(seen) ==> id in JobsOf(docs) && JobsOf(seen)[id] == JobsOf(docs)[id]
  {
    hide Filed, JobsOf;
    forall id | id in JobsOf(seen) ensures id in JobsOf(docs) && JobsOf(seen)[id] == JobsOf(docs)[id] {
      var k :| IsIdOf(seen, k, id);
      assert IsIdOf(docs, k, id);
    }
  }

  /** What has gone so far was prunable and readable. */
  lemma PrunedIsPrunable(was: map<string, Job>, seen: map<string, Job>, docs: map<string, Job>, keys: seq<string>,
                         i: nat,
                         gone: set<string>, cutoff: int)
    requires WellFiled(was) && WellFiled(seen) && PrunedSoFar(was, seen, docs, keys, i, gone, cutoff)
    ensures gone <= PrunableIDs(JobsOf(seen), cutoff)
  {
    hide Filed, Prunable, JobsOf;
    forall id | id in gone ensures id in PrunableIDs(JobsOf(seen), cutoff) {
      var j :| 0 <= j < i && keys[j] in seen && seen[keys[j]].id == id && Prunable(seen[keys[j]], cutoff);
      assert IsIdOf(seen, keys[j], id);
    }
  }

  lemma PrunedAtEnd(was: map<string, Job>, seen: map<string, Job>, docs: map<string, Job>, keys: seq<string>,
                    gone: set<string>,
                    cutoff: int)
    requires WellFiled(was) && WellFiled(seen) && keys == Listing(was.Keys)
    requires PrunedSoFar(was, seen, docs, keys, |keys|, gone, cutoff)
    ensures gone == PrunableIDs(JobsOf(seen), cutoff)
  {
    hide Filed, Less, Prunable, JobsOf;
    PrunedIsPrunable(was, seen, docs, keys, |keys|, gone, cutoff);
    forall id | id in PrunableIDs(JobsOf(seen), cutoff) ensures id in gone {
      var k :| IsIdOf(seen, k, id);
      assert k in keys;
      var j :| 0 <= j < |keys| && keys[j] == k;
      assert seen[keys[j]].id == id && Prunable(seen[keys[j]], cutoff);
    }
  }

  class StateStore {
    /** What the state store underneath holds, by key. */
    var docs: map<string, Job>
    var index: map<string, string>
    var indexed: bool
    var terminal: set<string>

    ghost predicate Valid()
      reads this
    {
      WellFiled(docs) && IndexAgrees(docs, index, indexed) && TerminalAgrees(docs, terminal)
    }

    /** Valid, and no other process has deleted anything. */
    ghost predicate Exact()
      reads this
    {
      Valid() && NothingStale(docs, index, terminal)
    }

    constructor ()
      ensures Exact() && docs == map[] && JobsOf(docs) == map[]
    {
      docs, index, indexed, terminal := map[], map[], false, {};
    }

    method Keys(prefix: string) returns (keys: seq<string>)
      ensures keys == Listing(KeysBelow(docs, prefix))
      ensures forall i :: 0 <= i < |keys| ==> keys[i] in docs
    {
      hide HasSegmentPrefix, Less;
      keys := SortStrings(KeysBelow(docs, prefix));
      forall i | 0 <= i < |keys| ensures keys[i] in docs { assert keys[i] in keys; }
    }

    method Remember(id: string, key: string)
      requires Valid() && IsIdOf(docs, key, id)
      modifies `index
      ensures Valid() && (old(Exact()) ==> Exact())
    {
      hide Filed, IdFromKey, CreatedFromKey, KindFromKey, HasSegmentPrefix, SpaceFolder;
      IdsAreDistinct(docs);
      KeyIsFiled(docs, key);
      index := index[id := key];
    }

    /** Drops an id, and the key it was found under if there was one. */
    method Forget(id: string, key: Option<string>)
      requires WellFiled(docs) && IndexAgrees(docs, index, false) && TerminalAgrees(docs, terminal)
      requires indexed ==> forall k :: k in docs ==> docs[k].id == id || docs[k].id in index
      requires forall k :: k in docs ==> docs[k].id != id
      modifies `index, `terminal
      ensures Valid()
      ensures index == old(index) - {id} && terminal == old(terminal) - if key.Some? then {key.value} else {}
    {
      hide Filed, WellFiled, IdFromKey;
      index := index - {id};
      if key.Some? {
        terminal := terminal - {key.value};
      }
    }

    /** Fills the index from key names alone: no document is read. */
    method Hydrate()
      requires Valid()
      modifies `index, `indexed
      ensures Valid() && indexed && (old(Exact()) ==> Exact())
    {
      hide Filed, IdFromKey, HasSegmentPrefix, CreatedFromKey, KindFromKey, SpaceFolder, NothingStale, WellFiled, Less,
           IndexAgrees, IndexCovers, TerminalAgrees;
      AllKeys(docs);
      var keys := Keys(JOBS_PREFIX);
      CoversNone(docs, keys, index, indexed);
      for i := 0 to |keys|
        invariant IndexAgrees(docs, index, false) && IndexCovers(docs, keys, i, index)
        invariant NothingStale(docs, old(index), terminal) ==> NothingStale(docs, index, terminal)
      {
        var key := keys[i];
        KeyIsFiled(docs, key);
        IndexSet(docs, index, terminal, key);
        CoversOneMore(docs, keys, i, index);
        var found := IdFromKey(key);
        if found.Some? {
          index := index[found.value := key];
        }
      }
      CoversAll(docs, keys, index);
      indexed := true;
    }

    /** keyFor: the index, hydrated on the first miss. */
    method KeyFor(id: string) returns (r: Option<string>)
      requires Valid()
      modifies `index, `indexed
      ensures Valid() && (old(Exact()) ==> Exact())
      ensures r.Some? ==> forall k :: IsIdOf(docs, k, id) ==> k == r.value
      ensures r.Some? && r.value in docs ==> docs[r.value].id == id
      ensures r.None? ==> forall k :: !IsIdOf(docs, k, id)
      ensures r.Some? ==> id in index
    {
      hide WellFiled, TerminalAgrees, NothingStale;
      if id in index {
        return Some(index[id]);
      }
      if !indexed {
        Hydrate();
      }
      r := if id in index then Some(index[id]) else None;
    }

    method Get(id: string) returns (r: Result<Job, JobError>)
      requires Valid()
      modifies `index, `indexed, `terminal
      ensures Valid() && (old(Exact()) ==> Exact())
      ensures r == Lookup(JobsOf(docs), id)
    {
      hide Filed, WellFiled, IndexAgrees, TerminalAgrees, NothingStale, JobsOf, IdFromKey;
      var key := KeyFor(id);
      KeyAnswers(docs, id, key);
      if key.None? {
        return Err(NoSuchJob);
      }
      if key.value !in docs {
        DropLost(id);
        return Err(NoSuchJob);
      }
      r := Ok(docs[key.value]);
    }

    /** Create writes the one new document. Its id is not compared with those already stored: that no
        two records share an id rests on ids being random. */
    method Create(j: Job, now: int64, freshID: string) returns (r: Result<Job, JobError>)
      requires Valid()
      modifies `docs, `index
      ensures r == Err(Invalid) <==> j.space == "" || j.kind == ""
      ensures r.Ok? ==> Completes(j, now, freshID, r.value)
      ensures Prepare(j, now, freshID).Err? ==> r == Err(Invalid) && docs == old(docs) && index == old(index)
      ensures Prepare(j, now, freshID).Ok? ==>
                var p := Prepare(j, now, freshID).value;
                if DocumentKey(p) in old(docs) then r == Err(DuplicateID) && docs == old(docs) && index == old(index)
                else r == Ok(p) && docs == old(docs)[DocumentKey(p) := p] && index == old(index)[p.id := DocumentKey(p)]
      ensures r.Ok? && Nameable(r.value) && r.value.id !in old(JobsOf(docs)) && DocumentKey(r.value) !in terminal
              ==> Valid() && (old(Exact()) ==> Exact()) && JobsOf(docs) == old(JobsOf(docs))[r.value.id := r.value]
    {
      hide Filed, Nameable, DocumentKey, JobsOf, NothingStale, IdFromKey, CreatedFromKey, KindFromKey;
      var p := Prepare(j, now, freshID);
      if p.Err? {
        return Err(Invalid);
      }
      var key := DocumentKey(p.value);
      if key in docs {
        return Err(DuplicateID);
      }
      docs := docs[key := p.value];
      index := index[p.value.id := key];
      r := p;
      if Nameable(p.value) && p.value.id !in JobsOf(old(docs)) {
        FiledUnderOwnName(p.value);
        KeyFacts(key, p.value);
        DocAdded(old(docs), key, p.value);
        CachesAfterCreate(old(docs), old(index), indexed, terminal, key, p.value);
      }
    }

    /** GetInSpace reads no cache: it lists the Space's keys, newest first, and reads the one that
        names the id. */
    method GetInSpace(space: string, id: string) returns (r: Result<Job, JobError>)
      requires Valid()
      modifies `index
      ensures Valid() && (old(Exact()) ==> Exact())
      ensures r == LookupInSpace(JobsOf(docs), space, id)
    {
      hide Filed, IdFromKey, HasSegmentPrefix, SpaceFolder, CreatedFromKey, KindFromKey, IndexAgrees, TerminalAgrees,
           NothingStale, WellFiled, Less;
      if space == "" || id == "" {
        return Err(NoSuchJob);
      }
      IdsAreDistinct(docs);
      var keys := Keys(SpaceFolder(space));
      var i := |keys|;
      while i > 0
        invariant 0 <= i <= |keys|
        invariant forall l :: i <= l < |keys| ==> docs[keys[l]].id != id
        invariant unchanged(this)
      {
        i := i - 1;
        var key := keys[i];
        KeyIsFiled(docs, key);
        if IdFromKey(key) == Some(id) {
          var j := docs[key];
          assert IsIdOf(docs, key, id);
          if j.space != space {
            return Err(NoSuchJob);
          }
          Remember(j.id, key);
          return Ok(j);
        }
      }
      SpaceLacksId(docs, keys, space, id);
      r := Err(NoSuchJob);
    }

    /** A Space's jobs, newest first: what listRecent takes by key, passing over what cannot be read. */
    method ListRecent(space: string, kind: string, limit: int, unread: set<string>) returns (out: seq<Job>)
      requires Valid()
      modifies `index
      ensures Valid() && (old(Exact()) ==> Exact())
      ensures out == RecentByKey(Readable(docs, unread), space, kind, limit)
    {
      hide Filed, IdFromKey, HasSegmentPrefix, SpaceFolder, CreatedFromKey, KindFromKey, IndexAgrees, TerminalAgrees,
           NothingStale, WellFiled, Less, History, NewestFirst, DistinctIDs, Walked;
      var keys := Keys(SpaceFolder(space));
      ghost var seen := Readable(docs, unread);
      out := [];
      ghost var used: seq<string> := [];
      var i := |keys|;
      WalkStarts(seen, keys, kind);
      while i > 0 && !(limit > 0 && |out| == limit)
        invariant 0 <= i <= |keys| && (limit > 0 ==> |out| <= limit)
        invariant Walked(seen, keys, i, kind, used, out)
        invariant Valid() && docs == old(docs) && (old(Exact()) ==> Exact())
      {
        i := i - 1;
        WalkStep(seen, keys, i, kind, used, out);
        var j := ReadIfNamed(keys[i], kind, unread);
        if j.Some? && KindFits(j.value, kind) {
          out := out + [j.value];
          used := [keys[i]] + used;
        }
      }
      WalkEnds(docs, seen, space, kind, limit, keys, i, used, out);
      out := SortNewestFirst(out);
    }

    /** Reads a key's document and remembers its id, unless the key names another kind. */
    method ReadIfNamed(key: string, kind: string, unread: set<string>) returns (j: Option<Job>)
      requires Valid() && key in docs
      modifies `index
      ensures Valid() && (old(Exact()) ==> Exact())
      ensures j.Some? ==> key !in unread && j.value == docs[key]
      ensures j.None? ==> key in unread || !KindFits(docs[key], kind)
    {
      hide Filed, IdFromKey, HasSegmentPrefix, SpaceFolder, CreatedFromKey, KindFromKey, IndexAgrees, TerminalAgrees,
           NothingStale, WellFiled;
      KeyIsFiled(docs, key);
      var named := KindFromKey(key);
      if (kind != "" && named.Some? && named.value != kind) || key in unread {
        return None;
      }
      Remember(docs[key].id, key);
      j := Some(docs[key]);
    }

    /** ListRecentOfKind refuses an empty kind. */
    method ListRecentOfKind(space: string, kind: string, limit: int, unread: set<string>)
      returns (r: Result<seq<Job>, JobError>)
      requires Valid()
      modifies `index
      ensures Valid() && (old(Exact()) ==> Exact())
      ensures kind == "" ==> r == Err(Invalid)
      ensures kind != "" ==> r == Ok(RecentByKey(Readable(docs, unread), space, kind, limit))
    {
      if kind == "" {
        return Err(Invalid);
      }
      var out := ListRecent(space, kind, limit, unread);
      r := Ok(out);
    }

    method Finish(id: string, out: Outcome, now: int64) returns (r: Result<(), JobError>)
      requires Valid()
      modifies this
      ensures Valid() && (old(Exact()) ==> Exact())
      ensures r == FinishResult(old(JobsOf(docs)), id, out)
      ensures JobsOf(docs) == Finished(old(JobsOf(docs)), id, out, now)
    {
      hide Filed, JobsOf, NothingStale, IndexAgrees, TerminalAgrees, WellFiled, ApplyOutcome;
      if !out.state.Terminal() {
        return Err(NotTerminal);
      }
      var key := KeyFor(id);
      if key.None? {
        return Err(NoSuchJob);
      }
      if key.value !in docs {
        assert forall k :: !IsIdOf(docs, k, id);
        DropLost(id);
        return Err(NoSuchJob);
      }
      assert IsIdOf(docs, key.value, id);
      FinishDoc(key.value, out, now);
      r := Ok(());
    }

    /** Forgets an id whose document is gone. */
    method DropLost(id: string)
      requires Valid() && forall k :: !IsIdOf(docs, k, id)
      modifies `index, `terminal
      ensures Valid() && (old(Exact()) ==> Exact())
    {
      hide Filed;
      forall k | k in docs ensures docs[k].id != id { assert !IsIdOf(docs, k, id); }
      Forget(id, None);
    }

    /** The write and the cache mark of a finishing run. */
    method FinishDoc(key: string, out: Outcome, now: int64)
      requires Valid() && key in docs && out.state.Terminal()
      modifies `docs, `terminal
      ensures Valid() && (old(Exact()) ==> Exact())
      ensures docs == old(docs)[key := ApplyOutcome(old(docs)[key], out, now)] && terminal == old(terminal) + {key}
      ensures JobsOf(docs) == Finished(old(JobsOf(docs)), old(docs)[key].id, out, now)
    {
      hide Filed, JobsOf, IdFromKey;
      var j := docs[key];
      var done := ApplyOutcome(j, out, now);
      assert Filed(key, j) && IsIdOf(docs, key, j.id);
      OutcomeKeepsName(key, j, out, now);
      DocReplaced(docs, key, done);
      docs := docs[key := done];
      terminal := terminal + {key};
    }

    /** Every readable unfinished job of every Space; keys already seen finished are not read again. */
    method ListRunning(unread: set<string>) returns (out: seq<Job>)
      requires Valid()
      modifies `terminal
      ensures Valid() && (old(Exact()) ==> Exact())
      ensures out == History(Unfinished(JobsOf(Readable(docs, unread))))
      ensures old(terminal) <= terminal && forall k :: k in docs && docs[k].state.Terminal() && k !in unread ==> k in terminal
    {
      hide Filed, HasSegmentPrefix, Less, History, NewestFirst, WellFiled, IndexAgrees, DistinctIDs, KeysBelow,
           JobsOf, RunningSoFar, SettledSoFar;
      AllKeys(docs);
      var keys := Keys(JOBS_PREFIX);
      ghost var seen := Readable(docs, unread);
      SettledStart(docs, seen, keys, terminal);
      out := [];
      for i := 0 to |keys|
        invariant old(terminal) <= terminal <= old(terminal) + docs.Keys
        invariant SettledSoFar(docs, seen, keys, i, terminal)
        invariant RunningSoFar(seen, keys, i, out)
      {
        var key := keys[i];
        RunningStep(seen, keys, i, out);
        SettledStep(docs, seen, keys, i, terminal);
        if key !in terminal && key !in unread {
          if docs[key].state.Terminal() {
            terminal := terminal + {key};
          } else {
            out := out + [docs[key]];
          }
        }
      }
      SettledAtEnd(docs, seen, keys, terminal);
      RunningAtEnd(docs, seen, keys, out);
      out := SortNewestFirst(out);
    }

    /** Deletes the prunable jobs it can read; candidates are picked by the stamp in the key. A deletion
        that fails, landed or not, ends the sweep; `steady` promises there is none. */
    method PruneBefore(cutoff: int, unread: set<string>, steady: bool) returns (removed: nat, ok: bool,
                       ghost gone: set<string>)
      requires Valid()
      modifies `docs, `index, `terminal
      ensures Valid() && (ok && old(Exact()) ==> Exact())
      ensures JobsOf(docs) == old(JobsOf(docs)) - gone && removed <= |gone| <= removed + 1
      ensures gone <= PrunableIDs(JobsOf(Readable(old(docs), unread)), cutoff)
      ensures ok ==> gone == PrunableIDs(JobsOf(Readable(old(docs), unread)), cutoff) && removed == |gone|
      ensures PrunedHistory(old(JobsOf(docs)), JobsOf(Readable(old(docs), unread)), JobsOf(docs), cutoff, ok)
      ensures Unfinished(JobsOf(docs)) == Unfinished(old(JobsOf(docs)))
      ensures steady ==> ok
    {
      hide Filed, HasSegmentPrefix, Less, WellFiled, IndexAgrees, TerminalAgrees, NothingStale, JobsOf, Prunable,
           CreatedFromKey, IdFromKey, KindFromKey, SpaceFolder, PrunedSoFar, PrunedHistory, Unfinished, PrunableIDs;
      AllKeys(docs);
      var keys := Keys(JOBS_PREFIX);
      removed, ok, gone := 0, false, {};
      ghost var was, seen := docs, Readable(docs, unread);
      PrunedAtStart(was, seen, keys, cutoff);
      assert JobsOf(docs) == JobsOf(was) - gone;
      for i := 0 to |keys|
        invariant Valid() && (old(Exact()) ==> Exact())
        invariant PrunedSoFar(was, seen, docs, keys, i, gone, cutoff) && removed == |gone|
        invariant JobsOf(docs) == JobsOf(was) - gone
      {
        var key := keys[i];
        PruneStep(was, seen, docs, keys, i, gone, cutoff);
        PrunedIsPrunable(was, seen, docs, keys, i, gone, cutoff);
        KeyIsFiled(docs, key);
        PrunableIsOld(docs[key], cutoff);
        var created := CreatedFromKey(key);
        if created.Some? && created.value < cutoff && key !in unread && Prunable(docs[key], cutoff) {
          MinusOneMore(JobsOf(was), gone, docs[key].id);
          ghost var id := docs[key].id;
          var done, landed := DeleteDoc(key, steady);
          if landed {
            gone := gone + {id};
            PrunedIsPrunable(was, seen, docs, keys, i + 1, gone, cutoff);
          }
          if !done {
            HistoryLeft(was, unread, gone, cutoff, false);
            return;
          }
          removed := removed + 1;
        }
      }
      PrunedAtEnd(was, seen, docs, keys, gone, cutoff);
      HistoryLeft(was, unread, gone, cutoff, true);
      ok := true;
    }

    /** Deletes one document; a failed deletion may have landed. */
    method DeleteDoc(key: string, steady: bool) returns (ok: bool, ghost landed: bool)
      requires Valid() && key in docs
      modifies `docs, `index, `terminal
      ensures Valid() && (ok && old(Exact()) ==> Exact()) && (ok ==> landed) && (steady ==> ok)
      ensures landed ==> docs == old(docs) - {key} && JobsOf(docs) == old(JobsOf(docs)) - {old(docs)[key].id}
      ensures !landed ==> docs == old(docs) && JobsOf(docs) == old(JobsOf(docs))
    {
      hide Filed, JobsOf, IndexAgrees, TerminalAgrees, WellFiled, NothingStale;
      var broken, lost := *, *;
      if steady || !broken {
        DropDoc(key);
        return true, true;
      }
      if lost {
        LoseDoc(key);
      }
      ok, landed := false, lost;
    }

    /** A deletion that landed without being acknowledged: the caches keep what they had. */
    method LoseDoc(key: string)
      requires Valid() && key in docs
      modifies `docs
      ensures Valid() && docs == old(docs) - {key} && JobsOf(docs) == old(JobsOf(docs)) - {old(docs)[key].id}
    {
      hide Filed, JobsOf, IndexAgrees, TerminalAgrees;
      DocRemoved(docs, key);
      ForeignDeletion(docs, index, indexed, terminal, key);
      docs := docs - {key};
    }

    /** One deletion, and both caches forget it. */
    method DropDoc(key: string)
      requires Valid() && key in docs
      modifies `docs, `index, `terminal
      ensures Valid() && (old(Exact()) ==> Exact())
      ensures docs == old(docs) - {key} && JobsOf(docs) == old(JobsOf(docs)) - {old(docs)[key].id}
    {
      hide Filed, JobsOf, IdFromKey;
      IdsAreDistinct(docs);
      var id := docs[key].id;
      DocRemoved(docs, key);
      docs := docs - {key};
      Forget(id, Some(key));
    }
  }
}
