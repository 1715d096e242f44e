/** Append-only records (internal/state/versioned.go): a write adds a document named by a fixed-width
    timestamp, a read takes the newest name, and nothing stored is ever touched. */
module Versions {
  import opened Wrappers
  import opened Ordered
  import opened Text
  import Segments
  import opened FlatStore

  /** A stored document: decodable, corrupt, or momentarily unreadable for another reason. */
  datatype Doc<T> = Parsed(value: T) | Malformed | Unreachable

  datatype ReadError = Absent | MalformedAt(key: string) | Unavailable

  /** The write times of the oldest and newest stored version; zero for a legacy record. */
  datatype Span = Span(oldest: int, newest: int)

  const NO_SPAN := Span(0, 0)

  /** Attempts at a free version name. */
  const APPEND_ATTEMPTS := 32

  // ---- version names ----

  /** versionNanos: exactly nineteen columns, and not negative. */
  function VersionNanos(key: string): (r: Option<int64>)
    ensures r.Some? ==> r.value >= 0
  {
    var name := LastSegment(key);
    if |name| != STAMP_WIDTH then None
    else match ParseInt64(name)
      case Some(n) => if n < 0 then None else Some(n)
      case None => None
  }

  /** Name of version n of the record filed under p. */
  function VersionKey(p: string, n: int64): string { p + "/" + Stamp(n) }

  /** A version name is read back as its stamp exactly when the stamp is not negative. A negative
      stamp is written without complaint and never seen again. */
  lemma VersionIsReadable(p: string, n: int64)
    ensures VersionNanos(VersionKey(p, n)) == if n >= 0 then Some(n) else None
    ensures Dir(VersionKey(p, n)) == p
  {
    hide LastSegment, Dir, ParseInt64;
    ParseStamp(n);
    SplitLast(p, Stamp(n));
  }

  /** No name of another width is taken for a version. */
  lemma VersionsHaveOneWidth(key: string)
    ensures VersionNanos(key).Some? ==> |LastSegment(key)| == 19
  {
  }

  lemma VersionKeysDiffer(p: string, m: int64, n: int64)
    requires m >= 0 && n >= 0
    ensures VersionKey(p, m) == VersionKey(p, n) <==> m == n
    ensures m < n ==> Less(VersionKey(p, m), VersionKey(p, n))
  {
    VersionIsReadable(p, m);
    VersionIsReadable(p, n);
    if m < n {
      StampOrder(m, n);
      LessAfterPrefix(p + "/", Stamp(m), Stamp(n));
    }
  }

  /** The newest version among some keys. */
  ghost predicate IsNewest(keys: set<string>, k: string) {
    k in keys && VersionNanos(k).Some? &&
    forall x :: x in keys && x != k && VersionNanos(x).Some? ==> VersionNanos(x).value < VersionNanos(k).value
  }

  /** newestVersion: the highest stamp of a listing, the first key bearing it. */
  method NewestVersion(keys: seq<string>) returns (r: Option<(int64, string)>)
    ensures r == None ==> forall k :: k in keys ==> VersionNanos(k) == None
    ensures r.Some? ==> r.value.1 in keys && VersionNanos(r.value.1) == Some(r.value.0)
    ensures r.Some? ==> forall k :: k in keys && VersionNanos(k).Some? ==> VersionNanos(k).value <= r.value.0
  {
    hide VersionNanos;
    r := None;
    for i := 0 to |keys|
      invariant r == None ==> forall j :: 0 <= j < i ==> VersionNanos(keys[j]) == None
      invariant r.Some? ==> r.value.1 in keys && VersionNanos(r.value.1) == Some(r.value.0)
      invariant r.Some? ==> forall j :: 0 <= j < i && VersionNanos(keys[j]).Some? ==>
                                          VersionNanos(keys[j]).value <= r.value.0
    {
      var nanos := VersionNanos(keys[i]);
      if nanos == None || (r.Some? && nanos.value <= r.value.0) {
        continue;
      }
      r := Some((nanos.value, keys[i]));
    }
  }

  /** versionSpan: the oldest and newest stamps of a listing. */
  method VersionSpan(keys: seq<string>) returns (r: Option<Span>)
    ensures r == None <==> forall k :: k in keys ==> VersionNanos(k) == None
    ensures r.Some? ==> forall k :: k in keys && VersionNanos(k).Some? ==>
                                      r.value.oldest <= VersionNanos(k).value <= r.value.newest
    ensures r.Some? ==> exists a, b :: a in keys && b in keys && VersionNanos(a) == Some(r.value.oldest)
                                       && VersionNanos(b) == Some(r.value.newest)
  {
    hide VersionNanos;
    r := None;
    ghost var a, b := "", "";
    for i := 0 to |keys|
      invariant r == None <==> forall j :: 0 <= j < i ==> VersionNanos(keys[j]) == None
      invariant r.Some? ==> forall j :: 0 <= j < i && VersionNanos(keys[j]).Some? ==>
                                          r.value.oldest <= VersionNanos(keys[j]).value <= r.value.newest
      invariant r.Some? ==> a in keys && b in keys && VersionNanos(a) == Some(r.value.oldest)
                            && VersionNanos(b) == Some(r.value.newest)
    {
      var nanos := VersionNanos(keys[i]);
      if nanos == None {
        continue;
      }
      if r == None || nanos.value < r.value.oldest {
        a := keys[i];
      }
      if r == None || nanos.value > r.value.newest {
        b := keys[i];
      }
      r := Some(Span(if r == None || nanos.value < r.value.oldest then nanos.value else r.value.oldest,
                     if r == None || nanos.value > r.value.newest then nanos.value else r.value.newest));
    }
  }

  // ---- what a record's documents mean ----

  /** The versions stored for the record filed under p. */
  function RecordKeys<T>(docs: map<string, Doc<T>>, p: string): set<string> { KeysBelow(docs, p) }

  /** Every key below p is a version of p itself, not of a record filed deeper, and is named as Append
      names it. */
  ghost predicate IsRecord<T>(docs: map<string, Doc<T>>, p: string) {
    p != "" && p[|p| - 1] != '/' &&
    forall k :: k in RecordKeys(docs, p) ==>
                  exists n: int64 :: k == VersionKey(p, n)
  }

  function ReadDoc<T>(docs: map<string, Doc<T>>, key: string): Result<T, ReadError> {
    if key !in docs then Err(Absent)
    else match docs[key]
      case Parsed(v) => Ok(v)
      case Malformed => Err(MalformedAt(key))
      case Unreachable => Err(Unavailable)
  }

  /** The append order of a record: stamped values, oldest first. */
  datatype Version<T> = Version(stamp: int64, value: T)

  /** The record under p holds exactly the versions of a history, in strictly rising stamps. */
  ghost predicate Holds<T>(docs: map<string, Doc<T>>, p: string, history: seq<Version<T>>) {
    && p != "" && p[|p| - 1] != '/'
    && (forall i :: 0 <= i < |history| ==> history[i].stamp >= 0)
    && (forall i, j :: 0 <= i < j < |history| ==> history[i].stamp < history[j].stamp)
    && (forall i :: 0 <= i < |history| ==> ReadDoc(docs, VersionKey(p, history[i].stamp)) == Ok(history[i].value))
    && (forall k :: k in RecordKeys(docs, p) ==>
          exists i :: 0 <= i < |history| && k == VersionKey(p, history[i].stamp))
  }

  /** The stamp an append writes: moved past the newest version when the clock has not moved past it,
      in 64-bit arithmetic. */
  function NextStamp(newest: Option<int64>, at: int64): int64 {
    if newest.Some? && newest.value >= at then Wrap64(newest.value + 1) else at
  }

  /** The j-th stamp an append tries when the names before it are taken. */
  function Tried(first: int64, j: nat): int64 { if j == 0 then first else Wrap64(Tried(first, j - 1) + 1) }

  /** The highest stamp on record, if there is any. */
  ghost predicate IsHighest(keys: set<string>, newest: Option<int64>) {
    && (newest.Some? ==> exists k :: k in keys && VersionNanos(k) == newest)
    && forall k :: k in keys && VersionNanos(k).Some? ==> newest.Some? && VersionNanos(k).value <= newest.value
  }

  /** Of the first 32 stamps tried from one past the newest on record, all but the last were taken and that
      one is written; or all were taken and nothing is. */
  ghost predicate AppendedAt<T>(before: map<string, Doc<T>>, after: map<string, Doc<T>>, p: string, at: int64, value: T,
                                newest: Option<int64>, free: Option<nat>) {
    var first := NextStamp(newest, at);
    && IsHighest(RecordKeys(before, p), newest)
    && (free.Some? ==> free.value < 32 && VersionKey(p, Tried(first, free.value)) !in before
                       && after == before[VersionKey(p, Tried(first, free.value)) := Parsed(value)])
    && (free.None? ==> after == before)
    && forall j :: 0 <= j < (if free.Some? then free.value else 32) ==> VersionKey(p, Tried(first, j)) in before
  }

  function LastStamp<T>(history: seq<Version<T>>): Option<int64> {
    if history == [] then None else Some(history[|history| - 1].stamp)
  }

  lemma UnderIsBelow(p: string, n: int64)
    requires p != "" && p[|p| - 1] != '/'
    ensures HasSegmentPrefix(VersionKey(p, n), p)
  {
  }

  /** Whatever the clock says, the next stamp is past every stored one and readable — unless the very
      first stamp is negative, or the newest one is the last a 64-bit clock has. It is the clock's whenever
      the clock has moved on, and else the very next one. */
  lemma NextStampRises<T>(history: seq<Version<T>>, at: int64)
    requires forall i :: 0 <= i < |history| ==> history[i].stamp >= 0
    requires forall i, j :: 0 <= i < j < |history| ==> history[i].stamp < history[j].stamp
    ensures var next := NextStamp(LastStamp(history), at);
            (next >= 0 && forall i :: 0 <= i < |history| ==> history[i].stamp < next) <==>
            if history == [] then at >= 0 else history[|history| - 1].stamp < MAX_INT64
    ensures history == [] || history[|history| - 1].stamp < at ==> NextStamp(LastStamp(history), at) == at
    ensures history != [] && at <= history[|history| - 1].stamp < MAX_INT64
            ==> NextStamp(LastStamp(history), at) == history[|history| - 1].stamp + 1
  {
  }

  /** An append extends the history by the new value at its end and leaves every version as it was. */
  lemma AppendExtends<T>(docs: map<string, Doc<T>>, p: string, history: seq<Version<T>>, at: int64, value: T)
    requires Holds(docs, p, history)
    requires if history == [] then at >= 0 else history[|history| - 1].stamp < MAX_INT64
    ensures var next := NextStamp(LastStamp(history), at);
            VersionKey(p, next) !in docs &&
            Holds(docs[VersionKey(p, next) := Parsed(value)], p, history + [Version(next, value)])
  {
    var next := NextStamp(LastStamp(history), at);
    NextStampRises(history, at);
    var after, longer := docs[VersionKey(p, next) := Parsed(value)], history + [Version(next, value)];
    UnderIsBelow(p, next);
    forall i | 0 <= i < |history| ensures VersionKey(p, history[i].stamp) != VersionKey(p, next) {
      VersionKeysDiffer(p, history[i].stamp, next);
    }
    assert VersionKey(p, next) !in RecordKeys(docs, p);
    forall k | k in RecordKeys(after, p)
      ensures exists i :: 0 <= i < |longer| && k == VersionKey(p, longer[i].stamp)
    {
      if k == VersionKey(p, next) {
        assert longer[|history|].stamp == next;
      } else {
        assert k in RecordKeys(docs, p);
        var i :| 0 <= i < |history| && k == VersionKey(p, history[i].stamp);
        assert longer[i] == history[i];
      }
    }
  }

  /** The version keys of a history, oldest first: the listing a reader gets. */
  function HistoryKeys<T>(p: string, history: seq<Version<T>>): seq<string> {
    seq(|history|, i requires 0 <= i < |history| => VersionKey(p, history[i].stamp))
  }

  lemma ListingIsHistory<T>(docs: map<string, Doc<T>>, p: string, history: seq<Version<T>>)
    requires Holds(docs, p, history)
    ensures Listing(RecordKeys(docs, p)) == HistoryKeys(p, history)
  {
    var keys := HistoryKeys(p, history);
    forall i, j | 0 <= i < j < |keys| ensures Less(keys[i], keys[j]) {
      VersionKeysDiffer(p, history[i].stamp, history[j].stamp);
    }
    forall k ensures k in Elements(keys) <==> k in RecordKeys(docs, p) {
      if k in RecordKeys(docs, p) {
        var i :| 0 <= i < |history| && k == VersionKey(p, history[i].stamp);
        assert keys[i] == k;
      }
      if k in keys {
        var i :| 0 <= i < |keys| && keys[i] == k;
        UnderIsBelow(p, history[i].stamp);
        assert ReadDoc(docs, VersionKey(p, history[i].stamp)).Ok?;
      }
    }
    ListingIs(keys, RecordKeys(docs, p));
  }

  lemma HistoryVersions<T>(docs: map<string, Doc<T>>, p: string, history: seq<Version<T>>, i: nat)
    requires Holds(docs, p, history) && i < |history|
    ensures VersionKey(p, history[i].stamp) in RecordKeys(docs, p)
    ensures VersionNanos(VersionKey(p, history[i].stamp)) == Some(history[i].stamp)
  {
    VersionIsReadable(p, history[i].stamp);
    UnderIsBelow(p, history[i].stamp);
    assert ReadDoc(docs, VersionKey(p, history[i].stamp)).Ok?;
  }

  lemma StampsRise<T>(docs: map<string, Doc<T>>, p: string, history: seq<Version<T>>)
    requires Holds(docs, p, history)
    ensures forall i, j :: 0 <= i <= j < |history| ==> history[i].stamp <= history[j].stamp
  {
  }

  lemma NewestIsLast<T>(docs: map<string, Doc<T>>, p: string, history: seq<Version<T>>, k: string)
    requires Holds(docs, p, history) && history != [] && IsNewest(RecordKeys(docs, p), k)
    ensures k == VersionKey(p, history[|history| - 1].stamp)
  {
    hide VersionNanos;
    var i :| 0 <= i < |history| && k == VersionKey(p, history[i].stamp);
    HistoryVersions(docs, p, history, i);
    HistoryVersions(docs, p, history, |history| - 1);
  }

  /** One append that succeeds: the clock reading and the value. */
  datatype Write<T> = Write(at: int64, value: T)

  /** The documents and the history after a run of appends. */
  function AppendAll<T>(docs: map<string, Doc<T>>, p: string, history: seq<Version<T>>, ws: seq<Write<T>>)
    : (map<string, Doc<T>>, seq<Version<T>>)
    decreases |ws|
  {
    if ws == [] then (docs, history)
    else
      var next := NextStamp(LastStamp(history), ws[0].at);
      AppendAll(docs[VersionKey(p, next) := Parsed(ws[0].value)], p, history + [Version(next, ws[0].value)], ws[1..])
  }

  /** Any run of appends, under clocks that jump or run backwards, changes no stored document and adds
      one version per append in append order; the values are the appended ones, so the last version is
      the value appended last. Only the end of the 64-bit range, and a first stamp before 1970, are out
      of bounds. */
  lemma {:induction false} AppendsHold<T>(docs: map<string, Doc<T>>, p: string, history: seq<Version<T>>,
                                          ws: seq<Write<T>>)
    requires Holds(docs, p, history)
    requires forall w :: w in ws ==> w.at <= MAX_INT64 - |ws|
    requires if history == [] then ws == [] || ws[0].at >= 0 else history[|history| - 1].stamp <= MAX_INT64 - |ws|
    ensures var after := AppendAll(docs, p, history, ws);
            && Holds(after.0, p, after.1) && history <= after.1 && |after.1| == |history| + |ws|
            && (forall i :: 0 <= i < |ws| ==> after.1[|history| + i].value == ws[i].value)
            && (forall k :: k in docs ==> k in after.0 && after.0[k] == docs[k])
    decreases |ws|
  {
    hide Holds, VersionKey, VersionNanos;
    if ws != [] {
      var next := NextStamp(LastStamp(history), ws[0].at);
      AppendExtends(docs, p, history, ws[0].at, ws[0].value);
      assert forall w :: w in ws[1..] ==> w in ws;
      var longer := history + [Version(next, ws[0].value)];
      AppendsHold(docs[VersionKey(p, next) := Parsed(ws[0].value)], p, longer, ws[1..]);
      var after := AppendAll(docs, p, history, ws).1;
      assert longer <= after && history <= longer;
      forall i | 0 <= i < |ws| ensures after[|history| + i].value == ws[i].value {
        if i == 0 {
          assert after[|history|] == longer[|history|];
        } else {
          assert ws[i] == ws[1..][i - 1];
        }
      }
    }
  }

  /** The oldest version among some keys. */
  ghost predicate IsOldest(keys: set<string>, k: string) {
    k in keys && VersionNanos(k).Some? &&
    forall x :: x in keys && VersionNanos(x).Some? ==> VersionNanos(k).value <= VersionNanos(x).value
  }

  lemma OldestIsFirst<T>(docs: map<string, Doc<T>>, p: string, history: seq<Version<T>>, k: string)
    requires Holds(docs, p, history) && history != [] && IsOldest(RecordKeys(docs, p), k)
    ensures k == VersionKey(p, history[0].stamp)
  {
    hide VersionNanos;
    var i :| 0 <= i < |history| && k == VersionKey(p, history[i].stamp);
    HistoryVersions(docs, p, history, i);
    HistoryVersions(docs, p, history, 0);
  }

  /** Load: the newest version with its span, or else the legacy document, or nothing. */
  ghost predicate LoadIs<T>(docs: map<string, Doc<T>>, legacy: Option<string>, p: string,
                            r: Result<(T, Span), ReadError>) {
    var keys := RecordKeys(docs, p);
    if exists k :: k in keys && VersionNanos(k).Some? then
      exists k, first :: IsNewest(keys, k) && IsOldest(keys, first)
                         && r == WithSpan(ReadDoc(docs, k), Span(VersionNanos(first).value, VersionNanos(k).value))
    else if legacy == None then r == Err(Absent)
    else r == WithSpan(ReadDoc(docs, legacy.value), NO_SPAN)
  }

  function WithSpan<T>(read: Result<T, ReadError>, span: Span): Result<(T, Span), ReadError> {
    match read case Ok(v) => Ok((v, span)) case Err(e) => Err(e)
  }

  /** What is read back is what was appended last, with the true oldest and newest stamps. */
  lemma LoadIsLast<T>(docs: map<string, Doc<T>>, legacy: Option<string>, p: string, history: seq<Version<T>>,
                      r: Result<(T, Span), ReadError>)
    requires Holds(docs, p, history) && history != []
    requires LoadIs(docs, legacy, p, r)
    ensures r == Ok((history[|history| - 1].value, Span(history[0].stamp, history[|history| - 1].stamp)))
  {
    hide VersionNanos;
    var keys, last := RecordKeys(docs, p), |history| - 1;
    HistoryVersions(docs, p, history, last);
    HistoryVersions(docs, p, history, 0);
    var k, first :| IsNewest(keys, k) && IsOldest(keys, first)
                    && r == WithSpan(ReadDoc(docs, k), Span(VersionNanos(first).value, VersionNanos(k).value));
    NewestIsLast(docs, p, history, k);
    OldestIsFirst(docs, p, history, first);
  }

  /** Load says that there is no record only when there is none, in either layout: an outage or a corrupt
      document is another answer. */
  lemma LoadAbsentIff<T>(docs: map<string, Doc<T>>, legacy: Option<string>, p: string, r: Result<(T, Span), ReadError>)
    requires LoadIs(docs, legacy, p, r)
    ensures r == Err(Absent) <==> (forall k :: k in RecordKeys(docs, p) ==> VersionNanos(k) == None)
                                  && (legacy.Some? ==> legacy.value !in docs)
  {
    hide VersionNanos, HasSegmentPrefix;
  }

  /** Otherwise it answers for one document, the newest version or the legacy one: its content, or that it
      is corrupt, or that it cannot be had. */
  lemma LoadAnswers<T>(docs: map<string, Doc<T>>, legacy: Option<string>, p: string, key: string,
                       r: Result<(T, Span), ReadError>)
    requires LoadIs(docs, legacy, p, r) && key in docs
    requires IsNewest(RecordKeys(docs, p), key)
             || ((forall k :: k in RecordKeys(docs, p) ==> VersionNanos(k) == None) && legacy == Some(key))
    ensures match docs[key]
            case Parsed(v) => r.Ok? && r.value.0 == v
            case Malformed => r == Err(MalformedAt(key))
            case Unreachable => r == Err(Unavailable)
  {
    hide VersionNanos, HasSegmentPrefix;
    if IsNewest(RecordKeys(docs, p), key) {
      var k, first :| IsNewest(RecordKeys(docs, p), k) && IsOldest(RecordKeys(docs, p), first)
                      && r == WithSpan(ReadDoc(docs, k), Span(VersionNanos(first).value, VersionNanos(k).value));
      OnlyOneNewest(RecordKeys(docs, p), k, key);
    }
  }

  // ---- listing the newest version of every record ----

  /** The records with at least one version, by the folder their versions are filed in. */
  function Records<T>(docs: map<string, Doc<T>>, prefix: string): set<string> {
    set k | k in KeysBelow(docs, prefix) && VersionNanos(k).Some? :: Dir(k)
  }

  /** The legacy documents of records that have no version. */
  function LegacyOnly<T>(docs: map<string, Doc<T>>, prefix: string, legacy: Option<string>): set<string> {
    if legacy == None then {}
    else set k | k in KeysBelow(docs, legacy.value) && legacy.value + "/" <= k
                 && prefix + "/" + k[|legacy.value| + 1..] !in Records(docs, prefix)
  }

  /** Records are filed below the collection prefix, none below another. */
  ghost predicate WellFiled<T>(docs: map<string, Doc<T>>, prefix: string) {
    && prefix != "" && prefix[|prefix| - 1] != '/'
    && (forall p :: p in Records(docs, prefix) ==> IsRecord(docs, p) && prefix + "/" <= p)
  }

  /** Reading a list of documents: values in order, corrupt ones reported by key, a document that went
      away passed over, and any other failure failing the whole listing. */
  function Collect<T>(docs: map<string, Doc<T>>, keys: seq<string>): Result<(seq<T>, seq<string>), ReadError> {
    if keys == [] then Ok(([], []))
    else match Collect(docs, keys[..|keys| - 1])
      case Err(e) => Err(e)
      case Ok((values, unreadable)) =>
        var k := keys[|keys| - 1];
        match ReadDoc(docs, k)
        case Ok(v) => Ok((values + [v], unreadable))
        case Err(Absent) => Ok((values, unreadable))
        case Err(MalformedAt(_)) => Ok((values, unreadable + [k]))
        case Err(Unavailable) => Err(Unavailable)
  }

  /** The keys whose documents decode, and those whose documents are corrupt, in order. */
  function Readable<T>(docs: map<string, Doc<T>>, keys: seq<string>): (r: seq<string>)
    ensures forall k :: k in r <==> k in keys && k in docs && docs[k].Parsed?
  {
    if keys == [] then []
    else if ReadDoc(docs, keys[|keys| - 1]).Ok? then Readable(docs, keys[..|keys| - 1]) + [keys[|keys| - 1]]
    else Readable(docs, keys[..|keys| - 1])
  }

  function Corrupt<T>(docs: map<string, Doc<T>>, keys: seq<string>): (r: seq<string>)
    ensures forall k :: k in r <==> k in keys && k in docs && docs[k].Malformed?
  {
    if keys == [] then []
    else if ReadDoc(docs, keys[|keys| - 1]) == Err(MalformedAt(keys[|keys| - 1])) then
      Corrupt(docs, keys[..|keys| - 1]) + [keys[|keys| - 1]]
    else Corrupt(docs, keys[..|keys| - 1])
  }

  function ValuesOf<T>(docs: map<string, Doc<T>>, keys: seq<string>): seq<T>
    requires forall k :: k in keys ==> k in docs && docs[k].Parsed?
  {
    seq(|keys|, i requires 0 <= i < |keys| => docs[keys[i]].value)
  }

  /** A listing succeeds exactly when no listed document is unreachable; then every document that
      decodes is a value, every corrupt one is reported, and nothing else appears. */
  lemma {:induction false} CollectPointwise<T>(docs: map<string, Doc<T>>, keys: seq<string>)
    ensures Collect(docs, keys).Ok? <==> forall k :: k in keys && k in docs ==> !docs[k].Unreachable?
    ensures Collect(docs, keys).Err? ==> Collect(docs, keys) == Err(Unavailable)
    ensures Collect(docs, keys).Ok? ==>
              Collect(docs, keys).value.0 == ValuesOf(docs, Readable(docs, keys)) &&
              Collect(docs, keys).value.1 == Corrupt(docs, keys)
  {
    if keys != [] {
      var init, k := keys[..|keys| - 1], keys[|keys| - 1];
      CollectPointwise(docs, init);
      assert keys == init + [k];
      ValuesOfMore(docs, init, k);
    }
  }

  lemma ValuesOfMore<T>(docs: map<string, Doc<T>>, init: seq<string>, k: string)
    ensures ValuesOf(docs, Readable(docs, init + [k])) ==
            if k in docs && docs[k].Parsed? then ValuesOf(docs, Readable(docs, init)) + [docs[k].value]
            else ValuesOf(docs, Readable(docs, init))
  {
    assert (init + [k])[..|init|] == init;
  }

  /** The document Load reads for a record. */
  ghost predicate LoadReads<T>(docs: map<string, Doc<T>>, prefix: string, legacy: Option<string>, id: string,
                               key: string) {
    if prefix + "/" + id in Records(docs, prefix) then IsNewest(RecordKeys(docs, prefix + "/" + id), key)
    else legacy.Some? && key == legacy.value + "/" + id && key in LegacyOnly(docs, prefix, legacy)
  }

  /** No other record lies below this one, so what is listed below it is its own. */
  ghost predicate Leaf<T>(docs: map<string, Doc<T>>, prefix: string, id: string) {
    var p := prefix + "/" + id;
    && id != "" && id[|id| - 1] != '/' && p !in docs
    && forall q :: q in Records(docs, prefix) ==> !Under(q, p)
  }

  /** The ids that own some key below a collection's prefix. */
  ghost function IdsBelow<T>(docs: map<string, Doc<T>>, prefix: string): set<string> {
    Segments.HeldIds(prefix, Listing(KeysBelow(docs, prefix)))
  }

  lemma IdsAre<T>(docs: map<string, Doc<T>>, prefix: string, ids: seq<string>)
    requires ids == Listing(IdsBelow(docs, prefix))
    ensures (set id | id in ids) == IdsBelow(docs, prefix)
  {
  }

  /** Every document filed under an id, at any depth, makes that id known, and an id is known only
      through such a document: nothing has to be opened to find every record there is. */
  lemma IdIsKnown<T>(docs: map<string, Doc<T>>, prefix: string, segments: seq<string>)
    requires prefix != "" && prefix[|prefix| - 1] != '/' && segments != [] && segments[0] != ""
    requires prefix + "/" + Segments.Key(segments) in docs
    ensures segments[0] in IdsBelow(docs, prefix)
    ensures forall id :: id in IdsBelow(docs, prefix) ==>
              exists k :: k in docs && prefix + "/" <= k && Segments.FirstId(prefix, k) == Some(id)
  {
    hide Less, Segments.Key;
    var key := prefix + "/" + Segments.Key(segments);
    Segments.FirstIdOfKey(prefix, segments, key);
    assert key[..|prefix| + 1] == prefix + "/";
    assert key in KeysBelow(docs, prefix);
    forall id | id in IdsBelow(docs, prefix)
      ensures exists k :: k in docs && prefix + "/" <= k && Segments.FirstId(prefix, k) == Some(id)
    {
      var k :| k in Listing(KeysBelow(docs, prefix)) && Segments.FirstId(prefix, k) == Some(id);
      assert k in KeysBelow(docs, prefix);
    }
  }

  lemma VersionedKeyBelow(k: string, p: string)
    requires VersionNanos(k).Some? && Dir(k) == p && p != "." && p != "" && p[|p| - 1] != '/'
    ensures HasSegmentPrefix(k, p)
  {
    assert k == p + "/" + LastSegment(k);
  }

  /** A record has versions below it exactly when it is one of the records. */
  lemma VersionedIffRecord<T>(docs: map<string, Doc<T>>, prefix: string, id: string)
    requires WellFiled(docs, prefix) && Leaf(docs, prefix, id)
    ensures prefix + "/" + id in Records(docs, prefix) <==>
            exists k :: k in RecordKeys(docs, prefix + "/" + id) && VersionNanos(k).Some?
  {
    hide VersionNanos, Records, RecordKeys, WellFiled, Leaf;
    var p := prefix + "/" + id;
    if p in Records(docs, prefix) {
      var k := RecordHasVersion(docs, prefix, id);
    }
    forall k | k in RecordKeys(docs, p) && VersionNanos(k).Some? ensures p in Records(docs, prefix) {
      VersionMakesRecord(docs, prefix, id, k);
    }
  }

  lemma RecordHasVersion<T>(docs: map<string, Doc<T>>, prefix: string, id: string) returns (k: string)
    requires WellFiled(docs, prefix) && Leaf(docs, prefix, id) && prefix + "/" + id in Records(docs, prefix)
    ensures k in RecordKeys(docs, prefix + "/" + id) && VersionNanos(k).Some?
  {
    hide VersionNanos, LastSegment, HasSegmentPrefix;
    var p := prefix + "/" + id;
    assert p[|p| - 1] == id[|id| - 1] && |p| > 1;
    k :| k in KeysBelow(docs, prefix) && VersionNanos(k).Some? && Dir(k) == p;
    VersionedKeyBelow(k, p);
  }

  lemma VersionMakesRecord<T>(docs: map<string, Doc<T>>, prefix: string, id: string, k: string)
    requires WellFiled(docs, prefix) && Leaf(docs, prefix, id)
    requires k in RecordKeys(docs, prefix + "/" + id) && VersionNanos(k).Some?
    ensures prefix + "/" + id in Records(docs, prefix)
  {
    hide VersionNanos, LastSegment;
    var p := prefix + "/" + id;
    assert p[|p| - 1] == id[|id| - 1];
    assert Under(k, p) && Under(p, prefix);
    UnderTransitive(k, p, prefix);
    assert k in KeysBelow(docs, prefix);
    DirStaysUnder(k, p);
    assert Dir(k) in Records(docs, prefix);
  }

  /** Whatever Load answers for a record, it is that document's content or its failure. */
  lemma LoadAnswersFrom<T>(docs: map<string, Doc<T>>, prefix: string, legacy: Option<string>, id: string,
                           key: string, r: Result<(T, Span), ReadError>)
    requires WellFiled(docs, prefix) && Leaf(docs, prefix, id) && LoadReads(docs, prefix, legacy, id, key)
    requires LoadIs(docs, if legacy == None then None else Some(legacy.value + "/" + id), prefix + "/" + id, r)
    ensures exists span :: r == WithSpan(ReadDoc(docs, key), span)
  {
    hide VersionNanos;
    VersionedIffRecord(docs, prefix, id);
    var p := prefix + "/" + id;
    if p in Records(docs, prefix) {
      var k, first :| IsNewest(RecordKeys(docs, p), k) && IsOldest(RecordKeys(docs, p), first)
                      && r == WithSpan(ReadDoc(docs, k), Span(VersionNanos(first).value, VersionNanos(k).value));
      assert k == key;
    }
  }

  // ---- the collection ----

  /** LatestIs: the newest version of every record in id order, then the legacy-only records. */
  ghost predicate LatestIs<T>(docs: map<string, Doc<T>>, prefix: string, legacy: Option<string>, newest: seq<string>,
                              r: Result<(seq<T>, seq<string>), ReadError>) {
    var ids := Listing(Records(docs, prefix));
    && |newest| == |ids|
    && (forall i :: 0 <= i < |ids| ==> IsNewest(RecordKeys(docs, ids[i]), newest[i]))
    && r == Collect(docs, newest + Listing(LegacyOnly(docs, prefix, legacy)))
  }

  /** Deleting the keys of a listing one by one. */
  lemma OneKeyLess<V>(docs: map<string, V>, keys: seq<string>, i: nat)
    requires i < |keys|
    ensures docs - Elements(keys[..i + 1]) == docs - Elements(keys[..i]) - {keys[i]}
  {
    assert keys[..i + 1] == keys[..i] + [keys[i]];
  }

  /** The newest version goes last. */
  lemma KeysLeft<T>(docs: map<string, Doc<T>>, p: string, n: nat)
    requires n <= |Listing(RecordKeys(docs, p))|
    ensures var keys := Listing(RecordKeys(docs, p));
            var left := docs - Elements(keys[..n]);
            && (n < |keys| ==> keys[|keys| - 1] in left)
            && (n > 0 ==> left != docs) && (n == 0 ==> left == docs)
  {
    hide Less, HasSegmentPrefix;
    LessIsOrder({});
    var keys := Listing(RecordKeys(docs, p));
    assert forall k :: k in keys ==> k in docs;
    if n > 0 {
      assert keys[0] in keys && keys[0] in keys[..n];
    }
  }

  datatype AppendError = NoFreeName | WriteFailed

  /** An append-only collection over a document store. A create may break off, before or after its
      effect, unless the store is steady; `faults` counts those. */
  class Collection<T> {
    const prefix: string
    const legacy: Option<string>
    var docs: map<string, Doc<T>>
    var faults: nat
    const steady: bool

    constructor (prefix: string, legacy: Option<string>, docs: map<string, Doc<T>>, steady: bool)
      ensures this.prefix == prefix && this.legacy == legacy && this.docs == docs && this.steady == steady && faults == 0
    {
      this.prefix, this.legacy, this.docs, this.steady, faults := prefix, legacy, docs, steady, 0;
    }

    method ListKeys(p: string) returns (keys: seq<string>)
      ensures keys == Listing(KeysBelow(docs, p))
    {
      keys := SortStrings(KeysBelow(docs, p));
    }

    /** Creating refuses a taken name: Ok(false) is "already exists". */
    method CreateKey(key: string, value: T) returns (r: Result<bool, AppendError>)
      modifies this
      ensures old(faults) <= faults && (steady ==> faults == old(faults))
      ensures docs == old(docs) || (key !in old(docs) && docs == old(docs)[key := Parsed(value)])
      ensures r == Ok(true) ==> key !in old(docs) && docs == old(docs)[key := Parsed(value)]
      ensures r == Ok(false) ==> key in old(docs)
      ensures r.Err? ==> r == Err(WriteFailed) && old(faults) < faults
    {
      var broken, landed := *, *;
      broken := broken && !steady;
      var free := key !in docs;
      if free && (!broken || landed) {
        docs := docs[key := Parsed(value)];
      }
      if broken {
        faults := faults + 1;
        return Err(WriteFailed);
      }
      r := Ok(free);
    }

    /** Append. No stored document is touched, whatever happens; and over a record holding a readable
        history it extends that history or, if the write broke off, leaves it or has extended it. */
    method Append(at: int64, value: T, p: string, ghost history: seq<Version<T>>) returns (r: Result<(), AppendError>)
      modifies this
      ensures docs == old(docs) ||
              exists n: int64 :: VersionKey(p, n) !in old(docs) && docs == old(docs)[VersionKey(p, n) := Parsed(value)]
      ensures r.Ok? ==> docs != old(docs)
      ensures r != Err(WriteFailed) ==> exists newest, free :: AppendedAt(old(docs), docs, p, at, value, newest, free)
                                                               && (free.Some? <==> r.Ok?)
      ensures r == Err(WriteFailed) ==> old(faults) < faults
      ensures steady ==> faults == old(faults)
      ensures Holds(old(docs), p, history) && (if history == [] then at >= 0 else history[|history| - 1].stamp < MAX_INT64)
              ==> var longer := history + [Version(NextStamp(LastStamp(history), at), value)];
                  if r.Ok? then Holds(docs, p, longer)
                  else old(faults) < faults && (Holds(docs, p, history) || Holds(docs, p, longer))
    {
      hide VersionNanos, VersionKey, Holds, KeysBelow, NextStamp, Wrap64;
      ghost var good := Holds(docs, p, history) &&
                        if history == [] then at >= 0 else history[|history| - 1].stamp < MAX_INT64;
      var keys := ListKeys(p);
      var newest := NewestVersion(keys);
      if good {
        NewestIsLastStamp(docs, p, history, keys, newest);
        AppendExtends(docs, p, history, at, value);
      }
      var highest := if newest == None then None else Some(newest.value.0);
      var nanos := NextStamp(highest, at);
      ghost var first := nanos;
      for attempt := 0 to APPEND_ATTEMPTS
        invariant docs == old(docs) && old(faults) <= faults && (steady ==> faults == old(faults))
        invariant good ==> attempt == 0 && nanos == NextStamp(LastStamp(history), at)
        invariant nanos == Tried(first, attempt)
        invariant forall j :: 0 <= j < attempt ==> VersionKey(p, Tried(first, j)) in docs
      {
        var created := CreateKey(VersionKey(p, nanos), value);
        if created.Err? {
          return Err(created.error);
        }
        if created.value {
          assert AppendedAt(old(docs), docs, p, at, value, highest, Some(attempt));
          return Ok(());
        }
        nanos := Wrap64((nanos as int) + 1);
      }
      assert AppendedAt(old(docs), docs, p, at, value, highest, None);
      r := Err(NoFreeName);
    }

    /** Keys: the version keys of a record, oldest first, without reading a document. */
    method Keys(p: string, ghost history: seq<Version<T>>) returns (out: seq<string>)
      ensures forall k :: k in out <==> k in RecordKeys(docs, p) && VersionNanos(k).Some?
      ensures Holds(docs, p, history) ==> out == HistoryKeys(p, history)
    {
      hide VersionNanos;
      var keys := ListKeys(p);
      if Holds(docs, p, history) {
        ListingIsHistory(docs, p, history);
        forall i | 0 <= i < |history| ensures VersionNanos(keys[i]).Some? {
          HistoryVersions(docs, p, history, i);
        }
      }
      out := [];
      for i := 0 to |keys|
        invariant forall k :: k in out <==> k in keys[..i] && VersionNanos(k).Some?
        invariant (forall k :: k in keys ==> VersionNanos(k).Some?) ==> out == keys[..i]
      {
        if VersionNanos(keys[i]).Some? {
          out := out + [keys[i]];
        }
        assert keys[..i + 1] == keys[..i] + [keys[i]];
      }
      assert keys[..|keys|] == keys;
    }

    /** Load, with the record's span of versions. */
    method Load(id: string) returns (r: Result<(T, Span), ReadError>)
      requires IsRecord(docs, prefix + "/" + id)
      ensures LoadIs(docs, if legacy == None then None else Some(legacy.value + "/" + id), prefix + "/" + id, r)
    {
      hide VersionNanos;
      var p := prefix + "/" + id;
      var keys := ListKeys(p);
      var newest := NewestVersion(keys);
      if newest.Some? {
        var k := newest.value.1;
        assert k in RecordKeys(docs, p) && VersionNanos(k).Some?;
        HighestIsNewest(docs, p, k);
        var span := VersionSpan(keys);
        SpanEnds(docs, p, keys, span.value, k);
        return WithSpan(ReadDoc(docs, k), span.value);
      }
      r := if legacy == None then Err(Absent) else WithSpan(ReadDoc(docs, legacy.value + "/" + id), NO_SPAN);
    }

    /** Reads more documents into a listing under way. */
    method ReadInto(ghost done: seq<string>, keys: seq<string>, values: seq<T>, unreadable: seq<string>)
      returns (r: Result<(seq<T>, seq<string>), ReadError>)
      requires Collect(docs, done) == Ok((values, unreadable))
      ensures r == Collect(docs, done + keys)
    {
      var out, bad := values, unreadable;
      assert done + keys[..0] == done;
      for i := 0 to |keys|
        invariant Collect(docs, done + keys[..i]) == Ok((out, bad))
      {
        ghost var sofar := done + keys[..i + 1];
        assert sofar[..|sofar| - 1] == done + keys[..i] && sofar[|sofar| - 1] == keys[i];
        match ReadDoc(docs, keys[i]) {
          case Ok(v) => out := out + [v];
          case Err(Absent) =>
          case Err(MalformedAt(_)) => bad := bad + [keys[i]];
          case Err(Unavailable) =>
            FailureSticks(docs, sofar, keys[i + 1..]);
            assert done + keys == sofar + keys[i + 1..];
            return Err(Unavailable);
        }
      }
      assert done + keys[..|keys|] == done + keys;
      r := Ok((out, bad));
    }

    /** The newest version of every record, found in one pass over the collection's listing. */
    method GroupNewest(keys: seq<string>) returns (newestByID: map<string, string>)
      requires keys == Listing(KeysBelow(docs, prefix)) && WellFiled(docs, prefix)
      ensures newestByID.Keys == Records(docs, prefix)
      ensures forall p :: p in newestByID ==> IsNewest(RecordKeys(docs, p), newestByID[p])
    {
      hide *;
      newestByID := map[];
      var newestNanos: map<string, int64> := map[];
      for i := 0 to |keys|
        invariant newestNanos.Keys == newestByID.Keys
        invariant forall p :: p in newestByID ==> newestByID[p] in keys && Dir(newestByID[p]) == p
                                                  && VersionNanos(newestByID[p]) == Some(newestNanos[p])
        invariant forall j :: 0 <= j < i && VersionNanos(keys[j]).Some? ==>
                    Dir(keys[j]) in newestNanos && VersionNanos(keys[j]).value <= newestNanos[Dir(keys[j])]
      {
        var nanos := VersionNanos(keys[i]);
        if nanos == None {
          continue;
        }
        var id := Dir(keys[i]);
        if id in newestNanos && newestNanos[id] >= nanos.value {
          continue;
        }
        newestByID, newestNanos := newestByID[id := keys[i]], newestNanos[id := nanos.value];
      }
      GroupedIsNewest(docs, prefix, keys, newestByID);
    }

    /** Latest: every record once, at its newest version or as unreadable. */
    method Latest() returns (r: Result<(seq<T>, seq<string>), ReadError>)
      requires WellFiled(docs, prefix)
      ensures exists newest :: LatestIs(docs, prefix, legacy, newest, r)
    {
      hide VersionNanos, Dir, KeysBelow, Records, LegacyOnly, ReadDoc, IsNewest, WellFiled, RecordKeys, Less,
           Ascending, Lists;
      var keys := ListKeys(prefix);
      var newestByID := GroupNewest(keys);
      var ids := SortStrings(newestByID.Keys);
      var found: seq<string> := [];
      for i := 0 to |ids|
        invariant |found| == i && forall j :: 0 <= j < i ==> found[j] == newestByID[ids[j]]
      {
        assert ids[i] in ids;
        found := found + [newestByID[ids[i]]];
      }
      r := ReadInto([], found, [], []);
      assert [] + found == found;
      if r.Err? {
        FailureSticks(docs, found, Listing(LegacyOnly(docs, prefix, legacy)));
        assert LatestIs(docs, prefix, legacy, found, r);
        return;
      }
      var others := LegacyOnlyKeys(newestByID);
      r := ReadInto(found, others, r.value.0, r.value.1);
      assert LatestIs(docs, prefix, legacy, found, r);
    }

    /** IDs: the first-level ids of both layouts, each once, in order, read from keys alone. */
    method IDs() returns (out: seq<string>)
      ensures out == Listing(IdsBelow(docs, prefix) + if legacy == None then {} else IdsBelow(docs, legacy.value))
    {
      hide Less, Segments.HeldIds, HasSegmentPrefix, KeysBelow;
      var keys := ListKeys(prefix);
      var ids := Segments.Ids(prefix, keys);
      IdsAre(docs, prefix, ids);
      var seen := set id | id in ids;
      if legacy.Some? {
        keys := ListKeys(legacy.value);
        ids := Segments.Ids(legacy.value, keys);
        IdsAre(docs, legacy.value, ids);
        seen := seen + set id | id in ids;
      }
      assert seen == IdsBelow(docs, prefix) + if legacy == None then {} else IdsBelow(docs, legacy.value);
      out := SortStrings(seen);
    }

    /** Deletes the keys of a listing in order, up to a failure, which may have landed. */
    method DeleteInOrder(keys: seq<string>) returns (removed: bool, ok: bool, ghost n: nat)
      modifies this`docs
      ensures n <= |keys| && docs == old(docs) - Elements(keys[..n])
      ensures (ok ==> n == |keys| && (removed <==> n > 0)) && (removed ==> n > 0) && (steady ==> ok)
    {
      removed, ok, n := false, false, 0;
      assert old(docs) - Elements(keys[..0]) == old(docs);
      for i := 0 to |keys|
        invariant docs == old(docs) - Elements(keys[..i]) && n == i
        invariant removed <==> i > 0
      {
        OneKeyLess(old(docs), keys, i);
        var broken, landed := *, *;
        broken := broken && !steady;
        if !broken || landed {
          docs, n := docs - {keys[i]}, i + 1;
        }
        if broken {
          return;
        }
        removed := true;
      }
      ok := true;
    }

    /** DeleteAll: retires a record's versions, oldest first, and then its legacy document, and says whether
        there were any. Stopped midway, after n versions, the newest one is still there. */
    method DeleteAll(id: string) returns (removed: bool, ok: bool, ghost n: nat)
      modifies this`docs
      ensures n <= |Listing(RecordKeys(old(docs), prefix + "/" + id))|
      ensures var keys := Listing(RecordKeys(old(docs), prefix + "/" + id));
              var left, last := old(docs) - Elements(keys[..n]), if legacy == None then {} else {legacy.value + "/" + id};
              && (ok ==> n == |keys| && docs == left - last && (removed <==> docs != old(docs)))
              && (n < |keys| ==> docs == left && keys[|keys| - 1] in docs)
              && (docs == left || docs == left - last) && (removed ==> docs != old(docs))
      ensures steady ==> ok
    {
      hide VersionNanos, Less, HasSegmentPrefix, Lists, Elements, RecordKeys;
      removed, ok, n := false, false, 0;
      var unlisted := *;
      KeysLeft(docs, prefix + "/" + id, 0);
      if unlisted && !steady {
        return;
      }
      var keys := ListRecord(id);
      removed, ok, n := DeleteInOrder(keys);
      KeysLeft(old(docs), prefix + "/" + id, n);
      if !ok {
        return;
      }
      if legacy.Some? && legacy.value + "/" + id in docs {
        var broken, landed := *, *;
        ok := !broken || steady;
        if ok || landed {
          docs := docs - {legacy.value + "/" + id};
        }
        removed := removed || ok;
      }
    }

    method ListRecord(id: string) returns (keys: seq<string>)
      ensures keys == Listing(RecordKeys(docs, prefix + "/" + id))
    {
      keys := ListKeys(prefix + "/" + id);
    }

    /** The legacy documents no versioned record supersedes, in key order. */
    method LegacyOnlyKeys(versioned: map<string, string>) returns (out: seq<string>)
      requires versioned.Keys == Records(docs, prefix)
      ensures out == Listing(LegacyOnly(docs, prefix, legacy))
    {
      hide VersionNanos, Dir, KeysBelow, Records, LegacyOnly, Less, Ascending, Lists;
      if legacy == None {
        NoLegacyListing(docs, prefix);
        return [];
      }
      var keys := ListKeys(legacy.value);
      ghost var keep := k => legacy.value + "/" <= k && prefix + "/" + k[|legacy.value| + 1..] !in versioned;
      out := [];
      for i := 0 to |keys|
        invariant out == Filter(keys[..i], keep)
      {
        assert keys[..i + 1][..i] == keys[..i];
        if legacy.value + "/" <= keys[i] && prefix + "/" + keys[i][|legacy.value| + 1..] !in versioned {
          out := out + [keys[i]];
        }
      }
      assert keys[..|keys|] == keys;
      LegacyListing(docs, prefix, legacy, keep);
    }
  }

  lemma LegacyListing<T>(docs: map<string, Doc<T>>, prefix: string, legacy: Option<string>, keep: string -> bool)
    requires legacy.Some?
    requires forall k :: keep(k) <==> legacy.value + "/" <= k
                                      && prefix + "/" + k[|legacy.value| + 1..] !in Records(docs, prefix)
    ensures Filter(Listing(KeysBelow(docs, legacy.value)), keep) == Listing(LegacyOnly(docs, prefix, legacy))
  {
    hide Records, KeysBelow;
    FilterListing(KeysBelow(docs, legacy.value), keep);
    assert LegacyOnly(docs, prefix, legacy) == set k | k in KeysBelow(docs, legacy.value) && keep(k);
  }

  lemma NoLegacyListing<T>(docs: map<string, Doc<T>>, prefix: string)
    ensures Listing(LegacyOnly(docs, prefix, None)) == []
  {
    ListingIs([], {});
  }

  lemma GroupedIsNewest<T>(docs: map<string, Doc<T>>, prefix: string, keys: seq<string>, newest: map<string, string>)
    requires WellFiled(docs, prefix) && keys == Listing(KeysBelow(docs, prefix))
    requires forall p :: p in newest ==> newest[p] in keys && Dir(newest[p]) == p && VersionNanos(newest[p]).Some?
    requires forall k :: k in keys && VersionNanos(k).Some? ==>
               Dir(k) in newest && VersionNanos(k).value <= VersionNanos(newest[Dir(k)]).value
    ensures newest.Keys == Records(docs, prefix)
    ensures forall p :: p in newest ==> IsNewest(RecordKeys(docs, p), newest[p])
  {
    hide VersionNanos, VersionKey, Less, Ascending, Lists, KeysBelow, HasSegmentPrefix;
    forall p | p in newest ensures p in Records(docs, prefix) && IsNewest(RecordKeys(docs, p), newest[p]) {
      assert p in Records(docs, prefix);
      assert |p| > 1;
      VersionedKeyBelow(newest[p], p);
      BelowOf(docs, p, newest[p], keys, prefix);
      forall x | x in RecordKeys(docs, p) && VersionNanos(x).Some?
        ensures VersionNanos(x).value <= VersionNanos(newest[p]).value
      {
        VersionIsBelow(docs, prefix, p, x);
      }
      HighestIsNewest(docs, p, newest[p]);
    }
  }

  lemma BelowOf<T>(docs: map<string, Doc<T>>, p: string, k: string, keys: seq<string>, prefix: string)
    requires HasSegmentPrefix(k, p) && k in keys && keys == Listing(KeysBelow(docs, prefix))
    ensures k in RecordKeys(docs, p)
  {
  }

  /** A version of a listed record is named for it and lies in the collection. */
  lemma VersionIsBelow<T>(docs: map<string, Doc<T>>, prefix: string, p: string, k: string)
    requires WellFiled(docs, prefix) && p in Records(docs, prefix) && k in RecordKeys(docs, p)
    ensures Dir(k) == p && k in KeysBelow(docs, prefix)
  {
    var n: int64 :| k == VersionKey(p, n);
    VersionIsReadable(p, n);
    UnderTransitive(k, p, prefix);
  }

  lemma {:induction false} FailureSticks<T>(docs: map<string, Doc<T>>, a: seq<string>, b: seq<string>)
    requires Collect(docs, a).Err?
    ensures Collect(docs, a + b) == Collect(docs, a)
  {
    if b == [] {
      assert a + b == a;
    } else {
      FailureSticks(docs, a, b[..|b| - 1]);
      assert (a + b)[..|a + b| - 1] == a + b[..|b| - 1];
    }
  }

  /** Names written by Append carry distinct stamps, so the highest stamp names one version. */
  lemma HighestIsNewest<T>(docs: map<string, Doc<T>>, p: string, k: string)
    requires IsRecord(docs, p) && k in RecordKeys(docs, p) && VersionNanos(k).Some?
    requires forall x :: x in RecordKeys(docs, p) && VersionNanos(x).Some? ==> VersionNanos(x).value <= VersionNanos(k).value
    ensures IsNewest(RecordKeys(docs, p), k)
  {
    hide VersionNanos, VersionKey;
    forall x | x in RecordKeys(docs, p) && x != k && VersionNanos(x).Some?
      ensures VersionNanos(x).value < VersionNanos(k).value
    {
      var m: int64 :| x == VersionKey(p, m);
      var n: int64 :| k == VersionKey(p, n);
      VersionIsReadable(p, m);
      VersionIsReadable(p, n);
    }
  }

  lemma SpanEnds<T>(docs: map<string, Doc<T>>, p: string, keys: seq<string>, span: Span, newest: string)
    requires keys == Listing(RecordKeys(docs, p))
    requires forall k :: k in keys && VersionNanos(k).Some? ==> span.oldest <= VersionNanos(k).value <= span.newest
    requires exists a, b :: a in keys && b in keys && VersionNanos(a) == Some(span.oldest) && VersionNanos(b) == Some(span.newest)
    requires IsNewest(RecordKeys(docs, p), newest)
    ensures exists first :: IsOldest(RecordKeys(docs, p), first)
                            && span == Span(VersionNanos(first).value, VersionNanos(newest).value)
  {
    hide VersionNanos;
    var a, b :| a in keys && b in keys && VersionNanos(a) == Some(span.oldest) && VersionNanos(b) == Some(span.newest);
    assert IsOldest(RecordKeys(docs, p), a);
    assert newest in keys;
  }

  lemma NewestIsLastStamp<T>(docs: map<string, Doc<T>>, p: string, history: seq<Version<T>>, keys: seq<string>,
                             newest: Option<(int64, string)>)
    requires Holds(docs, p, history) && keys == Listing(RecordKeys(docs, p))
    requires newest == None ==> forall k :: k in keys ==> VersionNanos(k) == None
    requires newest.Some? ==> newest.value.1 in keys && VersionNanos(newest.value.1) == Some(newest.value.0)
    requires newest.Some? ==> forall k :: k in keys && VersionNanos(k).Some? ==> VersionNanos(k).value <= newest.value.0
    ensures LastStamp(history) == if newest == None then None else Some(newest.value.0)
  {
    hide VersionNanos, VersionKey, KeysBelow, Less, Holds, RecordKeys;
    ListingIsHistory(docs, p, history);
    StampsRise(docs, p, history);
    if history != [] {
      var last := |history| - 1;
      HistoryVersions(docs, p, history, last);
      assert keys[last] == VersionKey(p, history[last].stamp) && keys[last] in keys;
      var i :| 0 <= i < |keys| && keys[i] == newest.value.1;
      HistoryVersions(docs, p, history, i);
    }
  }

  // ---- Latest agrees with Load ----

  /** The documents Latest reads, in its order. */
  ghost function LatestKeys<T>(docs: map<string, Doc<T>>, prefix: string, legacy: Option<string>,
                               newest: seq<string>): seq<string> {
    newest + Listing(LegacyOnly(docs, prefix, legacy))
  }

  /** The two collections do not overlap. */
  ghost predicate Apart<T>(docs: map<string, Doc<T>>, prefix: string, legacy: Option<string>) {
    legacy.Some? ==> forall k :: k in KeysBelow(docs, legacy.value) ==> k !in KeysBelow(docs, prefix)
  }

  /** Latest reads no document twice. */
  lemma LatestReadsOnce<T>(docs: map<string, Doc<T>>, prefix: string, legacy: Option<string>, newest: seq<string>,
                           r: Result<(seq<T>, seq<string>), ReadError>)
    requires WellFiled(docs, prefix) && LatestIs(docs, prefix, legacy, newest, r) && Apart(docs, prefix, legacy)
    ensures var keys := LatestKeys(docs, prefix, legacy, newest);
            forall i, j :: 0 <= i < j < |keys| ==> keys[i] != keys[j]
  {
    hide VersionNanos, Less, KeysBelow, Records, IsNewest;
    var ids, others := Listing(Records(docs, prefix)), Listing(LegacyOnly(docs, prefix, legacy));
    forall i | 0 <= i < |ids| ensures Dir(newest[i]) == ids[i] && newest[i] in KeysBelow(docs, prefix) {
      assert newest[i] in RecordKeys(docs, ids[i]) by { IsNewestIn(RecordKeys(docs, ids[i]), newest[i]); }
      VersionIsBelow(docs, prefix, ids[i], newest[i]);
    }
    forall i, j | 0 <= i < j < |newest| ensures newest[i] != newest[j] {
      AscendingDiffers(ids, i, j);
    }
    forall i, j | 0 <= i < j < |others| ensures others[i] != others[j] {
      AscendingDiffers(others, i, j);
    }
    forall i, j | 0 <= i < |newest| && 0 <= j < |others| ensures newest[i] != others[j] {
      assert others[j] in others;
    }
    NoneRepeated(newest, others);
  }

  lemma NoneRepeated(a: seq<string>, b: seq<string>)
    requires NoRepeats(a) && NoRepeats(b) && forall i, j :: 0 <= i < |a| && 0 <= j < |b| ==> a[i] != b[j]
    ensures NoRepeats(a + b)
  {
  }

  /** Latest reads exactly the documents Load reads, for every record versioned or legacy-only. With
      LoadAnswersFrom and CollectPointwise: each record appears once, as its Load value or as
      unreadable, and never as an older version or a superseded legacy document. */
  lemma LatestReadsWhatLoadReads<T>(docs: map<string, Doc<T>>, prefix: string, legacy: Option<string>,
                                    newest: seq<string>, r: Result<(seq<T>, seq<string>), ReadError>)
    requires WellFiled(docs, prefix) && LatestIs(docs, prefix, legacy, newest, r)
    ensures r == Collect(docs, LatestKeys(docs, prefix, legacy, newest))
    ensures forall k :: k in LatestKeys(docs, prefix, legacy, newest) <==>
                        exists id :: LoadReads(docs, prefix, legacy, id, k)
  {
    hide VersionNanos, Less, KeysBelow, Records, IsNewest, Collect;
    forall id, k | LoadReads(docs, prefix, legacy, id, k) ensures k in LatestKeys(docs, prefix, legacy, newest) {
      if prefix + "/" + id in Records(docs, prefix) {
        var ids := Listing(Records(docs, prefix));
        var i :| 0 <= i < |ids| && ids[i] == prefix + "/" + id;
        OnlyOneNewest(RecordKeys(docs, ids[i]), k, newest[i]);
      }
    }
    forall k | k in LatestKeys(docs, prefix, legacy, newest)
      ensures exists id :: LoadReads(docs, prefix, legacy, id, k)
    {
      LatestKeyIsRead(docs, prefix, legacy, newest, r, k);
    }
  }

  lemma LatestKeyIsRead<T>(docs: map<string, Doc<T>>, prefix: string, legacy: Option<string>,
                           newest: seq<string>, r: Result<(seq<T>, seq<string>), ReadError>, k: string)
    requires WellFiled(docs, prefix) && LatestIs(docs, prefix, legacy, newest, r)
    requires k in LatestKeys(docs, prefix, legacy, newest)
    ensures exists id :: LoadReads(docs, prefix, legacy, id, k)
  {
    hide VersionNanos, Less, KeysBelow, Records, IsNewest, Collect;
    var ids, others := Listing(Records(docs, prefix)), Listing(LegacyOnly(docs, prefix, legacy));
    if k in newest {
      var i :| 0 <= i < |newest| && newest[i] == k;
      assert ids[i] in Records(docs, prefix);
      var id := ids[i][|prefix| + 1..];
      assert ids[i] == prefix + "/" + id;
      assert LoadReads(docs, prefix, legacy, id, k);
    } else {
      assert k in others;
      var id := k[|legacy.value| + 1..];
      assert k == legacy.value + "/" + id;
      assert LoadReads(docs, prefix, legacy, id, k);
    }
  }

  lemma AscendingDiffers(list: seq<string>, i: nat, j: nat)
    requires Ascending(list, Less) && i < j < |list|
    ensures list[i] != list[j]
  {
    LessTrichotomy(list[i], list[j]);
  }

  lemma OnlyOneNewest(keys: set<string>, a: string, b: string)
    requires IsNewest(keys, a) && IsNewest(keys, b)
    ensures a == b
  {
  }

  lemma IsNewestIn(keys: set<string>, k: string)
    requires IsNewest(keys, k)
    ensures k in keys
  {
  }
}
