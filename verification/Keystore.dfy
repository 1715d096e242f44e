/** The envelope store (internal/keystore/keystore.go): two append-only versioned envelopes per Space,
    with a fallback to the older single record, reported once through Get and once through Status. */
module Keystore {
  import opened Wrappers
  import opened Ordered
  import opened Text

  datatype WrapKind = Unset | RK | SRW | TW

  datatype Wrapped = Wrapped(kind: WrapKind, version: nat, blob: seq<bv8>)

  const NO_ENVELOPE := Wrapped(Unset, 0, [])

  /** Times are optional: Go's zero time is None. */
  datatype Span = Span(oldest: Option<int>, newest: Option<int>)

  /** What reading one versioned envelope yields. */
  datatype Loaded = Newest(envelope: Wrapped, span: Span) | Missing | Unreadable

  /** The older record of a Space, both envelopes in one document. */
  datatype SpaceKeys = SpaceKeys(rk: Wrapped, srw: Wrapped, created: Option<int>, updated: Option<int>)

  datatype Legacy = Held(keys: SpaceKeys) | NoRecord | Broken

  /** What the state store answers for one Space. */
  datatype Stored = Stored(rk: Loaded, srw: Loaded, legacy: Legacy)

  datatype KeyError = NotFound | ReadFailed

  datatype Status = Status(configured: bool, hasRK: bool, hasSRW: bool, rkVersion: nat, srwVersion: nat,
                           created: Option<int>, updated: Option<int>)

  const NOT_SET_UP := Status(false, false, false, 0, 0, None, None)

  function LegacyRecord(s: Stored): Result<SpaceKeys, KeyError> {
    match s.legacy
    case Held(keys) => Ok(keys)
    case NoRecord => Err(NotFound)
    case Broken => Err(ReadFailed)
  }

  /** envelope: the newest version, or the older record's when there is no version. */
  function Envelope(s: Stored, kind: WrapKind): Result<Wrapped, KeyError> {
    match if kind == RK then s.rk else s.srw
    case Newest(w, _) => Ok(w)
    case Unreadable => Err(ReadFailed)
    case Missing =>
      match LegacyRecord(s)
      case Err(e) => Err(e)
      case Ok(keys) => Ok(if kind == RK then keys.rk else keys.srw)
  }

  /** GetRK and GetSRW: an envelope of another kind is no envelope. */
  function Get(s: Stored, kind: WrapKind): Result<Wrapped, KeyError> {
    match Envelope(s, kind)
    case Err(e) => Err(e)
    case Ok(w) => if w.kind == kind then Ok(w) else Err(NotFound)
  }

  /** Each getter serves its own newest version or, when it has none, its own half of the older record, and
      nothing of another kind; what cannot be read is never reported as absent. */
  lemma GetServes(s: Stored, w: Wrapped)
    ensures Get(s, RK) == Ok(w) <==>
            w.kind == RK && ((s.rk.Newest? && s.rk.envelope == w) || (s.rk.Missing? && s.legacy.Held? && s.legacy.keys.rk == w))
    ensures Get(s, SRW) == Ok(w) <==>
            w.kind == SRW && ((s.srw.Newest? && s.srw.envelope == w) || (s.srw.Missing? && s.legacy.Held? && s.legacy.keys.srw == w))
    ensures Get(s, RK) == Err(ReadFailed) <==> s.rk.Unreadable? || (s.rk.Missing? && s.legacy.Broken?)
    ensures Get(s, SRW) == Err(ReadFailed) <==> s.srw.Unreadable? || (s.srw.Missing? && s.legacy.Broken?)
  {
  }

  function Earliest(a: Option<int>, b: Option<int>): Option<int> {
    match (a, b)
    case (None, _) => b
    case (_, None) => a
    case (Some(x), Some(y)) => if y < x then b else a
  }

  function Latest(a: Option<int>, b: Option<int>): Option<int> {
    match (a, b)
    case (None, _) => b
    case (_, None) => a
    case (Some(x), Some(y)) => if y > x then b else a
  }

  function SpanOf(l: Loaded): Span {
    if l.Newest? then l.span else Span(None, None)
  }

  /** read: the Space's record reassembled from both layouts. A legacy read error is dropped when the
      other kind is versioned. */
  function Read(s: Stored): Result<SpaceKeys, KeyError> {
    if s.rk.Unreadable? || s.srw.Unreadable? then Err(ReadFailed)
    else
      var rec := SpaceKeys(if s.rk.Newest? then s.rk.envelope else NO_ENVELOPE,
                           if s.srw.Newest? then s.srw.envelope else NO_ENVELOPE,
                           Earliest(SpanOf(s.rk).oldest, SpanOf(s.srw).oldest),
                           Latest(SpanOf(s.rk).newest, SpanOf(s.srw).newest));
      if s.rk.Newest? && s.srw.Newest? then Ok(rec)
      else match LegacyRecord(s)
        case Err(e) => if s.rk.Missing? && s.srw.Missing? then Err(e) else Ok(rec)
        case Ok(was) => Ok(SpaceKeys(if s.rk.Missing? then was.rk else rec.rk,
                                     if s.srw.Missing? then was.srw else rec.srw,
                                     Earliest(rec.created, was.created), Latest(rec.updated, was.updated)))
  }

  function StatusOf(s: Stored): Result<Status, KeyError> {
    match Read(s)
    case Err(NotFound) => Ok(NOT_SET_UP)
    case Err(e) => Err(e)
    case Ok(k) =>
      var hasRK, hasSRW := k.rk.kind == RK, k.srw.kind == SRW;
      Ok(Status(hasRK && hasSRW, hasRK, hasSRW, k.rk.version, k.srw.version, k.created, k.updated))
  }

  /** Status tells of each kind what its Get would: present with that version, or not found. */
  predicate Agrees(s: Stored) {
    match StatusOf(s)
    case Err(_) => Get(s, RK) == Err(ReadFailed) || Get(s, SRW) == Err(ReadFailed)
    case Ok(st) =>
      && (if st.hasRK then Get(s, RK).Ok? && Get(s, RK).value.version == st.rkVersion else Get(s, RK) == Err(NotFound))
      && (if st.hasSRW then Get(s, SRW).Ok? && Get(s, SRW).value.version == st.srwVersion else Get(s, SRW) == Err(NotFound))
      && (st.configured <==> Get(s, RK).Ok? && Get(s, SRW).Ok?)
  }

  /** Status agrees with Get in every state of the store but one: an older record that cannot be read
      while exactly one kind has a version. There Status calls the other kind absent. */
  lemma StatusAgreesIff(s: Stored)
    ensures Agrees(s) <==> !(s.legacy.Broken? && ((s.rk.Newest? && s.srw.Missing?) || (s.rk.Missing? && s.srw.Newest?)))
  {
  }

  /** So an outage is never reported as "configured": a Space that Status calls configured serves both
      envelopes, whatever could not be read. */
  lemma ConfiguredServes(s: Stored)
    requires StatusOf(s).Ok? && StatusOf(s).value.configured
    ensures Get(s, RK).Ok? && Get(s, SRW).Ok?
  {
  }

  /** Once a Space is configured from whatever layout, a new version of either kind keeps it so, and the
      other kind still answers as before. */
  lemma NewVersionKeeps(s: Stored, kind: WrapKind, w: Wrapped, span: Span)
    requires kind in {RK, SRW} && w.kind == kind
    ensures var t := if kind == RK then s.(rk := Newest(w, span)) else s.(srw := Newest(w, span));
            && Get(t, kind) == Ok(w)
            && Get(t, if kind == RK then SRW else RK) == Get(s, if kind == RK then SRW else RK)
            && (StatusOf(s).Ok? && StatusOf(s).value.configured ==> StatusOf(t).Ok? && StatusOf(t).value.configured)
  {
  }

  /** The times a set of spans covers. */
  ghost predicate IsEarliest(t: Option<int>, times: set<int>) {
    if times == {} then t.None? else t.Some? && t.value in times && forall x :: x in times ==> t.value <= x
  }

  ghost predicate IsLatest(t: Option<int>, times: set<int>) {
    if times == {} then t.None? else t.Some? && t.value in times && forall x :: x in times ==> x <= t.value
  }

  function Known(a: Option<int>): set<int> { if a.Some? then {a.value} else {} }

  /** Created and updated are the first and last of every time on record, across both layouts. */
  lemma StatusSpans(s: Stored)
    requires StatusOf(s).Ok? && Read(s).Ok?
    ensures IsEarliest(StatusOf(s).value.created,
                       (if s.rk.Newest? then Known(s.rk.span.oldest) else {})
                       + (if s.srw.Newest? then Known(s.srw.span.oldest) else {})
                       + if s.legacy.Held? && (s.rk.Missing? || s.srw.Missing?) then Known(s.legacy.keys.created) else {})
    ensures IsLatest(StatusOf(s).value.updated,
                     (if s.rk.Newest? then Known(s.rk.span.newest) else {})
                     + (if s.srw.Newest? then Known(s.srw.span.newest) else {})
                     + if s.legacy.Held? && (s.rk.Missing? || s.srw.Missing?) then Known(s.legacy.keys.updated) else {})
  {
    var a, b := SpanOf(s.rk), SpanOf(s.srw);
    EarliestOfTwo(a.oldest, b.oldest);
    LatestOfTwo(a.newest, b.newest);
  }

  lemma EarliestOfTwo(a: Option<int>, b: Option<int>)
    ensures IsEarliest(Earliest(a, b), Known(a) + Known(b))
  {
  }

  lemma LatestOfTwo(a: Option<int>, b: Option<int>)
    ensures IsLatest(Latest(a, b), Known(a) + Known(b))
  {
  }

  /** mergeIDs: the ids of both layouts, each once, in order. */
  method MergeIDs(a: seq<string>, b: seq<string>) returns (out: seq<string>)
    ensures out == Listing(Elements(a) + Elements(b))
  {
    hide Less;
    var seen: set<string> := {};
    var lists := [a, b];
    for n := 0 to 2
      invariant seen == (if n > 0 then Elements(a) else {}) + (if n > 1 then Elements(b) else {})
    {
      ghost var before := seen;
      for i := 0 to |lists[n]|
        invariant seen == before + Elements(lists[n][..i])
      {
        assert lists[n][..i + 1] == lists[n][..i] + [lists[n][i]];
        if lists[n][i] !in seen {
          seen := seen + {lists[n][i]};
        }
      }
      assert lists[n][..|lists[n]|] == lists[n];
    }
    out := SortStrings(seen);
  }
}
