/** Names of durable job documents (internal/jobs/state.go): jobs/<space>/<nanos>-<kind>-<id>, and
    the older jobs/<space>/<nanos>-<id>. */
module JobKeys {
  import opened Wrappers
  import opened Text
  import opened Segments
  import opened Jobs

  const JOBS_PREFIX := "jobs"

  predicate IsKind(s: string) { s == "backup" || s == "prune" || s == "restore" }

  /** Job ids are hex, so they contain neither separator. */
  predicate IsHexID(id: string) {
    id != "" && forall i :: 0 <= i < |id| ==> IsDigit(id[i]) || 'a' <= id[i] <= 'f'
  }

  function DocumentName(created: int64, kind: string, id: string): string {
    Stamp(created) + "-" + kind + "-" + id
  }

  function LegacyName(created: int64, id: string): string { Stamp(created) + "-" + id }

  /** What follows the stamp in a document name. */
  function AfterStamp(key: string): Option<string> {
    match Cut(LastSegment(key), '-')
    case None => None
    case Some((_, rest)) => Some(rest)
  }

  /** idFromKey, for either layout. */
  function IdFromKey(key: string): Option<string> {
    match AfterStamp(key)
    case None => None
    case Some(rest) =>
      if rest == "" then None
      else match Cut(rest, '-')
        case Some((kind, id)) => if id != "" && IsKind(kind) then Some(id) else Some(rest)
        case None => Some(rest)
  }

  /** kindFromKey: the kind a name carries, if it carries one. */
  function KindFromKey(key: string): Option<string> {
    match AfterStamp(key)
    case None => None
    case Some(rest) =>
      match Cut(rest, '-')
      case Some((kind, id)) => if id != "" && IsKind(kind) then Some(kind) else None
      case None => None
  }

  /** createdFromKey. */
  function CreatedFromKey(key: string): Option<int64> {
    match Cut(LastSegment(key), '-')
    case None => None
    case Some((stamp, _)) => ParseInt64(stamp)
  }

  /** A job whose document name can be read back. */
  predicate Nameable(j: Job) { IsHexID(j.id) && IsKind(j.kind) && j.created >= 0 && j.space != "" }

  /** The folder of a Space's documents; the empty Space id names the folder of all. */
  function SpaceFolder(space: string): string { JOBS_PREFIX + "/" + Key([space]) }

  function DocumentKey(j: Job): string {
    JOBS_PREFIX + "/" + Key([j.space, DocumentName(j.created, j.kind, j.id)])
  }

  function LegacyKey(j: Job): string {
    JOBS_PREFIX + "/" + Key([j.space, LegacyName(j.created, j.id)])
  }

  /** A job is filed under its name in either layout. */
  predicate Filed(key: string, j: Job) { Nameable(j) && (key == DocumentKey(j) || key == LegacyKey(j)) }

  predicate AllSafe(s: string) { forall i :: 0 <= i < |s| ==> IsSafeByte(s[i]) }

  lemma {:induction false} SafeEscapesToItself(s: string)
    requires AllSafe(s)
    ensures EscapedBytes(s) == s
  {
    if s != "" {
      SafeEscapesToItself(s[1..]);
      assert s == [s[0]] + s[1..];
    }
  }

  lemma StampIsSafe(n: int64)
    ensures AllSafe(Stamp(n))
    ensures n >= 0 ==> '-' !in Stamp(n)
    ensures n < 0 ==> Stamp(n)[0] == '-' && '-' !in Stamp(n)[1..] && |Stamp(n)| > 1
  {
  }

  /** A name that starts with a stamp is written unescaped. */
  lemma NameEscapesToItself(n: int64, rest: string)
    requires AllSafe(rest)
    ensures Escaped(Stamp(n) + "-" + rest) == Stamp(n) + "-" + rest && '/' !in Stamp(n) + "-" + rest
  {
    StampIsSafe(n);
    SafeEscapesToItself(Stamp(n) + "-" + rest);
    assert |Stamp(n)| >= 19;
  }

  /** The parts of a key: the Space's folder, a stamp, the rest of the name. */
  lemma KeyParts(space: string, n: int64, rest: string)
    requires AllSafe(rest)
    ensures var name := Stamp(n) + "-" + rest;
            JOBS_PREFIX + "/" + Key([space, name]) == SpaceFolder(space) + "/" + name
    ensures var key := JOBS_PREFIX + "/" + Key([space, Stamp(n) + "-" + rest]);
            LastSegment(key) == Stamp(n) + "-" + rest && Dir(key) == SpaceFolder(space)
  {
    hide Stamp, Escaped, LastSegment, Dir, AllSafe;
    var name := Stamp(n) + "-" + rest;
    NameEscapesToItself(n, rest);
    assert Key([space, name]) == Escaped(space) + "/" + Escaped(name) by {
      assert [space, name][1..] == [name];
    }
    SplitLast(SpaceFolder(space), name);
    assert JOBS_PREFIX + "/" + (Escaped(space) + "/" + name) == JOBS_PREFIX + "/" + Escaped(space) + "/" + name;
  }

  lemma AfterStampOf(space: string, n: int64, rest: string)
    requires AllSafe(rest)
    ensures var key := JOBS_PREFIX + "/" + Key([space, Stamp(n) + "-" + rest]);
            && (n >= 0 ==> AfterStamp(key) == Some(rest) && CreatedFromKey(key) == Some(n))
            && (n < 0 ==> AfterStamp(key) == Some(Stamp(n)[1..] + "-" + rest))
  {
    hide Stamp, Escaped, LastSegment, ParseInt64, Cut, Dir, Key, AllSafe;
    KeyParts(space, n, rest);
    StampIsSafe(n);
    ParseStamp(n);
    if n >= 0 {
      CutGlue(Stamp(n), rest, '-');
    } else {
      CutGlue("", Stamp(n)[1..] + "-" + rest, '-');
      assert Stamp(n) + "-" + rest == "" + "-" + (Stamp(n)[1..] + "-" + rest);
    }
  }

  lemma HexIsSafe(id: string)
    requires IsHexID(id)
    ensures '-' !in id && AllSafe(id)
  {
  }

  /** A document name gives its id back exactly when its stamp is not negative and its kind is one
      this build knows. */
  lemma IdRoundTrip(space: string, created: int64, kind: string, id: string)
    requires IsHexID(id) && AllSafe(kind)
    ensures var key := JOBS_PREFIX + "/" + Key([space, DocumentName(created, kind, id)]);
            IdFromKey(key) == Some(id) <==> created >= 0 && IsKind(kind)
  {
    hide Stamp, Key, LastSegment, Escaped, ParseInt64, Dir, Cut, AllSafe, IsHexID, IsKind, AfterStamp;
    HexIsSafe(id);
    StampIsSafe(created);
    var rest := kind + "-" + id;
    assert DocumentName(created, kind, id) == Stamp(created) + "-" + rest;
    SafeParts(kind, id);
    AfterStampOf(space, created, rest);
    if created >= 0 {
      KindSplits(kind, id);
    } else {
      NegativeStampIsNoKind(created);
      CutGlue(Stamp(created)[1..], rest, '-');
      assert |Stamp(created)[1..] + "-" + rest| > |id|;
    }
  }

  /** What follows the stamp is all id when it does not start with a kind this build knows, as in the older
      layout or a name from a later version; a name with nothing after its stamp carries no id. */
  lemma UnknownKindIsPartOfId(space: string, n: int64, rest: string)
    requires n >= 0 && AllSafe(rest)
    requires forall kind, id :: rest == kind + "-" + id && id != "" ==> kind !in ["backup", "prune", "restore"]
    ensures var key := JOBS_PREFIX + "/" + Key([space, Stamp(n) + "-" + rest]);
            KindFromKey(key) == None && IdFromKey(key) == if rest == "" then None else Some(rest)
  {
    hide Stamp, Key, LastSegment, Escaped, ParseInt64, Dir, AllSafe, AfterStamp;
    AfterStampOf(space, n, rest);
    if rest != "" && Cut(rest, '-').Some? {
      var parts := Cut(rest, '-').value;
      assert rest == parts.0 + "-" + parts.1;
      assert parts.1 != "" ==> !IsKind(parts.0) by {
        assert parts.0 == "backup" ==> parts.0 in ["backup", "prune", "restore"];
        assert parts.0 == "prune" ==> parts.0 in ["backup", "prune", "restore"];
        assert parts.0 == "restore" ==> parts.0 in ["backup", "prune", "restore"];
      }
    }
  }

  lemma SafeParts(kind: string, id: string)
    requires AllSafe(kind) && IsHexID(id)
    ensures AllSafe(kind + "-" + id) && id != ""
  {
  }

  /** The text after the stamp splits into kind and id exactly when the kind is known. */
  lemma KindSplits(kind: string, id: string)
    requires IsHexID(id)
    ensures var cut := Cut(kind + "-" + id, '-');
            cut.Some? && |kind + "-" + id| > |id| &&
            ((IsKind(cut.value.0) && cut.value.1 == id) <==> IsKind(kind))
  {
    hide Cut;
    var rest := kind + "-" + id;
    var cut := Cut(rest, '-');
    assert rest[|kind|] == '-';
    KnownKindHasNoDash(kind);
    if '-' !in kind {
      CutGlue(kind, id, '-');
    } else {
      CutIsEarly(rest, '-', |kind|);
      DashBefore(kind, rest);
    }
  }

  lemma KnownKindHasNoDash(kind: string)
    ensures IsKind(kind) ==> '-' !in kind
  {
  }

  lemma DashBefore(kind: string, rest: string)
    requires '-' in kind && kind <= rest && Cut(rest, '-').Some?
    ensures |Cut(rest, '-').value.0| < |kind|
  {
    var i :| 0 <= i < |kind| && kind[i] == '-';
    CutIsEarly(rest, '-', i);
  }

  lemma CutIsEarly(s: string, c: char, i: nat)
    requires i < |s| && s[i] == c
    ensures Cut(s, c).Some? && |Cut(s, c).value.0| <= i
  {
    var before := Cut(s, c).value.0;
    forall k | 0 <= k < |before| ensures s[k] != c { assert before[k] in before; }
  }

  lemma NegativeStampIsNoKind(n: int64)
    requires n < 0
    ensures !IsKind(Stamp(n)[1..])
  {
    assert |Stamp(n)| >= 19;
  }

  /** The three parts of a filed key. */
  ghost predicate Named(key: string, j: Job, rest: string) {
    && AllSafe(rest)
    && key == JOBS_PREFIX + "/" + Key([j.space, Stamp(j.created) + "-" + rest])
    && (rest == j.id || rest == j.kind + "-" + j.id)
  }

  lemma NameOf(key: string, j: Job) returns (rest: string)
    requires Filed(key, j)
    ensures Named(key, j, rest)
    ensures rest == if key == DocumentKey(j) then j.kind + "-" + j.id else j.id
  {
    hide Stamp, Key, AllSafe, IsHexID;
    HexIsSafe(j.id);
    KindIsSafe(j.kind);
    SafeParts(j.kind, j.id);
    rest := if key == DocumentKey(j) then j.kind + "-" + j.id else j.id;
    assert DocumentName(j.created, j.kind, j.id) == Stamp(j.created) + "-" + (j.kind + "-" + j.id);
  }

  lemma KindIsSafe(kind: string)
    requires IsKind(kind)
    ensures AllSafe(kind) && '-' !in kind
  {
  }

  /** Everything the store reads off a key name is what the document says. */
  lemma KeyFacts(key: string, j: Job)
    requires Filed(key, j)
    ensures IdFromKey(key) == Some(j.id) && CreatedFromKey(key) == Some(j.created)
    ensures KindFromKey(key) == if key == DocumentKey(j) then Some(j.kind) else None
  {
    hide Stamp, Key, AllSafe, LastSegment, Cut, AfterStamp, DocumentKey, LegacyKey, IsHexID;
    var rest := NameOf(key, j);
    AfterStampOf(j.space, j.created, rest);
    HexIsSafe(j.id);
    KindIsSafe(j.kind);
    if key == DocumentKey(j) {
      CutGlue(j.kind, j.id, '-');
    }
    assert j.id != "" by { SafeParts(j.kind, j.id); }
  }

  /** A listing below a Space's folder finds that Space's documents and no others; below the empty
      Space id it finds every Space's. */
  lemma FolderHolds(key: string, j: Job, space: string)
    requires Filed(key, j)
    ensures HasSegmentPrefix(key, SpaceFolder(space)) <==> space == "" || space == j.space
    ensures HasSegmentPrefix(key, JOBS_PREFIX)
  {
    hide Stamp, AllSafe, LastSegment, Cut, AfterStamp, DocumentKey, LegacyKey, Escaped, Dir, IsHexID, SpaceFolder,
         HasSegmentPrefix;
    var rest := NameOf(key, j);
    NamedKey(key, j, rest);
    FolderOf(space);
    FolderOf(j.space);
    EscapedIsSafe(j.space);
    EscapedIsSafe(space);
    var name := Stamp(j.created) + ("-" + rest);
    PrefixedFolder(JOBS_PREFIX, Escaped(j.space), name);
    if space != "" {
      SegmentBelow(JOBS_PREFIX, Escaped(j.space), name, Escaped(space));
      if Escaped(space) == Escaped(j.space) {
        EscapedInjective(space, j.space);
      }
    }
  }

  lemma FolderOf(space: string)
    ensures SpaceFolder(space) == JOBS_PREFIX + "/" + Escaped(space)
    ensures space == "" ==> SpaceFolder(space) == JOBS_PREFIX + "/"
  {
    EscapedIsSafe(space);
  }

  lemma PrefixedFolder(p: string, a: string, name: string)
    requires p != "" && '/' !in p
    ensures HasSegmentPrefix(p + "/" + a + "/" + name, p) && HasSegmentPrefix(p + "/" + a + "/" + name, p + "/")
  {
    var key := p + "/" + a + "/" + name;
    assert key[..|p| + 1] == p + "/";
    assert (p + "/")[..|p|] == p;
  }

  /** Below a folder, a segment covers exactly the keys that start with that whole segment. */
  lemma SegmentBelow(p: string, a: string, name: string, e: string)
    requires '/' !in a && '/' !in e && e != ""
    ensures HasSegmentPrefix(p + "/" + a + "/" + name, p + "/" + e) <==> e == a
  {
    hide Cut;
    var tail := a + "/" + name;
    var key := p + "/" + a + "/" + name;
    var folder := p + "/" + e;
    assert key == (p + "/") + tail;
    var n := |p| + 1;
    assert key[n..] == tail && folder[n..] == e && folder[|folder| - 1] == e[|e| - 1];
    if folder + "/" <= key {
      assert (folder + "/")[n..] == e + "/";
      assert e + "/" == key[n..|folder| + 1] == tail[..|e| + 1];
      FirstSegmentIs(a, name, e);
    }
    if e == a {
      assert key[..|folder| + 1] == folder + "/";
    }
  }

  /** A path starts with one whole first segment. */
  lemma FirstSegmentIs(a: string, name: string, e: string)
    requires '/' !in a && '/' !in e && e + "/" <= a + "/" + name
    ensures e == a
  {
    var head, tail := e + "/", a + "/" + name;
    assert forall i :: 0 <= i < |a| ==> tail[i] != '/';
    assert forall i :: 0 <= i < |e| ==> head[i] != '/' && head[i] == tail[i];
    assert tail[|a|] == '/' && head[|e|] == tail[|e|] == '/';
    assert |e| == |a|;
    assert e == head[..|e|] == tail[..|a|];
  }

  /** Within a Space, lexical key order is chronological order. */
  lemma KeyOrder(k: string, l: string, a: Job, b: Job)
    requires Filed(k, a) && Filed(l, b) && a.space == b.space && a.created < b.created
    ensures Less(k, l)
  {
    hide *;
    var x := NameOf(k, a);
    var y := NameOf(l, b);
    NamedKey(k, a, x);
    NamedKey(l, b, y);
    FiledIsNameable(k, a);
    FiledIsNameable(l, b);
    StampWidths(a, b);
    StampOrder(a.created, b.created);
    PrefixedOrder(SpaceFolder(a.space) + "/", Stamp(a.created), Stamp(b.created), "-" + x, "-" + y);
  }

  lemma NamedKey(key: string, j: Job, rest: string)
    requires Named(key, j, rest)
    ensures key == SpaceFolder(j.space) + "/" + (Stamp(j.created) + ("-" + rest))
  {
    hide Stamp, AllSafe, LastSegment, Escaped, Dir, Key, SpaceFolder;
    KeyParts(j.space, j.created, rest);
    assert Stamp(j.created) + ("-" + rest) == Stamp(j.created) + "-" + rest;
  }

  lemma FiledIsNameable(key: string, j: Job)
    requires Filed(key, j)
    ensures Nameable(j)
  {
  }

  lemma StampWidths(a: Job, b: Job)
    requires Nameable(a) && Nameable(b)
    ensures a.created >= 0 && b.created >= 0 && |Stamp(a.created)| == |Stamp(b.created)|
  {
  }

  lemma PrefixedOrder(p: string, s: string, t: string, x: string, y: string)
    requires |s| == |t| && Less(s, t)
    ensures Less(p + (s + x), p + (t + y))
  {
    hide Less;
    LessExtends(s, t, x, y);
    LessAfterPrefix(p, s + x, t + y);
  }

  /** Between two records of one Space, kind and instant the id decides, ascending. */
  lemma KeyOrderAtTie(a: Job, b: Job)
    requires Nameable(a) && Nameable(b) && a.space == b.space && a.created == b.created && a.kind == b.kind
    ensures Less(DocumentKey(a), DocumentKey(b)) <==> Less(a.id, b.id)
  {
    hide Stamp, AllSafe, LastSegment, Less, LegacyKey, Escaped, Dir, Key, IsHexID, SpaceFolder, DocumentKey;
    var x := NameOf(DocumentKey(a), a);
    var y := NameOf(DocumentKey(b), b);
    NamedKey(DocumentKey(a), a, x);
    NamedKey(DocumentKey(b), b, y);
    var p := SpaceFolder(a.space) + "/" + (Stamp(a.created) + ("-" + (a.kind + "-")));
    FoldsOver(SpaceFolder(a.space) + "/", Stamp(a.created), "-", a.kind + "-", a.id);
    FoldsOver(SpaceFolder(a.space) + "/", Stamp(a.created), "-", a.kind + "-", b.id);
    LessAfterPrefix(p, a.id, b.id);
  }

  lemma FoldsOver(a: string, b: string, c: string, d: string, e: string)
    ensures a + (b + (c + (d + e))) == a + (b + (c + d)) + e
  {
    assert c + (d + e) == (c + d) + e;
    assert b + ((c + d) + e) == (b + (c + d)) + e;
  }
}
