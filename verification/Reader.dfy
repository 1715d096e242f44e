/** The lazy, seekable reader over a download (internal/snapshot/kopiafs.go) and the body under it
    (internal/cs3/client.go, stream): an open body is always positioned at the reader's offset, whether
    or not the server honours the Range header (section 14.2 of RFC 9110). */
module Reader {
  import opened Wrappers
  import opened Text

  type byte = bv8

  /** How the server treats "Range: bytes=N-": it answers 206 with the bytes from N, or 416 when there
      are none; or it ignores the header and answers 200 with everything. Without a Range header it
      answers 200. */
  datatype Server = HonoursRange | IgnoresRange

  datatype Response = PartialContent(body: seq<byte>) | WholeContent(body: seq<byte>) | OtherStatus

  function Answer(content: seq<byte>, offset: nat, server: Server): Response {
    if offset == 0 || server.IgnoresRange? then WholeContent(content)
    else if offset < |content| then PartialContent(content[offset..])
    else OtherStatus
  }

  /** What a body positioned at the offset still holds, or None when it cannot be had. */
  function BodyAt(content: seq<byte>, offset: nat, server: Server): Option<seq<byte>> {
    if offset > |content| || (server.HonoursRange? && offset == |content| > 0) then None else Some(content[offset..])
  }

  /** The two kinds of server are told apart at exactly one offset: the end of a file that is not
      empty, where only one that ignores ranges yields an (empty) body. */
  lemma ServersDifferOnlyAtEnd(content: seq<byte>, offset: nat)
    ensures BodyAt(content, offset, HonoursRange) == BodyAt(content, offset, IgnoresRange) <==> !(offset == |content| > 0)
  {
    if offset == |content| > 0 {
      assert BodyAt(content, offset, IgnoresRange).Some?;
    }
  }

  /** One read of a body: some bytes from its front, and the end or a failure. A read may be short.
      `steady` promises that the connection holds. */
  method ReadBody(body: seq<byte>, cap: nat, steady: bool) returns (n: nat, eof: bool, broken: bool)
    ensures n <= cap && n <= |body|
    ensures eof ==> n == |body|
    ensures !eof && !broken && cap > 0 && body != [] ==> n > 0
    ensures body == [] && !broken && cap > 0 ==> eof
    ensures steady ==> !broken
  {
    broken := *;
    broken := broken && !steady;
    var limit := if cap < |body| then cap else |body|;
    n :| 0 <= n <= limit;
    eof := false;
    if broken {
      return;
    }
    if n == 0 && limit > 0 {
      n := 1;
    }
    var tell := *;
    eof := n == |body| && (tell || (body == [] && cap > 0));
  }

  const CHUNK: nat := 8192

  /** io.CopyN to nowhere: reads and drops exactly `count` bytes. */
  method Discard(body: seq<byte>, count: nat, steady: bool) returns (rest: seq<byte>, ok: bool, broken: bool)
    ensures ok ==> count <= |body| && rest == body[count..]
    ensures !ok && !broken ==> count > |body|
    ensures steady ==> !broken
  {
    rest, broken := body, false;
    var left := count;
    while left > 0
      invariant 0 <= left <= count && count - left <= |body| && rest == body[count - left..]
      decreases left
    {
      var n, eof, failed := ReadBody(rest, if left < CHUNK then left else CHUNK, steady);
      rest := rest[n..];
      left := left - n;
      if failed {
        return rest, false, true;
      }
      if eof && left > 0 {
        return rest, false, false;
      }
    }
    ok := true;
  }

  /** stream: the body of a download, positioned at the offset. */
  method Stream(content: seq<byte>, offset: nat, server: Server, steady: bool)
    returns (body: Option<seq<byte>>, broken: bool)
    ensures body.Some? ==> offset <= |content| && body.value == content[offset..]
    ensures steady ==> (body.Some? <==> offset < |content| || offset == |content| == 0
                                        || (offset == |content| && server.IgnoresRange?))
    ensures body.Some? ==> body == BodyAt(content, offset, server)
    ensures body.None? && !broken ==> BodyAt(content, offset, server).None?
    ensures steady ==> !broken
  {
    broken := *;
    broken := broken && !steady;
    if broken {
      return None, true;
    }
    match Answer(content, offset, server) {
      case PartialContent(b) => body := Some(b);
      case OtherStatus => body := None;
      case WholeContent(b) =>
        if offset == 0 {
          assert content[0..] == content;
          return Some(b), false;
        }
        var rest, ok, failed := Discard(b, offset, steady);
        if !ok {
          return None, failed;
        }
        body := Some(rest);
    }
  }

  // ---- the reader ----

  datatype Whence = Start | Current | End | OtherWhence

  datatype SeekError = ClosedReader | BadWhence | NegativePosition | CloseFailed

  /** Where a Seek leads, in 64-bit arithmetic. */
  function Target(pos: int64, size: int64, offset: int64, whence: Whence): Option<int64> {
    match whence
    case Start => Some(offset)
    case Current => Some(Wrap64(pos as int + offset as int))
    case End => Some(Wrap64(size as int + offset as int))
    case OtherWhence => None
  }

  /** What a cursor over the file answers: the position asked for, unless it is before the start or does
      not fit into 64 bits. */
  function SeekResult(pos: int64, size: int64, offset: int64, whence: Whence): (r: Result<int64, SeekError>)
    ensures r.Ok? || r == Err(BadWhence) || r == Err(NegativePosition)
  {
    if whence.OtherWhence? then Err(BadWhence)
    else
      var at: int := match whence case Start => offset as int case Current => pos as int + offset as int case _ => size as int + offset as int;
      if 0 <= at <= MAX_INT64 then Ok(at) else Err(NegativePosition)
  }

  /** Wrap-around cannot smuggle a position in: a sum that overflows comes out negative and is refused. */
  lemma OverflowIsRefused(pos: int64, size: int64, offset: int64, whence: Whence)
    requires pos >= 0 && size >= 0 && !whence.OtherWhence?
    ensures var t := Target(pos, size, offset, whence);
            SeekResult(pos, size, offset, whence) == if t.value < 0 then Err(NegativePosition) else Ok(t.value)
  {
  }

  /** Taking n bytes off what is left after pos leaves what is left after pos + n. */
  lemma SplitRest(content: seq<byte>, pos: nat, n: nat)
    requires pos + n <= |content|
    ensures content[pos..][..n] == content[pos..pos + n] && content[pos..][n..] == content[pos + n..]
  {
  }

  datatype ReadError = Eof | Closed | OpenFailed | Broken

  class SourceReader {
    const content: seq<byte>
    /** The size recorded when the tree was walked. */
    const size: int64
    /** What the open body still holds. */
    var rc: Option<seq<byte>>
    var pos: int64
    var closed: bool

    /** An open body is positioned at pos. */
    ghost predicate Valid()
      reads this
    {
      pos >= 0 && size >= 0 && |content| <= MAX_INT64 && (rc.Some? ==> pos <= |content| && rc.value == content[pos..])
    }

    constructor (content: seq<byte>, size: int64)
      requires size >= 0 && |content| <= MAX_INT64
      ensures Valid() && pos == 0 && !closed && this.content == content && this.size == size
    {
      this.content, this.size := content, size;
      rc, pos, closed := None, 0, false;
    }

    /** Read returns the bytes a cursor over the file would, from its position on, whichever server
        answers. It fails without a fault only when it has to open a body that cannot be had. */
    method Read(cap: nat, server: Server, steady: bool) returns (p: seq<byte>, err: Option<ReadError>)
      requires Valid()
      modifies this
      ensures Valid() && closed == old(closed)
      ensures pos as int == old(pos) as int + |p| && |p| <= cap
      ensures p != [] ==> pos <= |content|
      ensures old(pos) as int + |p| <= |content| ==> p == content[old(pos)..pos]
      ensures p == [] || p == content[old(pos)..pos]
      ensures old(closed) ==> err == Some(Closed) && p == []
      ensures err == Some(Closed) ==> old(closed)
      ensures err == Some(Eof) ==> pos == |content|
      ensures err == Some(OpenFailed) ==> p == [] && old(rc).None? && old(pos) as int >= |content|
      ensures err == Some(OpenFailed) ==> BodyAt(content, old(pos), server).None?
      ensures steady && !old(closed) && cap > 0 && old(pos) as int < |content| ==> p != []
      ensures err.None? && cap > 0 ==> p != []
      ensures !old(closed) && old(rc).None? && BodyAt(content, old(pos), server).None? ==> err in {Some(OpenFailed), Some(Broken)}
      ensures steady ==> err != Some(Broken)
    {
      p := [];
      if closed {
        return p, Some(Closed);
      }
      if rc.None? {
        var body, broken := Stream(content, pos, server, steady);
        if body.None? {
          return p, Some(if broken then Broken else OpenFailed);
        }
        rc := body;
      }
      var n, eof, failed := ReadBody(rc.value, cap, steady);
      SplitRest(content, pos, n);
      p := rc.value[..n];
      rc := Some(rc.value[n..]);
      pos := pos + n;
      err := if failed then Some(Broken) else if eof then Some(Eof) else None;
    }

    /** Seek moves exactly where a cursor would. A body that fails to close is kept, and nothing moves. */
    method Seek(offset: int64, whence: Whence, steady: bool) returns (r: Result<int64, SeekError>)
      requires Valid()
      modifies this
      ensures Valid() && closed == old(closed)
      ensures old(closed) ==> r == Err(ClosedReader)
      ensures !old(closed) ==> r == SeekResult(old(pos), size, offset, whence) || (r == Err(CloseFailed) && old(rc).Some? && !steady)
      ensures r.Ok? ==> pos == r.value
      ensures r.Err? ==> pos == old(pos) && rc == old(rc)
      ensures pos == old(pos) ==> rc == old(rc)
    {
      if closed {
        return Err(ClosedReader);
      }
      var target := Target(pos, size, offset, whence);
      if target.None? {
        return Err(BadWhence);
      }
      OverflowIsRefused(pos, size, offset, whence);
      var abs := target.value;
      if abs < 0 {
        return Err(NegativePosition);
      }
      if abs == pos {
        return Ok(abs);
      }
      if rc.Some? {
        var broken := *;
        if broken && !steady {
          return Err(CloseFailed);
        }
        rc := None;
      }
      pos := abs;
      r := Ok(abs);
    }

    /** Close is safe to call more than once. */
    method Close()
      requires Valid()
      modifies this
      ensures Valid() && closed && rc.None? && pos == old(pos)
    {
      closed := true;
      rc := None;
    }
  }

  // ---- any sequence of reads and seeks ----

  datatype Op = ReadOp(cap: nat, server: Server) | SeekOp(offset: int64, whence: Whence)

  datatype Seen = Bytes(p: seq<byte>, err: Option<ReadError>) | Moved(r: Result<int64, SeekError>)

  /** Where a cursor stands after what was seen. */
  function PosAfter(pos: int, seen: seq<Seen>): int {
    if seen == [] then pos
    else
      var before := PosAfter(pos, seen[..|seen| - 1]);
      match seen[|seen| - 1]
      case Bytes(p, _) => before + |p|
      case Moved(Ok(at)) => at
      case Moved(Err(_)) => before
  }

  /** What a cursor over the file may answer at a position: the file's own bytes from there, the end only
      at the end, nothing only at the end or past it, and the position a seek asks for. A fault may stop a
      read or a seek. */
  ghost predicate CursorAnswers(content: seq<byte>, size: int64, pos: int, op: Op, seen: Seen) {
    match (op, seen)
    case (ReadOp(cap, _), Bytes(p, err)) =>
      && |p| <= cap
      && (p != [] ==> 0 <= pos && pos + |p| <= |content| && p == content[pos..pos + |p|])
      && (err == Some(Eof) ==> pos + |p| == |content|)
      && (err.None? && cap > 0 ==> p != [])
      && (err == Some(OpenFailed) ==> pos >= |content|) && err != Some(Closed)
    case (SeekOp(offset, whence), Moved(r)) =>
      0 <= pos <= MAX_INT64 && (r == SeekResult(pos, size, offset, whence) || r == Err(CloseFailed))
    case _ => false
  }

  /** Every answer so far is one a cursor may give where it then stands. */
  ghost predicate Follows(content: seq<byte>, size: int64, pos: int, ops: seq<Op>, seen: seq<Seen>) {
    |seen| <= |ops| && forall i :: 0 <= i < |seen| ==> CursorAnswers(content, size, PosAfter(pos, seen[..i]), ops[i], seen[i])
  }

  lemma FollowsOn(content: seq<byte>, size: int64, pos: int, ops: seq<Op>, seen: seq<Seen>, next: Seen)
    requires Follows(content, size, pos, ops, seen) && |seen| < |ops|
    requires CursorAnswers(content, size, PosAfter(pos, seen), ops[|seen|], next)
    ensures Follows(content, size, pos, ops, seen + [next])
    ensures PosAfter(pos, seen + [next]) == match next
            case Bytes(p, _) => PosAfter(pos, seen) + |p|
            case Moved(Ok(at)) => at
            case Moved(Err(_)) => PosAfter(pos, seen)
  {
    hide CursorAnswers;
    var more := seen + [next];
    assert more[..|seen|] == seen;
    forall i | 0 <= i < |more| ensures CursorAnswers(content, size, PosAfter(pos, more[..i]), ops[i], more[i]) {
      if i < |seen| {
        assert more[..i] == seen[..i];
      }
    }
  }

  /** What only a fault explains. */
  predicate Faulty(s: Seen) { s == Moved(Err(CloseFailed)) || (s.Bytes? && s.err == Some(Broken)) }

  /** Any sequence of reads and seeks, each read answered by either kind of server, sees what a cursor
      over the fixed content would, and without a fault sees nothing else. */
  method Replay(r: SourceReader, ops: seq<Op>, steady: bool) returns (seen: seq<Seen>)
    requires r.Valid() && !r.closed
    modifies r
    ensures r.Valid() && !r.closed && |seen| == |ops| && r.pos as int == PosAfter(old(r.pos) as int, seen)
    ensures Follows(r.content, r.size, old(r.pos) as int, ops, seen)
    ensures steady ==> forall i :: 0 <= i < |seen| ==> !Faulty(seen[i])
  {
    hide SeekResult, Follows, PosAfter, BodyAt;
    seen := [];
    ghost var start := r.pos as int;
    assert Follows(r.content, r.size, start, ops, []) && PosAfter(start, []) == start by { NothingSeen(r.content, r.size, start, ops); }
    for i := 0 to |ops|
      invariant r.Valid() && !r.closed && |seen| == i && r.pos as int == PosAfter(start, seen)
      invariant Follows(r.content, r.size, start, ops, seen)
      invariant steady ==> forall k :: 0 <= k < i ==> !Faulty(seen[k])
    {
      var next;
      match ops[i] {
        case ReadOp(cap, server) =>
          var p, err := r.Read(cap, server, steady);
          next := Bytes(p, err);
        case SeekOp(offset, whence) =>
          var at := r.Seek(offset, whence, steady);
          next := Moved(at);
      }
      FollowsOn(r.content, r.size, start, ops, seen, next);
      seen := seen + [next];
    }
  }

  lemma NothingSeen(content: seq<byte>, size: int64, pos: int, ops: seq<Op>)
    ensures Follows(content, size, pos, ops, []) && PosAfter(pos, []) == pos
  {
  }
}
