/** Key setup and Recovery Key rotation racing on one Space (internal/api/keys.go): any number of
    requests, cut at their reads and writes, with store failures and crashes. A recovery envelope is
    known by its bytes; `opens` says which Data Key each unwraps to. */
module KeyCustody {
  import opened Wrappers

  type Blob = nat
  type DataKey = nat

  /** What a client sent. A rotation names, by digest, the envelope its client unwrapped; digests are
      taken to be injective, so naming a digest is naming the bytes. */
  datatype Request = Setup(dk: DataKey, blob: Blob) | Rotate(named: Blob, blob: Blob)

  datatype Phase =
    | Arrived
    | Waiting            // the early check let the request through; it waits for the Space's lock
    | Locked             // it has the lock
    | Checked            // the check under the lock let it through
    | Half               // a setup has stored its recovery envelope
    | Stored             // everything it had to store is acknowledged
    | Answered(ok: bool)
  {
    predicate HoldsLock() { Locked? || Checked? || Half? || Stored? }
  }

  datatype Pending = Pending(req: Request, phase: Phase)

  /** A stored recovery envelope, who wrote it and which envelope the writer named, if a rotation. */
  datatype Recovery = Recovery(blob: Blob, writer: nat, named: Option<Blob>)

  /** A stored server envelope: the Data Key wrapped under the server's own key. */
  datatype Server = Server(dk: DataKey, writer: nat)

  /** `rk` and `srw` are the append-only versions, newest last; `setAt` is where `rk` ended when the
      first server envelope landed. */
  datatype World = World(rk: seq<Recovery>, srw: seq<Server>, setAt: nat, holder: Option<nat>,
                         requests: map<nat, Pending>, opens: map<Blob, DataKey>)
  {
    /** keys.Status: both envelopes are stored. */
    predicate Configured() { rk != [] && srw != [] }

    predicate Current(blob: Blob) { rk != [] && rk[|rk| - 1].blob == blob }
  }

  datatype Event =
    | Submit(r: nat, req: Request)
    | EarlyCheck(r: nat, readable: bool)
    | TakeLock(r: nat)
    | LockedCheck(r: nat, readable: bool)
    | PutRK(r: nat, ack: Ack)
    | PutSRW(r: nat, ack: Ack)
    | Answer(r: nat, readable: bool)
    | Crash

  predicate InPhase(w: World, r: nat, phase: Phase) { r in w.requests && w.requests[r].phase == phase }

  predicate Enabled(w: World, e: Event) {
    match e
    case Submit(r, _) => r !in w.requests
    case EarlyCheck(r, _) => InPhase(w, r, Arrived)
    case TakeLock(r) => InPhase(w, r, Waiting) && w.holder.None?
    case LockedCheck(r, _) => InPhase(w, r, Locked)
    case PutRK(r, _) => InPhase(w, r, Checked)
    case PutSRW(r, _) => InPhase(w, r, Half) && w.requests[r].req.Setup?
    case Answer(r, _) => InPhase(w, r, Stored)
    case Crash => true
  }

  function To(w: World, r: nat, phase: Phase): World
    requires r in w.requests
  {
    w.(requests := w.requests[r := w.requests[r].(phase := phase)])
  }

  /** Answers and gives the lock back. */
  function Finish(w: World, r: nat, ok: bool): World
    requires r in w.requests
  {
    To(w, r, Answered(ok)).(holder := if w.holder == Some(r) then None else w.holder)
  }

  function Next(w: World, e: Event): World
    requires Enabled(w, e)
  {
    match e
    case Submit(r, req) => w.(requests := w.requests[r := Pending(req, Arrived)])
    case EarlyCheck(r, readable) =>
      // assertNotConfigured for a setup, assertConfigured for a rotation; an unreadable status is no
      // permission.
      if readable && (w.requests[r].req.Setup? <==> !w.Configured()) then To(w, r, Waiting) else Finish(w, r, false)
    case TakeLock(r) => To(w, r, Locked).(holder := Some(r))
    case LockedCheck(r, readable) =>
      var req := w.requests[r].req;
      if readable && (if req.Setup? then !w.Configured() else w.Current(req.named)) then To(w, r, Checked)
      else Finish(w, r, false)
    case PutRK(r, ack) =>
      var req := w.requests[r].req;
      var written := Recovery(req.blob, r, if req.Rotate? then Some(req.named) else None);
      var v := if ack.Landed() then w.(rk := w.rk + [written]) else w;
      if !ack.Acked? then Finish(v, r, false) else To(v, r, if req.Setup? then Half else Stored)
    case PutSRW(r, ack) =>
      var v := if ack.Landed() then
                 w.(srw := w.srw + [Server(w.requests[r].req.dk, r)],
                    setAt := if w.srw == [] && w.rk != [] then |w.rk| - 1 else w.setAt)
               else w;
      if !ack.Acked? then Finish(v, r, false) else To(v, r, Stored)
    case Answer(r, readable) => Finish(w, r, readable)
    case Crash => w.(holder := None, requests := map r | r in w.requests ::
                       if w.requests[r].phase.Answered? then w.requests[r] else w.requests[r].(phase := Answered(false)))
  }

  // ---- the invariant ----

  /** The Space's lock excludes: whoever is past taking it is the one holder. */
  ghost predicate LockExcludes(w: World) {
    forall r :: w.holder == Some(r) <==> r in w.requests && w.requests[r].phase.HoldsLock()
  }

  /** What each request has established by the time it reaches its phase. */
  ghost predicate Progress(w: World, p: Pending, r: nat) {
    match p.req
    case Setup(dk, blob) =>
      && (p.phase.Checked? || p.phase.Half? ==> w.srw == [])
      && (p.phase.Half? ==> w.Current(blob))
      && (p.phase.Stored? || p.phase == Answered(true) ==> w.srw != [] && w.srw[0] == Server(dk, r))
    case Rotate(named, blob) =>
      && !p.phase.Half?
      && (!p.phase.Arrived? && p.phase != Answered(false) ==> w.Configured())
      && (p.phase.Checked? ==> w.Current(named))
      && (p.phase.Stored? || p.phase == Answered(true) ==>
            exists i :: w.setAt < i < |w.rk| && w.rk[i] == Recovery(blob, r, Some(named)))
  }

  ghost predicate AllProgress(w: World) {
    forall r :: r in w.requests ==> Progress(w, w.requests[r], r)
  }

  /** Stored server envelopes come with a recovery envelope, and there is at most one. From the one it
      was stored beside, the recovery envelopes form a chain: each names the one before it. */
  ghost predicate Chained(w: World) {
    && |w.srw| <= 1
    && (w.srw != [] ==> w.setAt < |w.rk|)
    && (w.srw != [] ==> forall i :: w.setAt < i < |w.rk| ==> w.rk[i].named == Some(w.rk[i - 1].blob))
  }

  ghost predicate Inv(w: World) { LockExcludes(w) && AllProgress(w) && Chained(w) }

  ghost predicate Initial(w: World) { w.rk == [] && w.srw == [] && w.holder.None? && w.requests == map[] }

  lemma StepKeepsLock(w: World, e: Event)
    requires Inv(w) && Enabled(w, e)
    ensures LockExcludes(Next(w, e))
  {
    hide Progress, AllProgress, Chained;
    var v := Next(w, e);
    forall r ensures v.holder == Some(r) <==> r in v.requests && v.requests[r].phase.HoldsLock() {
      assert w.holder == Some(r) <==> r in w.requests && w.requests[r].phase.HoldsLock();
    }
  }

  /** The acting request is the only one past taking the lock. */
  lemma OthersWait(w: World, e: Event)
    requires Inv(w) && Enabled(w, e) && !e.Crash? && !e.Submit? && !e.EarlyCheck?
    ensures forall r :: r in w.requests && w.requests[r].phase.HoldsLock() ==> r == e.r
  {
  }

  /** A request that does not act keeps what it has established, because the one that acts holds the
      lock. */
  lemma BystanderKeeps(w: World, e: Event, r: nat)
    requires Inv(w) && Enabled(w, e) && r in w.requests && !e.Crash? && e.r != r
    ensures Progress(Next(w, e), w.requests[r], r)
  {
    assert Progress(w, w.requests[r], r);
    if !e.Submit? && !e.EarlyCheck? {
      OthersWait(w, e);
    }
    if e.PutRK? && e.ack.Landed() {
      assert forall i :: 0 <= i < |w.rk| ==> Next(w, e).rk[i] == w.rk[i];
    }
  }

  /** The request that acts establishes what its new phase says. */
  lemma ActorEstablishes(w: World, e: Event)
    requires Inv(w) && Enabled(w, e) && !e.Crash?
    ensures Progress(Next(w, e), Next(w, e).requests[e.r], e.r)
  {
    if !e.Submit? {
      assert Progress(w, w.requests[e.r], e.r);
    }
    if e.PutRK? && e.ack.Landed() {
      var req := w.requests[e.r].req;
      var v := Next(w, e);
      assert v.rk[|w.rk|] == Recovery(req.blob, e.r, if req.Rotate? then Some(req.named) else None);
    }
  }

  lemma StepKeepsProgress(w: World, e: Event)
    requires Inv(w) && Enabled(w, e)
    ensures AllProgress(Next(w, e))
  {
    var v := Next(w, e);
    forall r | r in v.requests ensures Progress(v, v.requests[r], r) {
      if e.Crash? {
        assert Progress(w, w.requests[r], r);
      } else if e.r == r {
        ActorEstablishes(w, e);
      } else {
        BystanderKeeps(w, e, r);
      }
    }
  }

  lemma StepKeepsChain(w: World, e: Event)
    requires Inv(w) && Enabled(w, e)
    ensures Chained(Next(w, e))
  {
    if e.PutRK? {
      assert Progress(w, w.requests[e.r], e.r);
    }
    if e.PutSRW? {
      assert Progress(w, w.requests[e.r], e.r);
    }
  }

  lemma StepKeepsInv(w: World, e: Event)
    requires Inv(w) && Enabled(w, e)
    ensures Inv(Next(w, e))
  {
    StepKeepsLock(w, e);
    StepKeepsProgress(w, e);
    StepKeepsChain(w, e);
  }

  // ---- which Data Key the stored envelopes hold ----

  /** An honest client wraps the Data Key it sends; one that rotates re-wraps the Data Key of the
      envelope it names. The server can check neither. */
  predicate Honest(req: Request, opens: map<Blob, DataKey>) {
    match req
    case Setup(dk, blob) => blob in opens && opens[blob] == dk
    case Rotate(named, blob) => named in opens ==> blob in opens && opens[blob] == opens[named]
  }

  ghost predicate AllHonest(w: World) {
    forall r :: r in w.requests ==> Honest(w.requests[r].req, w.opens)
  }

  /** Every recovery envelope since setup holds the Data Key of the server envelope. */
  ghost predicate SameKey(w: World) {
    w.srw != [] ==> forall i :: w.setAt <= i < |w.rk| ==> w.rk[i].blob in w.opens && w.opens[w.rk[i].blob] == w.srw[0].dk
  }

  lemma StepKeepsKey(w: World, e: Event)
    requires Inv(w) && Enabled(w, e) && AllHonest(w) && SameKey(w)
    requires e.Submit? ==> Honest(e.req, w.opens)
    ensures AllHonest(Next(w, e)) && SameKey(Next(w, e)) && Next(w, e).opens == w.opens
  {
    hide Inv, AllHonest, SameKey, Enabled, Next;
    StepKeepsHonest(w, e);
    StepKeepsSame(w, e);
  }

  lemma StepKeepsHonest(w: World, e: Event)
    requires Enabled(w, e) && AllHonest(w) && (e.Submit? ==> Honest(e.req, w.opens))
    ensures AllHonest(Next(w, e)) && Next(w, e).opens == w.opens
  {
    hide Honest;
  }

  lemma StepKeepsSame(w: World, e: Event)
    requires Inv(w) && Enabled(w, e) && AllHonest(w) && SameKey(w)
    ensures SameKey(Next(w, e))
  {
    if e.PutRK? || e.PutSRW? {
      assert Progress(w, w.requests[e.r], e.r);
    }
  }

  /** Honesty is exactly what a landing rotation needs: the server's own checks do not see the key. */
  lemma RotationKeepsKeyIff(w: World, r: nat, ack: Ack)
    requires Inv(w) && SameKey(w) && Enabled(w, PutRK(r, ack)) && w.requests[r].req.Rotate? && ack.Landed()
    ensures SameKey(Next(w, PutRK(r, ack))) <==> Honest(w.requests[r].req, w.opens)
  {
    var req := w.requests[r].req;
    assert Progress(w, w.requests[r], r);
    var v := Next(w, PutRK(r, ack));
    var last := |w.rk| - 1;
    assert w.rk[last].blob == req.named && v.rk[last + 1].blob == req.blob;
    if Honest(req, w.opens) {
      forall i | v.setAt <= i < |v.rk| ensures v.rk[i].blob in v.opens && v.opens[v.rk[i].blob] == v.srw[0].dk {
        assert i <= last ==> v.rk[i] == w.rk[i];
      }
    }
  }

  // ---- over whole runs ----

  predicate Legal(w: World, es: seq<Event>)
    decreases |es|
  {
    es == [] || (Enabled(w, es[0]) && Legal(Next(w, es[0]), es[1..]))
  }

  function After(w: World, es: seq<Event>): World
    requires Legal(w, es)
    decreases |es|
  {
    if es == [] then w else After(Next(w, es[0]), es[1..])
  }

  lemma {:induction false} AlwaysInv(w: World, es: seq<Event>)
    requires Inv(w) && Legal(w, es)
    ensures Inv(After(w, es))
    decreases |es|
  {
    if es != [] {
      StepKeepsInv(w, es[0]);
      AlwaysInv(Next(w, es[0]), es[1..]);
    }
  }

  lemma {:induction false} AlwaysSameKey(w: World, es: seq<Event>)
    requires Inv(w) && Legal(w, es) && AllHonest(w) && SameKey(w)
    requires forall e :: e in es && e.Submit? ==> Honest(e.req, w.opens)
    ensures SameKey(After(w, es)) && After(w, es).opens == w.opens
    decreases |es|
  {
    if es != [] {
      assert es[0] in es;
      StepKeepsInv(w, es[0]);
      StepKeepsKey(w, es[0]);
      forall e | e in es[1..] && e.Submit? ensures Honest(e.req, w.opens) { assert e in es; }
      AlwaysSameKey(Next(w, es[0]), es[1..]);
    }
  }

  /** What a crash does, at whatever point it comes: the lock is free, nothing stored is touched, every open
      request is answered with a failure, and no answer changes. */
  lemma CrashAnswersAll(w: World)
    ensures Enabled(w, Crash)
    ensures var v := Next(w, Crash);
            && v.holder.None? && v.rk == w.rk && v.srw == w.srw && v.requests.Keys == w.requests.Keys
            && forall r :: r in w.requests ==>
                 v.requests[r].req == w.requests[r].req
                 && v.requests[r].phase == if w.requests[r].phase == Answered(true) then Answered(true) else Answered(false)
  {
  }

  /** An answer, once given, stands over every history. */
  lemma {:induction false} AnswersStand(w: World, es: seq<Event>, r: nat)
    requires Legal(w, es) && r in w.requests && w.requests[r].phase.Answered?
    ensures r in After(w, es).requests && After(w, es).requests[r] == w.requests[r]
    decreases |es|
  {
    if es != [] {
      AnswersStand(Next(w, es[0]), es[1..], r);
    }
  }

  /** Nothing stored is ever replaced or removed, so a configured Space stays configured. */
  lemma {:induction false} NothingIsLost(w: World, es: seq<Event>)
    requires Legal(w, es)
    ensures w.rk <= After(w, es).rk && w.srw <= After(w, es).srw
    ensures w.Configured() ==> After(w, es).Configured()
    decreases |es|
  {
    if es != [] {
      NothingIsLost(Next(w, es[0]), es[1..]);
    }
  }

  /** Over every interleaving of honest setups, rotations and crashes: a stored server envelope means a
      stored recovery envelope for the same Data Key, and there is only ever one Data Key. */
  lemma KeysMatch(start: World, es: seq<Event>)
    requires Initial(start) && Legal(start, es)
    requires forall e :: e in es && e.Submit? ==> Honest(e.req, start.opens)
    ensures var w := After(start, es);
            w.srw != [] ==> w.Configured() && |w.srw| == 1
                            && w.rk[|w.rk| - 1].blob in start.opens && start.opens[w.rk[|w.rk| - 1].blob] == w.srw[0].dk
  {
    AlwaysInv(start, es);
    AlwaysSameKey(start, es);
  }

  /** At most one setup completes, whatever the clients send. */
  lemma OneSetupCompletes(start: World, es: seq<Event>, r: nat, q: nat)
    requires Initial(start) && Legal(start, es)
    ensures var w := After(start, es);
            (InPhase(w, r, Answered(true)) && InPhase(w, q, Answered(true))
             && w.requests[r].req.Setup? && w.requests[q].req.Setup?) ==> r == q
  {
    AlwaysInv(start, es);
    var w := After(start, es);
    if InPhase(w, r, Answered(true)) && InPhase(w, q, Answered(true)) {
      assert Progress(w, w.requests[r], r) && Progress(w, w.requests[q], q);
    }
  }

  /** Where an accepted rotation's envelope lies: right after the one it named. */
  ghost predicate Replaced(w: World, r: nat, i: nat) {
    && 0 < i < |w.rk| && r in w.requests && w.requests[r].req.Rotate?
    && w.rk[i].writer == r && w.rk[i].blob == w.requests[r].req.blob
    && w.rk[i - 1].blob == w.requests[r].req.named
  }

  /** A rotation answered with success replaced exactly the envelope its digest named, whatever the
      clients send. */
  lemma AcceptedRotationReplaced(start: World, es: seq<Event>, r: nat) returns (i: nat)
    requires Initial(start) && Legal(start, es)
    requires InPhase(After(start, es), r, Answered(true)) && After(start, es).requests[r].req.Rotate?
    ensures Replaced(After(start, es), r, i)
  {
    AlwaysInv(start, es);
    var w := After(start, es);
    assert Progress(w, w.requests[r], r);
    var req := w.requests[r].req;
    i :| w.setAt < i < |w.rk| && w.rk[i] == Recovery(req.blob, r, Some(req.named));
  }

  /** No accepted rotation is silently lost to a concurrent one: two that named the same envelope can
      both succeed only if those bytes were stored twice. */
  lemma NoLostRotation(start: World, es: seq<Event>, r: nat, q: nat)
    requires Initial(start) && Legal(start, es) && r != q
    requires InPhase(After(start, es), r, Answered(true)) && InPhase(After(start, es), q, Answered(true))
    requires var w := After(start, es); w.requests[r].req.Rotate? && w.requests[q].req.Rotate?
                                        && w.requests[r].req.named == w.requests[q].req.named
    ensures var w := After(start, es); exists i, j :: 0 <= i < j < |w.rk| && w.rk[i].blob == w.rk[j].blob == w.requests[r].req.named
  {
    var i := AcceptedRotationReplaced(start, es, r);
    var j := AcceptedRotationReplaced(start, es, q);
    var w := After(start, es);
    assert w.rk[i - 1].blob == w.rk[j - 1].blob;
  }

  /** What the lock is for: two setups that both passed their check leave one caller's recovery envelope
      beside the other's Data Key, unless both sent the same key. */
  lemma UnlockedSetupsMix(w: World, r: nat, q: nat)
    requires r != q && InPhase(w, r, Checked) && InPhase(w, q, Checked) && w.srw == []
    requires w.requests[r].req.Setup? && w.requests[q].req.Setup?
    requires Honest(w.requests[r].req, w.opens) && Honest(w.requests[q].req, w.opens)
    ensures var es := [PutRK(r, Acked), PutRK(q, Acked), PutSRW(r, Acked)];
            Legal(w, es) && (SameKey(After(w, es)) <==> w.requests[r].req.dk == w.requests[q].req.dk)
  {
    var es := [PutRK(r, Acked), PutRK(q, Acked), PutSRW(r, Acked)];
    var w1 := Next(w, es[0]);
    var w2 := Next(w1, es[1]);
    var w3 := Next(w2, es[2]);
    assert es[1..] == [PutRK(q, Acked), PutSRW(r, Acked)] && es[1..][1..] == [PutSRW(r, Acked)];
    assert es[1..][1..][1..] == [];
    assert Legal(w3, []) && After(w3, []) == w3;
    assert Legal(w2, es[1..][1..]) && After(w2, es[1..][1..]) == w3;
    assert Legal(w1, es[1..]) && After(w1, es[1..]) == w3;
    assert w3.rk[w3.setAt].blob == w.requests[q].req.blob && w3.srw[0].dk == w.requests[r].req.dk;
  }

  // ---- the digest and the lock map ----

  predicate IsLowerHex(c: char) { '0' <= c <= '9' || 'a' <= c <= 'f' }

  /** isEnvelopeDigest. */
  predicate IsEnvelopeDigest(s: string) { |s| == 64 && forall i :: 0 <= i < |s| ==> IsLowerHex(s[i]) }

  function LowerHexDigit(d: nat): char
    requires d < 16
  {
    if d < 10 then ('0' as int + d) as char else ('a' as int + d - 10) as char
  }

  function HexValue(c: char): (d: nat)
    requires IsLowerHex(c)
    ensures d < 16 && LowerHexDigit(d) == c
  {
    if c <= '9' then c as int - '0' as int else c as int - 'a' as int + 10
  }

  /** hex.EncodeToString. */
  function Encoded(sum: seq<nat>): (s: string)
    requires forall i :: 0 <= i < |sum| ==> sum[i] < 256
    ensures |s| == 2 * |sum| && forall i :: 0 <= i < |s| ==> IsLowerHex(s[i])
  {
    if sum == [] then "" else [LowerHexDigit(sum[0] / 16), LowerHexDigit(sum[0] % 16)] + Encoded(sum[1..])
  }

  /** The bytes a hex string spells. */
  function Spelled(s: string): (sum: seq<nat>)
    requires |s| % 2 == 0 && forall i :: 0 <= i < |s| ==> IsLowerHex(s[i])
    ensures 2 * |sum| == |s| && forall i :: 0 <= i < |sum| ==> sum[i] < 256
  {
    if s == "" then [] else [16 * HexValue(s[0]) + HexValue(s[1])] + Spelled(s[2..])
  }

  lemma {:induction false} EncodeSpelled(s: string)
    requires |s| % 2 == 0 && forall i :: 0 <= i < |s| ==> IsLowerHex(s[i])
    ensures Encoded(Spelled(s)) == s
  {
    if s != "" {
      var rest := s[2..];
      EncodeSpelled(rest);
      var sum := Spelled(s);
      assert sum[1..] == Spelled(rest);
      assert sum[0] / 16 == HexValue(s[0]) && sum[0] % 16 == HexValue(s[1]);
      assert s == [s[0], s[1]] + rest;
    }
  }

  /** isEnvelopeDigest accepts exactly the form envelopeDigest produces: a hex-encoded 32-byte sum. */
  lemma DigestForm(s: string)
    ensures IsEnvelopeDigest(s) <==> exists sum: seq<nat> :: |sum| == 32 && (forall i :: 0 <= i < 32 ==> sum[i] < 256) && Encoded(sum) == s
  {
    if IsEnvelopeDigest(s) {
      EncodeSpelled(s);
      var sum := Spelled(s);
      assert |sum| == 32 && Encoded(sum) == s;
    }
  }

  /** A Space's lock; only its identity matters. */
  class Mutex {
    constructor () { }
  }

  /** spaceLocks: one mutex per Space, made on first use and kept for ever. */
  class SpaceLocks {
    var locks: map<string, Mutex>

    /** No two Spaces share a mutex. */
    ghost predicate Valid()
      reads this
    {
      forall a, b :: a in locks && b in locks && locks[a] == locks[b] ==> a == b
    }

    constructor ()
      ensures Valid() && locks == map[]
    {
      locks := map[];
    }

    /** The Space's own mutex: the same one every time, and no other Space's. */
    method MutexOf(space: string) returns (m: Mutex)
      requires Valid()
      modifies this
      ensures Valid() && space in locks && locks[space] == m
      ensures old(locks).Keys <= locks.Keys && forall s :: s in old(locks) ==> locks[s] == old(locks)[s]
      ensures locks.Keys == old(locks).Keys + {space}
    {
      if space !in locks {
        ghost var before := locks;
        var made := new Mutex();
        assert forall s :: s in before ==> before[s] != made;
        locks := locks[space := made];
      }
      m := locks[space];
    }
  }

  // ---- the handlers ----

  lemma {:induction false} OneMoreEvent(w: World, es: seq<Event>, e: Event)
    requires Legal(w, es) && Enabled(After(w, es), e)
    ensures Legal(w, es + [e]) && After(w, es + [e]) == Next(After(w, es), e)
    decreases |es|
  {
    if es == [] {
      assert [] + [e] == [e] && [e][1..] == [];
    } else {
      OneMoreEvent(Next(w, es[0]), es[1..], e);
      assert (es + [e])[1..] == es[1..] + [e];
    }
  }

  /** The machine as one request left it: the request's own entry, the stored envelopes, the lock. */
  ghost predicate At(w: World, start: World, r: nat, p: Pending, rk: seq<Recovery>, srw: seq<Server>,
                     holder: Option<nat>) {
    w.requests == start.requests[r := p] && w.rk == rk && w.srw == srw && w.holder == holder
  }

  lemma SubmitAt(w: World, r: nat, req: Request)
    requires r !in w.requests
    ensures Enabled(w, Submit(r, req))
    ensures At(Next(w, Submit(r, req)), w, r, Pending(req, Arrived), w.rk, w.srw, w.holder)
  {
  }

  lemma EarlyCheckAt(w: World, start: World, r: nat, req: Request, readable: bool)
    requires At(w, start, r, Pending(req, Arrived), w.rk, w.srw, w.holder) && w.holder.None?
    ensures Enabled(w, EarlyCheck(r, readable))
    ensures var through := readable && (req.Setup? <==> !(w.rk != [] && w.srw != []));
            At(Next(w, EarlyCheck(r, readable)), start, r, Pending(req, if through then Waiting else Answered(false)), w.rk, w.srw, None)
  {
  }

  lemma TakeLockAt(w: World, start: World, r: nat, req: Request)
    requires At(w, start, r, Pending(req, Waiting), w.rk, w.srw, None)
    ensures Enabled(w, TakeLock(r))
    ensures At(Next(w, TakeLock(r)), start, r, Pending(req, Locked), w.rk, w.srw, Some(r))
  {
  }

  lemma LockedCheckAt(w: World, start: World, r: nat, req: Request, readable: bool)
    requires At(w, start, r, Pending(req, Locked), w.rk, w.srw, Some(r))
    ensures Enabled(w, LockedCheck(r, readable))
    ensures var through := readable && if req.Setup? then !(w.rk != [] && w.srw != []) else w.Current(req.named);
            At(Next(w, LockedCheck(r, readable)), start, r, Pending(req, if through then Checked else Answered(false)),
               w.rk, w.srw, if through then Some(r) else None)
  {
  }

  lemma PutRKAt(w: World, start: World, r: nat, req: Request, ack: Ack)
    requires At(w, start, r, Pending(req, Checked), w.rk, w.srw, Some(r))
    ensures Enabled(w, PutRK(r, ack))
    ensures var written := Recovery(req.blob, r, if req.Rotate? then Some(req.named) else None);
            At(Next(w, PutRK(r, ack)), start, r,
               Pending(req, if !ack.Acked? then Answered(false) else if req.Setup? then Half else Stored),
               if ack.Landed() then w.rk + [written] else w.rk, w.srw, if ack.Acked? then Some(r) else None)
  {
  }

  lemma PutSRWAt(w: World, start: World, r: nat, req: Request, ack: Ack)
    requires At(w, start, r, Pending(req, Half), w.rk, w.srw, Some(r)) && req.Setup? && w.srw == []
    ensures Enabled(w, PutSRW(r, ack))
    ensures At(Next(w, PutSRW(r, ack)), start, r, Pending(req, if ack.Acked? then Stored else Answered(false)),
               w.rk, if ack.Landed() then [Server(req.dk, r)] else w.srw, if ack.Acked? then Some(r) else None)
  {
  }

  lemma AnswerAt(w: World, start: World, r: nat, req: Request, readable: bool)
    requires At(w, start, r, Pending(req, Stored), w.rk, w.srw, Some(r))
    ensures Enabled(w, Answer(r, readable))
    ensures At(Next(w, Answer(r, readable)), start, r, Pending(req, Answered(readable)), w.rk, w.srw, None)
  {
  }

  function AckOf(lost: bool, landed: bool): Ack { if !lost then Acked else if landed then Unacked else Dropped }

  datatype Status = Created | Replied | Conflict | NotConfigured | Failed

  /** The service over one Space. Each handler is a run of the machine's events that its request takes,
      here with no other request in between; `world` is the machine's state. */
  class Service {
    var rk: seq<Recovery>
    var srw: seq<Server>
    var holder: Option<nat>
    ghost var world: World

    ghost predicate Valid()
      reads this
    {
      world.rk == rk && world.srw == srw && world.holder == holder && Inv(world)
    }

    predicate Configured()
      reads this
    {
      rk != [] && srw != []
    }

    /** The machine takes an event. */
    ghost method Take(start: World, es: seq<Event>, e: Event, r: nat) returns (more: seq<Event>)
      requires Inv(world) && Legal(start, es) && world == After(start, es) && Enabled(world, e)
      requires Own(es, r) && !e.Crash? && e.r == r
      modifies `world
      ensures Own(more, r)
      ensures more == es + [e] && Legal(start, more) && world == After(start, more) == Next(old(world), e) && Inv(world)
    {
      OneMoreEvent(start, es, e);
      StepKeepsInv(world, e);
      more := es + [e];
      world := Next(world, e);
    }

    /** The part of a setup under the Space's lock. */
    method SetupLocked(r: nat, dk: DataKey, blob: Blob, steady: bool, ghost start: World, ghost es: seq<Event>)
      returns (status: Status, ghost more: seq<Event>)
      requires Valid() && Legal(start, es) && world == After(start, es) && Own(es, r)
      requires At(world, start, r, Pending(Setup(dk, blob), Locked), rk, srw, Some(r)) && holder == Some(r)
      modifies this
      ensures Valid() && holder.None?
      ensures Legal(start, more) && world == After(start, more) && Own(more, r)
      ensures status in {Created, Conflict, Failed} && (status == Created <==> InPhase(world, r, Answered(true)))
      ensures status == Conflict ==> old(Configured())
      ensures status == Created ==> rk == old(rk) + [Recovery(blob, r, None)] && srw == [Server(dk, r)]
      ensures old(Configured()) ==> status != Created && rk == old(rk) && srw == old(srw)
      ensures steady ==> status == if old(Configured()) then Conflict else Created
    {
      hide Inv, Legal, After, Next, Enabled, Own;
      more := es;
      ghost var req := Setup(dk, blob);
      var readable, lost, landed := *, *, *;
      readable, lost := readable || steady, lost && !steady;
      LockedCheckAt(world, start, r, req, readable);
      more := Take(start, more, LockedCheck(r, readable), r);
      if !readable || Configured() {
        holder := None;
        return if readable then Conflict else Failed, more;
      }
      PutRKAt(world, start, r, req, AckOf(lost, landed));
      more := Take(start, more, PutRK(r, AckOf(lost, landed)), r);
      if !lost || landed {
        rk := rk + [Recovery(blob, r, None)];
      }
      if lost {
        holder := None;
        return Failed, more;
      }
      status, more := StoreServer(r, dk, blob, steady, start, more);
    }

    /** A setup's second half: the server's envelope, and the status read back for the answer. */
    method StoreServer(r: nat, dk: DataKey, blob: Blob, steady: bool, ghost start: World, ghost es: seq<Event>)
      returns (status: Status, ghost more: seq<Event>)
      requires Valid() && Legal(start, es) && world == After(start, es) && Own(es, r)
      requires At(world, start, r, Pending(Setup(dk, blob), Half), rk, srw, Some(r)) && holder == Some(r)
      modifies this
      ensures Valid() && holder.None? && rk == old(rk)
      ensures Legal(start, more) && world == After(start, more) && Own(more, r)
      ensures status in {Created, Failed} && (status == Created <==> InPhase(world, r, Answered(true)))
      ensures status == Created ==> srw == [Server(dk, r)]
      ensures steady ==> status == Created
    {
      hide Inv, Legal, After, Next, Enabled, Own;
      more := es;
      ghost var req := Setup(dk, blob);
      ServerIsFirst(world, r);
      var lost, landed := *, *;
      lost := lost && !steady;
      PutSRWAt(world, start, r, req, AckOf(lost, landed));
      more := Take(start, more, PutSRW(r, AckOf(lost, landed)), r);
      if !lost || landed {
        srw := srw + [Server(dk, r)];
      }
      if lost {
        holder := None;
        return Failed, more;
      }
      var readable := *;
      readable := readable || steady;
      AnswerAt(world, start, r, req, readable);
      more := Take(start, more, Answer(r, readable), r);
      holder := None;
      status := if readable then Created else Failed;
    }

    /** handleKeySetup: refused early and again under the lock while the Space is configured; otherwise
        the recovery envelope is stored before the server's. `steady` promises that no store call fails. */
    method HandleKeySetup(r: nat, dk: DataKey, blob: Blob, steady: bool) returns (status: Status, ghost es: seq<Event>)
      requires Valid() && holder.None? && r !in world.requests
      modifies this
      ensures Valid() && holder.None?
      ensures Legal(old(world), es) && world == After(old(world), es) && Own(es, r)
      ensures status == Created <==> InPhase(world, r, Answered(true))
      ensures status == Created ==> rk == old(rk) + [Recovery(blob, r, None)] && srw == [Server(dk, r)]
      ensures old(Configured()) ==> status in {Conflict, Failed} && rk == old(rk) && srw == old(srw)
      ensures status == Conflict ==> old(Configured())
      ensures steady ==> status == if old(Configured()) then Conflict else Created
    {
      hide Inv, Legal, After, Next, Enabled, Own;
      ghost var start := world;
      NoEvents(start, r);
      es := [];
      ghost var req := Setup(dk, blob);
      SubmitAt(world, r, req);
      es := Take(start, es, Submit(r, req), r);
      var readable := *;
      readable := readable || steady;
      EarlyCheckAt(world, start, r, req, readable);
      es := Take(start, es, EarlyCheck(r, readable), r);
      if !readable {
        return Failed, es;
      }
      if Configured() {
        return Conflict, es;
      }
      TakeLockAt(world, start, r, req);
      es := Take(start, es, TakeLock(r), r);
      holder := Some(r);
      status, es := SetupLocked(r, dk, blob, steady, start, es);
    }

    /** The part of a rotation under the Space's lock: compare, then write. */
    method RotateLocked(r: nat, named: Blob, blob: Blob, steady: bool, ghost start: World, ghost es: seq<Event>)
      returns (status: Status, ghost more: seq<Event>)
      requires Valid() && Legal(start, es) && world == After(start, es) && Own(es, r) && Configured()
      requires At(world, start, r, Pending(Rotate(named, blob), Locked), rk, srw, Some(r)) && holder == Some(r)
      modifies this
      ensures Valid() && holder.None? && srw == old(srw)
      ensures Legal(start, more) && world == After(start, more) && Own(more, r)
      ensures status in {Replied, Conflict, Failed} && (status == Replied <==> InPhase(world, r, Answered(true)))
      ensures status == Replied ==> old(world).Current(named) && rk == old(rk) + [Recovery(blob, r, Some(named))]
      ensures status == Conflict ==> !old(world).Current(named)
      ensures !old(world).Current(named) ==> rk == old(rk)
      ensures steady ==> status == if old(world).Current(named) then Replied else Conflict
    {
      hide Inv, Legal, After, Next, Enabled, Own;
      more := es;
      ghost var req := Rotate(named, blob);
      var readable, lost, landed := *, *, *;
      readable, lost := readable || steady, lost && !steady;
      LockedCheckAt(world, start, r, req, readable);
      more := Take(start, more, LockedCheck(r, readable), r);
      if !readable {
        holder := None;
        return Failed, more;
      }
      if rk[|rk| - 1].blob != named {
        holder := None;
        return Conflict, more;
      }
      PutRKAt(world, start, r, req, AckOf(lost, landed));
      more := Take(start, more, PutRK(r, AckOf(lost, landed)), r);
      if !lost || landed {
        rk := rk + [Recovery(blob, r, Some(named))];
      }
      if lost {
        holder := None;
        return Failed, more;
      }
      readable := *;
      readable := readable || steady;
      AnswerAt(world, start, r, req, readable);
      more := Take(start, more, Answer(r, readable), r);
      holder := None;
      status := if readable then Replied else Failed;
    }

    /** handleRotateRecoveryKey: needs a configured Space, and the digest of the envelope stored when the
        lock is held. */
    method HandleRotateRecoveryKey(r: nat, named: Blob, blob: Blob, steady: bool)
      returns (status: Status, ghost es: seq<Event>)
      requires Valid() && holder.None? && r !in world.requests
      modifies this
      ensures Valid() && holder.None? && srw == old(srw)
      ensures Legal(old(world), es) && world == After(old(world), es) && Own(es, r)
      ensures status == Replied <==> InPhase(world, r, Answered(true))
      ensures status == Replied ==> old(world).Current(named) && rk == old(rk) + [Recovery(blob, r, Some(named))]
      ensures status == NotConfigured ==> !old(Configured())
      ensures status == Conflict ==> old(Configured()) && !old(world).Current(named)
      ensures status in {NotConfigured, Conflict} || !old(Configured()) || !old(world).Current(named) ==> rk == old(rk)
      ensures steady ==> status == if !old(Configured()) then NotConfigured
                                   else if old(world).Current(named) then Replied else Conflict
    {
      hide Inv, Legal, After, Next, Enabled, Own;
      ghost var start := world;
      NoEvents(start, r);
      es := [];
      ghost var req := Rotate(named, blob);
      SubmitAt(world, r, req);
      es := Take(start, es, Submit(r, req), r);
      var readable := *;
      readable := readable || steady;
      EarlyCheckAt(world, start, r, req, readable);
      es := Take(start, es, EarlyCheck(r, readable), r);
      if !readable {
        return Failed, es;
      }
      if !Configured() {
        return NotConfigured, es;
      }
      TakeLockAt(world, start, r, req);
      es := Take(start, es, TakeLock(r), r);
      holder := Some(r);
      status, es := RotateLocked(r, named, blob, steady, start, es);
    }
  }

  /** Every event is this request's. */
  ghost predicate Own(es: seq<Event>, r: nat) { forall e :: e in es ==> !e.Crash? && e.r == r }

  lemma NoEvents(w: World, r: nat)
    ensures Legal(w, []) && After(w, []) == w && Own([], r)
  {
  }

  /** A setup past its first write finds no server envelope. */
  lemma ServerIsFirst(w: World, r: nat)
    requires Inv(w) && InPhase(w, r, Half)
    ensures w.srw == []
  {
    assert Progress(w, w.requests[r], r);
  }
}
