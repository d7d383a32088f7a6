/** The imperative form of http_fio.h: the ring array, its two indices and the loops that advance and
    retire it.  Every method performs a run of the moves of Fio, on a cache object and a connection. */
module FileRequest {
  import opened Lists
  import opened CacheModel
  import opened CacheProofs
  import opened CacheRuns
  import Cache = ChunkCache
  import opened Session
  import opened Arith
  import opened Fio
  import opened FioRuns

  /** httpreq_fio_nb_buffers: slots for a full send buffer, at least two. */
  function NbBuffers(sndbuf: nat, chunksize: nat): (n: nat)
    requires chunksize > 0
    ensures n >= 2
  {
    var up := (sndbuf + chunksize - 1) / chunksize;
    if up < 2 then 2 else up
  }

  /** A full send buffer fits into the ring whatever its alignment, up to one chunk: the slots hold at least
      sndbuf bytes, and no more slots are used than the array of struct http_req has, whose size is that for
      the smallest chunk size (the BUG_ON of httpreq_fio_init). */
  lemma RingSize(sndbuf: nat, chunksize: nat, minchunk: nat)
    requires 0 < minchunk <= chunksize
    ensures NbBuffers(sndbuf, chunksize) * chunksize >= sndbuf
    ensures NbBuffers(sndbuf, chunksize) <= NbBuffers(sndbuf, minchunk)
  {
    var (a, b) := ((sndbuf + chunksize - 1) / chunksize, (sndbuf + minchunk - 1) / minchunk);
    DivEquation(sndbuf + chunksize - 1, chunksize);
    DivEquation(sndbuf + minchunk - 1, minchunk);
    MulMonotone(a, NbBuffers(sndbuf, chunksize), chunksize);
    assert (a - 1) * chunksize == a * chunksize - chunksize;
    if a > b {
      MulMonotone(b, a - 1, minchunk);
      MulSwap(a - 1, minchunk, chunksize);
    }
  }

  lemma MulSwap(k: nat, c: nat, d: nat)
    requires c <= d
    ensures k * c <= k * d
  {
  }

  /** Why a call of httpreq_write_fio ended. */
  datatype Outcome =
    | Complete      // all of the request is sent
    | Retry         // no buffer or token: the session waits for the cache
    | Broken        // the chunk cannot be read, or its read failed
    | Pending       // the chunk is being read
    | WindowFull    // the next slot still holds unacknowledged data
    | Refused       // TCP took less than offered

  /** The chunk that is asked for is in the volume, but a buffer, a device token or a token to wait with is
      missing. */
  ghost predicate Wants(w: World, m: Move, f: File) {
    && m.Ask? && m.dts != [] && f.chunksize > 0 && Shape(w.c)
    && var chk := VolChk(f, w.r.rfirst + w.r.sent);
       Readable(w.c, chk) && Starved(w.c, chk, m.dts[0], m.ct)
  }

  /** The chunk that is asked for is not in the volume, or the device refuses to read it. */
  ghost predicate Hopeless(w: World, m: Move, f: File) {
    && m.Ask? && m.dts != [] && f.chunksize > 0 && Shape(w.c)
    && var chk := VolChk(f, w.r.rfirst + w.r.sent);
       !Readable(w.c, chk) || SetupFailed(w.c, chk, m.dts[0])
  }

  /** What the callback finds: the current chunk, ours. */
  lemma CallbackIs(w: World, f: File, disk: Disk)
    requires Sound(w, f, disk) && w.r.t.Some? && w.r.t.value !in w.c.waits
    ensures EnabledM(w, Move.Callback, f, disk)
    ensures var w' := w.(r := w.r.(t := None));
      && ApplyM(w, Move.Callback, f, disk) == w' && Sound(w', f, disk)
      && w.r.sent < w.r.rlen && w.r.idx < |w.r.cce| && w.r.cce[w.r.idx].Some? && Mine(w.c, w.r.cce[w.r.idx].value)
      && (!w.c.ent[w.r.cce[w.r.idx].value].invalid ==> MaySend(w', f, 0))
  {
    assert Look(0);
    CurTouched(f, w.r);
    assert RingOk(w, f, Cur(f, w.r));
    if w.r.sent < w.r.rlen { CurChk(f, w.r); }
    MoveKeeps(w, Move.Callback, f, disk);
  }

  /** The slot a request waits for. */
  lemma AwaitedSlot(w: World, f: File, disk: Disk)
    requires Sound(w, f, disk) && w.r.t.Some? && w.r.t.value in w.c.waits
    ensures w.r.idx < |w.r.cce| && w.r.cce[w.r.idx] == Some(w.c.waits[w.r.t.value])
  {
    assert Look(0);
    CurTouched(f, w.r);
    assert RingOk(w, f, Cur(f, w.r));
  }

  /** A completion is a move of everyone else; it ends our wait exactly when it is our read. */
  lemma CompletedIs(w: World, dt: Tok, ret: int, f: File, disk: Disk)
    requires Sound(w, f, disk) && Enabled(w.c, DoComplete(dt, ret), disk) && (w.r.t.Some? ==> w.r.t.value in w.c.waits)
    ensures var w' := w.(c := Apply(w.c, DoComplete(dt, ret), disk));
      && Sound(w', f, disk) && RunsM(w, [] + [Other(DoComplete(dt, ret))], w', f, disk)
      && (w.r.t.Some? ==> (w.r.t.value in w'.c.waits <==> w.c.dev[dt].buf != w.c.waits[w.r.t.value]))
      && (w.r.t.Some? && w.r.t.value !in w'.c.waits && ret >= 0 ==>
            && w.r.idx < |w.r.cce| && w.r.cce[w.r.idx].Some? && w.r.cce[w.r.idx].value < |w'.c.ent|
            && !w'.c.ent[w.r.cce[w.r.idx].value].invalid)
  {
    var (p, m) := (DoComplete(dt, ret), Other(DoComplete(dt, ret)));
    var w' := w.(c := Apply(w.c, p, disk));
    assert InRange(w.r) by { assert Look(0); }
    assert EnabledM(w, m, f, disk);
    MoveKeeps(w, m, f, disk);
    RunsNone(w, f, disk);
    RunsOne(w, [], w, m, w', f, disk);
    if w.r.t.Some? {
      AwaitedSlot(w, f, disk);
      StepWaits(w.c, p, disk, w.r.t.value);
      CompleteEnds(w.c, dt, ret, w.r.t.value, disk);
    }
  }

  lemma CompleteEnds(c: Sys, dt: Tok, ret: int, tok: Tok, disk: Disk)
    requires Inv(c, disk) && Enabled(c, DoComplete(dt, ret), disk) && tok in c.waits
    ensures tok in CacheModel.Complete(c, dt, ret).waits <==> c.dev[dt].buf != c.waits[tok]
    ensures var id := c.dev[dt].buf; id < |CacheModel.Complete(c, dt, ret).ent| && (ret >= 0 ==> !CacheModel.Complete(c, dt, ret).ent[id].invalid)
  {
    CompletionNotifies(c, dt, ret, disk);
    WaitersAreChain(c, dt, disk);
  }

  /** Moves of the request itself that need no device. */
  predicate OwnMove(m: Move) { m.Ask? || m.Send? || m.Ack? || m.Free? }

  predicate OwnMoves(ms: seq<Move>) { forall i :: 0 <= i < |ms| ==> OwnMove(ms[i]) }

  /** The BUG_ON of httpreq_fio_aioreq: no token is pending when the next chunk is asked for. */
  lemma AskFacts(w: World, m: Move, f: File, disk: Disk)
    requires Sound(w, f, disk) && EnabledM(w, m, f, disk) && m.Ask?
    ensures w.r.t.None? && w.r.sent < w.r.rlen && w.r.cce[w.r.idx].None?
  {
    assert Look(0);
    AskRoom(w, f);
  }

  lemma AskIs(w: World, m: Move, c: Sys, res: AreadResult, f: File, disk: Disk)
    requires Sound(w, f, disk) && EnabledM(w, m, f, disk) && m.Ask?
    requires (c, res) == Aread(w.c, VolChk(f, w.r.rfirst + w.r.sent), m.dts, m.ct)
    ensures AskWith(w, c, res) == ApplyM(w, m, f, disk) && Sound(AskWith(w, c, res), f, disk)
  {
    hide Aread;
    MoveKeeps(w, m, f, disk);
  }

  /** The current slot, when in use, names a cache buffer. */
  lemma CurSlot(w: World, f: File, disk: Disk)
    requires Sound(w, f, disk) && w.r.sent < w.r.rlen
    ensures InRange(w.r) && Volume(f, disk)
    ensures w.r.cce[w.r.idx].Some? ==> w.r.cce[w.r.idx].value < |w.c.ent|
  {
    assert Look(0);
    var (r, n) := (w.r, |w.r.cce|);
    CurTouched(f, r);
    assert RingOk(w, f, r.freed);
    if Cur(f, r) < r.freed + n { assert RingOk(w, f, Cur(f, r)); } else { AddPeriod(r.freed, n); }
  }

  lemma SentBound(w: World, f: File, disk: Disk)
    requires Sound(w, f, disk)
    ensures w.r.sent <= w.r.rlen && (MaySend(w, f, 0) ==> w.r.sent < w.r.rlen)
  {
    assert Look(0);
  }

  lemma Stalled(w: World, f: File, disk: Disk)
    requires Sound(w, f, disk) && w.r.sent < w.r.rlen && InRange(w.r) && w.r.cce[w.r.idx].Some?
    requires w.r.cce[w.r.idx].value < |w.c.ent|
    requires w.c.ent[w.r.cce[w.r.idx].value].addr != VolChk(f, w.r.rfirst + w.r.sent)
    ensures Touched(f, w.r) == w.r.freed + |w.r.cce|
    ensures w.r.alen < w.r.sent || EnabledM(w, Free, f, disk)
  {
    assert Look(0);
    StallIsWindowFull(w, f, disk);
  }

  /** A write of up to the rest of the chunk is a Send move. */
  lemma SendIs(w: World, n: nat, f: File, disk: Disk)
    requires Sound(w, f, disk) && InRange(w.r) && MaySend(w, f, 0) && n <= Left(f, w.r)
    ensures EnabledM(w, Send(n), f, disk) && SendReady(w, f)
    ensures ApplyM(w, Send(n), f, disk) == SendTo(w, f, n) && Sound(SendTo(w, f, n), f, disk)
  {
    MoveReady(w, Send(n), f, disk);
    MoveKeeps(w, Send(n), f, disk);
  }

  /** part is what n bytes of the left ones of the current chunk are. */
  ghost predicate MaySendPart(w: World, f: File, n: nat, left: nat, part: seq<Byte>) {
    && SendReady(w, f) && InRange(w.r) && MaySend(w, f, 0) && left == Left(f, w.r) && n <= left
    && part == w.c.ent[w.r.cce[w.r.idx].value].buf[VolOff(f, w.r.rfirst + w.r.sent)..VolOff(f, w.r.rfirst + w.r.sent) + n]
  }

  lemma SendParts(w: World, n: nat, left: nat, part: seq<Byte>, f: File, disk: Disk)
    requires Sound(w, f, disk) && MaySendPart(w, f, n, left, part)
    ensures SendReady(w, f) && |w.r.cce| > 0 && EnabledM(w, Send(n), f, disk)
    ensures var w' := World(w.c, w.r.(sent := w.r.sent + n, idx := if n == left && w.r.sent + n < w.r.rlen then (w.r.idx + 1) % |w.r.cce| else w.r.idx), w.wire + part);
      ApplyM(w, Send(n), f, disk) == w' && Sound(w', f, disk)
  {
    hide Sound, EnabledM, ApplyM;
    SendIs(w, n, f, disk);
  }

  lemma RunsNone(w: World, f: File, disk: Disk)
    requires Sound(w, f, disk)
    ensures RunsM(w, [], w, f, disk) && OwnMoves([])
  {
  }

  /** One more move of a run, when the move keeps no promise about Free. */
  lemma RunsOne(w: World, ms: seq<Move>, w1: World, m: Move, w2: World, f: File, disk: Disk)
    requires Sound(w, f, disk) && RunsM(w, ms, w1, f, disk) && Sound(w1, f, disk) && EnabledM(w1, m, f, disk)
    requires (m.Free? ==> FreeReady(w1)) && (m.Send? ==> SendReady(w1, f)) && w2 == ApplyM(w1, m, f, disk)
    ensures RunsM(w, ms + [m], w2, f, disk) && (OwnMoves(ms) && OwnMove(m) ==> OwnMoves(ms + [m])) && (ms + [m])[..|ms|] == ms
  {
    RunsAppendM(w, ms, w1, m, f, disk);
  }

  /** One round of the acknowledgement loop is a Free move, on the buffer of the next chunk. */
  lemma FreeIs(w: World, f: File, disk: Disk)
    requires Sound(w, f, disk) && EnabledM(w, Free, f, disk)
    ensures FreeReady(w) && |w.c.clist| > 0
    ensures var j := (w.r.idxAck + 1) % |w.r.cce|;
      && Enabled(w.c, DoRelease(w.r.cce[j].value), disk)
      && w.c.ent[w.r.cce[j].value].addr == VolChk(f, w.r.rfirst) + w.r.freed
      && ApplyM(w, Free, f, disk) == FreeTo(w, j) && Sound(FreeTo(w, j), f, disk)
      && FreeTo(w, j).c == Apply(w.c, DoRelease(w.r.cce[j].value), disk)
  {
    MoveReady(w, Free, f, disk);
    MoveKeeps(w, Free, f, disk);
    assert Look(0);
    AckInOrder(w, f, disk);
  }

  lemma ReleaseWaits(c: Sys, id: BufId, disk: Disk)
    requires Inv(c, disk) && Enabled(c, DoRelease(id), disk)
    ensures Apply(c, DoRelease(id), disk).waits == c.waits
  {
  }

  lemma AckIs(w: World, n: nat, f: File, disk: Disk)
    requires Sound(w, f, disk) && w.r.alen + n <= w.r.sent
    ensures EnabledM(w, Ack(n), f, disk)
    ensures var w' := w.(r := w.r.(alen := w.r.alen + n)); ApplyM(w, Ack(n), f, disk) == w' && Sound(w', f, disk)
    ensures |w.r.cce| > 0
  {
    assert Look(0);
    MoveKeeps(w, Ack(n), f, disk);
  }

  lemma FreeDue(w: World, f: File, disk: Disk)
    requires Sound(w, f, disk) && w.r.freed < Pos(f, w.r.rfirst, w.r.alen)
    ensures EnabledM(w, Free, f, disk)
  {
    assert Look(0);
  }

  /** The slot's buffer is ours to give back: by a plain release, or, for the current slot while its
      read is awaited, by an abort with the token. */
  ghost predicate Owned(c: Sys, cce: seq<Option<BufId>>, t: Option<Tok>, idx: nat, j: nat)
    requires j < |cce|
  {
    cce[j].Some? ==>
      && cce[j].value < |c.ent|
      && if j == idx && t.Some? then t.value in c.waits && c.waits[t.value] == cce[j].value else Mine(c, cce[j].value)
  }

  ghost predicate Distinct(cce: seq<Option<BufId>>) {
    forall i, j :: 0 <= i < j < |cce| && cce[i].Some? ==> cce[i] != cce[j]
  }

  /** The chunk that sits in slot j. */
  function Tenant(r: Req, j: nat): (p: nat)
    requires j < |r.cce|
    ensures r.freed <= p < r.freed + |r.cce| && p % |r.cce| == j
  {
    var n := |r.cce|;
    DivEquation(r.freed, n);
    var q, k := r.freed / n, r.freed % n;
    if j >= k then
      DivUnique(q * n + j, n, q, j);
      q * n + j
    else
      assert (q + 1) * n == q * n + n;
      DivUnique((q + 1) * n + j, n, q + 1, j);
      (q + 1) * n + j
  }

  lemma SlotOwned(w: World, j: nat, f: File, disk: Disk)
    requires Sound(w, f, disk) && (w.r.t.Some? ==> w.r.t.value in w.c.waits) && j < |w.r.cce|
    ensures Owned(w.c, w.r.cce, w.r.t, w.r.idx, j)
    ensures w.r.cce[j].Some? ==> w.c.ent[w.r.cce[j].value].addr == VolChk(f, w.r.rfirst) + Tenant(w.r, j)
  {
    assert Look(0);
    var r := w.r;
    var p := Tenant(r, j);
    CurTouched(f, r);
    assert RingOk(w, f, p);
    if r.t.Some? && p != Cur(f, r) && r.freed <= Cur(f, r) { SlotsDiffer(p, Cur(f, r), |r.cce|); }
  }

  lemma RingOwned(w: World, f: File, disk: Disk)
    requires Sound(w, f, disk) && (w.r.t.Some? ==> w.r.t.value in w.c.waits)
    ensures Distinct(w.r.cce) && forall j :: 0 <= j < |w.r.cce| ==> Owned(w.c, w.r.cce, w.r.t, w.r.idx, j)
  {
    forall j | 0 <= j < |w.r.cce| ensures Owned(w.c, w.r.cce, w.r.t, w.r.idx, j) { SlotOwned(w, j, f, disk); }
    forall i, j | 0 <= i < j < |w.r.cce| && w.r.cce[i].Some? ensures w.r.cce[i] != w.r.cce[j] {
      SlotOwned(w, i, f, disk);
      SlotOwned(w, j, f, disk);
      assert Tenant(w.r, i) != Tenant(w.r, j);
    }
  }

  /** Giving one slot back leaves the others ours. */
  lemma OwnedKept(c: Sys, p: Step, cce: seq<Option<BufId>>, t: Option<Tok>, idx: nat, j: nat, disk: Disk)
    requires Inv(c, disk) && Enabled(c, p, disk) && j < |cce| && Owned(c, cce, t, idx, j)
    requires (p.DoRelease? || (p.DoAbort? && (p.tok.None? || p.tok == t))) && cce[j] != Some(p.id)
    ensures Owned(Apply(c, p, disk), cce, t, idx, j)
  {
    if cce[j].Some? {
      if j == idx && t.Some? {
        WaitKept(c, p, t.value, disk);
        StepWaits(c, p, disk, t.value);
      } else {
        MineKept(c, p, cce[j].value, disk);
      }
    }
  }

  /** The step that gives slot i back is enabled, drops exactly that reference, and leaves the later
      slots ours. */
  lemma GiveBack(c: Sys, ring: seq<Option<BufId>>, t: Option<Tok>, idx: nat, i: nat, p: Step, disk: Disk)
    requires Inv(c, disk) && Distinct(ring) && i < |ring| && ring[i].Some?
    requires forall j :: i <= j < |ring| ==> Owned(c, ring, t, idx, j)
    requires p == if i == idx then DoAbort(ring[i].value, t) else DoRelease(ring[i].value)
    ensures Enabled(c, p, disk) && Inv(Apply(c, p, disk), disk)
    ensures Apply(c, p, disk).held + multiset{ring[i].value} == c.held
    ensures forall j :: i < j < |ring| ==> Owned(Apply(c, p, disk), ring, t, idx, j)
  {
    assert Owned(c, ring, t, idx, i);
    var tok := if i == idx then t else None;
    assert Enabled(c, DoAbort(ring[i].value, tok), disk);
    MayRelease(c, ring[i].value, tok, disk);
    OwnedHeld(c, ring, t, idx, i, disk);
    StepKeeps(c, p, disk);
    forall j | i < j < |ring| ensures Owned(Apply(c, p, disk), ring, t, idx, j) {
      OwnedKept(c, p, ring, t, idx, j, disk);
    }
  }

  lemma OwnedHeld(c: Sys, ring: seq<Option<BufId>>, t: Option<Tok>, idx: nat, i: nat, disk: Disk)
    requires Inv(c, disk) && i < |ring| && ring[i].Some? && Owned(c, ring, t, idx, i)
    ensures c.held[ring[i].value] > 0
  {
    if i == idx && t.Some? { WaitingPinned(c, t.value, disk); }
  }

  /** The buffers of the slots below i. */
  function Ids(cce: seq<Option<BufId>>, i: nat): multiset<BufId>
    requires i <= |cce|
  {
    if i == 0 then multiset{}
    else Ids(cce, i - 1) + if cce[i - 1].Some? then multiset{cce[i - 1].value} else multiset{}
  }

  /** Slots below i are given back: together with their buffers, what clients hold is all. */
  ghost predicate Closing(c: Sys, cce: seq<Option<BufId>>, ring: seq<Option<BufId>>, t: Option<Tok>, idx: nat, i: nat,
                          all: multiset<BufId>, disk: Disk) {
    && Inv(c, disk) && Distinct(ring) && i <= |ring| == |cce|
    && (forall j :: i <= j < |ring| ==> cce[j] == ring[j] && Owned(c, ring, t, idx, j))
    && c.held + Ids(ring, i) == all
  }

  lemma CloseStart(w: World, f: File, disk: Disk)
    requires Sound(w, f, disk) && (w.r.t.Some? ==> w.r.t.value in w.c.waits)
    ensures Closing(w.c, w.r.cce, w.r.cce, w.r.t, w.r.idx, 0, w.c.held, disk)
  {
    RingOwned(w, f, disk);
  }

  lemma CloseEnd(c: Sys, cce: seq<Option<BufId>>, ring: seq<Option<BufId>>, t: Option<Tok>, idx: nat,
                 all: multiset<BufId>, disk: Disk)
    requires Closing(c, cce, ring, t, idx, |cce|, all, disk)
    ensures Inv(c, disk) && |ring| == |cce| && c.held + Ids(ring, |cce|) == all
  {
  }

  /** The write of a part of a buffer. */
  method WriteSlice(conn: Conn, buf: seq<Byte>, off: nat, left: nat) returns (err: Err, slen: nat)
    requires off + left <= |buf|
    modifies conn
    ensures slen <= left && conn.out == old(conn.out) + buf[off..off + slen]
    ensures (err == Fine && slen < left ==> conn.sndbuf == 0) && (err != Fine ==> slen < left)
    ensures conn.Answered(old(|conn.tried|), err)
  {
    err, slen := conn.Write(buf[off..off + left]);
    assert buf[off..off + left][0..slen] == buf[off..off + slen];
  }

  class FileRequest {
    const cache: Cache.ChunkCache
    const conn: Conn
    const f: File
    const rfirst: nat
    const rlen: nat
    const cce: array<Option<BufId>>
    var t: Option<Tok>
    var idx: nat
    var idxAck: nat
    var sent: nat
    var alen: nat
    ghost const base: seq<Byte>
    ghost var wire: seq<Byte>
    ghost var freed: nat
    ghost var asked: set<Tok>   // the tokens that carry this request as their cookie

    ghost function R(): Req
      reads this, cce
    {
      Req(rfirst, rlen, sent, alen, cce[..], t, idx, idxAck, freed)
    }

    ghost function W(): World
      reads this, cce, cache
    {
      World(cache.st, R(), wire)
    }

    /** The request holds its buffers, whatever else goes over the connection. */
    ghost predicate Held(disk: Disk)
      reads this, cce, cache, cache.lists
    {
      cache.Valid() && Sound(W(), f, disk) && cce.Length >= 2 && asked == if t.Some? then {t.value} else {}
    }

    /** While the message is sent, the body bytes are what TCP took since the phase began. */
    ghost predicate Valid(disk: Disk)
      reads this, cce, cache, cache.lists, conn
    {
      Held(disk) && conn.out == base + wire
    }

    /** Between two calls a token that is no longer waiting has been called back. */
    ghost predicate Settled()
      reads this, cache
    {
      t.Some? ==> t.value in cache.st.waits
    }

    /** httpreq_fio_init and the range set by httpreq_fio_build_hdr. */
    constructor (cache0: Cache.ChunkCache, conn0: Conn, f0: File, first: nat, len: nat, sndbuf: nat, ghost disk: Disk)
      requires cache0.Valid() && Inv(cache0.st, disk) && Volume(f0, disk) && len > 0
      ensures Valid(disk) && fresh(cce) && cce.Length == NbBuffers(sndbuf, f0.chunksize) && cache == cache0 && conn == conn0 && f == f0
      ensures W() == Start(cache0.st, first, len, cce.Length) && base == conn0.out && t.None?
    {
      cache, conn, f, rfirst, rlen := cache0, conn0, f0, first, len;
      var n := NbBuffers(sndbuf, f0.chunksize);
      cce := new Option<BufId>[n](_ => None);
      t, idx, idxAck, sent, alen := None, 0, n - 1, 0, 0;
      base, wire, freed, asked := conn0.out, [], 0, {};
      new;
      assert cce[..] == seq(n, _ => None);
      StartInv(cache0.st, first, len, n, f0, disk);
    }

    /** httpreq_fio_aioreq: a reference to the current chunk, ready or with a token. */
    method AioReq(dts: seq<Option<Tok>>, ct: Option<Tok>, hard: bool, ghost disk: Disk) returns (res: AreadResult, again: bool)
      requires Held(disk) && EnabledM(W(), Ask(dts, ct), f, disk)
      modifies this, cce, cache, cache.lists
      ensures Held(disk) && W() == ApplyM(old(W()), Ask(dts, ct), f, disk)
      ensures res == old(Aread(cache.st, VolChk(f, rfirst + sent), dts, ct).1)
      ensures res.Fail? ==> cce[idx].None? && (again <==> old(Readable(cache.st, VolChk(f, rfirst + sent)) && !(hard && SetupFailed(cache.st, VolChk(f, rfirst + sent), dts[0]))))
      ensures res.Hit? ==> cce[idx].Some? && t.None?
      ensures res.Wait? ==> cce[idx].Some? && t.Some?
      ensures sent == old(sent) && idx == old(idx) && wire == old(wire) && alen == old(alen) && freed == old(freed) && Settled()
    {
      hide Aread, Cache.ChunkCache.Valid;
      ghost var (w, m) := (W(), Ask(dts, ct));
      assert t.None? && sent < rlen && idx < cce.Length && cce[idx].None? by { AskFacts(w, m, f, disk); }  // BUG_ON
      AreadAnswers(cache.st, VolChk(f, rfirst + sent), dts, ct, disk);
      res, again := cache.Aread(VolChk(f, rfirst + sent), dts, ct, hard, disk);
      AskIs(w, m, cache.st, res, f, disk);
      if res.Hit? { cce[idx] := Some(res.id); }
      if res.Wait? { cce[idx], t, asked := Some(res.id), Some(res.tok), {res.tok}; }
      assert W() == AskWith(w, cache.st, res);
    }

    /** httpreq_fio_aiocb for a token with this request as its cookie: the awaited chunk is there. */
    method Callback(tok: Tok, ghost disk: Disk)
      requires Held(disk) && tok in asked && tok !in cache.st.waits
      modifies this`t, this`asked
      ensures Held(disk) && EnabledM(old(W()), Move.Callback, f, disk) && W() == ApplyM(old(W()), Move.Callback, f, disk)
      ensures t.None? && sent < rlen && idx < cce.Length && cce[idx].Some? && Mine(cache.st, cce[idx].value)
      ensures !cache.st.ent[cce[idx].value].invalid ==> MaySend(W(), f, 0)
    {
      assert t == Some(tok);  // BUG_ON
      CallbackIs(W(), f, disk);
      t, asked := None, {};
    }

    /** The device ends one of its reads; when it is the one this request waits for, the request is called back
        and may go on. */
    method Completed(dt: Tok, ret: int, ghost disk: Disk) returns (called: bool, ghost ms: seq<Move>)
      requires Held(disk) && Settled() && Enabled(cache.st, DoComplete(dt, ret), disk)
      modifies this`t, this`asked, cache, cache.lists
      ensures Held(disk) && Settled() && RunsM(old(W()), ms, W(), f, disk)
      ensures called <==> old(t.Some? && cache.st.dev[dt].buf == cache.st.waits[t.value])
      ensures called ==> t.None? && sent < rlen && (ret >= 0 ==> MaySend(W(), f, 0))
      ensures !called ==> t == old(t)
    {
      hide Cache.ChunkCache.Valid, EnabledM, ApplyM, RunsM, InvM, InvX, Enabled, Apply, MaySend;
      ghost var w := W();
      CompletedIs(w, dt, ret, f, disk);
      cache.AioCallback(dt, ret, disk);
      ms := [] + [Other(DoComplete(dt, ret))];
      called := t.Some? && !cache.Waiting(t.value);
      if called {
        ghost var w1 := W();
        Callback(t.value, disk);
        RunsOne(w, ms, w1, Move.Callback, W(), f, disk);
        ms := ms + [Move.Callback];
      }
    }

    /** The counters after a write of slen bytes, part: at the end of the chunk, of which left bytes were to be sent,
        the next slot is due. */
    method Advance(slen: nat, left: nat, ghost part: seq<Byte>, ghost disk: Disk) returns (full: bool)
      requires Held(disk) && MaySendPart(W(), f, slen, left, part)
      modifies this`sent, this`idx, this`wire
      ensures Held(disk) && SendReady(old(W()), f) && EnabledM(old(W()), Send(slen), f, disk) && W() == ApplyM(old(W()), Send(slen), f, disk)
      ensures wire == old(wire) + part && sent == old(sent) + slen && (full <==> slen == left)
    {
      hide Sound, EnabledM, ApplyM, Cache.ChunkCache.Valid, MaySendPart;
      SendParts(W(), slen, left, part, f, disk);
      full := slen == left;
      wire := wire + part;
      sent := sent + slen;
      if full && sent < rlen { idx := (idx + 1) % cce.Length; }
    }

    /** One write: the rest of the current chunk, as much of it as TCP takes; then the next slot. */
    method SendChunk(ghost disk: Disk) returns (err: Err, slen: nat, full: bool)
      requires Valid(disk) && InRange(R()) && MaySend(W(), f, 0)
      modifies this, conn
      ensures Valid(disk) && EnabledM(old(W()), Send(slen), f, disk) && SendReady(old(W()), f)
      ensures W() == ApplyM(old(W()), Send(slen), f, disk)
      ensures sent == old(sent) + slen && slen <= old(Left(f, R())) && alen == old(alen) && freed == old(freed) && t == old(t)
      ensures full <==> slen == old(Left(f, R()))
      ensures err == Fine && !full ==> conn.sndbuf == 0
      ensures err != Fine ==> !full
      ensures conn.Answered(old(|conn.tried|), err)
    {
      hide Sound, EnabledM, ApplyM, SendTo, Cache.ChunkCache.Valid, Conn.Answered;
      SendIs(W(), 0, f, disk);
      var off := VolOff(f, rfirst + sent);
      var left := if f.chunksize - off < rlen - sent then f.chunksize - off else rlen - sent;
      var buf := cache.Get(cce[idx].value).buf;
      err, slen := WriteSlice(conn, buf, off, left);
      ghost var part := buf[off..off + slen];
      assert base + (wire + part) == base + wire + part;
      full := Advance(slen, left, part, disk);
    }

    /** The slot is empty: ask for the chunk. */
    method Fetch(ghost disk: Disk) returns (why: Outcome, ghost m: Move)
      requires Held(disk) && sent < rlen && InRange(R()) && cce[idx].None?
      modifies this, cce, cache, cache.lists
      ensures Held(disk) && m.Ask? && EnabledM(old(W()), m, f, disk) && W() == ApplyM(old(W()), m, f, disk)
      ensures sent == old(sent) && idx == old(idx) && wire == old(wire) && alen == old(alen) && freed == old(freed) && Settled()
      ensures why in {Complete, Retry, Broken, Pending}
      ensures why == Retry ==> Wants(old(W()), m, f)
      ensures why == Broken ==> Hopeless(old(W()), m, f)
      ensures why == Pending ==> t.Some?
      ensures why == Complete ==> cce[idx].Some?
    {
      hide Cache.ChunkCache.Valid, ApplyM, Aread, Starved, SetupFailed;
      ghost var chk := VolChk(f, rfirst + sent);
      var dts, ct, hard := cache.Answers(disk);
      m := Ask(dts, ct);
      FailsExactly(cache.st, chk, dts, ct, disk);
      var res, again := AioReq(dts, ct, hard, disk);
      why := match res case Fail => if again then Retry else Broken case Hit(_) => Complete case Wait(_, _) => Pending;
    }

    /** Up to the write: the current chunk is asked for if need be, and must be the right one, there and valid. */
    method Prepare(ghost disk: Disk) returns (err: Err, why: Outcome, ghost m: Option<Move>)
      requires Valid(disk) && sent < rlen
      modifies this, cce, cache, cache.lists
      ensures Valid(disk) && sent == old(sent) && alen == old(alen) && freed == old(freed) && (old(Settled()) ==> Settled())
      ensures m.None? ==> W() == old(W())
      ensures m.Some? ==> m.value.Ask? && EnabledM(old(W()), m.value, f, disk) && W() == ApplyM(old(W()), m.value, f, disk)
      ensures why in {Complete, Retry, Broken, Pending, WindowFull} && (err != Fine <==> why == Broken) && (why == Broken ==> err == Fatal)
      ensures why == Complete ==> InRange(R()) && MaySend(W(), f, 0)
      ensures old(MaySend(W(), f, 0)) ==> why == Complete && W() == old(W())
      ensures why == Pending ==> t.Some?
      ensures why == Retry ==> m.Some? && Wants(old(W()), m.value, f)
      ensures why == Broken ==> (m.Some? && Hopeless(old(W()), m.value, f)) || Unreadable()
      ensures why == WindowFull ==> Touched(f, R()) == freed + cce.Length && (alen < sent || EnabledM(W(), Free, f, disk))
    {
      hide Sound, EnabledM, ApplyM, Wants, Hopeless, Cache.ChunkCache.Valid, Pos, VolOff, Volume;
      err, why, m := Fine, Complete, None;
      CurSlot(W(), f, disk);
      if cce[idx].None? {
        ghost var m0;
        why, m0 := Fetch(disk);
        m := Some(m0);
        CurSlot(W(), f, disk);
        if why == Broken { err := Fatal; }
        if why != Complete { return; }
      }
      var e := cache.Get(cce[idx].value);
      if e.addr != VolChk(f, rfirst + sent) {
        Stalled(W(), f, disk);
        why := WindowFull;
      } else if t.Some? {
        why := Pending;
      } else if e.invalid {
        err, why := Fatal, Broken;
      }
    }

    /** The read of the chunk in the current slot failed. */
    ghost predicate Unreadable()
      reads this, cce, cache
    {
      idx < cce.Length && cce[idx].Some? && cce[idx].value < |cache.st.ent| && cache.st.ent[cce[idx].value].invalid
    }

    /** One round: the current chunk, as much of it as TCP takes; go says that the next chunk is due.  ms is the run
        from w0 so far, w1 the world the last chunk was asked for in. */
    method Round(ghost w0: World, ghost ms0: seq<Move>, ghost disk: Disk)
      returns (err: Err, why: Outcome, go: bool, ghost ms: seq<Move>, ghost w1: World)
      requires Valid(disk) && sent < rlen && Sound(w0, f, disk) && RunsM(w0, ms0, W(), f, disk) && OwnMoves(ms0)
      modifies this, cce, cache, cache.lists, conn
      ensures Valid(disk) && RunsM(w0, ms, W(), f, disk) && OwnMoves(ms) && alen == old(alen) && freed == old(freed) && (old(Settled()) ==> Settled())
      ensures old(sent) <= sent <= rlen && (go ==> old(sent) < sent < rlen && err == Fine)
      ensures !go ==> Ended(w0, err, why, ms, w1, disk)
      ensures old(MaySend(W(), f, 0)) ==> sent > old(sent) || (why == Refused && !go)
      ensures conn.Answered(old(|conn.tried|), if why == Broken then Fine else err)
    {
      hide Sound, EnabledM, ApplyM, RunsM, FreeReady, SendReady, Wants, Hopeless, Unreadable, MaySend, OwnMoves, Cache.ChunkCache.Valid, Pos, VolOff, Volume, Conn.Answered, Touched, Inv;
      ghost var m;
      w1, ms, go := W(), ms0, false;
      err, why, m := Prepare(disk);
      if m.Some? {
        RunsOne(w0, ms, w1, m.value, W(), f, disk);
        ms := ms + [m.value];
      }
      conn.NothingAsked();
      if why != Complete { return; }
      ghost var w := W();
      var slen: nat;
      var full: bool;
      err, slen, full := SendChunk(disk);
      RunsOne(w0, ms, w, Send(slen), W(), f, disk);
      ms := ms + [Send(slen)];
      SentBound(W(), f, disk);
      if err != Fine || slen == 0 || !full || sent == rlen {
        why := if sent == rlen then Complete else Refused;
      } else {
        go := true;
      }
    }

    /** What the call says at its end. */
    ghost predicate Ended(w0: World, err: Err, why: Outcome, ms: seq<Move>, w1: World, disk: Disk)
      requires f.chunksize > 0 && Sound(w0, f, disk)
      reads this, cce, cache, conn
    {
      && (why == Complete <==> sent == rlen) && (why == Complete ==> err == Fine) && (why == Pending ==> t.Some?)
      && (why == Retry ==> ms != [] && RunsM(w0, ms[..|ms| - 1], w1, f, disk) && Wants(w1, ms[|ms| - 1], f))
      && (why == Broken ==> err == Fatal && (Unreadable() || (ms != [] && RunsM(w0, ms[..|ms| - 1], w1, f, disk) && Hopeless(w1, ms[|ms| - 1], f))))
      && (why == WindowFull ==> Touched(f, R()) == freed + cce.Length && (alen < sent || EnabledM(W(), Free, f, disk)))
      && (why == Refused && err == Fine ==> conn.sndbuf == 0)
    }

    /** httpreq_write_fio: sends chunk after chunk until the request is done or something is missing.
        The call is a run of Ask and Send moves, and it says what it waits for. */
    method WriteFio(ghost disk: Disk) returns (err: Err, why: Outcome, ghost ms: seq<Move>, ghost w1: World)
      requires Valid(disk)
      modifies this, cce, cache, cache.lists, conn
      ensures Valid(disk) && RunsM(old(W()), ms, W(), f, disk) && OwnMoves(ms) && Ended(old(W()), err, why, ms, w1, disk)
      ensures sent >= old(sent) && alen == old(alen) && freed == old(freed) && (old(Settled()) ==> Settled())
      ensures old(MaySend(W(), f, 0)) ==> sent > old(sent) || why == Refused
      ensures conn.Answered(old(|conn.tried|), if why == Broken then Fine else err)
    {
      err, why, ms, w1 := Fine, Complete, [], W();
      SentBound(W(), f, disk);
      RunsNone(W(), f, disk);
      if sent == rlen { return; }
      hide EnabledM, ApplyM, RunsM, MaySend, Ended, InvM, InvX, Cache.ChunkCache.Valid;
      var go;
      err, why, go, ms, w1 := Round(old(W()), ms, disk);
      while go
        invariant Valid(disk) && RunsM(old(W()), ms, W(), f, disk) && OwnMoves(ms) && old(sent) <= sent && (go ==> old(sent) < sent < rlen)
        invariant alen == old(alen) && freed == old(freed) && (old(Settled()) ==> Settled())
        invariant !go ==> Ended(old(W()), err, why, ms, w1, disk)
        invariant old(MaySend(W(), f, 0)) ==> sent > old(sent) || (why == Refused && !go)
        invariant conn.Answered(old(|conn.tried|), if why == Broken then Fine else err)
        decreases go, rlen - sent
      {
        err, why, go, ms, w1 := Round(old(W()), ms, disk);
      }
    }

    /** One round of the loop of httpreq_ack_fio, with its BUG_ON. */
    method FreeOne(ghost disk: Disk)
      requires Held(disk) && EnabledM(W(), Free, f, disk)
      modifies this, cce, cache, cache.lists
      ensures Held(disk) && FreeReady(old(W())) && W() == ApplyM(old(W()), Free, f, disk)
      ensures freed == old(freed) + 1 && sent == old(sent) && alen == old(alen) && wire == old(wire) && t == old(t)
      ensures cache.st.waits == old(cache.st.waits)
    {
      hide InvM, InvX, EnabledM, Enabled, Release, Apply, Cache.ChunkCache.Valid;
      ghost var w := W();
      FreeIs(w, f, disk);
      var j := (idxAck + 1) % cce.Length;
      var id := cce[j].value;
      assert cache.st.ent[id].addr == VolChk(f, rfirst) + freed;  // BUG_ON
      cce[j] := None;
      ReleaseWaits(cache.st, id, disk);
      cache.Release(id, disk);
      idxAck, freed := j, freed + 1;
      assert W() == FreeTo(w, j);
    }

    /** The message part of httpreq_acknowledge and httpreq_ack_fio: the client has acked more bytes
        of the body.  Exactly the buffers of the chunks that are fully acknowledged go back. */
    method Acknowledge(acked: nat, ghost disk: Disk) returns (ghost ms: seq<Move>)
      requires Held(disk) && alen + acked <= sent && freed == Pos(f, rfirst, alen)
      modifies this, cce, cache, cache.lists
      ensures Held(disk) && RunsM(old(W()), ms, W(), f, disk) && OwnMoves(ms)
      ensures alen == old(alen) + acked && freed == Pos(f, rfirst, alen) && sent == old(sent) && wire == old(wire) && t == old(t)
      ensures old(Settled()) ==> Settled()
    {
      hide InvM, InvX, EnabledM, ApplyM, RunsM, FreeReady, OwnMoves, Cache.ChunkCache.Valid;
      ghost var w := W();
      RunsNone(w, f, disk);
      AckIs(w, acked, f, disk);
      var start, end := VolChk(f, rfirst + alen), VolChk(f, rfirst + alen + acked);
      BytePos(f, rfirst, alen);
      BytePos(f, rfirst, alen + acked);
      PosMonotone(f, rfirst, alen, alen + acked);
      assert rfirst + alen + acked == rfirst + (alen + acked);
      alen := alen + acked;
      RunsOne(w, [], w, Ack(acked), W(), f, disk);
      ms := [] + [Ack(acked)];
      for i := 0 to end - start
        invariant Held(disk) && RunsM(w, ms, W(), f, disk) && OwnMoves(ms) && wire == old(wire) && t == old(t) && cache.st.waits == old(cache.st.waits)
        invariant alen == old(alen) + acked && sent == old(sent) && freed == old(freed) + i
      {
        ghost var w1 := W();
        FreeDue(w1, f, disk);
        FreeOne(disk);
        RunsOne(w, ms, w1, Free, W(), f, disk);
        ms := ms + [Free];
      }
    }

    /** httpreq_fio_close: every reference the request still has goes back to the cache, by a release
        or, for a read still awaited, by an abort; no other client's reference is touched. */
    method Close(ghost disk: Disk)
      requires Held(disk) && Settled()
      modifies this, cce, cache, cache.lists
      ensures cache.Valid() && Inv(cache.st, disk)
      ensures cache.st.held + Ids(old(cce[..]), cce.Length) == old(cache.st.held)
    {
      hide Closing, Sound, Inv;
      ghost var (ring, all) := (cce[..], cache.st.held);
      CloseStart(W(), f, disk);
      for i := 0 to cce.Length
        invariant cache.Valid() && Closing(cache.st, cce[..], ring, t, idx, i, all, disk)
      {
        CloseRound(i, ring, all, disk);
      }
      CloseEnd(cache.st, cce[..], ring, t, idx, all, disk);
    }

    method CloseRound(i: nat, ghost ring: seq<Option<BufId>>, ghost all: multiset<BufId>, ghost disk: Disk)
      requires cache.Valid() && i < cce.Length && Closing(cache.st, cce[..], ring, t, idx, i, all, disk)
      modifies cce, cache, cache.lists
      ensures cache.Valid() && Closing(cache.st, cce[..], ring, t, idx, i + 1, all, disk)
    {
      hide Owned, InvX;
      assert cce[i] == cce[..][i] == ring[i];
      if cce[i].Some? { CloseSlot(i, ring, disk); }
    }

    method CloseSlot(i: nat, ghost ring: seq<Option<BufId>>, ghost disk: Disk)
      requires cache.Valid() && Inv(cache.st, disk) && i < cce.Length == |ring| && cce[i] == ring[i] && ring[i].Some? && Distinct(ring)
      requires forall j :: i <= j < |ring| ==> Owned(cache.st, ring, t, idx, j)
      modifies cce, cache, cache.lists
      ensures cache.Valid() && Inv(cache.st, disk) && cache.st.held + multiset{ring[i].value} == old(cache.st.held)
      ensures forall j :: 0 <= j < |ring| && j != i ==> cce[j] == old(cce[j])
      ensures forall j :: i < j < |ring| ==> Owned(cache.st, ring, t, idx, j)
    {
      hide InvX, Enabled, Apply, Owned;
      var id := cce[i].value;
      if i == idx {
        GiveBack(cache.st, ring, t, idx, i, DoAbort(id, t), disk);
        cache.ReleaseAbort(id, t, disk);
      } else {
        GiveBack(cache.st, ring, t, idx, i, DoRelease(id), disk);
        cache.Release(id, disk);
        cce[i] := None;
      }
    }
  }
}
