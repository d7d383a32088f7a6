/** Serving a file from the cache (http_fio.h): a ring of cache buffers advanced by partial TCP
    writes and retired by acknowledgements, over every interleaving of send space, I/O completion,
    retry, acknowledgement and the steps of the cache's other clients. */
module Fio {
  import opened Lists
  import opened CacheModel
  import opened CacheProofs
  import opened CacheRuns
  import opened Arith

  /** Where a file lies: f_attr.chunk, f_attr.offset and the volume's chunk size. */
  datatype File = File(chunk: Chk, offset: nat, chunksize: nat)

  /** shfs_volchk_foff */
  function VolChk(f: File, foff: nat): Chk
    requires f.chunksize > 0
  {
    (f.offset + foff) / f.chunksize + f.chunk
  }

  /** shfs_volchkoff_foff */
  function VolOff(f: File, foff: nat): (r: nat)
    requires f.chunksize > 0
    ensures r < f.chunksize
  {
    (f.offset + foff) % f.chunksize
  }

  ghost predicate Volume(f: File, disk: Disk) {
    f.chunksize > 0 && forall c :: |disk(c)| == f.chunksize
  }

  /** The first k chunks of the volume from the file's first chunk on, one behind the other. */
  ghost function Stored(f: File, disk: Disk, k: nat): seq<Byte> {
    if k == 0 then [] else Stored(f, disk, k - 1) + disk(f.chunk + (k - 1))
  }

  /** Bytes [a, a + n) of the file: the file starts f.offset bytes into its chunks.  No chunk is empty, so
      that f.offset + a + n of them hold these bytes. */
  ghost function Content(f: File, disk: Disk, a: nat, n: nat): (r: seq<Byte>)
    requires Volume(f, disk)
    ensures |r| == n && forall i :: 0 <= i < n ==> r[i] == disk(VolChk(f, a + i))[VolOff(f, a + i)]
  {
    var k := f.offset + a + n;
    MulMonotone(1, f.chunksize, k);
    ContentParts(f, disk, a, n, k);
    Stored(f, disk, k)[f.offset + a..k]
  }

  lemma {:induction false} StoredSize(f: File, disk: Disk, k: nat)
    requires Volume(f, disk)
    ensures |Stored(f, disk, k)| == k * f.chunksize
  {
    if k > 0 {
      StoredSize(f, disk, k - 1);
      assert k * f.chunksize == (k - 1) * f.chunksize + f.chunksize;
    }
  }

  /** Byte x of the stored chunks. */
  lemma {:induction false} StoredAt(f: File, disk: Disk, k: nat, x: nat)
    requires Volume(f, disk) && x < k * f.chunksize
    ensures |Stored(f, disk, k)| == k * f.chunksize
    ensures Stored(f, disk, k)[x] == disk(f.chunk + x / f.chunksize)[x % f.chunksize]
  {
    StoredSize(f, disk, k);
    if k > 0 {
      StoredSize(f, disk, k - 1);
      assert k * f.chunksize == (k - 1) * f.chunksize + f.chunksize;
      if x < (k - 1) * f.chunksize {
        StoredAt(f, disk, k - 1, x);
      } else {
        DivUnique(x, f.chunksize, k - 1, x - (k - 1) * f.chunksize);
      }
    }
  }

  lemma ContentParts(f: File, disk: Disk, a: nat, n: nat, k: nat)
    requires Volume(f, disk) && f.offset + a + n <= k * f.chunksize
    ensures |Stored(f, disk, k)| == k * f.chunksize
    ensures var r := Stored(f, disk, k)[f.offset + a..f.offset + a + n];
      forall i :: 0 <= i < n ==> r[i] == disk(VolChk(f, a + i))[VolOff(f, a + i)]
  {
    StoredSize(f, disk, k);
    var r := Stored(f, disk, k)[f.offset + a..f.offset + a + n];
    forall i | 0 <= i < n ensures r[i] == disk(VolChk(f, a + i))[VolOff(f, a + i)] {
      StoredAt(f, disk, k, f.offset + a + i);
      assert f.offset + (a + i) == f.offset + a + i;
    }
  }

  /** The addresses the code computes are right: byte for byte, what they lead to is the slice of the stored
      chunks, whatever number of chunks is looked at. */
  lemma ContentStored(f: File, disk: Disk, a: nat, n: nat, k: nat)
    requires Volume(f, disk) && f.offset + a + n <= k * f.chunksize
    ensures |Stored(f, disk, k)| == k * f.chunksize
    ensures Content(f, disk, a, n) == Stored(f, disk, k)[f.offset + a..f.offset + a + n]
    ensures forall i :: 0 <= i < n ==> Content(f, disk, a, n)[i] == disk(VolChk(f, a + i))[VolOff(f, a + i)]
  {
    ContentParts(f, disk, a, n, k);
  }

  /** The file part of struct http_req; freed counts the buffers released so far. */
  datatype Req = Req(rfirst: nat, rlen: nat, sent: nat, alen: nat,
                     cce: seq<Option<BufId>>, t: Option<Tok>, idx: nat, idxAck: nat, freed: nat)

  /** The cache, the request, and the body bytes handed to TCP so far. */
  datatype World = World(c: Sys, r: Req, wire: seq<Byte>)

  datatype Move =
    | Ask(dts: seq<Option<Tok>>, ct: Option<Tok>)  // httpreq_fio_aioreq for the current chunk
    | Callback                                     // httpreq_fio_aiocb
    | Send(n: nat)                                 // one httpsess_write that takes n bytes
    | Ack(n: nat)                                  // the client acknowledges n more bytes
    | Free                                         // one round of the loop in httpreq_ack_fio
    | Other(p: Step)                               // the cache's other clients, and the device

  /** The chunk of request byte x, counted from the request's first chunk. */
  function Pos(f: File, rfirst: nat, x: nat): nat
    requires f.chunksize > 0
  {
    DivMonotone(f.offset + rfirst, f.offset + rfirst + x, f.chunksize);
    (f.offset + rfirst + x) / f.chunksize - (f.offset + rfirst) / f.chunksize
  }

  /** The chunk the next byte comes from; at the end, the last one. */
  function Cur(f: File, r: Req): nat
    requires f.chunksize > 0
  {
    if r.sent < r.rlen || r.rlen == 0 then Pos(f, r.rfirst, r.sent) else Pos(f, r.rfirst, r.rlen - 1)
  }

  /** Number of chunks of which at least one byte was sent. */
  function Touched(f: File, r: Req): nat
    requires f.chunksize > 0
  {
    if r.sent == 0 then 0 else Pos(f, r.rfirst, r.sent - 1) + 1
  }

  function Left(f: File, r: Req): nat
    requires f.chunksize > 0 && r.sent <= r.rlen
  {
    var inChunk := f.chunksize - VolOff(f, r.rfirst + r.sent);
    if inChunk < r.rlen - r.sent then inChunk else r.rlen - r.sent
  }

  /** A reference to a buffer whose read is not awaited. */
  ghost predicate Mine(c: Sys, id: BufId) {
    id < |c.ent| && c.held[id] > |c.ent[id].chain|
  }

  /** The step leaves a reference of ours alone. */
  ghost predicate Spares(c: Sys, p: Step, id: BufId)
    requires id < |c.ent|
  {
    (p.DoRelease? && p.id == id) || (p.DoAbort? && p.id == id && p.tok.None?) ==> c.held[id] > |c.ent[id].chain| + 1
  }

  lemma MineLoaded(c: Sys, id: BufId, disk: Disk)
    requires Inv(c, disk) && Mine(c, id)
    ensures c.ent[id].refcount > 0 && c.ent[id].t.None? && c.ent[id].chain == []
    ensures !c.ent[id].invalid ==> c.ent[id].addr != 0 && c.ent[id].buf == disk(c.ent[id].addr)
  {
    assert Open(0);
    assert EntryOk(c.ent[id], c.held[id], id in c.alist, id in c.free, false, disk);
  }

  /** What we hold stays what it is, whatever step another client or the device takes. */
  lemma MineKept(c: Sys, p: Step, id: BufId, disk: Disk)
    requires Inv(c, disk) && Enabled(c, p, disk) && Mine(c, id) && Spares(c, p, id)
    ensures var c' := Apply(c, p, disk);
      && Mine(c', id) && c'.ent[id].addr == c.ent[id].addr && c'.ent[id].invalid == c.ent[id].invalid
  {
    var c' := Apply(c, p, disk);
    MineLoaded(c, id, disk);
    AbortSpares(c, p, id, disk);
    StepHeld(c, p, disk);
    StepProtects(c, p, disk);
    StepKeeps(c, p, disk);
    assert c'.held[id] > 0;
    HeldLoaded(c', id, disk);
  }

  lemma AbortSpares(c: Sys, p: Step, id: BufId, disk: Disk)
    requires Inv(c, disk) && Enabled(c, p, disk) && Mine(c, id)
    ensures p.DoAbort? && p.tok.Some? ==> p.id != id
  {
    MineLoaded(c, id, disk);
    if p.DoAbort? { MayRelease(c, p.id, p.tok, disk); }
  }

  lemma HeldLoaded(c: Sys, id: BufId, disk: Disk)
    requires Inv(c, disk) && id < |c.ent| && c.held[id] > 0
    ensures c.ent[id].refcount > 0 && (c.ent[id].t.None? ==> Mine(c, id))
  {
    assert Open(0);
    assert EntryOk(c.ent[id], c.held[id], id in c.alist, id in c.free, false, disk);
  }

  /** A token of ours that waits goes on waiting for the same chunk, or its read has completed and
      the buffer is ours. */
  lemma WaitKept(c: Sys, p: Step, tok: Tok, disk: Disk)
    requires Inv(c, disk) && Enabled(c, p, disk) && tok in c.waits && !(p.DoAbort? && p.tok == Some(tok))
    ensures var (c', id) := (Apply(c, p, disk), c.waits[tok]);
      && id < |c.ent| == |c'.ent| && c'.ent[id].addr == c.ent[id].addr
      && (tok in c'.waits ==> c'.waits[tok] == id)
      && (tok !in c'.waits ==> Mine(c', id))
  {
    var (c', id) := (Apply(c, p, disk), c.waits[tok]);
    WaitingPinned(c, tok, disk);
    StepWaits(c, p, disk, tok);
    StepProtects(c, p, disk);
    if tok !in c'.waits {
      StepKeeps(c, p, disk);
      CompleteHeld(c, p.t, p.ret);
      CompleteLoads(c, p.t, p.ret);
      HeldLoaded(c', id, disk);
    }
  }

  lemma CompleteLoads(c: Sys, t: Tok, ret: int)
    requires Shape(c) && t in c.dev && c.dev[t].buf < |c.ent|
    ensures Complete(c, t, ret).ent[c.dev[t].buf].t.None?
  {
  }

  lemma WaitingPinned(c: Sys, tok: Tok, disk: Disk)
    requires Inv(c, disk) && tok in c.waits
    ensures c.waits[tok] < |c.ent| && c.ent[c.waits[tok]].t.Some? && c.held[c.waits[tok]] > 0
  {
    assert Open(0);
    var id := c.waits[tok];
    assert tok in c.ent[id].chain;
    assert EntryOk(c.ent[id], c.held[id], id in c.alist, id in c.free, false, disk);
  }

  /* ---- The moves ---- */

  predicate InRange(r: Req) { r.idx < |r.cce| && r.sent <= r.rlen }

  ghost predicate EnabledM(w: World, m: Move, f: File, disk: Disk)
    requires f.chunksize > 0
  {
    match m
    case Ask(dts, ct) => InRange(w.r) && MayAsk(w, DoAread(VolChk(f, w.r.rfirst + w.r.sent), dts, ct), disk)
    case Callback => InRange(w.r) && w.r.t.Some? && w.r.t.value !in w.c.waits
    case Send(n) => InRange(w.r) && MaySend(w, f, n)
    case Ack(n) => InRange(w.r) && w.r.alen + n <= w.r.sent
    case Free => InRange(w.r) && w.r.freed < Pos(f, w.r.rfirst, w.r.alen)
    case Other(p) => InRange(w.r) && Enabled(w.c, p, disk) && SparesUs(w, p)
  }

  /** The current slot is empty and more is to be sent. */
  ghost predicate MayAsk(w: World, p: Step, disk: Disk) {
    w.r.sent < w.r.rlen && w.r.idx < |w.r.cce| && w.r.cce[w.r.idx].None? && Enabled(w.c, p, disk)
  }

  /** The current slot holds the chunk of the next byte, read without an error. */
  ghost predicate MaySend(w: World, f: File, n: nat)
    requires f.chunksize > 0
  {
    var r := w.r;
    && r.sent < r.rlen && n <= Left(f, r) && r.t.None? && r.idx < |r.cce| && r.cce[r.idx].Some?
    && r.cce[r.idx].value < |w.c.ent|
    && var e := w.c.ent[r.cce[r.idx].value];
       e.addr == VolChk(f, r.rfirst + r.sent) && !e.invalid
  }

  /** The step takes neither a reference nor a token of this request. */
  ghost predicate SparesUs(w: World, p: Step) {
    && (forall j :: 0 <= j < |w.r.cce| && w.r.cce[j].Some? && w.r.cce[j].value < |w.c.ent| ==>
          Spares(w.c, p, w.r.cce[j].value))
    && (w.r.t.Some? ==> !(p.DoAbort? && p.tok == w.r.t) && !(p.DoAread? && p.ct == w.r.t))
  }

  /** The request after the cache answered res and went to c. */
  ghost function AskWith(w: World, c: Sys, res: AreadResult): World
    requires w.r.idx < |w.r.cce|
  {
    match res
    case Fail => w.(c := c)
    case Hit(id) => w.(c := c, r := w.r.(cce := w.r.cce[w.r.idx := Some(id)]))
    case Wait(id, tok) => w.(c := c, r := w.r.(cce := w.r.cce[w.r.idx := Some(id)], t := Some(tok)))
  }

  ghost function AskTo(w: World, addr: Chk, dts: seq<Option<Tok>>, ct: Option<Tok>): World
    requires Shape(w.c) && |dts| == w.c.readahead + 1 && w.r.idx < |w.r.cce|
  {
    AskWith(w, Aread(w.c, addr, dts, ct).0, Aread(w.c, addr, dts, ct).1)
  }

  ghost function SendTo(w: World, f: File, n: nat): World
    requires SendReady(w, f) && w.r.sent < w.r.rlen && n <= Left(f, w.r)
  {
    var r := w.r;
    var off := VolOff(f, r.rfirst + r.sent);
    var done := n == Left(f, r) && r.sent + n < r.rlen;
    w.(wire := w.wire + w.c.ent[r.cce[r.idx].value].buf[off..off + n],
       r := r.(sent := r.sent + n, idx := if done then (r.idx + 1) % |r.cce| else r.idx))
  }

  ghost function FreeTo(w: World, j: nat): World
    requires j < |w.r.cce| && w.r.cce[j].Some? && w.r.cce[j].value < |w.c.ent|
    requires |w.c.clist| > 0 && w.c.ent[w.r.cce[j].value].refcount > 0
  {
    w.(c := Release(w.c, w.r.cce[j].value), r := w.r.(cce := w.r.cce[j := None], idxAck := j, freed := w.r.freed + 1))
  }

  /** The buffer to be released is there and is ours. */
  ghost predicate FreeReady(w: World) {
    && |w.r.cce| > 0 && var s := w.r.cce[(w.r.idxAck + 1) % |w.r.cce|];
       s.Some? && Mine(w.c, s.value) && w.c.ent[s.value].refcount > 0
  }

  /** The bytes to be sent lie inside the buffer. */
  ghost predicate SendReady(w: World, f: File) {
    && f.chunksize > 0 && w.r.idx < |w.r.cce| && w.r.cce[w.r.idx].Some? && w.r.cce[w.r.idx].value < |w.c.ent|
    && |w.c.ent[w.r.cce[w.r.idx].value].buf| == f.chunksize
  }

  ghost function ApplyM(w: World, m: Move, f: File, disk: Disk): World
    requires f.chunksize > 0 && Inv(w.c, disk) && EnabledM(w, m, f, disk)
    requires m.Free? ==> FreeReady(w)
    requires m.Send? ==> SendReady(w, f)
  {
    match m
    case Ask(dts, ct) => AskTo(w, VolChk(f, w.r.rfirst + w.r.sent), dts, ct)
    case Callback => w.(r := w.r.(t := None))
    case Send(n) => SendTo(w, f, n)
    case Ack(n) => w.(r := w.r.(alen := w.r.alen + n))
    case Free => FreeTo(w, (w.r.idxAck + 1) % |w.r.cce|)
    case Other(p) => w.(c := Apply(w.c, p, disk))
  }

  /* ---- The invariant ---- */

  /** Chunk p of the request sits, loaded and valid, in its ring slot, and we hold it. */
  ghost predicate Holding(w: World, f: File, p: nat)
    requires f.chunksize > 0 && |w.r.cce| > 0
  {
    var s := w.r.cce[p % |w.r.cce|];
    s.Some? && Mine(w.c, s.value) && w.c.ent[s.value].addr == VolChk(f, w.r.rfirst) + p && !w.c.ent[s.value].invalid
  }

  /** Chunk p was asked for: it is being read for us, or it is ours. */
  ghost predicate Asked(w: World, f: File, p: nat)
    requires f.chunksize > 0 && |w.r.cce| > 0
  {
    var s := w.r.cce[p % |w.r.cce|];
    && s.Some? && s.value < |w.c.ent| && w.c.ent[s.value].addr == VolChk(f, w.r.rfirst) + p
    && if w.r.t.Some? && w.r.t.value in w.c.waits then w.c.waits[w.r.t.value] == s.value else Mine(w.c, s.value)
  }

  /** The ring: chunks [freed, touched) are held, the current one may have been asked for, every
      other slot is empty. */
  ghost predicate RingOk(w: World, f: File, p: nat)
    requires f.chunksize > 0 && |w.r.cce| > 0
  {
    var r := w.r;
    if p < Touched(f, r) then Holding(w, f, p)
    else if p == Touched(f, r) && Cur(f, r) == p then r.cce[p % |r.cce|].Some? ==> Asked(w, f, p)
    else r.cce[p % |r.cce|].None?
  }

  ghost predicate Ring(w: World, f: File) {
    && f.chunksize > 0 && |w.r.cce| >= 2
    && forall p {:trigger RingOk(w, f, p)} :: w.r.freed <= p < w.r.freed + |w.r.cce| ==> RingOk(w, f, p)
  }

  ghost predicate Scalars(r: Req, f: File) {
    && f.chunksize > 0 && |r.cce| >= 2 && 0 < r.rlen
    && r.alen <= r.sent <= r.rlen
    && r.freed <= Pos(f, r.rfirst, r.alen) && Touched(f, r) <= r.freed + |r.cce|
    && r.idx == Cur(f, r) % |r.cce|
    && r.idxAck == (r.freed + |r.cce| - 1) % |r.cce|
    && (r.t.Some? ==> Cur(f, r) == Touched(f, r) < r.freed + |r.cce| && r.cce[r.idx].Some?)
  }

  ghost predicate InvM(w: World, f: File, disk: Disk) {
    && Inv(w.c, disk) && Volume(f, disk) && Scalars(w.r, f) && Ring(w, f)
    && w.wire == Content(f, disk, w.r.rfirst, w.r.sent)
  }

  /* ---- Positions ---- */

  lemma PosMonotone(f: File, rfirst: nat, a: nat, b: nat)
    requires f.chunksize > 0 && a <= b
    ensures Pos(f, rfirst, a) <= Pos(f, rfirst, b)
  {
    DivMonotone(f.offset + rfirst + a, f.offset + rfirst + b, f.chunksize);
  }

  /** The current chunk is the last one touched or the one after it, and no later than the ring's
      acknowledged end allows. */
  lemma CurTouched(f: File, r: Req)
    requires f.chunksize > 0 && r.alen <= r.sent <= r.rlen && 0 < r.rlen
    ensures Cur(f, r) == Touched(f, r) || Cur(f, r) + 1 == Touched(f, r)
    ensures r.sent < r.rlen ==> Pos(f, r.rfirst, r.alen) <= Cur(f, r)
    ensures Pos(f, r.rfirst, r.alen) <= Touched(f, r)
  {
    PosMonotone(f, r.rfirst, r.alen, r.sent);
    if r.sent > 0 {
      var y := f.offset + r.rfirst + r.sent - 1;
      WithinChunk(y, 1, f.chunksize);
    }
  }

  lemma CurChk(f: File, r: Req)
    requires f.chunksize > 0 && r.sent < r.rlen
    ensures VolChk(f, r.rfirst + r.sent) == VolChk(f, r.rfirst) + Cur(f, r)
  {
    assert f.offset + (r.rfirst + r.sent) == f.offset + r.rfirst + r.sent;
  }

  /** What sending n > 0 bytes of the current chunk does to the positions. */
  lemma SendPos(f: File, r: Req, n: nat)
    requires f.chunksize > 0 && r.sent < r.rlen && 0 < n <= Left(f, r)
    ensures var r' := r.(sent := r.sent + n);
      && r'.sent <= r.rlen && Touched(f, r') == Cur(f, r) + 1
      && Cur(f, r') == if n == Left(f, r) && r'.sent < r.rlen then Cur(f, r) + 1 else Cur(f, r)
  {
    var y := f.offset + r.rfirst + r.sent;
    WithinChunk(y, n - 1, f.chunksize);
    WithinChunk(y, n, f.chunksize);
    assert y + (n - 1) == f.offset + r.rfirst + (r.sent + n - 1);
  }

  lemma ChunkByte(f: File, a: nat, i: nat)
    requires f.chunksize > 0 && i < f.chunksize - VolOff(f, a)
    ensures VolChk(f, a + i) == VolChk(f, a) && VolOff(f, a + i) == VolOff(f, a) + i
  {
    WithinChunk(f.offset + a, i, f.chunksize);
    assert f.offset + (a + i) == (f.offset + a) + i;
  }

  /** The bytes of a chunk from the offset of file byte a on are the file's bytes from a on. */
  lemma ChunkContent(f: File, a: nat, n: nat, disk: Disk)
    requires Volume(f, disk) && n <= f.chunksize - VolOff(f, a)
    ensures disk(VolChk(f, a))[VolOff(f, a)..VolOff(f, a) + n] == Content(f, disk, a, n)
  {
    var d := disk(VolChk(f, a))[VolOff(f, a)..VolOff(f, a) + n];
    forall i | 0 <= i < n ensures d[i] == Content(f, disk, a, n)[i] {
      ChunkByte(f, a, i);
    }
  }

  lemma ContentSplit(f: File, a: nat, n: nat, m: nat, disk: Disk)
    requires Volume(f, disk)
    ensures Content(f, disk, a, n) + Content(f, disk, a + n, m) == Content(f, disk, a, n + m)
  {
    var c, d := Content(f, disk, a + n, m), Content(f, disk, a, n + m);
    forall i | 0 <= i < m ensures c[i] == d[n + i] { assert a + n + i == a + (n + i); }
  }

  /* ---- Every move keeps the invariant ---- */

  /** A slot seen by a position stays as it is when only the cache moves, and leaves our references
      alone. */
  lemma SlotKept(w: World, p: Step, f: File, disk: Disk, k: nat)
    requires f.chunksize > 0 && |w.r.cce| > 0 && Inv(w.c, disk) && Enabled(w.c, p, disk)
    requires w.r.cce[k % |w.r.cce|].Some? && w.r.cce[k % |w.r.cce|].value < |w.c.ent| ==>
      Spares(w.c, p, w.r.cce[k % |w.r.cce|].value)
    requires w.r.t.Some? ==> !(p.DoAbort? && p.tok == w.r.t) && !(p.DoAread? && p.ct == w.r.t)
    ensures var w' := w.(c := Apply(w.c, p, disk));
      (Holding(w, f, k) ==> Holding(w', f, k)) && (Asked(w, f, k) ==> Asked(w', f, k))
  {
    var s := w.r.cce[k % |w.r.cce|];
    if s.Some? && Mine(w.c, s.value) { MineKept(w.c, p, s.value, disk); }
    if w.r.t.Some? {
      StepWaits(w.c, p, disk, w.r.t.value);
      if w.r.t.value in w.c.waits { WaitKept(w.c, p, w.r.t.value, disk); }
    }
  }

  lemma OtherKeeps(w: World, p: Step, f: File, disk: Disk)
    requires InvM(w, f, disk) && EnabledM(w, Other(p), f, disk)
    ensures InvM(w.(c := Apply(w.c, p, disk)), f, disk)
  {
    var w' := w.(c := Apply(w.c, p, disk));
    StepKeeps(w.c, p, disk);
    forall k | w.r.freed <= k < w.r.freed + |w.r.cce| ensures RingOk(w', f, k) {
      assert RingOk(w, f, k);
      SlotKept(w, p, f, disk, k);
    }
  }

  /** An empty current slot means a new chunk, with room for it in the ring. */
  lemma AskRoom(w: World, f: File)
    requires Scalars(w.r, f) && Ring(w, f) && w.r.sent < w.r.rlen && w.r.cce[w.r.idx].None?
    ensures Cur(f, w.r) == Touched(f, w.r) < w.r.freed + |w.r.cce| && w.r.t.None?
  {
    var (r, n) := (w.r, |w.r.cce|);
    CurTouched(f, r);
    assert Cur(f, r) < r.freed + n ==> RingOk(w, f, Cur(f, r));
    assert RingOk(w, f, r.freed);
    if Touched(f, r) == r.freed + n == Cur(f, r) { AddPeriod(r.freed, n); }
  }

  lemma AddPeriod(a: nat, n: nat)
    requires n > 0
    ensures (a + n) % n == a % n
  {
    DivEquation(a, n);
    assert (a / n + 1) * n == (a / n) * n + n;
    DivUnique(a + n, n, a / n + 1, a % n);
  }

  /** What the cache hands out for addr is ours or is being read for us. */
  ghost predicate Answer(c: Sys, res: AreadResult, addr: Chk) {
    && (!res.Fail? ==> res.id < |c.ent| && c.ent[res.id].addr == addr)
    && (res.Hit? ==> Mine(c, res.id))
    && (res.Wait? ==> res.tok in c.waits && c.waits[res.tok] == res.id)
  }

  lemma AreadAnswers(c: Sys, addr: Chk, dts: seq<Option<Tok>>, ct: Option<Tok>, disk: Disk)
    requires Inv(c, disk) && Enabled(c, DoAread(addr, dts, ct), disk)
    ensures Answer(Aread(c, addr, dts, ct).0, Aread(c, addr, dts, ct).1, addr)
  {
    var (c', res) := Aread(c, addr, dts, ct);
    StepKeeps(c, DoAread(addr, dts, ct), disk);
    AreadEffect(c, addr, dts, ct, disk);
    if res.Hit? { HeldLoaded(c', res.id, disk); }
  }

  ghost predicate HeldIn(w: World, c: Sys, f: File, q: nat)
    requires f.chunksize > 0 && |w.r.cce| > 0
  {
    Holding(w.(c := c), f, q)
  }

  /** The chunks before k would all be held with the cache in state c. */
  ghost predicate HeldBelow(w: World, c: Sys, f: File, k: nat) {
    && f.chunksize > 0 && |w.r.cce| > 0
    && forall q: nat {:trigger RingOk(w, f, q)} {:trigger HeldIn(w, c, f, q)} :: w.r.freed <= q < k ==> HeldIn(w, c, f, q)
  }

  /** The slots of the ring after the current chunk was asked for. */
  lemma AskRing(w: World, c: Sys, res: AreadResult, k: nat, q: nat, f: File)
    requires f.chunksize > 0 && |w.r.cce| > 0
    requires w.r.idx == k % |w.r.cce| && q - |w.r.cce| < k < q + |w.r.cce| && w.r.t.None? && w.r.cce[w.r.idx].None?
    requires k == Cur(f, w.r) == Touched(f, w.r) && Answer(c, res, VolChk(f, w.r.rfirst) + k)
    requires RingOk(w, f, q) && (q < k ==> HeldIn(w, c, f, q))
    ensures RingOk(AskWith(w, c, res), f, q)
  {
    if q != k { SlotsDiffer(q, k, |w.r.cce|); }
  }

  lemma AskWithKeeps(w: World, c: Sys, res: AreadResult, addr: Chk, k: nat, f: File, disk: Disk)
    requires InvM(w, f, disk) && w.r.sent < w.r.rlen && w.r.idx < |w.r.cce| && w.r.cce[w.r.idx].None?
    requires k == Cur(f, w.r) == Touched(f, w.r) < w.r.freed + |w.r.cce| && w.r.t.None?
    requires Inv(c, disk) && Answer(c, res, addr) && addr == VolChk(f, w.r.rfirst) + k
    requires HeldBelow(w, c, f, k)
    ensures InvM(AskWith(w, c, res), f, disk)
  {
    var (r, w') := (w.r, AskWith(w, c, res));
    CurTouched(f, r);
    forall q | r.freed <= q < r.freed + |r.cce| ensures RingOk(w', f, q) {
      assert RingOk(w, f, q);
      AskRing(w, c, res, k, q, f);
    }
  }

  /** No step that spares our references takes a chunk away that we hold. */
  lemma AskHeld(w: World, p: Step, k: nat, f: File, disk: Disk)
    requires Inv(w.c, disk) && Enabled(w.c, p, disk) && p.DoAread? && Ring(w, f) && w.r.t.None?
    requires k <= Touched(f, w.r) && k < w.r.freed + |w.r.cce|
    ensures HeldBelow(w, Apply(w.c, p, disk), f, k)
  {
    forall q | w.r.freed <= q < k ensures HeldIn(w, Apply(w.c, p, disk), f, q) {
      assert RingOk(w, f, q);
      SlotKept(w, p, f, disk, q);
    }
  }

  lemma AskKeeps(w: World, dts: seq<Option<Tok>>, ct: Option<Tok>, f: File, disk: Disk)
    requires InvM(w, f, disk) && EnabledM(w, Ask(dts, ct), f, disk)
    ensures InvM(AskTo(w, VolChk(f, w.r.rfirst + w.r.sent), dts, ct), f, disk)
  {
    var p := DoAread(VolChk(f, w.r.rfirst + w.r.sent), dts, ct);
    AskRoom(w, f);
    CurChk(f, w.r);
    AskHeld(w, p, Cur(f, w.r), f, disk);
    StepKeeps(w.c, p, disk);
    AreadAnswers(w.c, p.addr, dts, ct, disk);
    AskWithKeeps(w, Apply(w.c, p, disk), Aread(w.c, p.addr, dts, ct).1, p.addr, Cur(f, w.r), f, disk);
  }

  /** The current chunk has its own slot: a slot that wrapped around would show another chunk. */
  lemma CurInside(w: World, f: File)
    requires Scalars(w.r, f) && Ring(w, f) && MaySend(w, f, 0)
    ensures Cur(f, w.r) < w.r.freed + |w.r.cce| && RingOk(w, f, Cur(f, w.r)) && w.r.freed <= Cur(f, w.r)
  {
    var (r, n) := (w.r, |w.r.cce|);
    CurTouched(f, r);
    CurChk(f, r);
    assert RingOk(w, f, r.freed);
    if Cur(f, r) == r.freed + n { AddPeriod(r.freed, n); }
  }

  /** The buffer a write takes its bytes from is the current chunk, ours, and equal to the disk. */
  lemma SendSource(w: World, n: nat, f: File, disk: Disk)
    requires InvM(w, f, disk) && EnabledM(w, Send(n), f, disk)
    ensures Cur(f, w.r) < w.r.freed + |w.r.cce| && SendReady(w, f)
    ensures var id := w.r.cce[w.r.idx].value;
      Mine(w.c, id) && w.c.ent[id].buf == disk(VolChk(f, w.r.rfirst + w.r.sent)) && !w.c.ent[id].invalid
  {
    hide Content, Ring;
    CurInside(w, f);
    MineLoaded(w.c, w.r.cce[w.r.idx].value, disk);
  }

  /** After a write the chunk it came from is held, and the slots beyond are as before. */
  lemma SendRing(w: World, n: nat, f: File, disk: Disk)
    requires InvM(w, f, disk) && EnabledM(w, Send(n), f, disk) && SendReady(w, f) && n > 0
    ensures var w' := SendTo(w, f, n); Scalars(w'.r, f) && Ring(w', f)
  {
    var r, w' := w.r, SendTo(w, f, n);
    SendSource(w, n, f, disk);
    CurTouched(f, r);
    SendPos(f, r, n);
    NextSlot(Cur(f, r), |r.cce|);
    forall q | r.freed <= q < r.freed + |r.cce| ensures RingOk(w', f, q) { assert RingOk(w, f, q); }
  }

  /** What went out, with the bytes of this write, is the file again. */
  lemma SendWire(w: World, n: nat, f: File, disk: Disk)
    requires InvM(w, f, disk) && EnabledM(w, Send(n), f, disk) && SendReady(w, f)
    ensures SendTo(w, f, n).wire == Content(f, disk, w.r.rfirst, w.r.sent + n)
  {
    hide Content, Ring, Scalars;
    var r := w.r;
    SendSource(w, n, f, disk);
    ChunkContent(f, r.rfirst + r.sent, n, disk);
    ContentSplit(f, r.rfirst, r.sent, n, disk);
  }

  lemma SendKeeps(w: World, n: nat, f: File, disk: Disk)
    requires InvM(w, f, disk) && EnabledM(w, Send(n), f, disk) && SendReady(w, f)
    ensures InvM(SendTo(w, f, n), f, disk)
  {
    hide Content, Ring, Scalars;
    SendWire(w, n, f, disk);
    if n > 0 {
      SendRing(w, n, f, disk);
    } else {
      assert SendTo(w, f, n) == w;
    }
  }

  lemma AckKeeps(w: World, n: nat, f: File, disk: Disk)
    requires InvM(w, f, disk) && EnabledM(w, Ack(n), f, disk)
    ensures InvM(w.(r := w.r.(alen := w.r.alen + n)), f, disk)
  {
    var w' := w.(r := w.r.(alen := w.r.alen + n));
    PosMonotone(f, w.r.rfirst, w.r.alen, w.r.alen + n);
    assert Touched(f, w'.r) == Touched(f, w.r) && Cur(f, w'.r) == Cur(f, w.r);
    hide Touched, Cur, Content;
    forall q | w.r.freed <= q < w.r.freed + |w.r.cce| ensures RingOk(w', f, q) { assert RingOk(w, f, q); }
  }

  lemma CallbackKeeps(w: World, f: File, disk: Disk)
    requires InvM(w, f, disk) && EnabledM(w, Callback, f, disk)
    ensures InvM(w.(r := w.r.(t := None)), f, disk)
  {
    var w' := w.(r := w.r.(t := None));
    assert Touched(f, w'.r) == Touched(f, w.r) && Cur(f, w'.r) == Cur(f, w.r);
    hide Touched, Cur, Content;
    forall q | w.r.freed <= q < w.r.freed + |w.r.cce| ensures RingOk(w', f, q) { assert RingOk(w, f, q); }
  }

  /** The slot the acknowledgement loop turns to is the one of the next chunk in order: the BUG_ON
      check of httpreq_ack_fio holds. */
  lemma FreeSlot(w: World, f: File, disk: Disk)
    requires InvM(w, f, disk) && EnabledM(w, Free, f, disk)
    ensures (w.r.idxAck + 1) % |w.r.cce| == w.r.freed % |w.r.cce|
    ensures w.r.freed < Touched(f, w.r) && Holding(w, f, w.r.freed) && FreeReady(w)
  {
    var (r, n) := (w.r, |w.r.cce|);
    CurTouched(f, r);
    NextSlot(r.freed + n - 1, n);
    AddPeriod(r.freed, n);
    assert RingOk(w, f, r.freed);
    MineLoaded(w.c, r.cce[r.freed % n].value, disk);
  }

  lemma FreeOthers(w: World, j: nat, q: nat, f: File, disk: Disk)
    requires InvM(w, f, disk) && w.r.freed < q < w.r.freed + |w.r.cce|
    requires j == w.r.freed % |w.r.cce| && Holding(w, f, w.r.freed) && w.c.ent[w.r.cce[j].value].refcount > 0
    ensures RingOk(FreeTo(w, j), f, q)
    ensures q % |w.r.cce| != j
  {
    var (r, n) := (w.r, |w.r.cce|);
    var p := DoRelease(r.cce[j].value);
    assert RingOk(w, f, q);
    SlotsDiffer(r.freed, q, n);
    if r.cce[q % n].Some? {
      assert w.c.ent[r.cce[q % n].value].addr != w.c.ent[r.cce[j].value].addr;
      SlotKept(w, p, f, disk, q);
    }
  }

  lemma FreeKeeps(w: World, j: nat, f: File, disk: Disk)
    requires InvM(w, f, disk) && EnabledM(w, Free, f, disk)
    requires j == w.r.freed % |w.r.cce| && Holding(w, f, w.r.freed) && w.c.ent[w.r.cce[j].value].refcount > 0
    ensures InvM(FreeTo(w, j), f, disk)
  {
    var (r, n) := (w.r, |w.r.cce|);
    var w' := FreeTo(w, j);
    assert Inv(w'.c, disk) by { StepKeeps(w.c, DoRelease(r.cce[j].value), disk); }
    AddPeriod(r.freed, n);
    CurTouched(f, r);
    forall q | r.freed < q <= r.freed + n ensures RingOk(w', f, q) {
      if q < r.freed + n { FreeOthers(w, j, q, f, disk); }
    }
    if r.t.Some? { FreeOthers(w, j, Cur(f, r), f, disk); }
  }
}
