/** Synchronous file reads (shfs_fio.c, shfs_cache.h): chunk by chunk from the device or through the
    cache, both equal to the slice of the file. */
module FileRead {
  import opened Lists
  import opened Arith
  import opened CacheModel
  import opened CacheProofs
  import opened CacheRuns
  import Cache = ChunkCache
  import opened Fio

  /** The chunk after the one that holds file byte a. */
  lemma NextChunk(f: File, a: nat)
    requires f.chunksize > 0
    ensures var n := f.chunksize - VolOff(f, a); VolChk(f, a + n) == VolChk(f, a) + 1 && VolOff(f, a + n) == 0
  {
    var n := f.chunksize - VolOff(f, a);
    WithinChunk(f.offset + a, n, f.chunksize);
    assert f.offset + (a + n) == f.offset + a + n;
  }

  /** Chunk bytes [off, off + n) copied behind the first bufOff bytes of the buffer. */
  method CopyOut(buf: array<Byte>, bufOff: nat, chunk: seq<Byte>, off: nat, n: nat)
    requires bufOff + n <= buf.Length && off + n <= |chunk|
    modifies buf
    ensures buf[..bufOff + n] == old(buf[..bufOff]) + chunk[off..off + n]
  {
    for k := 0 to n
      invariant buf[..bufOff + k] == old(buf[..bufOff]) + chunk[off..off + k]
    {
      buf[bufOff + k] := chunk[off + k];
      assert buf[..bufOff + k + 1] == buf[..bufOff + k] + [chunk[off + k]];
    }
  }

  /** Where a read of len bytes from offset stands after done bytes. */
  ghost predicate Progress(f: File, disk: Disk, offset: nat, done: nat, left: nat, chk: nat, off: nat, got: seq<Byte>) {
    && Volume(f, disk) && got == Content(f, disk, offset, done)
    && (left > 0 ==> chk == VolChk(f, offset + done) && off == VolOff(f, offset + done))
  }

  lemma Advance(f: File, disk: Disk, offset: nat, done: nat, left: nat, chk: nat, off: nat, got: seq<Byte>, n: nat)
    requires Progress(f, disk, offset, done, left, chk, off, got) && left > 0
    requires n == if f.chunksize - off < left then f.chunksize - off else left
    ensures off + n <= |disk(chk)| && 0 < n <= left
    ensures Progress(f, disk, offset, done + n, left - n, chk + 1, 0, got + disk(chk)[off..off + n])
  {
    ChunkContent(f, offset + done, n, disk);
    ContentSplit(f, offset, done, n, disk);
    NextChunk(f, offset + done);
    assert offset + done + n == offset + (done + n);
  }

  /** Chunk c holds a byte of the read. */
  predicate Needs(f: File, offset: nat, len: nat, c: Chk)
    requires f.chunksize > 0
  {
    len > 0 && VolChk(f, offset) <= c <= VolChk(f, offset + len - 1)
  }

  /** The chunk the loop turns to is one of them. */
  lemma TurnNeeds(f: File, disk: Disk, offset: nat, done: nat, left: nat, chk: nat, off: nat, got: seq<Byte>)
    requires Progress(f, disk, offset, done, left, chk, off, got) && left > 0
    ensures Needs(f, offset, done + left, chk)
  {
    DivMonotone(f.offset + offset, f.offset + (offset + done), f.chunksize);
    DivMonotone(f.offset + (offset + done), f.offset + (offset + (done + left) - 1), f.chunksize);
  }

  /** shfs_fio_read; fails says which chunks the device cannot read.  The read succeeds exactly when it lies
      in the file and every chunk it needs is read, and then the buffer holds the slice of the file. */
  method Read(f: File, flen: nat, offset: nat, len: nat, buf: array<Byte>, fails: Chk -> bool, disk: Disk) returns (ok: bool)
    requires Volume(f, disk) && len <= buf.Length
    modifies buf
    ensures ok <==> offset + len <= flen && forall c: Chk :: Needs(f, offset, len, c) ==> !fails(c)
    ensures ok ==> buf[..len] == Content(f, disk, offset, len)
    ensures offset + len > flen ==> buf[..] == old(buf[..])
  {
    if offset > flen || offset + len > flen { return false; }
    var chk: nat, off: nat, left: nat, done: nat := VolChk(f, offset), VolOff(f, offset), len, 0;
    while left > 0
      invariant done + left == len && Progress(f, disk, offset, done, left, chk, off, buf[..done])
      invariant done > 0 ==> forall c: Chk :: Needs(f, offset, len, c) && c <= VolChk(f, offset + done - 1) ==> !fails(c)
    {
      TurnNeeds(f, disk, offset, done, left, chk, off, buf[..done]);
      if fails(chk) { return false; }
      var n := if f.chunksize - off < left then f.chunksize - off else left;
      Advance(f, disk, offset, done, left, chk, off, buf[..done], n);
      Before(f, disk, offset, done, left, chk, off, buf[..done], n);
      CopyOut(buf, done, disk(chk), off, n);
      left, chk, off, done := left - n, chk + 1, 0, done + n;
    }
    return true;
  }

  /** The chunks of the first done + n bytes are those of the first done bytes and the current one. */
  lemma Before(f: File, disk: Disk, offset: nat, done: nat, left: nat, chk: nat, off: nat, got: seq<Byte>, n: nat)
    requires Progress(f, disk, offset, done, left, chk, off, got) && 0 < n <= left && n <= f.chunksize - off
    ensures VolChk(f, offset + (done + n) - 1) == chk
    ensures done > 0 ==> chk <= VolChk(f, offset + done - 1) + 1
    ensures done == 0 ==> chk == VolChk(f, offset)
  {
    ChunkByte(f, offset + done, n - 1);
    if done > 0 {
      WithinChunk(f.offset + (offset + done - 1), 1, f.chunksize);
      assert f.offset + (offset + done) == f.offset + (offset + done - 1) + 1;
    }
  }

  /** What shfs_cache_read hands out: the chunk, loaded, referenced once more. */
  ghost predicate Loaded(s: Sys, id: BufId, addr: Chk, disk: Disk) {
    Mine(s, id) && s.ent[id].addr == addr && s.ent[id].buf == disk(addr)
  }

  lemma HitLoaded(c: Sys, addr: Chk, dts: seq<Option<Tok>>, ct: Option<Tok>, disk: Disk)
    requires Inv(c, disk) && Enabled(c, DoAread(addr, dts, ct), disk)
    ensures var (c', res) := Aread(c, addr, dts, ct);
      && Effect(c, c', res, addr, ct)
      && (res.Hit? ==> Mine(c', res.id) && (c'.ent[res.id].invalid || Loaded(c', res.id, addr, disk)))
  {
    var (c', res) := Aread(c, addr, dts, ct);
    AreadEffect(c, addr, dts, ct, disk);
    StepKeeps(c, DoAread(addr, dts, ct), disk);
    if res.Hit? {
      HeldLoaded(c', res.id, disk);
      MineLoaded(c', res.id, disk);
    }
  }

  /** The read a waiting token stands for ends: the buffer is ours, and holds the chunk unless it failed. */
  lemma WaitLoaded(c: Sys, tok: Tok, ret: int, disk: Disk)
    requires Inv(c, disk) && tok in c.waits && c.waits[tok] < |c.ent| && c.ent[c.waits[tok]].t.Some?
    requires Enabled(c, DoComplete(c.ent[c.waits[tok]].t.value, ret), disk)
    ensures var (c', id) := (Apply(c, DoComplete(c.ent[c.waits[tok]].t.value, ret), disk), c.waits[tok]);
      Mine(c', id) && c'.held == c.held && (ret >= 0 ==> Loaded(c', id, c.ent[id].addr, disk))
  {
    var id := c.waits[tok];
    var t := c.ent[id].t.value;
    var p := DoComplete(t, ret);
    var c' := Apply(c, p, disk);
    WaitingPinned(c, tok, disk);
    DevOf(c, id, disk);
    StepKeeps(c, p, disk);
    CompleteHeld(c, t, ret);
    WaitKept(c, p, tok, disk);
    CompleteValid(c, t, ret);
    HeldLoaded(c', id, disk);
    MineLoaded(c', id, disk);
  }

  /** The device request behind a loading entry. */
  lemma DevOf(c: Sys, id: BufId, disk: Disk)
    requires Inv(c, disk) && id < |c.ent| && c.ent[id].t.Some?
    ensures c.ent[id].t.value in c.dev && c.dev[c.ent[id].t.value] == Request(id, c.ent[id].addr)
    ensures c.ent[id].refcount == |c.ent[id].chain|
  {
    assert Open(0);
    assert EntryOk(c.ent[id], c.held[id], id in c.alist, id in c.free, false, disk);
  }

  lemma CompleteValid(c: Sys, t: Tok, ret: int)
    requires Shape(c) && t in c.dev && c.dev[t].buf < |c.ent|
    ensures Complete(c, t, ret).ent[c.dev[t].buf].t.None? && (Complete(c, t, ret).ent[c.dev[t].buf].invalid <==> ret < 0)
  {
  }

  /** Why a chunk is not handed out. */
  datatype Why = Got | Outside | Refused | Failed | Tired

  /** Another client holds the chunk's buffer after a failed read. */
  ghost predicate Stale(s: Sys, addr: Chk) {
    exists id :: 0 <= id < |s.ent| && s.ent[id].addr == addr && s.ent[id].invalid && s.ent[id].refcount > 0
  }

  /** The chunk is in the cache and loaded. */
  ghost predicate Ready(s: Sys, addr: Chk)
    requires Shape(s)
  {
    Find(s, addr).Some? && Find(s, addr).value < |s.ent| && s.ent[Find(s, addr).value].t.None?
  }

  /** shfs_cache_read: one reference to the loaded chunk, or an error and no reference.  tries is how often
      a request that finds no buffer or token is made.  It fails only for a chunk outside the volume, when the
      device cannot read the chunk or somebody still holds its failed read, and after all the tries; a chunk
      that is in the cache needs only one.  Refused is a chunk that is not cached and whose read the device will
      not even start. */
  method ReadChunk(cache: Cache.ChunkCache, addr: Chk, tries: nat, fails: Chk -> bool, disk: Disk) returns (r: Option<BufId>, why: Why)
    requires cache.Valid() && Inv(cache.st, disk)
    modifies cache, cache.lists
    ensures cache.Valid() && Inv(cache.st, disk)
    ensures r.Some? ==> Loaded(cache.st, r.value, addr, disk) && cache.st.held == old(cache.st).held + multiset{r.value}
    ensures r.None? ==> cache.st.held == old(cache.st).held
    ensures (why == Got <==> r.Some?) && (why == Outside <==> tries > 0 && !Readable(cache.st, addr))
    ensures why == Failed ==> fails(addr) || Stale(cache.st, addr)
    ensures (why == Tired || why == Refused) && tries > 0 ==> !old(Ready(cache.st, addr))
  {
    hide Aread, Apply, Runs, Cache.ChunkCache.Valid;
    for i := 0 to tries
      invariant cache.Valid() && Inv(cache.st, disk) && cache.st.held == old(cache.st).held
      invariant i == 0 ==> cache.st == old(cache.st)
      invariant i > 0 ==> Readable(cache.st, addr) && !old(Ready(cache.st, addr))
    {
      var id;
      id, why := Attempt(cache, addr, fails, disk);
      if why != Tired { return if why == Got then Some(id) else None, why; }
      Cache.RunsNone(cache.st, disk);
      cache.Fixed();
      ghost var steps := cache.PollOther(disk, cache.st, []);
      cache.Fixed();
    }
    return None, Tired;
  }

  /** One call of shfs_cache_aread with the wait for its completion. */
  method Attempt(cache: Cache.ChunkCache, addr: Chk, fails: Chk -> bool, disk: Disk) returns (id: BufId, why: Why)
    requires cache.Valid() && Inv(cache.st, disk)
    modifies cache, cache.lists
    ensures cache.Valid() && Inv(cache.st, disk)
    ensures why == Got ==> Loaded(cache.st, id, addr, disk) && cache.st.held == old(cache.st).held + multiset{id}
    ensures why != Got ==> cache.st.held == old(cache.st).held
    ensures why == Outside <==> !Readable(cache.st, addr)
    ensures why == Failed ==> fails(addr) || Stale(cache.st, addr)
    ensures why == Tired || why == Refused ==> !old(Ready(cache.st, addr))
  {
    hide InvX, Aread, Apply, Enabled, Cache.ChunkCache.Valid, Stale;
    ghost var c := cache.st;
    var dts, ct, hard := cache.Answers(disk);
    HitLoaded(c, addr, dts, ct, disk);
    TiredOnly(c, addr, dts, ct, disk);
    cache.Fixed();
    var res, again := cache.Aread(addr, dts, ct, hard, disk);
    cache.Fixed();
    match res {
      case Fail => return 0, if again then Tired else if cache.MayRead(addr) then Refused else Outside;
      case Hit(i) =>
        id := i;
        if !cache.Get(id).invalid { return id, Got; }
        StaleHit(c, addr, dts, ct, disk);
        StaleAfter(cache.st, id, addr, disk);
        GiveBack(cache, id, disk);
        cache.Fixed();
        return id, Failed;
      case Wait(i, tok) =>
        id := i;
        var ok := Finish(cache, id, tok, fails, disk);
        cache.Fixed();
        if ok { return id, Got; }
        GiveBack(cache, id, disk);
        cache.Fixed();
        return id, Failed;
    }
  }

  lemma TiredOnly(c: Sys, addr: Chk, dts: seq<Option<Tok>>, ct: Option<Tok>, disk: Disk)
    requires Inv(c, disk) && Enabled(c, DoAread(addr, dts, ct), disk)
    ensures !Readable(c, addr) ==> Aread(c, addr, dts, ct).1.Fail?
    ensures Aread(c, addr, dts, ct).1.Fail? && Readable(c, addr) ==> !Ready(c, addr)
  {
    hide Aread;
    FailsExactly(c, addr, dts, ct, disk);
  }

  /** A failed read that is handed out is held by somebody else, who holds it still after we gave it back. */
  lemma StaleHit(c: Sys, addr: Chk, dts: seq<Option<Tok>>, ct: Option<Tok>, disk: Disk)
    requires Inv(c, disk) && Enabled(c, DoAread(addr, dts, ct), disk) && Aread(c, addr, dts, ct).1.Hit?
    ensures var (c', id) := (Aread(c, addr, dts, ct).0, Aread(c, addr, dts, ct).1.id);
      Mine(c', id) && (c'.ent[id].invalid ==> c'.ent[id].addr == addr && c'.held[id] >= 2)
  {
    hide Aread;
    HitLoaded(c, addr, dts, ct, disk);
    HitUnheld(c, addr, dts, ct, disk);
  }

  lemma StaleAfter(c: Sys, id: BufId, addr: Chk, disk: Disk)
    requires Inv(c, disk) && Mine(c, id) && c.ent[id].addr == addr && c.ent[id].invalid && c.held[id] >= 2
    ensures Enabled(c, DoRelease(id), disk) && Stale(Apply(c, DoRelease(id), disk), addr)
  {
    MayRelease(c, id, None, disk);
    assert EntryOk(c.ent[id], c.held[id], id in c.alist, id in c.free, false, disk) by { assert Open(0); }
    var c' := Apply(c, DoRelease(id), disk);
    assert c'.ent[id].addr == addr && c'.ent[id].invalid && c'.ent[id].refcount > 0;
  }

  /** shfs_aio_wait: the read ends, with the chunk in the buffer unless the device fails. */
  method Finish(cache: Cache.ChunkCache, id: BufId, tok: Tok, fails: Chk -> bool, disk: Disk) returns (ok: bool)
    requires cache.Valid() && Inv(cache.st, disk) && tok in cache.st.waits && cache.st.waits[tok] == id
    modifies cache, cache.lists
    ensures cache.Valid() && Inv(cache.st, disk) && Mine(cache.st, id) && cache.st.held == old(cache.st).held
    ensures id < |old(cache.st).ent| && (ok <==> !fails(old(cache.st).ent[id].addr))
    ensures ok ==> Loaded(cache.st, id, old(cache.st).ent[id].addr, disk)
  {
    hide InvX, Complete, Cache.ChunkCache.Valid, Mine;
    WaitingPinned(cache.st, tok, disk);
    DevOf(cache.st, id, disk);
    var c := cache.Get(id);
    var t := c.t.value;
    ok := !fails(c.addr);
    if ok { cache.DeviceWrite(t, disk(c.addr), disk); }
    var ret := if ok then 0 else -1;
    WaitLoaded(cache.st, tok, ret, disk);
    cache.AioCallback(t, ret, disk);
  }

  method GiveBack(cache: Cache.ChunkCache, id: BufId, ghost disk: Disk)
    requires cache.Valid() && Inv(cache.st, disk) && Mine(cache.st, id)
    modifies cache, cache.lists
    ensures cache.Valid() && Inv(cache.st, disk) && cache.st.held == old(cache.st).held - multiset{id}
    ensures Enabled(old(cache.st), DoRelease(id), disk) && cache.st == Apply(old(cache.st), DoRelease(id), disk)
  {
    MayRelease(cache.st, id, None, disk);
    cache.Release(id, disk);
  }

  /** One turn of the loop: n bytes of a chunk, through the cache. */
  method ReadPart(cache: Cache.ChunkCache, chk: Chk, off: nat, n: nat, buf: array<Byte>, done: nat, tries: nat, fails: Chk -> bool, disk: Disk)
    returns (why: Why)
    requires cache.Valid() && Inv(cache.st, disk) && done + n <= buf.Length && off + n <= |disk(chk)|
    modifies cache, cache.lists, buf
    ensures cache.Valid() && Inv(cache.st, disk) && cache.st.held == old(cache.st).held
    ensures why == Got ==> buf[..done + n] == old(buf[..done]) + disk(chk)[off..off + n]
    ensures why == Outside ==> !Readable(cache.st, chk)
    ensures why == Failed ==> fails(chk) || Stale(cache.st, chk)
  {
    hide InvX, Cache.ChunkCache.Valid, Stale, Apply;
    var r;
    r, why := ReadChunk(cache, chk, tries, fails, disk);
    if r.None? { return; }
    CopyOut(buf, done, cache.Get(r.value).buf, off, n);
    GiveBack(cache, r.value, disk);
  }

  /** shfs_fio_cache_read: the slice of the file, and in every case no reference is kept or lost.  A read
      inside the file fails only over one of its chunks, for the reason given. */
  method CacheRead(cache: Cache.ChunkCache, f: File, flen: nat, offset: nat, len: nat, buf: array<Byte>, tries: nat, fails: Chk -> bool, disk: Disk)
    returns (ok: bool, why: Why, c: Chk)
    requires cache.Valid() && Inv(cache.st, disk) && Volume(f, disk) && len <= buf.Length
    modifies cache, cache.lists, buf
    ensures cache.Valid() && Inv(cache.st, disk) && cache.st.held == old(cache.st).held
    ensures ok <==> offset + len <= flen && why == Got
    ensures ok ==> buf[..len] == Content(f, disk, offset, len)
    ensures why != Got ==> Needs(f, offset, len, c)
    ensures why == Outside ==> !Readable(cache.st, c)
    ensures why == Failed ==> fails(c) || Stale(cache.st, c)
  {
    hide InvX, Volume, Content, Progress, Cache.ChunkCache.Valid, Stale, Needs;
    why, c := Got, 0;
    if offset > flen || offset + len > flen { return false, Got, 0; }
    ProgressStart(f, disk, offset, len);
    var chk: nat, off: nat, left: nat, done: nat := VolChk(f, offset), VolOff(f, offset), len, 0;
    while left > 0
      invariant cache.Valid() && Inv(cache.st, disk) && cache.st.held == old(cache.st).held && why == Got
      invariant done + left == len && Progress(f, disk, offset, done, left, chk, off, buf[..done])
    {
      ProgressOff(f, disk, offset, done, left, chk, off, buf[..done]);
      TurnNeeds(f, disk, offset, done, left, chk, off, buf[..done]);
      var n := if f.chunksize - off < left then f.chunksize - off else left;
      Advance(f, disk, offset, done, left, chk, off, buf[..done], n);
      why := ReadPart(cache, chk, off, n, buf, done, tries, fails, disk);
      if why != Got { return false, why, chk; }
      left, chk, off, done := left - n, chk + 1, 0, done + n;
    }
    ProgressEnd(f, disk, offset, len, chk, off, buf[..len]);
    ok := true;
  }

  lemma ProgressOff(f: File, disk: Disk, offset: nat, done: nat, left: nat, chk: nat, off: nat, got: seq<Byte>)
    requires Progress(f, disk, offset, done, left, chk, off, got) && left > 0
    ensures off < f.chunksize
  {
  }

  lemma ProgressEnd(f: File, disk: Disk, offset: nat, len: nat, chk: nat, off: nat, got: seq<Byte>)
    requires Progress(f, disk, offset, len, 0, chk, off, got)
    ensures got == Content(f, disk, offset, len)
  {
  }

  lemma ProgressStart(f: File, disk: Disk, offset: nat, len: nat)
    requires Volume(f, disk)
    ensures f.chunksize > 0 && Progress(f, disk, offset, 0, len, VolChk(f, offset), VolOff(f, offset), [])
  {
  }
}
