/** Two file requests of one session: while the first waits for its acknowledgements the second is sent, on the
    same cache and connection; acknowledgements are credited in sending order. */
module Pipelined {
  import opened Lists
  import opened CacheModel
  import opened CacheRuns
  import Cache = ChunkCache
  import opened Fio
  import opened FioRuns
  import opened Session
  import A = Ack
  import opened F = FileRequest
  import opened Serving
  import S = Sharing

  ghost function ClientOf(q: FileRequest): S.Client
    reads q, q.cce
  {
    S.Client(q.R(), q.f, q.wire)
  }

  /** The two hold their buffers and tokens side by side. */
  ghost predicate Together(a: FileRequest, b: FileRequest, disk: Disk)
    reads a, a.cce, b, b.cce, a.cache, a.cache.lists
  {
    && a != b && a.cce != b.cce && a.cache == b.cache && a.Held(disk) && b.Held(disk) && a.Settled() && b.Settled()
    && S.Shared(S.Many(a.cache.st, [ClientOf(a), ClientOf(b)]), disk)
  }

  /** A run of one of them leaves the other's buffers alone. */
  lemma OneRuns(c: Sys, ks: seq<S.Client>, i: nat, ms: seq<Move>, w: World, disk: Disk)
    requires |ks| == 2 && i < 2 && S.Shared(S.Many(c, ks), disk) && S.Settled(S.Many(c, ks)) && OwnMoves(ms)
    requires Sound(S.WorldOf(c, ks[i]), ks[i].f, disk) && RunsM(S.WorldOf(c, ks[i]), ms, w, ks[i].f, disk)
    ensures var k := S.Client(w.r, ks[i].f, w.wire); var ks' := if i == 0 then [k, ks[1]] else [ks[0], k];
      && S.Shared(S.Many(w.c, ks'), disk) && S.Settled(S.Many(w.c, ks'))
      && Sound(S.WorldOf(w.c, ks[1 - i]), ks[1 - i].f, disk) && (ks[1 - i].r.t.Some? ==> ks[1 - i].r.t.value in w.c.waits)
  {
    hide Sound, InvX, RunsM;
    S.OwnRun(S.Many(c, ks), i, ms, w, disk);
    var k := S.Client(w.r, ks[i].f, w.wire);
    var m' := S.Many(w.c, ks[i := k]);
    assert ks[i := k] == if i == 0 then [k, ks[1]] else [ks[0], k];
    assert m'.cs[1 - i] == ks[1 - i];
  }

  /** The second request is sent while the first is not acknowledged yet. */
  method WriteSecond(a: FileRequest, b: FileRequest, ghost disk: Disk) returns (err: Err, why: Outcome)
    requires Together(a, b, disk) && b.Valid(disk)
    modifies b, b.cce, b.cache, b.cache.lists, b.conn
    ensures Together(a, b, disk) && b.Valid(disk) && b.sent >= old(b.sent) && b.alen == old(b.alen) && b.freed == old(b.freed)
  {
    hide InvX, InvM, RunsM, Cache.ChunkCache.Valid, S.Shared;
    ghost var (c, ks) := (a.cache.st, [ClientOf(a), ClientOf(b)]);
    ghost var ms, w1;
    err, why, ms, w1 := b.WriteFio(disk);
    OneRuns(c, ks, 1, ms, b.W(), disk);
  }

  /** The acknowledgement of either keeps both. */
  method AckFirst(a: FileRequest, b: FileRequest, acc: A.Acct, n: nat, ghost disk: Disk) returns (r: A.Acct, rest: nat, done: bool)
    requires Together(a, b, disk) && Agree(a, acc, acc.Total())
    modifies a, a.cce, a.cache, a.cache.lists
    ensures Together(a, b, disk) && Agree(a, r, r.Total()) && a.wire == old(a.wire)
    ensures r.hdr == acc.hdr && r.body == acc.body && r.Credited() + rest == acc.Credited() + n
    ensures (done <==> r.Credited() == r.Total()) && (rest > 0 ==> done)
  {
    hide InvX, InvM, RunsM, Cache.ChunkCache.Valid, S.Shared;
    ghost var (c, ks) := (a.cache.st, [ClientOf(a), ClientOf(b)]);
    ghost var ms;
    r, rest, done, ms := AckFile(a, acc, acc.Total(), n, true, disk);
    OneRuns(c, ks, 0, ms, a.W(), disk);
  }

  method AckSecond(a: FileRequest, b: FileRequest, acc: A.Acct, ghost sent: nat, n: nat, ghost disk: Disk) returns (r: A.Acct, rest: nat, done: bool)
    requires Together(a, b, disk) && Agree(b, acc, sent) && (sent == acc.Total() || acc.Credited() + n <= sent)
    modifies b, b.cce, b.cache, b.cache.lists
    ensures Together(a, b, disk) && Agree(b, r, sent) && b.wire == old(b.wire)
    ensures r.hdr == acc.hdr && r.body == acc.body && r.Credited() + rest == acc.Credited() + n
    ensures (done <==> r.Credited() == r.Total()) && (rest > 0 ==> done)
  {
    hide InvX, InvM, RunsM, Cache.ChunkCache.Valid, S.Shared;
    ghost var (c, ks) := (a.cache.st, [ClientOf(a), ClientOf(b)]);
    ghost var ms;
    r, rest, done, ms := AckFile(b, acc, sent, n, true, disk);
    OneRuns(c, ks, 1, ms, b.W(), disk);
  }

  /** httpsess_acknowledge for a request that is sent completely and the one being sent: n more bytes are credited to
      the first up to its end and then to the second, none is left over, and the buffers of every acknowledged
      chunk, and no other, go back. */
  method Acknowledge(a: FileRequest, b: FileRequest, fst: A.Acct, snd: A.Acct, ghost sent: nat, n: nat, ghost disk: Disk)
    returns (r: A.Acct, s: A.Acct, done: bool)
    requires Together(a, b, disk) && Agree(a, fst, fst.Total()) && Agree(b, snd, sent)
    requires snd.Credited() <= sent <= snd.Total() && n <= fst.Open() + (sent - snd.Credited())
    modifies a, a.cce, b, b.cce, a.cache, a.cache.lists
    ensures Together(a, b, disk) && Agree(a, r, r.Total()) && Agree(b, s, sent)
    ensures r.Credited() + s.Credited() == fst.Credited() + snd.Credited() + n
    ensures (done <==> r.Credited() == r.Total()) && (s != snd ==> done)
  {
    hide InvX, InvM, Sound, Cache.ChunkCache.Valid, S.Shared, Pos;
    s := snd;
    var rest;
    r, rest, done := AckFirst(a, b, fst, n, disk);
    if rest > 0 {
      var left, over;
      s, left, over := AckSecond(a, b, snd, sent, rest, disk);
    }
  }

  /* ---- How two requests come together ---- */

  lemma {:induction false} SlotsOnce(cce: seq<Option<BufId>>, n: nat, id: BufId)
    requires n <= |cce| && Distinct(cce)
    ensures S.Slots(cce, n, id) <= 1
    ensures S.Slots(cce, n, id) == 1 ==> exists j :: 0 <= j < n && cce[j] == Some(id)
    decreases n
  {
    if n > 0 { SlotsOnce(cce, n - 1, id); }
  }

  /** One request alone: its references are backed. */
  lemma Alone(w: World, f: File, disk: Disk)
    requires Sound(w, f, disk) && (w.r.t.Some? ==> w.r.t.value in w.c.waits)
    ensures S.Shared(S.Many(w.c, [S.Client(w.r, f, w.wire)]), disk)
  {
    hide InvX, InvM;
    var k := S.Client(w.r, f, w.wire);
    RingOwned(w, f, disk);
    forall id: BufId ensures S.Owned([k], id) <= w.c.held[id] {
      assert [k][1..] == [];
      SlotsOnce(w.r.cce, |w.r.cce|, id);
      if S.Refs(k, id) == 1 {
        var j :| 0 <= j < |w.r.cce| && w.r.cce[j] == Some(id);
        assert Owned(w.c, w.r.cce, w.r.t, w.r.idx, j);
        OwnedHeld(w.c, w.r.cce, w.r.t, w.r.idx, j, disk);
      }
    }
    assert S.WorldOf(w.c, k) == w;
  }

  /** A second request begins while the first, sent or not, holds its buffers. */
  method Join(a: FileRequest, conn: Conn, f: File, first: nat, len: nat, sndbuf: nat, ghost disk: Disk) returns (b: FileRequest)
    requires a.Held(disk) && a.Settled() && Volume(f, disk) && len > 0
    ensures fresh(b) && fresh(b.cce) && Together(a, b, disk) && b.Valid(disk)
    ensures b.f == f && b.rfirst == first && b.rlen == len && b.sent == 0 && b.conn == conn
  {
    hide InvX, InvM, Cache.ChunkCache.Valid;
    b := new FileRequest(a.cache, conn, f, first, len, sndbuf, disk);
    Alone(a.W(), a.f, disk);
    ghost var m := S.Many(a.cache.st, [ClientOf(a)]);
    S.BeginKeeps(m, f, first, len, b.cce.Length, disk);
    assert m.cs + [S.Fresh(m.c, f, first, len, b.cce.Length)] == [ClientOf(a), ClientOf(b)];
  }
}
