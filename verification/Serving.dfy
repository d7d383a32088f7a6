/** A file request as the session serves it (http.c): header, file body and footer on one connection, and
    the acknowledgements that retire its buffers. */
module Serving {
  import opened Lists
  import opened CacheModel
  import opened CacheRuns
  import Cache = ChunkCache
  import opened Fio
  import opened FioRuns
  import opened Session
  import A = Ack
  import Range
  import opened F = FileRequest

  /* ---- Acknowledgements ---- */

  /** Body bytes among the first sent bytes of a response. */
  function BodySent(a: A.Acct, sent: nat): nat {
    if sent <= a.hdr then 0 else if sent <= a.hdr + a.body then sent - a.hdr else a.body
  }

  /** Crediting in order never credits a body byte that was not sent. */
  lemma BodyWithinSent(a: A.Acct, r: A.Acct, sent: nat, n: nat, rest: nat)
    requires r.InOrder() && r.hdr == a.hdr && r.body == a.body && r.Credited() + rest == a.Credited() + n
    requires sent == a.Total() || a.Credited() + n <= sent
    ensures r.bodyAcked <= BodySent(a, sent)
  {
  }

  /** The account of a request and the request itself agree; sent counts all bytes of its response. */
  ghost predicate Agree(req: FileRequest, a: A.Acct, sent: nat)
    reads req
  {
    && a.InOrder() && a.body == req.rlen && a.bodyAcked == req.alen && req.sent == BodySent(a, sent)
    && req.freed == (if req.f.chunksize > 0 then Pos(req.f, req.rfirst, req.alen) else 0)
  }

  /** httpreq_acknowledge for a file: a request that is sent completely is credited what it still expects,
      the one being sent no more than was sent.  The buffers of the acknowledged chunks go back. */
  method AckFile(req: FileRequest, a: A.Acct, ghost sent: nat, n: nat, keepalive: bool, ghost disk: Disk)
    returns (r: A.Acct, rest: nat, done: bool, ghost ms: seq<Move>)
    requires req.Held(disk) && Agree(req, a, sent) && (sent == a.Total() || a.Credited() + n <= sent)
    modifies req, req.cce, req.cache, req.cache.lists
    ensures req.Held(disk) && Agree(req, r, sent) && RunsM(old(req.W()), ms, req.W(), req.f, disk) && OwnMoves(ms)
    ensures req.sent == old(req.sent) && req.wire == old(req.wire) && req.t == old(req.t) && (old(req.Settled()) ==> req.Settled())
    ensures r.InOrder() && r.hdr == a.hdr && r.body == a.body && r.Credited() + rest == a.Credited() + n
    ensures keepalive ==> (done <==> r.Credited() == r.Total()) && (rest > 0 ==> done)
    ensures !keepalive ==> done && r.ftrAcked == a.ftrAcked && (rest > 0 ==> r.hdrAcked + r.bodyAcked == r.hdr + r.body)
  {
    hide RunsM, Cache.ChunkCache.Valid, InvM, InvX;
    r, rest, done := A.AckReq(a, n, keepalive);
    BodyWithinSent(a, r, sent, n, rest);
    ms := req.Acknowledge(r.bodyAcked - a.bodyAcked, disk);
  }

  /** The buffer of request byte x, which the client has not acknowledged, is among those the request gives
      back when it is closed. */
  ghost predicate Releases(w: World, f: File, x: nat) {
    && w.r.alen <= x < w.r.sent && f.chunksize > 0 && |w.r.cce| > 0
    && var s := w.r.cce[SlotOf(w, f, x)];
       s.Some? && s.value < |w.c.ent| && w.c.ent[s.value].addr == VolChk(f, w.r.rfirst + x)
  }

  /** Closing a request gives back a buffer with unacknowledged bytes exactly when there are any. */
  lemma CloseExact(w: World, f: File, disk: Disk)
    requires Sound(w, f, disk)
    ensures (exists x :: Releases(w, f, x)) <==> w.r.alen < w.r.sent
  {
    assert Look(0);
    if w.r.alen < w.r.sent {
      WindowSafe(w, w.r.alen, f, disk);
      assert Releases(w, f, w.r.alen);
    }
  }

  /** On a session without keep-alive the first acknowledgement of a completely sent file reports it done, and
      the session closes it: a buffer that TCP still needs is given back exactly when the acknowledgement does
      not reach the end of the body. */
  method AckThenDone(req: FileRequest, a: A.Acct, n: nat, ghost disk: Disk) returns (r: A.Acct, done: bool, ghost ms: seq<Move>)
    requires req.Held(disk) && Agree(req, a, a.Total()) && a.ftrAcked == 0
    modifies req, req.cce, req.cache, req.cache.lists
    ensures req.Held(disk) && RunsM(old(req.W()), ms, req.W(), req.f, disk) && done
    ensures req.sent == old(req.sent) && req.t == old(req.t) && (old(req.Settled()) ==> req.Settled())
    ensures (exists x :: Releases(req.W(), req.f, x)) <==> a.Credited() + n < a.hdr + a.body
  {
    hide Sound, RunsM, Cache.ChunkCache.Valid;
    var rest;
    BodyNotEmpty(req.W(), req.f, disk);
    r, rest, done, ms := AckFile(req, a, a.Total(), n, false, disk);
    CloseExact(req.W(), req.f, disk);
  }

  lemma BodyNotEmpty(w: World, f: File, disk: Disk)
    requires Sound(w, f, disk)
    ensures w.r.rlen > 0
  {
    assert Look(0);
  }

  /* ---- The response ---- */

  /** The file body of a request, written by the pipeline, is its part of the file. */
  lemma BodyOf(w: World, f: File, disk: Disk)
    requires Sound(w, f, disk)
    ensures Volume(f, disk) && w.r.sent <= w.r.rlen && w.wire == Content(f, disk, w.r.rfirst, w.r.sent)
  {
    assert Look(0);
  }

  /** The header and a first part of the body, of a message of header, body and footer. */
  lemma EmitsFront(o: seq<Byte>, h: seq<Byte>, c: seq<Byte>, d: seq<Byte>, f: seq<Byte>, out: seq<Byte>)
    requires out == o + h + c
    ensures Emits(o, h + (c + d) + f, 0, |h| + |c|, out)
  {
    var m := h + (c + d) + f;
    assert m == (h + c) + (d + f);
    assert m[0..|h| + |c|] == h + c;
    assert o + h + c == o + (h + c);
  }

  /** Header, file body and footer of one response; req exists from the message phase on. */
  class FileReply {
    const cache: Cache.ChunkCache
    const conn: Conn
    const f: File
    const rfirst: nat
    const rlen: nat
    const sndbuf: nat
    const hdr: Hdr
    const ftr: seq<Byte>
    var req: FileRequest?
    var phase: Phase
    var sent: nat               // in the header and footer phases
    ghost const start: seq<Byte>

    /** What TCP is to get. */
    ghost function Message(disk: Disk): seq<Byte>
      requires Volume(f, disk)
    {
      hdr.Bytes() + Content(f, disk, rfirst, rlen) + ftr
    }

    /** How much of it TCP got. */
    ghost function Done(): nat
      reads this, req
    {
      match phase
      case RespondingHdr => sent
      case RespondingMsg => |hdr.Bytes()| + if req == null then 0 else req.sent
      case RespondingEom => |hdr.Bytes()| + rlen + sent
    }

    /** The request behind the message: its buffers are held until it is closed, its token has been called back
        or waits, and the buffers of the acknowledged chunks are given back. */
    ghost predicate Requested(disk: Disk)
      reads this, req, if req != null then {req.cce} else {}, cache, cache.lists
    {
      && req != null && req.cache == cache && req.conn == conn && req.f == f && req.rfirst == rfirst && req.rlen == rlen
      && req.Held(disk) && req.Settled() && req.base == start + hdr.Bytes()
      && f.chunksize > 0 && req.freed == Pos(f, rfirst, req.alen)
    }

    /** Body bytes acknowledged. */
    ghost function Alen(): nat
      reads this, req
    {
      if req == null then 0 else req.alen
    }

    ghost predicate Valid(disk: Disk)
      reads this, req, if req != null then {req.cce} else {}, cache, cache.lists, conn
    {
      && Volume(f, disk) && rlen > 0 && cache.Valid() && Inv(cache.st, disk)
      && Emits(start, Message(disk), 0, Done(), conn.out)
      && (phase.RespondingHdr? ==> sent <= |hdr.Bytes()| && req == null)
      && (phase.RespondingMsg? ==> Requested(disk) && conn.out == req.base + req.wire)
      && (phase.RespondingEom? ==> Requested(disk) && req.sent == rlen && sent <= |ftr|)
    }

    /** All of the response is on the connection. */
    predicate Served()
      reads this
    {
      phase == RespondingEom && sent == |ftr|
    }

    constructor (cache0: Cache.ChunkCache, conn0: Conn, f0: File, first: nat, len: nat, sndbuf0: nat, h: Hdr, footer: seq<Byte>, ghost disk: Disk)
      requires cache0.Valid() && Inv(cache0.st, disk) && Volume(f0, disk) && len > 0
      ensures Valid(disk) && cache == cache0 && conn == conn0 && f == f0 && rfirst == first && rlen == len && hdr == h && ftr == footer
      ensures start == conn0.out && phase == RespondingHdr && sent == 0
    {
      cache, conn, f, rfirst, rlen, sndbuf, hdr, ftr := cache0, conn0, f0, first, len, sndbuf0, h, footer;
      req, phase, sent, start := null, RespondingHdr, 0, conn0.out;
    }

    method HdrPhase(ghost disk: Disk) returns (err: Err, more: bool)
      requires Valid(disk) && phase == RespondingHdr
      modifies this, conn
      ensures Valid(disk) && old(conn.out) <= conn.out
      ensures req == old(req) || (req != null && fresh(req) && fresh(req.cce))
      ensures Alen() == old(Alen()) && Done() >= old(Done())
      ensures if more then phase == RespondingMsg else phase == RespondingHdr
      ensures !more && err == Fine ==> conn.sndbuf == 0
      ensures conn.Answered(old(|conn.tried|), err)
    {
      hide Cache.ChunkCache.Valid, Inv, Sound, Conn.Answered;
      var n := sent;
      more := false;
      ghost var body := Content(f, disk, rfirst, rlen);
      err, sent := conn.WriteHdr(hdr, sent);
      EmitsPart(old(conn.out), [], hdr.Bytes(), body + ftr, n, sent, conn.out);
      assert Message(disk) == [] + hdr.Bytes() + (body + ftr);
      EmitsPrefix(old(conn.out), Message(disk), n, sent, start, conn.out);
      if err != Fatal && sent == |hdr.Bytes()| {
        assert conn.out == start + hdr.Bytes() by { assert Message(disk)[0..sent] == hdr.Bytes(); }
        phase, more := RespondingMsg, true;
        req := new FileRequest(cache, conn, f, rfirst, rlen, sndbuf, disk);
        assert f.offset + rfirst + 0 == f.offset + rfirst;
      }
    }

    /** The message phase of a file: the pipeline's writes. */
    method MsgPhase(ghost disk: Disk) returns (err: Err, why: Outcome)
      requires Valid(disk) && phase == RespondingMsg
      modifies this, conn, cache, cache.lists, req, req.cce
      ensures Valid(disk) && old(conn.out) <= conn.out && req == old(req) && req.sent >= old(req.sent)
      ensures Alen() == old(Alen()) && Done() >= old(Done())
      ensures old(MaySend(req.W(), f, 0)) ==> req.sent > old(req.sent) || why == Refused
      ensures (why == Complete <==> phase == RespondingEom && sent == 0) && (why != Complete ==> phase == RespondingMsg)
      ensures (why == Complete ==> err == Fine) && (why == Broken ==> err == Fatal)
      ensures why == Refused && err == Fine ==> conn.sndbuf == 0
      ensures conn.Answered(old(|conn.tried|), if why == Broken then Fine else err)
      ensures why == Pending ==> req.t.Some?
    {
      hide Cache.ChunkCache.Valid, InvX, InvM, RunsM, EnabledM, ApplyM, Wants, Conn.Answered, Hopeless;
      ghost var n := Done();
      ghost var ms, w1;
      err, why, ms, w1 := req.WriteFio(disk);
      BodyOf(req.W(), f, disk);
      BodyEmits(disk, req.sent);
      if why == Complete { phase, sent := RespondingEom, 0; }
      assert Message(disk)[0..n] <= Message(disk)[0..Done()];
    }

    lemma BodyEmits(disk: Disk, k: nat)
      requires Volume(f, disk) && k <= rlen && conn.out == start + hdr.Bytes() + Content(f, disk, rfirst, k)
      ensures Emits(start, Message(disk), 0, |hdr.Bytes()| + k, conn.out)
    {
      hide Content, Volume, Emits;
      ContentSplit(f, rfirst, k, rlen - k, disk);
      EmitsFront(start, hdr.Bytes(), Content(f, disk, rfirst, k), Content(f, disk, rfirst + k, rlen - k), ftr, conn.out);
    }

    method EomPhase(ghost disk: Disk) returns (err: Err)
      requires Valid(disk) && phase == RespondingEom
      modifies this, conn
      ensures Valid(disk) && old(conn.out) <= conn.out && phase == RespondingEom && req == old(req)
      ensures Alen() == old(Alen()) && Done() >= old(Done()) && (req != null ==> req.sent == old(req.sent))
      ensures err == Fine && sent < |ftr| ==> conn.sndbuf == 0
      ensures conn.Answered(old(|conn.tried|), err)
    {
      hide Cache.ChunkCache.Valid, Inv, Sound;
      var n := sent;
      ghost var front := hdr.Bytes() + Content(f, disk, rfirst, rlen);
      err, sent := conn.WriteBuf(ftr, sent);
      EmitsPart(old(conn.out), front, ftr, [], n, sent, conn.out);
      assert Message(disk) == front + ftr + [];
      EmitsPrefix(old(conn.out), Message(disk), |front| + n, |front| + sent, start, conn.out);
    }

    /** httpsess_respond for a file: at every return TCP has got a prefix of the header, the requested bytes of
        the file and the footer, and all of it when the last phase is through.  Without an error it returns
        early only at a full send buffer or for one of the reasons of the pipeline. */
    method Respond(ghost disk: Disk) returns (err: Err, why: Outcome)
      requires Valid(disk)
      modifies this, conn, cache, cache.lists, req, if req != null then {req.cce} else {}
      ensures Valid(disk) && old(conn.out) <= conn.out
      ensures req == old(req) || (req != null && fresh(req) && fresh(req.cce))
      ensures Alen() == old(Alen()) && Done() >= old(Done())
      ensures Served() ==> conn.out == start + Message(disk)
      ensures why == Pending && err == Fine ==> phase == RespondingMsg && req.t.Some?
      ensures err == Fine && !Served() ==> conn.sndbuf == 0 || (phase == RespondingMsg && why in {Retry, Pending, WindowFull})
      ensures conn.Answered(old(|conn.tried|), if why == Broken then Fine else err)
    {
      hide Cache.ChunkCache.Valid, Inv, Sound;
      err, why := Fine, Complete;
      if phase == RespondingHdr {
        var more;
        err, more := HdrPhase(disk);
        if !more { return; }
      }
      if phase == RespondingMsg {
        err, why := MsgPhase(disk);
        if why != Complete { return; }
      }
      err := EomPhase(disk);
      assert sent == |ftr| ==> Message(disk)[0..Done()] == Message(disk);
    }

    /** A read of the device ends.  When it is the one this response waits for, httpreq_fio_aiocb calls the request
        back and goes on responding; with the chunk there, at least a byte of it goes out unless TCP refuses. */
    method Completed(dt: Tok, ret: int, ghost disk: Disk) returns (called: bool, err: Err, why: Outcome)
      requires Valid(disk) && Enabled(cache.st, DoComplete(dt, ret), disk)
      modifies this, conn, cache, cache.lists, req, if req != null then {req.cce} else {}
      ensures Valid(disk) && old(conn.out) <= conn.out && req == old(req)
      ensures Alen() == old(Alen()) && Done() >= old(Done())
      ensures Served() ==> conn.out == start + Message(disk)
      ensures called <==> req != null && old(req.t.Some? && cache.st.dev[dt].buf == cache.st.waits[req.t.value])
      ensures called ==> old(phase) == RespondingMsg
      ensures called && ret >= 0 ==> req.sent > old(req.sent) || why == Refused
      ensures !called ==> conn.out == old(conn.out) && phase == old(phase) && sent == old(sent)
      ensures conn.Answered(old(|conn.tried|), if why == Broken then Fine else err)
    {
      hide Cache.ChunkCache.Valid, InvX, InvM, RunsM, EnabledM, ApplyM, Enabled, Apply, MaySend;
      called, err, why := false, Fine, Complete;
      if req == null {
        cache.AioCallback(dt, ret, disk);
      } else {
        ghost var ms;
        NoToken(req.W(), f, disk);
        called, ms := req.Completed(dt, ret, disk);
        assert called ==> phase == RespondingMsg;  // BUG_ON
        BodyOf(req.W(), f, disk);
        if called { err, why := Continue(disk); }
      }
      assert Served() ==> Message(disk)[0..Done()] == Message(disk);
    }

    /** Once everything is sent no read is awaited. */
    lemma NoToken(w: World, f: File, disk: Disk)
      requires Sound(w, f, disk)
      ensures w.r.sent == w.r.rlen ==> w.r.t.None?
    {
      assert Look(0);
      CurTouched(f, w.r);
    }

    /** The message phase and, when it is through, the footer. */
    method Continue(ghost disk: Disk) returns (err: Err, why: Outcome)
      requires Valid(disk) && phase == RespondingMsg
      modifies this, conn, cache, cache.lists, req, req.cce
      ensures Valid(disk) && old(conn.out) <= conn.out && req == old(req) && req.sent >= old(req.sent)
      ensures Alen() == old(Alen()) && Done() >= old(Done())
      ensures old(MaySend(req.W(), f, 0)) ==> req.sent > old(req.sent) || why == Refused
      ensures why == Pending && err == Fine ==> phase == RespondingMsg && req.t.Some?
      ensures err == Fine && !Served() ==> conn.sndbuf == 0 || (phase == RespondingMsg && why in {Retry, Pending, WindowFull})
      ensures conn.Answered(old(|conn.tried|), if why == Broken then Fine else err)
    {
      hide Cache.ChunkCache.Valid, Inv, Sound, MaySend;
      err, why := MsgPhase(disk);
      if why == Complete { err := EomPhase(disk); }
    }

    /** The account of the response: what its parts are, and what of the body is acknowledged. */
    ghost predicate Books(a: A.Acct)
      reads this, req
    {
      && a.InOrder() && a.hdr == |hdr.Bytes()| && a.body == rlen && |ftr| == A.FTR
      && a.Credited() <= Done() && a.bodyAcked == Alen()
    }

    /** httpreq_acknowledge in any phase, and after the response is on the connection: of a response that is sent
        completely the rest goes to the next one. */
    method Acked(a: A.Acct, n: nat, keepalive: bool, ghost disk: Disk) returns (r: A.Acct, rest: nat, done: bool)
      requires Valid(disk) && Books(a) && (Served() || a.Credited() + n <= Done())
      modifies req, if req != null then {req.cce} else {}, cache, cache.lists
      ensures Valid(disk) && Books(r) && r.Credited() + rest == a.Credited() + n
      ensures keepalive ==> (done <==> r.Credited() == r.Total()) && (rest > 0 ==> done)
      ensures !keepalive ==> done && r.ftrAcked == a.ftrAcked && (rest > 0 ==> r.hdrAcked + r.bodyAcked == r.hdr + r.body)
    {
      hide Cache.ChunkCache.Valid, InvX, InvM, RunsM;
      if req == null {
        r, rest, done := A.AckReq(a, n, keepalive);
      } else {
        ghost var ms;
        BodyOf(req.W(), f, disk);
        r, rest, done, ms := AckFile(req, a, Done(), n, keepalive, disk);
      }
    }
  }

  /** A completely sent response without keep-alive: the next acknowledgement reports it done, and it is closed.
      Every reference of the request goes back; a buffer TCP still needs is among them exactly when the
      acknowledgement does not reach the end of the body. */
  method CloseServed(reply: FileReply, a: A.Acct, n: nat, ghost disk: Disk) returns (r: A.Acct, ghost w: World)
    requires reply.Valid(disk) && reply.Served() && reply.Books(a) && a.ftrAcked == 0
    modifies reply.req, reply.req.cce, reply.cache, reply.cache.lists
    ensures reply.cache.Valid() && Inv(reply.cache.st, disk)
    ensures Sound(w, reply.f, disk) && reply.cache.st.held + Ids(w.r.cce, |w.r.cce|) == w.c.held
    ensures (exists x :: Releases(w, reply.f, x)) <==> a.Credited() + n < a.hdr + a.body
  {
    hide Cache.ChunkCache.Valid, InvX, InvM, RunsM, Ids, Releases;
    ghost var ms;
    var done;
    r, done, ms := AckThenDone(reply.req, a, n, disk);
    w := reply.req.W();
    reply.req.Close(disk);
  }

  /** From the request to its end: as long as the response is not on the connection the session waits for the
      device or for TCP; then acknowledgements are credited, and the request is closed. */
  method Lifecycle(cache: Cache.ChunkCache, conn: Conn, f: File, first: nat, len: nat, sndbuf: nat, hdr: Hdr, ftr: seq<Byte>,
                   n: nat, m: nat, ghost disk: Disk) returns (served: bool)
    requires cache.Valid() && Inv(cache.st, disk) && Volume(f, disk) && len > 0 && |ftr| == A.FTR
    modifies cache, cache.lists, conn
    ensures cache.Valid() && Inv(cache.st, disk) && old(conn.out) <= conn.out
    ensures served ==> conn.out == old(conn.out) + (hdr.Bytes() + Content(f, disk, first, len) + ftr)
  {
    hide Cache.ChunkCache.Valid, InvX, Sound, Ids, Releases;
    var reply := new FileReply(cache, conn, f, first, len, sndbuf, hdr, ftr, disk);
    var err, why := reply.Respond(disk);
    served := reply.Served();
    if !served { return; }
    var a := A.Acct(|hdr.Bytes()|, len, 0, 0, 0);
    if n <= |hdr.Bytes()| + len {
      var rest, done;
      a, rest, done := reply.Acked(a, n, true, disk);
    }
    if a.ftrAcked == 0 {
      ghost var w;
      a, w := CloseServed(reply, a, m, disk);
    }
  }

  /* ---- Ranges ---- */

  /** The bytes of the file, up to byte k, that a request asks for. */
  ghost function Wanted(f: File, disk: Disk, fsize: nat, w: Range.Wanted, k: nat): seq<Byte>
    requires Volume(f, disk)
  {
    if k == 0 then []
    else Wanted(f, disk, fsize, w, k - 1) + if Range.Asked(fsize, w, k - 1) then Content(f, disk, k - 1, 1) else []
  }

  lemma {:induction false} WantedIs(f: File, disk: Disk, fsize: nat, w: Range.Wanted, a: nat, b: nat, k: nat)
    requires Volume(f, disk) && a <= b && forall i: nat :: Range.Asked(fsize, w, i) <==> a <= i <= b
    ensures Wanted(f, disk, fsize, w, k) == Content(f, disk, a, if k <= a then 0 else if k <= b then k - a else b + 1 - a)
    decreases k
  {
    hide Range.Asked, Content, Volume;
    if k == 0 {
      assert Content(f, disk, a, 0) == [];
    } else {
      WantedIs(f, disk, fsize, w, a, b, k - 1);
      assert Range.Asked(fsize, w, k - 1) <==> a <= k - 1 <= b;
      if a <= k - 1 <= b { ContentSplit(f, a, k - 1 - a, 1, disk); }
    }
  }

  /** The body of an answered request on a file that is not empty is exactly the bytes it asks for. */
  lemma RangeBody(f: File, disk: Disk, fsize: Range.Word, w: Range.Wanted)
    requires Volume(f, disk) && fsize > 0 && Range.Build(fsize, w).code != 416
    ensures var r := Range.Build(fsize, w); r.rlen > 0 && Content(f, disk, r.rfirst, r.rlen) == Wanted(f, disk, fsize, w, fsize)
  {
    var r := Range.Build(fsize, w);
    Range.AnswersAsked(fsize, w);
    WantedIs(f, disk, fsize, w, r.rfirst, r.rlast, fsize);
  }

  /** A file request with its range header: when all is sent, TCP got the header, the bytes asked for and the
      footer. */
  method ServeRange(cache: Cache.ChunkCache, conn: Conn, f: File, fsize: Range.Word, w: Range.Wanted, sndbuf: nat, hdr: Hdr, ftr: seq<Byte>, ghost disk: Disk)
    returns (reply: FileReply, err: Err, why: Outcome)
    requires cache.Valid() && Inv(cache.st, disk) && Volume(f, disk) && fsize > 0 && Range.Build(fsize, w).code != 416
    modifies cache, cache.lists, conn
    ensures fresh(reply) && reply.Valid(disk) && reply.cache == cache && reply.conn == conn && reply.start == old(conn.out)
    ensures reply.Message(disk) == hdr.Bytes() + Wanted(f, disk, fsize, w, fsize) + ftr
    ensures reply.Served() ==> conn.out == old(conn.out) + reply.Message(disk)
  {
    hide Cache.ChunkCache.Valid, InvX, Sound, Wanted;
    RangeBody(f, disk, fsize, w);
    var r := Range.Build(fsize, w);
    reply := new FileReply(cache, conn, f, r.rfirst, r.rlen, sndbuf, hdr, ftr, disk);
    err, why := reply.Respond(disk);
  }
}
