/** What holds in every run of the file-serving pipeline. */
module FioRuns {
  import opened Lists
  import opened CacheModel
  import opened CacheRuns
  import opened Arith
  import opened Fio

  /** The pipeline's invariant, sealed: a proof sees inside only after asserting Look(0). */
  ghost predicate Look(k: nat) { true }

  ghost predicate Sound(w: World, f: File, disk: Disk) {
    Inv(w.c, disk) && f.chunksize > 0 && forall k: nat :: Look(k) ==> InvM(w, f, disk)
  }

  /** A move that is enabled finds the buffer it works on: no lookup of the ring comes up empty. */
  lemma MoveReady(w: World, m: Move, f: File, disk: Disk)
    requires Sound(w, f, disk) && EnabledM(w, m, f, disk)
    ensures m.Free? ==> FreeReady(w)
    ensures m.Send? ==> SendReady(w, f)
  {
    assert Look(0);
    if m.Free? { FreeSlot(w, f, disk); }
    if m.Send? { SendSource(w, m.n, f, disk); }
  }

  lemma FreeSound(w: World, m: Move, f: File, disk: Disk)
    requires Sound(w, f, disk) && EnabledM(w, m, f, disk) && m.Free? && FreeReady(w)
    ensures Sound(ApplyM(w, m, f, disk), f, disk)
  {
    var w' := FreeTo(w, (w.r.idxAck + 1) % |w.r.cce|);
    assert InvM(w', f, disk) by {
      assert Look(0);
      FreeSlot(w, f, disk);
      FreeKeeps(w, w.r.freed % |w.r.cce|, f, disk);
    }
    assert ApplyM(w, m, f, disk) == w';
  }

  lemma AskSound(w: World, m: Move, f: File, disk: Disk)
    requires Sound(w, f, disk) && EnabledM(w, m, f, disk) && m.Ask?
    ensures Sound(ApplyM(w, m, f, disk), f, disk)
  {
    hide Aread;
    assert Look(0);
    AskKeeps(w, m.dts, m.ct, f, disk);
  }

  lemma SendSound(w: World, m: Move, f: File, disk: Disk)
    requires Sound(w, f, disk) && EnabledM(w, m, f, disk) && m.Send? && SendReady(w, f)
    ensures Sound(ApplyM(w, m, f, disk), f, disk)
  {
    assert Look(0);
    SendKeeps(w, m.n, f, disk);
  }

  lemma OtherSound(w: World, m: Move, f: File, disk: Disk)
    requires Sound(w, f, disk) && EnabledM(w, m, f, disk) && m.Other?
    ensures Sound(ApplyM(w, m, f, disk), f, disk)
  {
    assert Look(0);
    OtherKeeps(w, m.p, f, disk);
  }

  lemma ClientSound(w: World, m: Move, f: File, disk: Disk)
    requires Sound(w, f, disk) && EnabledM(w, m, f, disk) && (m.Callback? || m.Ack?)
    ensures Sound(ApplyM(w, m, f, disk), f, disk)
  {
    assert Look(0);
    if m.Callback? { CallbackKeeps(w, f, disk); } else { AckKeeps(w, m.n, f, disk); }
  }

  /** Every move of the pipeline, the device and the cache's other clients keeps the invariant. */
  lemma MoveKeeps(w: World, m: Move, f: File, disk: Disk)
    requires Sound(w, f, disk) && EnabledM(w, m, f, disk)
    requires m.Free? ==> FreeReady(w)
    requires m.Send? ==> SendReady(w, f)
    ensures Sound(ApplyM(w, m, f, disk), f, disk)
  {
    match m
    case Ask(_, _) => AskSound(w, m, f, disk);
    case Send(_) => SendSound(w, m, f, disk);
    case Free => FreeSound(w, m, f, disk);
    case Other(_) => OtherSound(w, m, f, disk);
    case _ => ClientSound(w, m, f, disk);
  }

  /** The request as httpreq_fio_init leaves it, with n buffer slots. */
  function Start(c: Sys, rfirst: nat, rlen: nat, n: nat): World
    requires n > 0
  {
    World(c, Req(rfirst, rlen, 0, 0, seq(n, _ => None), None, 0, n - 1, 0), [])
  }

  lemma StartInv(c: Sys, rfirst: nat, rlen: nat, n: nat, f: File, disk: Disk)
    requires Inv(c, disk) && Volume(f, disk) && rlen > 0 && n >= 2
    ensures Sound(Start(c, rfirst, rlen, n), f, disk)
  {
    var w := Start(c, rfirst, rlen, n);
    assert f.offset + rfirst + 0 == f.offset + rfirst;
    DivUnique(0, n, 0, 0);
    DivUnique(n - 1, n, 0, n - 1);
    forall p | 0 <= p < n ensures RingOk(w, f, p) { DivUnique(p, n, 0, p); }
  }

  /** w' is what a run of moves, each enabled where it is made, makes of w. */
  ghost predicate RunsM(w: World, ms: seq<Move>, w': World, f: File, disk: Disk)
    requires Sound(w, f, disk)
    decreases |ms|
  {
    if ms == [] then w' == w
    else
      && EnabledM(w, ms[0], f, disk)
      && (MoveReady(w, ms[0], f, disk); MoveKeeps(w, ms[0], f, disk);
          RunsM(ApplyM(w, ms[0], f, disk), ms[1..], w', f, disk))
  }

  lemma {:induction false} RunKeepsM(w: World, ms: seq<Move>, w': World, f: File, disk: Disk)
    requires Sound(w, f, disk) && RunsM(w, ms, w', f, disk)
    ensures Sound(w', f, disk) && w'.r.rfirst == w.r.rfirst && w'.r.rlen == w.r.rlen && |w'.r.cce| == |w.r.cce|
    decreases |ms|
  {
    if ms != [] {
      MoveReady(w, ms[0], f, disk);
      MoveKeeps(w, ms[0], f, disk);
      RunKeepsM(ApplyM(w, ms[0], f, disk), ms[1..], w', f, disk);
    }
  }

  lemma {:induction false} RunsAppendM(w: World, ms: seq<Move>, w1: World, m: Move, f: File, disk: Disk)
    requires Sound(w, f, disk) && RunsM(w, ms, w1, f, disk) && Sound(w1, f, disk) && EnabledM(w1, m, f, disk)
    requires m.Free? ==> FreeReady(w1)
    requires m.Send? ==> SendReady(w1, f)
    ensures RunsM(w, ms + [m], ApplyM(w1, m, f, disk), f, disk)
    decreases |ms|
  {
    if ms == [] {
      MoveKeeps(w, m, f, disk);
      assert ([m])[1..] == [];
    } else {
      MoveReady(w, ms[0], f, disk);
      MoveKeeps(w, ms[0], f, disk);
      RunsAppendM(ApplyM(w, ms[0], f, disk), ms[1..], w1, m, f, disk);
      assert (ms + [m])[1..] == ms[1..] + [m];
    }
  }

  /** Body exactness: in every run of a request, the bytes handed to TCP are a prefix of the
      requested bytes of the file, and all of them once sent has reached rlen. */
  lemma BodyExact(c: Sys, rfirst: nat, rlen: nat, n: nat, ms: seq<Move>, w: World, f: File, disk: Disk)
    requires Inv(c, disk) && Volume(f, disk) && rlen > 0 && n >= 2
    requires Sound(Start(c, rfirst, rlen, n), f, disk) && RunsM(Start(c, rfirst, rlen, n), ms, w, f, disk)
    ensures w.wire <= Content(f, disk, rfirst, rlen) && |w.wire| == w.r.sent
    ensures w.r.sent == rlen ==> w.wire == Content(f, disk, rfirst, rlen)
  {
    RunKeepsM(Start(c, rfirst, rlen, n), ms, w, f, disk);
    assert Look(0);
    ContentSplit(f, rfirst, w.r.sent, rlen - w.r.sent, disk);
  }

  /** The ring slot of request byte x. */
  function SlotOf(w: World, f: File, x: nat): nat
    requires f.chunksize > 0 && |w.r.cce| > 0
  {
    Pos(f, w.r.rfirst, x) % |w.r.cce|
  }

  lemma BytePos(f: File, rfirst: nat, x: nat)
    requires f.chunksize > 0
    ensures VolChk(f, rfirst + x) == VolChk(f, rfirst) + Pos(f, rfirst, x)
  {
    assert f.offset + (rfirst + x) == f.offset + rfirst + x;
  }

  lemma ByteHeld(w: World, x: nat, f: File, disk: Disk)
    requires InvM(w, f, disk) && w.r.alen <= x < w.r.sent
    ensures Holding(w, f, Pos(f, w.r.rfirst, x))
  {
    var r := w.r;
    PosMonotone(f, r.rfirst, r.alen, x);
    PosMonotone(f, r.rfirst, x, r.sent - 1);
    assert RingOk(w, f, Pos(f, r.rfirst, x));
  }

  /** Zero-copy window safety: a byte that was sent and is not yet acknowledged lies, unchanged, in
      the buffer in its chunk's ring slot, and the request still references that buffer. */
  lemma WindowSafe(w: World, x: nat, f: File, disk: Disk)
    requires InvM(w, f, disk) && w.r.alen <= x < w.r.sent
    ensures var s := w.r.cce[SlotOf(w, f, x)];
      && s.Some? && s.value < |w.c.ent|
      && var e := w.c.ent[s.value];
         && w.c.held[s.value] > 0 && e.refcount > 0 && e.t.None?
         && e.addr == VolChk(f, w.r.rfirst + x) && |e.buf| == f.chunksize
         && w.wire[x] == e.buf[VolOff(f, w.r.rfirst + x)]
  {
    ByteHeld(w, x, f, disk);
    BytePos(f, w.r.rfirst, x);
    MineLoaded(w.c, w.r.cce[SlotOf(w, f, x)].value, disk);
  }

  /** The address check of httpreq_ack_fio never fails: the loop turns to the buffer of the next
      chunk in order. */
  lemma AckInOrder(w: World, f: File, disk: Disk)
    requires InvM(w, f, disk) && EnabledM(w, Free, f, disk)
    ensures var s := w.r.cce[(w.r.idxAck + 1) % |w.r.cce|];
      s.Some? && s.value < |w.c.ent| && w.c.ent[s.value].addr == VolChk(f, w.r.rfirst) + w.r.freed
  {
    FreeSlot(w, f, disk);
  }

  /** When the current slot still holds another chunk, the whole ring is full of chunks with bytes
      the client has not acknowledged or that wait to be released: the pipeline is never stuck
      without an acknowledgement or a release being due. */
  lemma StallIsWindowFull(w: World, f: File, disk: Disk)
    requires InvM(w, f, disk) && w.r.sent < w.r.rlen && w.r.cce[w.r.idx].Some?
    requires w.r.cce[w.r.idx].value < |w.c.ent|
    requires w.c.ent[w.r.cce[w.r.idx].value].addr != VolChk(f, w.r.rfirst + w.r.sent)
    ensures Touched(f, w.r) == w.r.freed + |w.r.cce|
    ensures w.r.alen < w.r.sent || EnabledM(w, Free, f, disk)
  {
    var r := w.r;
    CurTouched(f, r);
    CurChk(f, r);
    assert Cur(f, r) < r.freed + |r.cce| ==> RingOk(w, f, Cur(f, r));
  }
}
