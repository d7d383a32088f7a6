/** What stays in the cache, and what leaves it: the available list is a queue, filled at its end by releases
    and loads and taken from at its front. */
module CacheRetention {
  import opened Lists
  import opened CacheModel
  import opened CacheProofs
  import opened CacheRuns
  import opened Arith

  /* ---- The order of eviction ---- */

  /** The number of entries ahead of x on the list whose I/O has completed. */
  ghost function Ahead(l: seq<BufId>, ent: seq<Entry>, x: BufId): nat
    requires Below(l, |ent|)
  {
    if l == [] || l[0] == x then 0 else (if ent[l[0]].t.None? then 1 else 0) + Ahead(l[1..], ent, x)
  }

  /** The number of buffers that are used for new chunks before x is. */
  ghost function Depth(s: Sys, x: BufId): nat
    requires Shape(s)
  {
    |s.free| + Ahead(s.alist, s.ent, x)
  }

  /** The number of buffers that can be used for new chunks. */
  ghost function Room(s: Sys): nat
    requires Shape(s)
  {
    Depth(s, |s.ent|)
  }

  lemma {:induction false} AheadAppend(l: seq<BufId>, ent: seq<Entry>, y: BufId, x: BufId)
    requires Below(l + [y], |ent|) && Below(l, |ent|)
    ensures Ahead(l + [y], ent, x) >= Ahead(l, ent, x)
  {
    if l != [] && l[0] != x {
      assert (l + [y])[1..] == l[1..] + [y];
      AheadAppend(l[1..], ent, y, x);
    }
  }

  lemma {:induction false} AheadRemove(l: seq<BufId>, ent: seq<Entry>, v: BufId, x: BufId)
    requires Below(l, |ent|) && v < |ent| && v != x
    ensures Below(Remove(l, v), |ent|)
    ensures Ahead(Remove(l, v), ent, x) >= Ahead(l, ent, x) - if ent[v].t.None? then 1 else 0
  {
    if l != [] && l[0] != v {
      AheadRemove(l[1..], ent, v, x);
      assert ([l[0]] + Remove(l[1..], v))[1..] == Remove(l[1..], v);
    }
  }

  lemma {:induction false} AheadSame(l: seq<BufId>, ent: seq<Entry>, ent': seq<Entry>, x: BufId)
    requires Below(l, |ent|) && |ent'| == |ent| && forall i :: 0 <= i < |l| ==> ent'[l[i]].t == ent[l[i]].t
    ensures Ahead(l, ent', x) == Ahead(l, ent, x)
  {
    if l != [] { AheadSame(l[1..], ent, ent', x); }
  }

  /** Whatever has an idle entry ahead is not the victim; without one, nothing but x can be. */
  lemma {:induction false} VictimAhead(l: seq<BufId>, ent: seq<Entry>, x: BufId)
    requires Below(l, |ent|)
    ensures Ahead(l, ent, x) > 0 ==> FirstIdle(l, ent).Some? && FirstIdle(l, ent) != Some(x)
    ensures Ahead(l, ent, x) == 0 ==> FirstIdle(l, ent).None? || x in l
    ensures Ahead(l, ent, x) == 0 && x in l && x < |ent| && ent[x].t.None? ==> FirstIdle(l, ent) == Some(x)
  {
    if l != [] && l[0] != x { VictimAhead(l[1..], ent, x); }
  }

  /** The victim is the first entry of the list whose I/O has completed. */
  lemma {:induction false} VictimIsFirst(l: seq<BufId>, ent: seq<Entry>, k: nat)
    requires Below(l, |ent|) && k < |l| && ent[l[k]].t.None? && forall i :: 0 <= i < k ==> ent[l[i]].t.Some?
    ensures FirstIdle(l, ent) == Some(l[k])
    decreases k
  {
    if k > 0 {
      assert ent[l[0]].t.Some?;
      VictimIsFirst(l[1..], ent, k - 1);
    }
  }

  /** Loaded, valid or loading, and found under its chunk. */
  ghost predicate Serves(s: Sys, id: BufId, addr: Chk) {
    id < |s.ent| && addr != 0 && Addrs(s)[id] == addr && (s.ent[id].t.Some? || !s.ent[id].invalid)
  }

  lemma Found(s: Sys, id: BufId, addr: Chk, disk: Disk)
    requires Inv(s, disk) && id < |s.ent| && addr != 0
    ensures Find(s, addr) == Some(id) <==> Addrs(s)[id] == addr
  {
    assert Open(0);
    FindSpec(s, addr);
  }

  /** Nobody holds the buffer and its I/O has completed. */
  ghost predicate Rests(s: Sys, id: BufId) {
    id < |s.ent| && id in s.alist && id !in s.free && s.ent[id].t.None?
  }

  /** x rests, or stands for none of the buffers. */
  ghost predicate Counted(s: Sys, x: BufId) { x == |s.ent| || Rests(s, x) }

  /** What loading other chunks does to x: at most one buffer fewer is used before it. */
  ghost predicate Sinks(s: Sys, s': Sys, x: BufId, n: nat)
    requires Shape(s) && Shape(s')
  {
    && |s'.ent| == |s.ent| && s'.readahead == s.readahead
    && (x < |s.ent| ==> Rests(s', x) && s'.ent[x] == s.ent[x])
    && Depth(s', x) + n >= Depth(s, x)
  }

  lemma FreshSinks(s: Sys, addr: Chk, t: Tok, x: BufId)
    requires Shape(s) && NoDup(s.free) && s.free != [] && Counted(s, x)
    requires s.free[0] !in s.alist
    ensures Sinks(s, AddFresh(s, addr, t), x, 1)
  {
    var (id, s') := (s.free[0], AddFresh(s, addr, t));
    AheadAppend(s.alist, s'.ent, id, x);
    AheadSame(s.alist, s.ent, s'.ent, x);
  }

  lemma EvictSinks(s: Sys, id: BufId, addr: Chk, t: Tok, x: BufId)
    requires Shape(s) && NoDup(s.alist) && id in s.alist && id != x && Counted(s, x)
    ensures Shape(AddEvict(s, id, addr, t)) && Sinks(s, AddEvict(s, id, addr, t), x, 1)
  {
    var (l, s') := (Remove(s.alist, id), AddEvict(s, id, addr, t));
    RemoveNoDup(s.alist, id);
    AheadRemove(s.alist, s.ent, id, x);
    AheadSame(l, s.ent, s'.ent, x);
    AheadAppend(l, s'.ent, id, x);
  }

  lemma DropSinks(s: Sys, id: BufId, e: Entry, x: BufId)
    requires Shape(s) && NoDup(s.alist) && id in s.alist && id != x && Counted(s, x)
    ensures Shape(Drop(s, id, e)) && Sinks(s, Drop(s, id, e), x, 1)
  {
    RemoveNoDup(s.alist, id);
    AheadRemove(s.alist, s.ent, id, x);
    AheadSame(Remove(s.alist, id), s.ent, Drop(s, id, e).ent, x);
  }

  lemma PickFailSinks(s: Sys, e: Entry, x: BufId)
    requires Shape(s) && s.free != [] && s.free[0] !in s.alist && Counted(s, x)
    ensures Shape(SetEnt(s, s.free[0], e)) && Sinks(s, SetEnt(s, s.free[0], e), x, 1)
  {
    AheadSame(s.alist, s.ent, SetEnt(s, s.free[0], e).ent, x);
  }

  /** A new chunk takes one buffer: not x, as long as there is another. */
  lemma AddSinks(s: Sys, addr: Chk, dt: Option<Tok>, x: BufId, disk: Disk, loose: Option<BufId>)
    requires InvX(s, disk, loose) && Counted(s, x)
    ensures Depth(s, x) > 0 ==> Sinks(s, Add(s, addr, dt).0, x, 1)
    ensures Add(s, addr, dt).1.Some? <==> dt.Some? && Room(s) > 0
  {
    assert NoDup(s.free) && NoDup(s.alist) && Entries(s, disk, loose) by { assert Open(0); }
    VictimAhead(s.alist, s.ent, x);
    VictimAhead(s.alist, s.ent, |s.ent|);
    if s.free != [] {
      var id := s.free[0];
      assert EntryOk(s.ent[id], s.held[id], id in s.alist, id in s.free, loose == Some(id), disk);
      if dt.None? { PickFailSinks(s, Picked(s.ent[id]).(addr := addr), x); } else { FreshSinks(s, addr, dt.value, x); }
    } else if Depth(s, x) > 0 {
      var id := FirstIdle(s.alist, s.ent).value;
      if dt.None? { DropSinks(s, id, s.ent[id].(addr := addr), x); } else { EvictSinks(s, id, addr, dt.value, x); }
    }
  }

  lemma OneSinks(s: Sys, a: Chk, dt: Option<Tok>, x: BufId, disk: Disk, loose: Option<BufId>)
    requires InvX(s, disk, loose) && Counted(s, x) && Depth(s, x) > 0
    ensures Sinks(s, ReadaheadOne(s, a, dt).0, x, 1)
  {
    hide Add, AddFresh, AddEvict;
    if a < s.volsize && Find(s, a).None? { AddSinks(s, a, dt, x, disk, loose); }
  }

  /** The read-ahead from distance i on takes at most one buffer for each chunk. */
  lemma {:induction false} ReadaheadSinks(s: Sys, addr: Chk, i: nat, dts: seq<Option<Tok>>, loose: BufId, x: BufId, disk: Disk)
    requires InvX(s, disk, Some(loose)) && loose < |s.ent| && s.ent[loose].refcount > 0
    requires |dts| == s.readahead + 1 && i <= |dts| && FreshToks(s, dts, i) && addr > 0
    requires Counted(s, x) && Depth(s, x) >= |dts| - i
    ensures Sinks(s, Readahead(s, addr, i, dts), x, |dts| - i)
    decreases |dts| - i
  {
    hide ReadaheadOne, Depth;
    if i <= s.readahead {
      var (s1, more) := ReadaheadOne(s, addr + i, dts[i]);
      OneSinks(s, addr + i, dts[i], x, disk, Some(loose));
      ReadaheadOneKeeps(s, addr + i, i, dts, loose, disk);
      if more { ReadaheadSinks(s1, addr, i + 1, dts, loose, x, disk); }
    }
  }

  lemma RefSinks(s: Sys, id: BufId, x: BufId)
    requires Shape(s) && NoDup(s.alist) && id < |s.ent| && id != x && Counted(s, x)
    ensures Sinks(s, Ref(s, id), x, if s.ent[id].t.None? then 1 else 0)
  {
    RemoveNoDup(s.alist, id);
    AheadRemove(s.alist, s.ent, id, x);
    var l := if s.ent[id].refcount == 0 then Remove(s.alist, id) else s.alist;
    AheadSame(l, s.ent, Ref(s, id).ent, x);
  }

  /** Looking a chunk up, or starting to load it, and taking a reference costs at most one buffer. */
  lemma ObtainSinks(s: Sys, addr: Chk, dt: Option<Tok>, x: BufId, disk: Disk)
    requires Inv(s, disk) && addr > 0 && (dt.Some? ==> s.Fresh(dt.value)) && Counted(s, x) && Depth(s, x) > 0
    requires Find(s, addr) != Some(x)
    ensures var (s1, r) := Obtain(s, addr, dt);
      if r.None? then Sinks(s, s1, x, 1) else r.value != x && Sinks(s, Ref(s1, r.value), x, 1)
  {
    hide Add, Ref, Depth;
    var (s1, r) := Obtain(s, addr, dt);
    ObtainKeeps(s, addr, dt, disk);
    ObtainFails(s, addr, dt, disk);
    assert NoDup(s1.alist) by { assert Open(0); }
    if Find(s, addr).Some? {
      FoundSinks(s, addr, x);
      RefSinks(s1, r.value, x);
    } else {
      AddSinks(s, addr, dt, x, disk, None);
      if r.Some? {
        RefSinks(s1, r.value, x);
      }
    }
  }

  lemma FoundSinks(s: Sys, addr: Chk, x: BufId)
    requires Shape(s) && Find(s, addr).Some? && Counted(s, x)
    ensures Sinks(s, Relink(s, addr, Find(s, addr).value), x, 0)
  {
  }

  lemma DeliverRests(s: Sys, id: BufId, ct: Option<Tok>, x: BufId)
    requires Shape(s) && id < |s.ent| && id != x && Rests(s, x)
    ensures var s' := Deliver(s, id, ct).0; Rests(s', x) && s'.ent[x] == s.ent[x]
  {
  }

  /** A request for another chunk leaves a resting buffer alone when more buffers than the read-ahead takes
      are used before it. */
  lemma AreadRests(s: Sys, addr: Chk, dts: seq<Option<Tok>>, ct: Option<Tok>, x: BufId, disk: Disk)
    requires Inv(s, disk) && Enabled(s, DoAread(addr, dts, ct), disk) && Rests(s, x)
    requires s.ent[x].addr != addr && Depth(s, x) > s.readahead
    ensures var s' := Aread(s, addr, dts, ct).0; Rests(s', x) && s'.ent[x] == s.ent[x]
  {
    hide Readahead, Deliver, Add, Ref, Relink, Depth, Obtain;
    if s.mounted && 0 < addr <= s.volsize {
      var (s1, r) := Obtain(s, addr, dts[0]);
      Found(s, x, addr, disk);
      ObtainSinks(s, addr, dts[0], x, disk);
      ObtainKeeps(s, addr, dts[0], disk);
      if r.Some? {
        var s2 := Ref(s1, r.value);
        RefFacts(s1, r.value);
        RefKeeps(s1, r.value, disk);
        ReadaheadSinks(s2, addr, 1, dts, r.value, x, disk);
        DeliverRests(Readahead(s2, addr, 1, dts), r.value, ct, x);
      }
    }
  }

  lemma RefFacts(s: Sys, id: BufId)
    requires id < |s.ent|
    ensures var r := Ref(s, id); |r.ent| == |s.ent| && r.ent[id].refcount > 0 && r.readahead == s.readahead && r.volsize == s.volsize && r.dev == s.dev && r.waits == s.waits
  {
  }

  /* ---- What leaves the cache ---- */

  /** The ways out: eviction, for another chunk or for a blank buffer, when it is the buffer's turn; a failed
      read; the flush. */
  ghost predicate Leaves(s: Sys, p: Step, id: BufId)
    requires Shape(s) && id < |s.ent|
  {
    match p
    case DoAread(addr, _, _) => Rests(s, id) && s.ent[id].addr != addr && Depth(s, id) <= s.readahead
    case DoEblank => s.mounted && Rests(s, id) && Depth(s, id) == 0
    case DoComplete(t, ret) => s.ent[id].t == Some(t) && ret < 0
    case DoFlush(_) => s.alist != [] && s.alist[0] == id
    case _ => false
  }

  /** The buffer still serves the chunk, and once loaded holds what it held. */
  ghost predicate Stays(s: Sys, s': Sys, id: BufId, addr: Chk)
    requires id < |s.ent|
  {
    Serves(s', id, addr) && (s.ent[id].t.None? ==> s'.ent[id].t.None? && s'.ent[id].buf == s.ent[id].buf)
  }

  /** A serving buffer rests, or is in use. */
  lemma RestsOrPinned(s: Sys, id: BufId, addr: Chk, disk: Disk)
    requires Inv(s, disk) && Serves(s, id, addr)
    ensures id !in s.free && s.ent[id].addr == addr && (Rests(s, id) || Pinned(s.ent[id]))
    ensures s.held[id] == s.ent[id].refcount && (s.ent[id].refcount > 0 ==> id !in s.alist)
  {
    assert EntryOk(s.ent[id], s.held[id], id in s.alist, id in s.free, false, disk) by { assert Open(0); }
  }

  lemma AreadStays(s: Sys, addr: Chk, dts: seq<Option<Tok>>, ct: Option<Tok>, id: BufId, a: Chk, disk: Disk)
    requires Inv(s, disk) && Enabled(s, DoAread(addr, dts, ct), disk) && Serves(s, id, a) && !Leaves(s, DoAread(addr, dts, ct), id)
    ensures Stays(s, Aread(s, addr, dts, ct).0, id, a)
  {
    hide Aread, Depth, Addrs;
    var s' := Aread(s, addr, dts, ct).0;
    RestsOrPinned(s, id, a, disk);
    StepKeeps(s, DoAread(addr, dts, ct), disk);
    AreadEffect(s, addr, dts, ct, disk);
    if Pinned(s.ent[id]) {
      HeldPinned(s', id, disk);
      InvUnpooled(s', disk);
    } else if s.ent[id].addr != addr {
      AreadRests(s, addr, dts, ct, id, disk);
    } else {
      SameStays(s, addr, dts, ct, id, disk);
    }
    AddrOf(s', id);
  }

  lemma AddrOf(s: Sys, id: BufId)
    requires id < |s.ent| && id !in s.free
    ensures Addrs(s)[id] == s.ent[id].addr
  {
  }

  lemma HeldPinned(s: Sys, id: BufId, disk: Disk)
    requires Inv(s, disk) && id < |s.ent|
    ensures s.held[id] == s.ent[id].refcount
  {
    assert EntryOk(s.ent[id], s.held[id], id in s.alist, id in s.free, false, disk) by { assert Open(0); }
  }

  /** A request for the chunk itself, loaded, hands it out. */
  lemma SameStays(s: Sys, addr: Chk, dts: seq<Option<Tok>>, ct: Option<Tok>, id: BufId, disk: Disk)
    requires Inv(s, disk) && Enabled(s, DoAread(addr, dts, ct), disk) && Serves(s, id, addr) && s.ent[id].t.None?
    ensures var s' := Aread(s, addr, dts, ct).0; |s'.ent| == |s.ent| && id !in s'.free && SameBuffer(s.ent[id], s'.ent[id])
  {
    hide Readahead, Deliver, FindIn, FirstIdle, Add, Obtain;
    RestsOrPinned(s, id, addr, disk);
    if Readable(s, addr) {
      Found(s, id, addr, disk);
      var (s1, r) := Obtain(s, addr, dts[0]);
      FoundObtain(s, addr, dts[0], id);
      ObtainKeeps(s, addr, dts[0], disk);
      ServeApart(s1, id, addr, dts, disk);
      var s3 := Readahead(Ref(s1, id), addr, 1, dts);
      assert Pinned(Ref(s1, id).ent[id]);
      DeliverHit(s3, id, ct);
      StepKeeps(s, DoAread(addr, dts, ct), disk);
      InvUnpooled(s3, disk);
    }
  }

  lemma FoundObtain(s: Sys, addr: Chk, dt: Option<Tok>, id: BufId)
    requires Shape(s) && Find(s, addr) == Some(id) && id < |s.ent|
    ensures Obtain(s, addr, dt).1 == Some(id) && Obtain(s, addr, dt).0.ent == s.ent
  {
  }

  lemma DeliverHit(s: Sys, id: BufId, ct: Option<Tok>)
    requires Shape(s) && id < |s.ent| && s.ent[id].t.None?
    ensures Deliver(s, id, ct) == (s, Hit(id))
  {
  }

  lemma EblankStays(s: Sys, id: BufId, a: Chk, disk: Disk)
    requires Inv(s, disk) && Serves(s, id, a) && !Leaves(s, DoEblank, id)
    ensures Stays(s, Eblank(s).0, id, a)
  {
    RestsOrPinned(s, id, a, disk);
    assert Entries(s, disk, None) && NoDup(s.alist) by { assert Open(0); }
    VictimAhead(s.alist, s.ent, id);
    EblankApart(s, disk);
    if s.mounted && s.free == [] && FirstIdle(s.alist, s.ent).Some? {
      var v := FirstIdle(s.alist, s.ent).value;
      assert EntryOk(s.ent[v], s.held[v], v in s.alist, v in s.free, false, disk);
    }
  }

  lemma DerefStays(s: Sys, v: BufId, tok: Option<Tok>, keep: bool, id: BufId, a: Chk)
    requires Shape(s) && v < |s.ent| && s.ent[v].refcount > 0 && Serves(s, id, a) && (v == id ==> keep) && id !in s.free
    ensures Stays(s, Deref(s, v, tok, keep), id, a)
  {
  }

  lemma ClientStays(s: Sys, p: Step, id: BufId, a: Chk, disk: Disk)
    requires Inv(s, disk) && Enabled(s, p, disk) && Serves(s, id, a) && !Leaves(s, p, id)
    requires p.DoAread? || p.DoEblank? || p.DoRelease? || p.DoAbort? || p.DoFill?
    ensures Stays(s, Apply(s, p, disk), id, a)
  {
    hide Aread, Eblank, Deref, Leaves, Stays, Addrs;
    RestsOrPinned(s, id, a, disk);
    match p
    case DoAread(addr, dts, ct) => AreadStays(s, addr, dts, ct, id, a, disk);
    case DoEblank => EblankStays(s, id, a, disk);
    case DoRelease(v) =>
      MayRelease(s, v, None, disk);
      DerefStays(s, v, None, !s.ent[v].invalid, id, a);
    case DoAbort(v, tok) =>
      MayRelease(s, v, tok, disk);
      DerefStays(s, v, tok, !(s.ent[v].t.None? && s.ent[v].invalid), id, a);
    case DoFill(v, data) => WriteStays(s, v, data, id, a);
  }

  lemma WriteStays(s: Sys, v: BufId, data: seq<Byte>, id: BufId, a: Chk)
    requires v < |s.ent| && Serves(s, id, a) && id !in s.free && (v == id ==> s.ent[id].t.Some?)
    ensures Stays(s, SetEnt(s, v, s.ent[v].(buf := data)), id, a)
  {
  }

  lemma CompleteStays(s: Sys, t: Tok, ret: int, id: BufId, a: Chk)
    requires Shape(s) && t in s.dev && s.dev[t].buf < |s.ent| && Serves(s, id, a) && id !in s.free
    requires s.dev[t].buf == id ==> ret >= 0 && s.ent[id].t.Some?
    ensures Stays(s, Complete(s, t, ret), id, a)
  {
  }

  lemma FlushStays(s: Sys, ret: int, id: BufId, a: Chk)
    requires Shape(s) && s.alist != [] && s.alist[0] != id && Serves(s, id, a) && id !in s.free
    ensures Stays(s, FlushFirst(s, ret), id, a)
  {
  }

  lemma DeviceStays(s: Sys, p: Step, id: BufId, a: Chk, disk: Disk)
    requires Inv(s, disk) && Enabled(s, p, disk) && Serves(s, id, a) && !Leaves(s, p, id)
    requires p.DoComplete? || p.DoScribble? || p.DoFlush?
    ensures Stays(s, Apply(s, p, disk), id, a)
  {
    hide Complete, FlushFirst, Stays, Addrs;
    RestsOrPinned(s, id, a, disk);
    match p
    case DoComplete(t, ret) => WaitersAreChain(s, t, disk); CompleteStays(s, t, ret, id, a);
    case DoScribble(t, data) => WaitersAreChain(s, t, disk); WriteStays(s, s.dev[t].buf, data, id, a);
    case DoFlush(ret) => FlushStays(s, ret, id, a);
  }

  /** A chunk that is loaded, or being loaded, stays in the cache through every step but those. */
  lemma StepStays(s: Sys, p: Step, id: BufId, addr: Chk, disk: Disk)
    requires Inv(s, disk) && Enabled(s, p, disk) && Serves(s, id, addr) && !Leaves(s, p, id)
    ensures Stays(s, Apply(s, p, disk), id, addr)
  {
    if p.DoComplete? || p.DoScribble? || p.DoFlush? { DeviceStays(s, p, id, addr, disk); } else { ClientStays(s, p, id, addr, disk); }
  }

  /** No step of the run is one that takes the buffer out of the cache. */
  ghost predicate Spared(s: Sys, steps: seq<Step>, id: BufId, disk: Disk)
    requires Inv(s, disk) && id < |s.ent|
    decreases |steps|
  {
    steps == [] || (
      && Enabled(s, steps[0], disk) && !Leaves(s, steps[0], id)
      && (StepKeeps(s, steps[0], disk);
          var s' := Apply(s, steps[0], disk); id < |s'.ent| && Spared(s', steps[1..], id, disk)))
  }

  /** Over whole runs: a chunk that was loaded leaves the cache only by eviction, a failed read or the flush; in
      every other run it is still there, with its contents, and a request for it finds it ready. */
  lemma {:induction false} RunStays(s: Sys, steps: seq<Step>, s': Sys, id: BufId, addr: Chk, disk: Disk)
    requires Inv(s, disk) && Runs(s, steps, s', disk) && Serves(s, id, addr) && Spared(s, steps, id, disk)
    ensures Inv(s', disk) && Stays(s, s', id, addr) && Find(s', addr) == Some(id)
    decreases |steps|
  {
    hide Apply, Enabled, Leaves;
    if steps == [] {
      Found(s, id, addr, disk);
    } else {
      StepKeeps(s, steps[0], disk);
      StepStays(s, steps[0], id, addr, disk);
      RunStays(Apply(s, steps[0], disk), steps[1..], s', id, addr, disk);
    }
  }

  /** The first in the queue goes: a resting buffer with none before it is taken for a chunk that is not cached. */
  lemma FirstGoes(s: Sys, addr: Chk, dts: seq<Option<Tok>>, ct: Option<Tok>, id: BufId, a: Chk, disk: Disk)
    requires Inv(s, disk) && Enabled(s, DoAread(addr, dts, ct), disk) && Serves(s, id, a) && Rests(s, id)
    requires Readable(s, addr) && Find(s, addr).None? && Depth(s, id) == 0
    ensures a != addr && !Serves(Aread(s, addr, dts, ct).0, id, a)
    ensures dts[0].Some? && ct.Some? ==> Aread(s, addr, dts, ct).1 == Wait(id, ct.value)
  {
    hide Readahead, Deliver, FindIn, Add, Ref, Depth, Addrs;
    RestsOrPinned(s, id, a, disk);
    Found(s, id, a, disk);
    var (s1, r) := Obtain(s, addr, dts[0]);
    FirstAdded(s, addr, dts[0], id);
    ObtainKeeps(s, addr, dts[0], disk);
    if r.Some? {
      ServeAnswer(s1, id, addr, dts, ct, disk);
      Gone(Aread(s, addr, dts, ct).0, id, a);
    } else {
      Gone(s1, id, a);
    }
  }

  lemma Gone(s: Sys, id: BufId, a: Chk)
    requires id < |s.ent| && s.ent[id].addr != a
    ensures !Serves(s, id, a)
  {
  }

  /** From the entry on: what a request answers depends on the entry and the token only. */
  lemma ServeAnswer(s: Sys, id: BufId, addr: Chk, dts: seq<Option<Tok>>, ct: Option<Tok>, disk: Disk)
    requires Inv(s, disk) && |dts| == s.readahead + 1 && FreshToks(s, dts, 1) && id < |s.ent| && Addrs(s)[id] == addr > 0
    ensures var (s', r) := Deliver(Readahead(Ref(s, id), addr, 1, dts), id, ct);
      && |s'.ent| == |s.ent| && s'.ent[id].addr == s.ent[id].addr && s'.ent[id].t == s.ent[id].t
      && r == if s.ent[id].t.None? then Hit(id) else if ct.Some? then Wait(id, ct.value) else Fail
  {
    hide Readahead;
    ServeApart(s, id, addr, dts, disk);
    assert Pinned(Ref(s, id).ent[id]);
  }

  lemma FirstAdded(s: Sys, addr: Chk, dt: Option<Tok>, id: BufId)
    requires Shape(s) && Rests(s, id) && Depth(s, id) == 0
    ensures var (s1, r) := Add(s, addr, dt);
      |s1.ent| == |s.ent| && s1.ent[id].addr == addr && s1.ent[id].t == dt && (if dt.Some? then r == Some(id) else r.None? && id in s1.free)
  {
    VictimAhead(s.alist, s.ent, id);
  }

  /** The other ways out are taken whenever they are open. */
  lemma LeavesIndeed(s: Sys, p: Step, id: BufId, addr: Chk, disk: Disk)
    requires Inv(s, disk) && Enabled(s, p, disk) && Serves(s, id, addr) && Leaves(s, p, id) && !p.DoAread?
    ensures !Serves(Apply(s, p, disk), id, addr)
  {
    RestsOrPinned(s, id, addr, disk);
    match p
    case DoEblank => VictimAhead(s.alist, s.ent, id);
    case DoComplete(t, ret) => WaitersAreChain(s, t, disk); DevIs(s, id, disk); FailedGone(s, t, ret);
    case DoFlush(ret) =>
  }

  lemma DevIs(s: Sys, id: BufId, disk: Disk)
    requires Inv(s, disk) && id < |s.ent| && s.ent[id].t.Some?
    ensures s.ent[id].t.value in s.dev && s.dev[s.ent[id].t.value].buf == id
  {
    assert Open(0);
  }

  lemma FailedGone(s: Sys, t: Tok, ret: int)
    requires Shape(s) && t in s.dev && s.dev[t].buf < |s.ent| && ret < 0
    ensures var e := Complete(s, t, ret).ent[s.dev[t].buf]; e.t.None? && e.invalid
  {
  }

  /** A blank buffer is to be had exactly when a buffer can be used for a new chunk; it is the caller's alone. */
  lemma EblankExactly(s: Sys, disk: Disk)
    requires Inv(s, disk)
    ensures var (s', r) := Eblank(s);
      && (r.Some? <==> s.mounted && Room(s) > 0) && (r.None? ==> s' == s)
      && (r.Some? ==> r.value < |s.ent| == |s'.ent| && s.held[r.value] == 0 && s'.held == s.held + multiset{r.value} && IsBlank(s', r.value))
  {
    hide IsBlank;
    var (s', r) := Eblank(s);
    VictimAhead(s.alist, s.ent, |s.ent|);
    StepKeeps(s, DoEblank, disk);
    if r.Some? {
      assert Entries(s, disk, None) by { assert Open(0); }
      assert EntryOk(s.ent[r.value], s.held[r.value], r.value in s.alist, r.value in s.free, false, disk);
      BufferClass(s', r.value, disk);
      HeldPinned(s', r.value, disk);
      BlankClass(s', r.value, disk);
    }
  }

  lemma BlankClass(s: Sys, id: BufId, disk: Disk)
    requires Inv(s, disk) && id < |s.ent| && s.ent[id].addr == 0 && s.ent[id].refcount > 0
    ensures IsBlank(s, id)
  {
    assert Open(0);
    assert EntryOk(s.ent[id], s.held[id], id in s.alist, id in s.free, false, disk);
    assert forall h :: 0 <= h < |s.clist| ==> (id in s.clist[h] <==> InBucket(Addrs(s), id, h, |s.clist|));
  }

  /* ---- Releases and requests ---- */

  /** A request finds a chunk ready exactly when it is cached and loaded, and hands out its buffer. */
  lemma HitExactly(s: Sys, addr: Chk, dts: seq<Option<Tok>>, ct: Option<Tok>, id: BufId, disk: Disk)
    requires Inv(s, disk) && Enabled(s, DoAread(addr, dts, ct), disk) && id < |s.ent|
    ensures Aread(s, addr, dts, ct).1 == Hit(id) <==> Readable(s, addr) && Find(s, addr) == Some(id) && s.ent[id].t.None?
  {
    hide Readahead, Deliver, FindIn, FirstIdle, Add, Obtain, Ref, Addrs;
    if Readable(s, addr) {
      var (s1, r) := Obtain(s, addr, dts[0]);
      ObtainKeeps(s, addr, dts[0], disk);
      ObtainFails(s, addr, dts[0], disk);
      if r.Some? { ServeAnswer(s1, r.value, addr, dts, ct, disk); }
    }
  }

  /** A released chunk stays cached: it is found under its address with its contents, and a request for it is
      answered with the same buffer at once.  On the last release it goes behind all others on the list of
      available ones; a buffer whose read failed, or a blank one, goes back to the pool instead. */
  lemma ReleaseKeeps(s: Sys, id: BufId, disk: Disk)
    requires Inv(s, disk) && Enabled(s, DoRelease(id), disk)
    ensures var (e, s') := (s.ent[id], Apply(s, DoRelease(id), disk));
      && |s'.ent| == |s.ent| && Inv(s', disk)
      && (!e.invalid ==>
            && e.addr != 0 && Find(s', e.addr) == Some(id) && s'.ent[id].buf == e.buf == disk(e.addr)
            && s'.alist == (if e.refcount == 1 then s.alist + [id] else s.alist)
            && forall dts, ct :: Enabled(s', DoAread(e.addr, dts, ct), disk) && Readable(s', e.addr) ==> Aread(s', e.addr, dts, ct).1 == Hit(id))
      && (e.invalid && e.refcount == 1 ==> id in s'.free && (e.addr != 0 ==> Find(s', e.addr).None?))
  {
    hide Aread;
    var (e, s') := (s.ent[id], Apply(s, DoRelease(id), disk));
    MayRelease(s, id, None, disk);
    StepKeeps(s, DoRelease(id), disk);
    assert EntryOk(e, s.held[id], id in s.alist, id in s.free, false, disk) by { assert Open(0); }
    if !e.invalid {
      StepStays(s, DoRelease(id), id, e.addr, disk);
      Found(s', id, e.addr, disk);
      forall dts, ct | Enabled(s', DoAread(e.addr, dts, ct), disk) && Readable(s', e.addr) ensures Aread(s', e.addr, dts, ct).1 == Hit(id) {
        HitExactly(s', e.addr, dts, ct, id, disk);
      }
    } else if e.refcount == 1 && e.addr != 0 {
      Alone(s, s', id, disk);
    }
  }

  /** A chunk's buffer that went back to the pool leaves no other for the chunk. */
  lemma Alone(s: Sys, s': Sys, id: BufId, disk: Disk)
    requires Inv(s, disk) && Inv(s', disk) && |s'.ent| == |s.ent| && id < |s.ent| && id !in s.free && id in s'.free && s.ent[id].addr != 0
    requires forall j :: 0 <= j < |s.ent| && j !in s'.free ==> j !in s.free && s'.ent[j].addr == s.ent[j].addr
    ensures Find(s', s.ent[id].addr).None?
  {
    assert Open(0);
    FindSpec(s', s.ent[id].addr);
    forall j | 0 <= j < |s.ent| ensures Addrs(s')[j] != s.ent[id].addr {
      assert Addrs(s')[j] != 0 ==> Addrs(s)[j] == Addrs(s')[j] && j != id;
    }
  }

  lemma AbortDoes(s: Sys, id: BufId, tok: Option<Tok>)
    requires |s.clist| > 0 && id < |s.ent| && s.ent[id].refcount > 0
    ensures var (e, s') := (s.ent[id], Abort(s, id, tok));
      && |s'.ent| == |s.ent| && s'.ent[id].t == e.t && s'.ent[id].buf == e.buf
      && (forall j :: 0 <= j < |s.ent| ==> s'.ent[j].addr == s.ent[j].addr)
      && (e.t.Some? || !e.invalid ==> s'.free == s.free && s'.alist == if e.refcount == 1 then s.alist + [id] else s.alist)
      && (e.t.None? && e.invalid && e.refcount == 1 ==> s'.free == [id] + s.free)
  {
  }

  /** The same for a release that gives up waiting: an entry is kept while its read goes on. */
  lemma AbortKeeps(s: Sys, id: BufId, tok: Option<Tok>, disk: Disk)
    requires Inv(s, disk) && Enabled(s, DoAbort(id, tok), disk)
    ensures var (e, s') := (s.ent[id], Apply(s, DoAbort(id, tok), disk));
      && |s'.ent| == |s.ent| && Inv(s', disk)
      && (e.t.Some? || !e.invalid ==>
            && e.addr != 0 && Find(s', e.addr) == Some(id) && s'.ent[id].t == e.t && s'.ent[id].buf == e.buf
            && s'.alist == if e.refcount == 1 then s.alist + [id] else s.alist)
      && (e.t.None? && e.invalid && e.refcount == 1 ==> id in s'.free && (e.addr != 0 ==> Find(s', e.addr).None?))
  {
    hide Abort, Addrs, FindIn;
    var (e, s') := (s.ent[id], Apply(s, DoAbort(id, tok), disk));
    MayRelease(s, id, tok, disk);
    AbortDoes(s, id, tok);
    StepKeeps(s, DoAbort(id, tok), disk);
    assert EntryOk(e, s.held[id], id in s.alist, id in s.free, false, disk) by { assert Open(0); }
    if e.t.Some? || !e.invalid {
      StepStays(s, DoAbort(id, tok), id, e.addr, disk);
      Found(s', id, e.addr, disk);
    } else if e.refcount == 1 && e.addr != 0 {
      Alone(s, s', id, disk);
    }
  }

  /* ---- The order of the waiters ---- */

  /** The chain of an entry whose read goes on: a caller that has to wait joins at its end, an abort takes the
      caller's token out, and nothing else changes it. */
  ghost function ChainAfter(s: Sys, p: Step, id: BufId, disk: Disk): seq<Tok>
    requires Inv(s, disk) && Enabled(s, p, disk) && id < |s.ent|
  {
    var chain := s.ent[id].chain;
    match p
    case DoAread(addr, dts, ct) => (match Aread(s, addr, dts, ct).1 case Wait(i, tok) => if i == id then chain + [tok] else chain case _ => chain)
    case DoAbort(i, tok) => if i == id && tok.Some? then Remove(chain, tok.value) else chain
    case _ => chain
  }

  lemma DeliverChain(s: Sys, id: BufId, ct: Option<Tok>, i: BufId)
    requires Shape(s) && id < |s.ent| && i < |s.ent|
    ensures var (s', r) := Deliver(s, id, ct);
      |s'.ent| == |s.ent| && s'.ent[i].chain == match r case Wait(j, tok) => if j == i then s.ent[i].chain + [tok] else s.ent[i].chain case _ => s.ent[i].chain
  {
  }

  lemma AreadChain(s: Sys, addr: Chk, dts: seq<Option<Tok>>, ct: Option<Tok>, id: BufId, disk: Disk)
    requires Inv(s, disk) && Enabled(s, DoAread(addr, dts, ct), disk) && id < |s.ent| && s.ent[id].t.Some?
    ensures var s' := Aread(s, addr, dts, ct).0; |s'.ent| == |s.ent| && s'.ent[id].chain == ChainAfter(s, DoAread(addr, dts, ct), id, disk)
  {
    hide Readahead, Deliver, Add, Obtain, Addrs;
    if Readable(s, addr) {
      var (s1, r) := Obtain(s, addr, dts[0]);
      ObtainKeeps(s, addr, dts[0], disk);
      if r.Some? {
        ServeApart(s1, r.value, addr, dts, disk);
        var s2 := Ref(s1, r.value);
        assert Pinned(s2.ent[id]) && s2.ent[id].chain == s.ent[id].chain;
        DeliverChain(Readahead(s2, addr, 1, dts), r.value, ct, id);
      }
    }
  }

  /** Every step of every client and the device: the waiters of a read stand in the order in which they came. */
  lemma ChainInOrder(s: Sys, p: Step, id: BufId, disk: Disk)
    requires Inv(s, disk) && Enabled(s, p, disk) && id < |s.ent| && s.ent[id].t.Some?
    requires s.ent[id].t.value in s.dev && !EndsRead(s, s.ent[id].t.value, p)
    ensures var s' := Apply(s, p, disk); |s'.ent| == |s.ent| && s'.ent[id].chain == ChainAfter(s, p, id, disk)
  {
    if p.DoAread? { AreadChain(s, p.addr, p.dts, p.ct, id, disk); }
    else if p.DoRelease? || p.DoAbort? { ReleaseChain(s, p, id, disk); }
    else { OtherChain(s, p, id, disk); }
  }

  lemma ReleaseChain(s: Sys, p: Step, id: BufId, disk: Disk)
    requires Inv(s, disk) && Enabled(s, p, disk) && id < |s.ent| && (p.DoRelease? || p.DoAbort?)
    ensures var s' := Apply(s, p, disk); |s'.ent| == |s.ent| && s'.ent[id].chain == ChainAfter(s, p, id, disk)
  {
    MayRelease(s, p.id, if p.DoRelease? then None else p.tok, disk);
  }

  lemma OtherChain(s: Sys, p: Step, id: BufId, disk: Disk)
    requires Inv(s, disk) && Enabled(s, p, disk) && id < |s.ent| && s.ent[id].t.Some? && !p.DoAread? && !p.DoRelease? && !p.DoAbort?
    requires s.ent[id].t.value in s.dev && !EndsRead(s, s.ent[id].t.value, p)
    ensures var s' := Apply(s, p, disk); |s'.ent| == |s.ent| && s'.ent[id].chain == s.ent[id].chain
  {
    hide Aread, Eblank, Complete, FlushFirst, Deref;
    match p
    case DoEblank => EblankSame(s, id, disk);
    case DoComplete(t, ret) => DevIs(s, id, disk); WaitersAreChain(s, t, disk); OtherKept(s, t, ret, id);
    case DoScribble(_, _) =>
    case DoFill(_, _) =>
    case DoFlush(ret) => DevIs(s, id, disk); OtherFlushed(s, ret, id);
  }

  lemma EblankSame(s: Sys, id: BufId, disk: Disk)
    requires Inv(s, disk) && id < |s.ent| && s.ent[id].t.Some?
    ensures Shape(s) && |Eblank(s).0.ent| == |s.ent| && Eblank(s).0.ent[id] == s.ent[id]
  {
    hide Eblank;
    assert Entries(s, disk, None) by { assert Open(0); }
    EblankApart(s, disk);
  }

  lemma OtherKept(s: Sys, t: Tok, ret: int, id: BufId)
    requires Shape(s) && t in s.dev && s.dev[t].buf < |s.ent| && id < |s.ent| && s.dev[t].buf != id
    ensures |Complete(s, t, ret).ent| == |s.ent| && Complete(s, t, ret).ent[id] == s.ent[id]
  {
  }

  lemma OtherFlushed(s: Sys, ret: int, id: BufId)
    requires Shape(s) && s.alist != [] && id < |s.ent| && s.alist[0] != id
    ensures |FlushFirst(s, ret).ent| == |s.ent| && FlushFirst(s, ret).ent[id] == s.ent[id]
  {
  }

  /* ---- The hash ---- */

  /** A chunk that was found stands in front of its collision list, the others behind it in their order. */
  lemma FoundInFront(s: Sys, addr: Chk, k: nat, disk: Disk)
    requires Inv(s, disk) && Find(s, addr).Some? && k < |s.clist[HtIndex(s, addr)]|
    requires s.clist[HtIndex(s, addr)][k] == Find(s, addr).value && Find(s, addr).value < |s.ent|
    ensures var (l, l') := (s.clist[HtIndex(s, addr)], Relink(s, addr, Find(s, addr).value).clist[HtIndex(s, addr)]);
      l' == [l[k]] + l[..k] + l[k + 1..]
  {
    assert NoDup(s.clist[HtIndex(s, addr)]) by { assert Open(0); }
    RemoveAt(s.clist[HtIndex(s, addr)], k);
  }

  /** With a power of two as its length the hash is the low bits of the address, so that as many chunks in a row
      as there are collision lists go to different ones. */
  lemma Spread(addr: Chk, other: Chk, n: nat, m: nat)
    requires n > 0 && n * m == 0x1_0000_0000 && addr < other < addr + n
    ensures Idx(addr, n) == addr % n && Idx(addr, n) != Idx(other, n)
  {
    LowBits(addr, n, m, 0x1_0000_0000);
    LowBits(other, n, m, 0x1_0000_0000);
    SlotsDiffer(addr, other, n);
  }

  lemma LowBits(x: nat, n: nat, m: int, c: nat)
    requires n > 0 && c == n * m > 0
    ensures (x % c) % n == x % n
  {
    var (q, r) := (x / c, x % c);
    DivEquation(x, c);
    DivEquation(r, n);
    Products(q, n, m, c, r / n);
    DivUnique(x, n, q * m + r / n, r % n);
  }

  lemma Products(q: nat, n: nat, m: int, c: nat, a: nat)
    requires n > 0 && c == n * m > 0
    ensures m > 0 && q * m >= 0 && (q * m + a) * n == q * c + a * n
  {
    if m <= 0 { MulMonotone(m, 0, n); }
    MulMonotone(0, m, q);
    assert (q * m + a) * n == (q * m) * n + a * n;
    assert (q * m) * n == q * (n * m);
  }
}
