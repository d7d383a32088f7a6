/** What read-ahead loads, and where the chunks it loads stand in the queue. */
module CacheReadahead {
  import opened Lists
  import opened CacheModel
  import opened CacheProofs
  import opened CacheRuns
  import opened CacheRetention

  /** The device is reading the chunk for token t. */
  ghost predicate Reading(s: Sys, t: Tok, addr: Chk) { t in s.dev && s.dev[t].addr == addr }

  ghost predicate Missing(s: Sys, a: Chk)
    requires Shape(s)
  {
    Find(s, a).None?
  }

  /** Starting to load one chunk makes no other one cached. */
  lemma AddMissing(s: Sys, addr: Chk, dt: Option<Tok>, a: Chk, disk: Disk, loose: Option<BufId>)
    requires InvX(s, disk, loose) && InvX(Add(s, addr, dt).0, disk, loose) && Missing(s, a) && a != addr && a != 0
    ensures Missing(Add(s, addr, dt).0, a)
  {
    var s1 := Add(s, addr, dt).0;
    assert TableOk(s.clist, Addrs(s)) && TableOk(s1.clist, Addrs(s1)) by { assert Open(0); }
    FindSpec(s, a);
    FindSpec(s1, a);
    AddAddrs(s, addr, dt, a);
  }

  lemma AddAddrs(s: Sys, addr: Chk, dt: Option<Tok>, a: Chk)
    requires Shape(s) && a != addr && a != 0 && forall k :: 0 <= k < |s.ent| ==> Addrs(s)[k] != a
    ensures var s1 := Add(s, addr, dt).0; forall k :: 0 <= k < |s1.ent| ==> Addrs(s1)[k] != a
  {
    var s1 := Add(s, addr, dt).0;
    forall k | 0 <= k < |s1.ent| ensures Addrs(s1)[k] != a {
      assert Addrs(s)[k] != a;
    }
  }

  lemma SameMissing(s: Sys, s': Sys, a: Chk, disk: Disk, x: Option<BufId>, x': Option<BufId>)
    requires InvX(s, disk, x) && InvX(s', disk, x') && Addrs(s') == Addrs(s) && |s'.ent| == |s.ent| && a != 0
    ensures Missing(s', a) <==> Missing(s, a)
  {
    assert TableOk(s.clist, Addrs(s)) && TableOk(s'.clist, Addrs(s')) by { assert Open(0); }
    FindSpec(s, a);
    FindSpec(s', a);
  }

  /** One round of the read-ahead: with room for it, a missing chunk of the volume is being read, no other chunk
      got cached, and the loop goes on. */
  lemma OneReads(s: Sys, addr: Chk, i: nat, dts: seq<Option<Tok>>, loose: BufId, a: Chk, disk: Disk)
    requires InvX(s, disk, Some(loose)) && loose < |s.ent| && s.ent[loose].refcount > 0
    requires i < |dts| && FreshToks(s, dts, i) && addr + i > 0 && dts[i].Some? && Room(s) > 0 && addr + i < s.volsize
    ensures var (s1, more) := ReadaheadOne(s, addr + i, dts[i]);
      && more && Room(s1) + 1 >= Room(s)
      && (Missing(s, addr + i) ==> Reading(s1, dts[i].value, addr + i))
      && (Missing(s, a) && a != addr + i && a != 0 ==> Missing(s1, a))
  {
    hide Add, Depth;
    var s1 := ReadaheadOne(s, addr + i, dts[i]).0;
    ReadaheadOneKeeps(s, addr + i, i, dts, loose, disk);
    OneSinks(s, addr + i, dts[i], |s.ent|, disk, Some(loose));
    AddSinks(s, addr + i, dts[i], |s.ent|, disk, Some(loose));
    if Missing(s, addr + i) {
      AddReads(s, addr + i, dts[i]);
      if Missing(s, a) && a != addr + i && a != 0 { AddMissing(s, addr + i, dts[i], a, disk, Some(loose)); }
    } else if a != 0 {
      AddrsSame(s, s1);
      SameMissing(s, s1, a, disk, Some(loose), Some(loose));
    }
  }

  lemma AddReads(s: Sys, addr: Chk, dt: Option<Tok>)
    requires Shape(s) && dt.Some?
    ensures Add(s, addr, dt).1.Some? ==> Reading(Add(s, addr, dt).0, dt.value, addr)
  {
  }

  lemma {:induction false} ReadaheadReads(s: Sys, addr: Chk, i: nat, dts: seq<Option<Tok>>, loose: BufId, j: nat, disk: Disk)
    requires InvX(s, disk, Some(loose)) && loose < |s.ent| && s.ent[loose].refcount > 0
    requires |dts| == s.readahead + 1 && FreshToks(s, dts, i) && addr > 0
    requires i <= j < |dts| && Shape(s) && addr + j < s.volsize && Missing(s, addr + j)
    requires Room(s) > j - i && forall k :: i <= k <= j ==> dts[k].Some?
    ensures Reading(Readahead(s, addr, i, dts), dts[j].value, addr + j)
    decreases |dts| - i
  {
    hide ReadaheadOne, Room, Missing, InvX, FreshToks;
    var (s1, more) := ReadaheadOne(s, addr + i, dts[i]);
    OneReads(s, addr, i, dts, loose, addr + j, disk);
    ReadaheadOneKeeps(s, addr + i, i, dts, loose, disk);
    if i == j {
      ReadaheadKeeps(s1, addr, i + 1, dts, loose, disk);
    } else {
      ReadaheadReads(s1, addr, i + 1, dts, loose, j, disk);
    }
  }

  /** Read-ahead loads what comes next: after a request that found or started its chunk, the chunk at distance
      j, if it lies in the volume and was not cached, is being read, provided there are buffers and device
      tokens for it and those before it. */
  lemma ReadaheadLoads(s: Sys, addr: Chk, dts: seq<Option<Tok>>, ct: Option<Tok>, j: nat, disk: Disk)
    requires Inv(s, disk) && Enabled(s, DoAread(addr, dts, ct), disk) && Readable(s, addr)
    requires j < |dts| && (j > 0 ==> addr + j < s.volsize) && Find(s, addr + j).None?
    requires Room(s) > j && forall k :: 0 <= k <= j ==> dts[k].Some?
    ensures Reading(Aread(s, addr, dts, ct).0, dts[j].value, addr + j)
  {
    hide Readahead, Deliver, Add, Ref, Relink, Depth, Obtain, Addrs, FindIn, Room;
    var (s1, r) := Obtain(s, addr, dts[0]);
    ObtainKeeps(s, addr, dts[0], disk);
    ObtainReads(s, addr, dts[0], addr + j, disk);
    var s2 := Ref(s1, r.value);
    RefFacts(s1, r.value);
    RefKeeps(s1, r.value, disk);
    RefAddrs(s1, r.value);
    var s3 := Readahead(s2, addr, 1, dts);
    ReadaheadKeeps(s2, addr, 1, dts, r.value, disk);
    if j > 0 {
      SameMissing(s1, s2, addr + j, disk, None, Some(r.value));
      ReadaheadReads(s2, addr, 1, dts, r.value, j, disk);
    }
    DeliverDev(s3, r.value, ct);
  }

  /** A chunk that is being read is found. */
  lemma ReadingFound(s: Sys, t: Tok, a: Chk, disk: Disk)
    requires Inv(s, disk) && Reading(s, t, a) && a != 0
    ensures Find(s, a) == Some(s.dev[t].buf)
  {
    InFlight(s, t, disk);
    AddrOf(s, s.dev[t].buf);
    Found(s, s.dev[t].buf, a, disk);
  }

  lemma DeliverDev(s: Sys, id: BufId, ct: Option<Tok>)
    requires Shape(s) && id < |s.ent|
    ensures Deliver(s, id, ct).0.dev == s.dev
  {
  }

  lemma RefAddrs(s: Sys, id: BufId)
    requires id < |s.ent|
    ensures Addrs(Ref(s, id)) == Addrs(s)
  {
  }

  /** The request for the chunk itself: with room for it the chunk is found or being read, another one that was
      missing still is, and one buffer less is free for the others. */
  lemma ObtainReads(s: Sys, addr: Chk, dt: Option<Tok>, a: Chk, disk: Disk)
    requires Inv(s, disk) && addr > 0 && a > 0 && dt.Some? && s.Fresh(dt.value) && Room(s) > 0 && Missing(s, a)
    ensures var (s1, r) := Obtain(s, addr, dt);
      && r.Some? && Shape(Ref(s1, r.value)) && Room(Ref(s1, r.value)) + 1 >= Room(s)
      && (if a == addr then Reading(s1, dt.value, addr) else Missing(s1, a))
  {
    hide Add, Ref, Depth;
    var (s1, r) := Obtain(s, addr, dt);
    ObtainKeeps(s, addr, dt, disk);
    ObtainFails(s, addr, dt, disk);
    AddSinks(s, addr, dt, |s.ent|, disk, None);
    assert Find(s, addr).Some? ==> Find(s, addr).value < |s.ent| by { assert Open(0); FindSpec(s, addr); }
    ObtainSinks(s, addr, dt, |s.ent|, disk);
    if a == addr {
      AddReads(s, addr, dt);
    } else if Missing(s, addr) {
      AddMissing(s, addr, dt, a, disk, None);
    } else {
      AddrsSame(s, s1);
      SameMissing(s, s1, a, disk, None, None);
    }
  }

  /** t is the device token for one of the chunks from distance i on: inside the volume, behind the first. */
  predicate ForOne(t: Tok, q: Request, addr: Chk, i: nat, dts: seq<Option<Tok>>, end: Chk) {
    exists j :: i <= j < |dts| && dts[j] == Some(t) && q.addr == addr + j && (j == 0 || addr + j < end)
  }

  ghost predicate OnlyThose(dev: map<Tok, Request>, dev': map<Tok, Request>, addr: Chk, i: nat, dts: seq<Option<Tok>>, end: Chk) {
    forall t :: t in dev' && t !in dev ==> ForOne(t, dev'[t], addr, i, dts, end)
  }

  lemma OnlyMore(dev: map<Tok, Request>, mid: map<Tok, Request>, dev': map<Tok, Request>, addr: Chk, i: nat, dts: seq<Option<Tok>>, end: Chk)
    requires OnlyThose(mid, dev', addr, i + 1, dts, end) && i < |dts| && (i == 0 || addr + i < end || mid == dev)
    requires forall t :: t in mid && t !in dev ==> dts[i] == Some(t) && mid[t].addr == addr + i
    requires forall t :: t in mid ==> t in dev' && dev'[t] == mid[t]
    ensures OnlyThose(dev, dev', addr, i, dts, end)
  {
    forall t | t in dev' && t !in dev ensures ForOne(t, dev'[t], addr, i, dts, end) {
      if t in mid {
        assert dts[i] == Some(t) && dev'[t].addr == addr + i;
      } else {
        assert ForOne(t, dev'[t], addr, i + 1, dts, end);
        var j :| i + 1 <= j < |dts| && dts[j] == Some(t) && dev'[t].addr == addr + j && (j == 0 || addr + j < end);
        assert i <= j < |dts|;
      }
    }
  }

  lemma OneOnly(s: Sys, a: Chk, dt: Option<Tok>)
    requires Shape(s)
    ensures var s1 := ReadaheadOne(s, a, dt).0;
      && s1.volsize == s.volsize && (a < s.volsize || s1.dev == s.dev)
      && forall t :: t in s1.dev && t !in s.dev ==> dt == Some(t) && s1.dev[t].addr == a
  {
  }

  lemma {:induction false} ReadaheadOnly(s: Sys, addr: Chk, i: nat, dts: seq<Option<Tok>>, loose: BufId, disk: Disk)
    requires InvX(s, disk, Some(loose)) && loose < |s.ent| && s.ent[loose].refcount > 0
    requires |dts| == s.readahead + 1 && FreshToks(s, dts, i) && addr > 0 && Shape(s)
    ensures OnlyThose(s.dev, Readahead(s, addr, i, dts).dev, addr, i, dts, s.volsize)
    decreases |dts| - i
  {
    hide ReadaheadOne, OnlyThose, ForOne, FreshToks, InvX;
    if i <= s.readahead {
      var (s1, more) := ReadaheadOne(s, addr + i, dts[i]);
      OneOnly(s, addr + i, dts[i]);
      ReadaheadOneKeeps(s, addr + i, i, dts, loose, disk);
      if more {
        ReadaheadKeeps(s1, addr, i + 1, dts, loose, disk);
        ReadaheadOnly(s1, addr, i + 1, dts, loose, disk);
        OnlyMore(s.dev, s1.dev, Readahead(s1, addr, i + 1, dts).dev, addr, i, dts, s.volsize);
      } else {
        NoneNew(s1.dev, addr, i + 1, dts, s.volsize);
        OnlyMore(s.dev, s1.dev, s1.dev, addr, i, dts, s.volsize);
      }
    } else {
      NoneNew(s.dev, addr, i, dts, s.volsize);
    }
  }

  lemma NoneNew(dev: map<Tok, Request>, addr: Chk, i: nat, dts: seq<Option<Tok>>, end: Chk)
    ensures OnlyThose(dev, dev, addr, i, dts, end)
  {
  }

  /** And nothing else: every new read is for the chunk itself or for one of those behind it, inside the volume. */
  lemma ReadaheadNoMore(s: Sys, addr: Chk, dts: seq<Option<Tok>>, ct: Option<Tok>, disk: Disk)
    requires Inv(s, disk) && Enabled(s, DoAread(addr, dts, ct), disk)
    ensures OnlyThose(s.dev, Aread(s, addr, dts, ct).0.dev, addr, 0, dts, s.volsize)
  {
    hide Readahead, Deliver, Add, Ref, Addrs, OnlyThose, ForOne;
    if Readable(s, addr) {
      var (s1, r) := Obtain(s, addr, dts[0]);
      ObtainKeeps(s, addr, dts[0], disk);
      ObtainOnly(s, addr, dts[0]);
      if r.Some? {
        var s2 := Ref(s1, r.value);
        RefFacts(s1, r.value);
        RefKeeps(s1, r.value, disk);
        ReadaheadKeeps(s2, addr, 1, dts, r.value, disk);
        ReadaheadOnly(s2, addr, 1, dts, r.value, disk);
        DeliverDev(Readahead(s2, addr, 1, dts), r.value, ct);
      } else {
        NoneNew(s1.dev, addr, 1, dts, s.volsize);
      }
      OnlyMore(s.dev, s1.dev, Aread(s, addr, dts, ct).0.dev, addr, 0, dts, s.volsize);
    } else {
      NoneNew(s.dev, addr, 0, dts, s.volsize);
    }
  }

  lemma ObtainOnly(s: Sys, addr: Chk, dt: Option<Tok>)
    requires Shape(s)
    ensures var s1 := Obtain(s, addr, dt).0; forall t :: t in s1.dev && t !in s.dev ==> dt == Some(t) && s1.dev[t].addr == addr
  {
  }

  /* ---- New chunks queue up behind all others ---- */

  /** Every buffer that rests is used for a new chunk before b is. */
  ghost predicate LastInLine(s: Sys, b: BufId)
    requires Shape(s)
  {
    b < |s.ent| && Depth(s, b) == Room(s)
  }

  /** Without x on the list all count. */
  lemma {:induction false} AheadAll(l: seq<BufId>, ent: seq<Entry>, x: BufId)
    requires Below(l, |ent|) && x !in l
    ensures Ahead(l, ent, x) == Ahead(l, ent, |ent|)
  {
    if l != [] { AheadAll(l[1..], ent, x); }
  }

  /** Behind an entry whose I/O goes on another one may join. */
  lemma {:induction false} LastAppend(l: seq<BufId>, ent: seq<Entry>, y: BufId, b: BufId)
    requires Below(l, |ent|) && y < |ent| && ent[y].t.Some? && Ahead(l, ent, b) == Ahead(l, ent, |ent|)
    ensures Below(l + [y], |ent|) && Ahead(l + [y], ent, b) == Ahead(l + [y], ent, |ent|) == Ahead(l, ent, |ent|)
  {
    if l == [] {
      assert (l + [y])[1..] == [];
    } else {
      assert (l + [y])[1..] == l[1..] + [y];
      if l[0] == b { AppendAll(l[1..], ent, y); } else { LastAppend(l[1..], ent, y, b); }
    }
  }

  lemma {:induction false} AppendAll(l: seq<BufId>, ent: seq<Entry>, y: BufId)
    requires Below(l, |ent|) && y < |ent| && ent[y].t.Some?
    ensures Below(l + [y], |ent|) && Ahead(l + [y], ent, |ent|) == Ahead(l, ent, |ent|)
  {
    if l == [] {
      assert (l + [y])[1..] == [];
    } else {
      assert (l + [y])[1..] == l[1..] + [y];
      AppendAll(l[1..], ent, y);
    }
  }

  lemma {:induction false} LastRemove(l: seq<BufId>, ent: seq<Entry>, v: BufId, b: BufId)
    requires Below(l, |ent|) && v != b && Ahead(l, ent, b) == Ahead(l, ent, |ent|)
    ensures Below(Remove(l, v), |ent|) && Ahead(Remove(l, v), ent, b) == Ahead(Remove(l, v), ent, |ent|)
  {
    if l != [] && l[0] != v {
      var r := Remove(l[1..], v);
      assert ([l[0]] + r)[1..] == r;
      if l[0] == b {
        NoneLeft(l[1..], ent, v);
      } else {
        LastRemove(l[1..], ent, v, b);
      }
    } else if l != [] {
      assert l[0] == v;
    }
  }

  lemma {:induction false} NoneLeft(l: seq<BufId>, ent: seq<Entry>, v: BufId)
    requires Below(l, |ent|) && Ahead(l, ent, |ent|) == 0
    ensures Below(Remove(l, v), |ent|) && Ahead(Remove(l, v), ent, |ent|) == 0
  {
    if l != [] && l[0] != v {
      NoneLeft(l[1..], ent, v);
      assert ([l[0]] + Remove(l[1..], v))[1..] == Remove(l[1..], v);
    }
  }

  lemma FreshLast(s: Sys, addr: Chk, t: Tok, b: BufId)
    requires Shape(s) && NoDup(s.free) && s.free != [] && s.free[0] !in s.alist
    ensures var s' := AddFresh(s, addr, t); LastInLine(s', s.free[0]) && (LastInLine(s, b) ==> LastInLine(s', b))
  {
    var s' := AddFresh(s, addr, t);
    JoinLast(s.alist, s.ent, s'.ent, s.free[0]);
    if LastInLine(s, b) { StayLast(s.alist, s.ent, s'.ent, s.free[0], b); }
  }

  lemma EvictLast(s: Sys, id: BufId, addr: Chk, t: Tok, b: BufId)
    requires Shape(s) && NoDup(s.alist) && id in s.alist && s.ent[id].t.None?
    ensures var s' := AddEvict(s, id, addr, t); LastInLine(s', id) && (LastInLine(s, b) ==> LastInLine(s', b))
  {
    var s' := AddEvict(s, id, addr, t);
    RemoveNoDup(s.alist, id);
    JoinLast(Remove(s.alist, id), s.ent, s'.ent, id);
    if LastInLine(s, b) && b != id {
      LastRemove(s.alist, s.ent, id, b);
      StayLast(Remove(s.alist, id), s.ent, s'.ent, id, b);
    }
  }

  lemma DropLast(s: Sys, id: BufId, e: Entry, b: BufId)
    requires Shape(s) && NoDup(s.alist) && id in s.alist && b != id
    ensures LastInLine(s, b) ==> LastInLine(Drop(s, id, e), b)
  {
    var (s', l) := (Drop(s, id, e), Remove(s.alist, id));
    RemoveNoDup(s.alist, id);
    if LastInLine(s, b) {
      LastRemove(s.alist, s.ent, id, b);
      AheadSame(l, s.ent, s'.ent, b);
      AheadSame(l, s.ent, s'.ent, |s.ent|);
    }
  }

  lemma PickFailLast(s: Sys, e: Entry, b: BufId)
    requires Shape(s) && s.free != [] && s.free[0] !in s.alist
    ensures LastInLine(s, b) ==> LastInLine(SetEnt(s, s.free[0], e), b)
  {
    AheadSame(s.alist, s.ent, SetEnt(s, s.free[0], e).ent, b);
    AheadSame(s.alist, s.ent, SetEnt(s, s.free[0], e).ent, |s.ent|);
  }

  /** A chunk that starts loading queues up last, and those that are loading stay there. */
  lemma AddLast(s: Sys, addr: Chk, dt: Option<Tok>, b: BufId, disk: Disk, loose: Option<BufId>)
    requires InvX(s, disk, loose) && b < |s.ent|
    ensures var (s', r) := Add(s, addr, dt);
      (r.Some? ==> LastInLine(s', r.value)) && (LastInLine(s, b) && s.ent[b].t.Some? ==> LastInLine(s', b))
  {
    hide LastInLine, AddFresh, AddEvict, Drop;
    assert NoDup(s.free) && NoDup(s.alist) && Entries(s, disk, loose) by { assert Open(0); }
    if s.free != [] {
      var id := s.free[0];
      assert EntryOk(s.ent[id], s.held[id], id in s.alist, id in s.free, loose == Some(id), disk);
      if dt.Some? { FreshLast(s, addr, dt.value, b); } else { PickFailLast(s, Picked(s.ent[id]).(addr := addr), b); }
    } else if FirstIdle(s.alist, s.ent).Some? {
      var id := FirstIdle(s.alist, s.ent).value;
      if dt.Some? { EvictLast(s, id, addr, dt.value, b); } else if s.ent[b].t.Some? { DropLast(s, id, s.ent[id].(addr := addr), b); }
    }
  }

  lemma JoinLast(l: seq<BufId>, ent: seq<Entry>, ent': seq<Entry>, id: BufId)
    requires Below(l, |ent|) && |ent'| == |ent| && id < |ent| && id !in l && ent'[id].t.Some?
    ensures Below(l + [id], |ent'|) && Ahead(l + [id], ent', id) == Ahead(l + [id], ent', |ent'|)
  {
    AheadAll(l, ent', id);
    LastAppend(l, ent', id, id);
  }

  lemma StayLast(l: seq<BufId>, ent: seq<Entry>, ent': seq<Entry>, id: BufId, b: BufId)
    requires Below(l, |ent|) && |ent'| == |ent| && id < |ent| && ent'[id].t.Some? && (forall i :: 0 <= i < |l| ==> ent'[l[i]].t == ent[l[i]].t)
    requires Ahead(l, ent, b) == Ahead(l, ent, |ent|)
    ensures Below(l + [id], |ent'|) && Ahead(l + [id], ent', b) == Ahead(l + [id], ent', |ent'|)
  {
    AheadSame(l, ent, ent', b);
    AheadSame(l, ent, ent', |ent|);
    LastAppend(l, ent', id, b);
  }

  /** The buffers of all reads that were not under way in dev are last in line. */
  ghost predicate NewLast(dev: map<Tok, Request>, s: Sys)
    requires Shape(s)
  {
    forall t :: t in s.dev && t !in dev ==> LastInLine(s, s.dev[t].buf)
  }

  lemma ReadFor(s: Sys, t: Tok, disk: Disk, loose: Option<BufId>)
    requires InvX(s, disk, loose) && t in s.dev
    ensures s.dev[t].buf < |s.ent| && s.ent[s.dev[t].buf].t == Some(t)
  {
    assert Open(0);
  }

  lemma AddNew(s: Sys, addr: Chk, dt: Option<Tok>)
    requires Shape(s)
    ensures var (s', r) := Add(s, addr, dt);
      forall t :: t in s'.dev ==> (t in s.dev && s'.dev[t] == s.dev[t]) || (r.Some? && s'.dev[t].buf == r.value)
  {
  }

  lemma OneLast(dev: map<Tok, Request>, s: Sys, a: Chk, dt: Option<Tok>, disk: Disk, loose: Option<BufId>)
    requires InvX(s, disk, loose) && NewLast(dev, s)
    ensures NewLast(dev, ReadaheadOne(s, a, dt).0)
  {
    hide Add, Depth;
    if a < s.volsize && Find(s, a).None? {
      var (s', r) := Add(s, a, dt);
      AddNew(s, a, dt);
      if r.Some? { AddLast(s, a, dt, r.value, disk, loose); }
      forall t | t in s'.dev && t !in dev ensures LastInLine(s', s'.dev[t].buf) {
        if t in s.dev && s'.dev[t] == s.dev[t] {
          ReadFor(s, t, disk, loose);
          AddLast(s, a, dt, s.dev[t].buf, disk, loose);
        }
      }
    } else if a < s.volsize {
      RelinkLast(dev, s, a);
    }
  }

  lemma RelinkLast(dev: map<Tok, Request>, s: Sys, a: Chk)
    requires Shape(s) && NewLast(dev, s) && Find(s, a).Some?
    ensures NewLast(dev, Relink(s, a, Find(s, a).value))
  {
    hide Remove;
    var s' := Relink(s, a, Find(s, a).value);
    forall t | t in s'.dev && t !in dev ensures LastInLine(s', s'.dev[t].buf) { assert LastInLine(s, s.dev[t].buf); }
  }

  lemma {:induction false} ReadaheadLast(dev: map<Tok, Request>, s: Sys, addr: Chk, i: nat, dts: seq<Option<Tok>>, loose: BufId, disk: Disk)
    requires InvX(s, disk, Some(loose)) && loose < |s.ent| && s.ent[loose].refcount > 0 && Shape(s) && NewLast(dev, s)
    requires |dts| == s.readahead + 1 && FreshToks(s, dts, i) && addr > 0
    ensures NewLast(dev, Readahead(s, addr, i, dts))
    decreases |dts| - i
  {
    hide ReadaheadOne, NewLast, FreshToks, InvX;
    if i <= s.readahead {
      var (s1, more) := ReadaheadOne(s, addr + i, dts[i]);
      OneLast(dev, s, addr + i, dts[i], disk, Some(loose));
      ReadaheadOneKeeps(s, addr + i, i, dts, loose, disk);
      if more { ReadaheadLast(dev, s1, addr, i + 1, dts, loose, disk); }
    }
  }

  lemma RefLast(s: Sys, id: BufId)
    requires Shape(s) && NoDup(s.alist) && id < |s.ent| && (s.ent[id].refcount > 0 ==> id !in s.alist)
    ensures LastInLine(Ref(s, id), id)
  {
    RemoveNoDup(s.alist, id);
    AheadAll(Ref(s, id).alist, Ref(s, id).ent, id);
  }

  lemma DeliverLast(dev: map<Tok, Request>, s: Sys, id: BufId, ct: Option<Tok>)
    requires Shape(s) && id < |s.ent| && id !in s.alist && NewLast(dev, s) && Shape(Deliver(s, id, ct).0)
    ensures NewLast(dev, Deliver(s, id, ct).0)
  {
    var s' := Deliver(s, id, ct).0;
    forall t | t in s'.dev && t !in dev ensures LastInLine(s', s'.dev[t].buf) {
      var b := s.dev[t].buf;
      assert LastInLine(s, b);
      AheadSame(s.alist, s.ent, s'.ent, b);
      AheadSame(s.alist, s.ent, s'.ent, |s.ent|);
      if s.ent[id].t.Some? && ct.None? && s.ent[id].refcount > 0 { LastAppend(s.alist, s'.ent, id, b); }
    }
  }

  /** The chunks a request makes the device read are last in line: every buffer that rests is used before theirs. */
  lemma NewestLast(s: Sys, addr: Chk, dts: seq<Option<Tok>>, ct: Option<Tok>, disk: Disk)
    requires Inv(s, disk) && Enabled(s, DoAread(addr, dts, ct), disk)
    ensures Shape(Aread(s, addr, dts, ct).0) && NewLast(s.dev, Aread(s, addr, dts, ct).0)
  {
    hide Readahead, Deliver, Add, Ref, Addrs, LastInLine, Obtain;
    StepKeeps(s, DoAread(addr, dts, ct), disk);
    if Readable(s, addr) {
      var (s1, r) := Obtain(s, addr, dts[0]);
      ObtainKeeps(s, addr, dts[0], disk);
      ObtainNew(s, addr, dts[0]);
      if r.Some? {
        var s2 := Ref(s1, r.value);
        RefFacts(s1, r.value);
        RefKeeps(s1, r.value, disk);
        ListedOnce(s1, r.value, disk);
        RefLast(s1, r.value);
        ReadaheadKeeps(s2, addr, 1, dts, r.value, disk);
        ReadaheadLast(s.dev, s2, addr, 1, dts, r.value, disk);
        var s3 := Readahead(s2, addr, 1, dts);
        HeldUnlisted(s3, r.value, disk, Some(r.value));
        DeliverLast(s.dev, s3, r.value, ct);
      }
    }
  }

  lemma ObtainNew(s: Sys, addr: Chk, dt: Option<Tok>)
    requires Shape(s)
    ensures var (s1, r) := Obtain(s, addr, dt);
      && (r.None? ==> s1.dev == s.dev) && forall t :: t in s1.dev && t !in s.dev ==> r.Some? && s1.dev[t].buf == r.value
  {
  }

  lemma ListedOnce(s: Sys, id: BufId, disk: Disk)
    requires Inv(s, disk) && id < |s.ent|
    ensures NoDup(s.alist) && (s.ent[id].refcount > 0 ==> id !in s.alist)
  {
    assert Open(0);
    assert EntryOk(s.ent[id], s.held[id], id in s.alist, id in s.free, false, disk);
  }

  lemma HeldUnlisted(s: Sys, id: BufId, disk: Disk, loose: Option<BufId>)
    requires InvX(s, disk, loose) && id < |s.ent| && s.ent[id].refcount > 0
    ensures id !in s.alist
  {
    assert Open(0);
    assert EntryOk(s.ent[id], s.held[id], id in s.alist, id in s.free, loose == Some(id), disk);
  }
}
