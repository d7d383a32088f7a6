/** What every operation of the cache keeps. */
module CacheProofs {
  import opened Lists
  import opened CacheModel

  /* ---- The hash table ---- */

  lemma TableInsert(clist: seq<seq<BufId>>, a: seq<Chk>, id: BufId, addr: Chk)
    requires TableOk(clist, a) && id < |a| && a[id] == 0 && addr != 0
    requires forall j :: 0 <= j < |a| ==> a[j] != addr
    ensures TableOk(clist[Idx(addr, |clist|) := clist[Idx(addr, |clist|)] + [id]], a[id := addr])
  {
    var h := Idx(addr, |clist|);
    TableList(clist, a, a[id := addr], h, clist[h] + [id]) by {
      assert id !in clist[h];
      NoDupAppend(clist[h], id);
    }
  }

  /** Replacing one collision list is sound when it fits the new chunk assignment. */
  lemma TableList(clist: seq<seq<BufId>>, a: seq<Chk>, a': seq<Chk>, h: nat, l: seq<BufId>)
    requires TableOk(clist, a) && h < |clist| && |a'| == |a| && NoDup(l)
    requires forall id: BufId :: id in l <==> InBucket(a', id, h, |clist|)
    requires forall id: BufId, k: nat :: k != h ==> (InBucket(a, id, k, |clist|) <==> InBucket(a', id, k, |clist|))
    requires forall i, j :: 0 <= i < |a'| && 0 <= j < |a'| && a'[i] != 0 && a'[i] == a'[j] ==> i == j
    ensures TableOk(clist[h := l], a')
  {
  }

  lemma TableRemove(clist: seq<seq<BufId>>, a: seq<Chk>, id: BufId)
    requires TableOk(clist, a) && id < |a| && a[id] != 0
    ensures TableOk(clist[Idx(a[id], |clist|) := Remove(clist[Idx(a[id], |clist|)], id)], a[id := 0])
  {
    var h := Idx(a[id], |clist|);
    RemoveNoDup(clist[h], id);
    TableList(clist, a, a[id := 0], h, Remove(clist[h], id));
  }

  lemma TableRelink(clist: seq<seq<BufId>>, a: seq<Chk>, id: BufId, h: nat)
    requires TableOk(clist, a) && h < |clist| && id in clist[h]
    ensures TableOk(clist[h := [id] + Remove(clist[h], id)], a)
  {
    RemoveNoDup(clist[h], id);
    NoDupAppend(Remove(clist[h], id), id);
    TableList(clist, a, a, h, [id] + Remove(clist[h], id));
  }

  lemma FindSpec(s: Sys, addr: Chk)
    requires Shape(s) && TableOk(s.clist, Addrs(s)) && addr != 0
    ensures Find(s, addr).None? <==> forall j :: 0 <= j < |s.ent| ==> Addrs(s)[j] != addr
    ensures Find(s, addr).Some? ==>
      var id := Find(s, addr).value; id < |s.ent| && Addrs(s)[id] == addr && id in s.clist[HtIndex(s, addr)]
  {
    var h := HtIndex(s, addr);
    if exists j :: 0 <= j < |s.ent| && Addrs(s)[j] == addr {
      var id :| 0 <= id < |s.ent| && Addrs(s)[id] == addr;
      assert id in s.clist[h];
    }
  }

  /* ---- Updates of one entry ---- */

  lemma EntriesPoint(s: Sys, s': Sys, id: BufId, disk: Disk, x: Option<BufId>, x': Option<BufId>)
    requires Entries(s, disk, x) && |s'.ent| == |s.ent| && id < |s.ent|
    requires forall i :: 0 <= i < |s.ent| && i != id ==>
      && s'.ent[i] == s.ent[i] && s'.held[i] == s.held[i]
      && (i in s'.alist <==> i in s.alist) && (i in s'.free <==> i in s.free)
      && (x == Some(i) <==> x' == Some(i))
    requires EntryOk(s'.ent[id], s'.held[id], id in s'.alist, id in s'.free, x' == Some(id), disk)
    ensures Entries(s', disk, x')
  {
  }

  lemma AddrsPoint(s: Sys, s': Sys, id: BufId)
    requires |s'.ent| == |s.ent| && id < |s.ent|
    requires forall i :: 0 <= i < |s.ent| && i != id ==> s'.ent[i].addr == s.ent[i].addr && (i in s'.free <==> i in s.free)
    ensures Addrs(s') == Addrs(s)[id := Addrs(s')[id]]
  {
  }

  lemma AddrsSame(s: Sys, s': Sys)
    requires |s'.ent| == |s.ent| && s'.free == s.free && forall i :: 0 <= i < |s.ent| ==> s'.ent[i].addr == s.ent[i].addr
    ensures Addrs(s') == Addrs(s)
  {
  }

  lemma WaitSame(ent: seq<Entry>, waits: map<Tok, BufId>, id: BufId, e: Entry)
    requires WaitOk(ent, waits) && id < |ent| && e.chain == ent[id].chain
    ensures WaitOk(ent[id := e], waits)
  {
  }

  lemma DevSame(ent: seq<Entry>, dev: map<Tok, Request>, id: BufId, e: Entry)
    requires DevOk(ent, dev) && id < |ent| && e.t == ent[id].t && (e.t.Some? ==> e.addr == ent[id].addr)
    ensures DevOk(ent[id := e], dev)
  {
  }

  lemma DevStart(ent: seq<Entry>, dev: map<Tok, Request>, id: BufId, e: Entry, t: Tok)
    requires DevOk(ent, dev) && id < |ent| && ent[id].t.None? && t !in dev && e.t == Some(t)
    ensures DevOk(ent[id := e], dev[t := Request(id, e.addr)])
  {
  }

  lemma DevEnd(ent: seq<Entry>, dev: map<Tok, Request>, id: BufId, e: Entry, t: Tok)
    requires DevOk(ent, dev) && id < |ent| && ent[id].t == Some(t) && e.t.None?
    ensures DevOk(ent[id := e], dev - {t})
  {
  }

  lemma RefPoint(ent: seq<Entry>, id: BufId, e: Entry)
    requires id < |ent|
    ensures |Referenced(ent[id := e])| ==
      |Referenced(ent)| + (if e.refcount > 0 then 1 else 0) - (if ent[id].refcount > 0 then 1 else 0)
  {
    var r, r' := Referenced(ent), Referenced(ent[id := e]);
    assert ent[id].refcount > 0 <==> id in r;
    forall x ensures x in r' <==> if x == id then e.refcount > 0 else x in r {
      if 0 <= x < |ent| { assert ent[id := e][x] == if x == id then e else ent[x]; }
    }
    hide Referenced;
    PointSize(r, r', id, e.refcount > 0);
  }

  lemma PointSize(r: set<BufId>, r': set<BufId>, id: BufId, on: bool)
    requires forall x :: x in r' <==> if x == id then on else x in r
    ensures |r'| == |r| + (if on then 1 else 0) - (if id in r then 1 else 0)
  {
    if on { assert r' == r + {id}; } else { assert r' == r - {id}; }
  }

  /* ---- Lookup and loading ---- */

  lemma RelinkKeeps(s: Sys, addr: Chk, disk: Disk, x: Option<BufId>)
    requires InvX(s, disk, x) && addr != 0 && Find(s, addr).Some?
    ensures InvX(Relink(s, addr, Find(s, addr).value), disk, x)
  {
    assert Open(0);
    FindSpec(s, addr);
    var id := Find(s, addr).value;
    TableRelink(s.clist, Addrs(s), id, HtIndex(s, addr));
    assert Addrs(Relink(s, addr, id)) == Addrs(s);
  }

  lemma AddFreshTable(s: Sys, addr: Chk, t: Tok)
    requires Shape(s) && NoDup(s.free) && TableOk(s.clist, Addrs(s))
    requires s.free != [] && addr != 0 && Find(s, addr).None?
    ensures var s' := AddFresh(s, addr, t); TableOk(s'.clist, Addrs(s'))
  {
    var id, s' := s.free[0], AddFresh(s, addr, t);
    FindSpec(s, addr);
    TableInsert(s.clist, Addrs(s), id, addr);
    NoDupHead(s.free);
    AddrsPoint(s, s', id);
  }

  lemma AddFreshEntries(s: Sys, addr: Chk, t: Tok, disk: Disk, x: Option<BufId>)
    requires Shape(s) && NoDup(s.free) && NoDup(s.alist) && Entries(s, disk, x)
    requires s.free != [] && addr != 0 && (x.Some? ==> x.value !in s.free)
    ensures var s' := AddFresh(s, addr, t); Entries(s', disk, x) && NoDup(s'.alist) && NoDup(s'.free)
  {
    var id, s' := s.free[0], AddFresh(s, addr, t);
    NoDupHead(s.free);
    assert EntryOk(s.ent[id], s.held[id], id in s.alist, id in s.free, x == Some(id), disk);
    NoDupAppend(s.alist, id);
    EntriesPoint(s, s', id, disk, x, x);
  }

  /** A freshly picked buffer starts loading a chunk nobody has cached. */
  lemma AddFreshKeeps(s: Sys, addr: Chk, t: Tok, disk: Disk, x: Option<BufId>)
    requires InvX(s, disk, x) && s.free != [] && addr != 0 && Find(s, addr).None?
    requires s.Fresh(t) && (x.Some? ==> x.value !in s.free)
    ensures InvX(AddFresh(s, addr, t), disk, x)
  {
    assert Open(0);
    var id, s' := s.free[0], AddFresh(s, addr, t);
    assert EntryOk(s.ent[id], s.held[id], id in s.alist, id in s.free, x == Some(id), disk);
    AddFreshTable(s, addr, t);
    AddFreshEntries(s, addr, t, disk, x);
    WaitSame(s.ent, s.waits, id, s'.ent[id]);
    DevStart(s.ent, s.dev, id, s'.ent[id], t);
    RefPoint(s.ent, id, s'.ent[id]);
  }

  /** The read could not be set up: only the picked object, still in the pool, was touched. */
  lemma PickFailEntries(s: Sys, addr: Chk, disk: Disk, x: Option<BufId>)
    requires Shape(s) && Entries(s, disk, x) && s.free != []
    ensures var s' := SetEnt(s, s.free[0], Picked(s.ent[s.free[0]]).(addr := addr));
      Entries(s', disk, x) && Addrs(s') == Addrs(s)
    ensures s.ent[s.free[0]].refcount == 0 && s.ent[s.free[0]].t.None? && s.ent[s.free[0]].chain == []
  {
    var id := s.free[0];
    var s' := SetEnt(s, id, Picked(s.ent[id]).(addr := addr));
    assert EntryOk(s.ent[id], s.held[id], id in s.alist, id in s.free, x == Some(id), disk);
    EntriesPoint(s, s', id, disk, x, x);
  }

  lemma PickFailKeeps(s: Sys, addr: Chk, disk: Disk, x: Option<BufId>)
    requires InvX(s, disk, x) && s.free != []
    ensures InvX(SetEnt(s, s.free[0], Picked(s.ent[s.free[0]]).(addr := addr)), disk, x)
  {
    hide TableOk, LogOk, WaitOk, DevOk, Referenced, Entries, Addrs, NoDup;
    assert Open(0);
    var id := s.free[0];
    var e := Picked(s.ent[id]).(addr := addr);
    PickFailEntries(s, addr, disk, x);
    WaitSame(s.ent, s.waits, id, e);
    DevSame(s.ent, s.dev, id, e);
    RefPoint(s.ent, id, e);
  }

  lemma DropTable(s: Sys, id: BufId, e: Entry)
    requires Shape(s) && TableOk(s.clist, Addrs(s)) && id < |s.ent| && Addrs(s)[id] != 0
    ensures var s' := Drop(s, id, e); TableOk(s'.clist, Addrs(s'))
  {
    TableRemove(s.clist, Addrs(s), id);
    assert Addrs(Drop(s, id, e)) == Addrs(s)[id := 0];
  }

  lemma DropEntries(s: Sys, s0: Sys, id: BufId, e: Entry, disk: Disk, x: Option<BufId>)
    requires Shape(s) && NoDup(s.free) && NoDup(s.alist) && Entries(s, disk, x)
    requires id < |s.ent| && id !in s.free
    requires e.refcount == 0 && e.t.None? && e.chain == []
    requires s0.ent == s.ent && s0.alist == s.alist && s0.free == s.free && s0.clist == s.clist
    requires s0.held[id] == 0 && forall i :: 0 <= i < |s.ent| && i != id ==> s0.held[i] == s.held[i]
    ensures var s' := Drop(s0, id, e); Entries(s', disk, x) && NoDup(s'.alist) && NoDup(s'.free)
  {
    RemoveNoDup(s.alist, id);
    NoDupAppend(s.free, id);
    EntriesPoint(s, Drop(s0, id, e), id, disk, x, x);
  }

  /** A failed read-ahead, a failed eviction or a flush: an available entry returns to the pool,
      with the device request that filled it, if any, ended. */
  lemma DropKeeps(s: Sys, dev: map<Tok, Request>, id: BufId, e: Entry, disk: Disk, x: Option<BufId>)
    requires InvX(s, disk, x) && id in s.alist && x != Some(id)
    requires e.refcount == 0 && e.t.None? && e.chain == s.ent[id].chain
    requires dev == if s.ent[id].t.None? then s.dev else s.dev - {s.ent[id].t.value}
    ensures InvX(Drop(s.(dev := dev), id, e), disk, x)
  {
    hide TableOk, WaitOk, DevOk, LogOk;
    assert Open(0);
    assert EntryOk(s.ent[id], s.held[id], id in s.alist, id in s.free, x == Some(id), disk);
    var s0 := s.(dev := dev);
    assert Addrs(s0) == Addrs(s);
    DropTable(s0, id, e);
    DropEntries(s, s0, id, e, disk, x);
    WaitSame(s.ent, s.waits, id, e);
    if s.ent[id].t.None? { DevSame(s.ent, s.dev, id, e); } else { DevEnd(s.ent, s.dev, id, e, s.ent[id].t.value); }
    RefPoint(s.ent, id, e);
  }

  lemma AddEvictTable(s: Sys, id: BufId, addr: Chk, t: Tok)
    requires Shape(s) && TableOk(s.clist, Addrs(s)) && id < |s.ent| && Addrs(s)[id] != 0
    requires addr != 0 && Find(s, addr).None?
    ensures var s' := AddEvict(s, id, addr, t); TableOk(s'.clist, Addrs(s'))
  {
    var a, h := Addrs(s), HtIndex(s, s.ent[id].addr);
    FindSpec(s, addr);
    TableRemove(s.clist, a, id);
    var a0: seq<Chk> := a[id := 0];
    TableInsert(s.clist[h := Remove(s.clist[h], id)], a0, id, addr);
    assert Addrs(AddEvict(s, id, addr, t)) == a0[id := addr];
  }

  lemma AddEvictEntries(s: Sys, id: BufId, addr: Chk, t: Tok, disk: Disk, x: Option<BufId>)
    requires Shape(s) && NoDup(s.alist) && Entries(s, disk, x)
    requires id in s.alist && s.ent[id].t.None? && addr != 0 && x != Some(id)
    ensures var s' := AddEvict(s, id, addr, t); Entries(s', disk, x) && NoDup(s'.alist)
  {
    assert EntryOk(s.ent[id], s.held[id], id in s.alist, id in s.free, x == Some(id), disk);
    RemoveNoDup(s.alist, id);
    NoDupAppend(Remove(s.alist, id), id);
    EntriesPoint(s, AddEvict(s, id, addr, t), id, disk, x, x);
  }

  /** Eviction re-addresses only an available entry whose I/O has completed. */
  lemma AddEvictKeeps(s: Sys, id: BufId, addr: Chk, t: Tok, disk: Disk, x: Option<BufId>)
    requires InvX(s, disk, x) && id in s.alist && s.ent[id].t.None? && x != Some(id)
    requires addr != 0 && Find(s, addr).None? && s.Fresh(t)
    ensures InvX(AddEvict(s, id, addr, t), disk, x)
  {
    assert Open(0);
    var s' := AddEvict(s, id, addr, t);
    assert EntryOk(s.ent[id], s.held[id], id in s.alist, id in s.free, x == Some(id), disk);
    AddEvictTable(s, id, addr, t);
    AddEvictEntries(s, id, addr, t, disk, x);
    WaitSame(s.ent, s.waits, id, s'.ent[id]);
    DevStart(s.ent, s.dev, id, s'.ent[id], t);
    RefPoint(s.ent, id, s'.ent[id]);
  }

  /** shfs_cache_add: whatever happens the invariant holds. */
  lemma AddKeeps(s: Sys, addr: Chk, dt: Option<Tok>, disk: Disk, x: Option<BufId>)
    requires InvX(s, disk, x) && addr != 0 && Find(s, addr).None?
    requires dt.Some? ==> s.Fresh(dt.value)
    requires x.Some? ==> x.value < |s.ent| && s.ent[x.value].refcount > 0
    ensures InvX(Add(s, addr, dt).0, disk, x)
  {
    assert Open(0);
    assert x.Some? ==> EntryOk(s.ent[x.value], s.held[x.value], x.value in s.alist, x.value in s.free, true, disk);
    if s.free != [] {
      if dt.None? { PickFailKeeps(s, addr, disk, x); } else { AddFreshKeeps(s, addr, dt.value, disk, x); }
    } else if FirstIdle(s.alist, s.ent).Some? {
      var id := FirstIdle(s.alist, s.ent).value;
      assert EntryOk(s.ent[id], s.held[id], id in s.alist, id in s.free, x == Some(id), disk);
      if dt.None? {
        assert s.(dev := s.dev) == s;
        DropKeeps(s, s.dev, id, s.ent[id].(addr := addr), disk, x);
      } else {
        AddEvictKeeps(s, id, addr, dt.value, disk, x);
      }
    }
  }

  /** A client holds the buffer, or the device is filling it. */
  predicate Pinned(e: Entry) {
    e.refcount > 0 || e.t.Some?
  }

  /** What looking up and loading chunks leaves alone: every pinned entry, first of all. */
  ghost predicate Apart(s: Sys, s': Sys) {
    && |s'.ent| == |s.ent| && s'.held == s.held && s'.waits == s.waits && s'.volsize == s.volsize
    && s'.mounted == s.mounted
    && (forall i :: 0 <= i < |s.ent| && Pinned(s.ent[i]) ==> s'.ent[i] == s.ent[i])
    && (forall t :: t in s.dev ==> t in s'.dev && s'.dev[t] == s.dev[t])
  }

  /** On success the entry is loading addr, without a waiter. */
  lemma AddApart(s: Sys, addr: Chk, dt: Option<Tok>, disk: Disk, x: Option<BufId>)
    requires Shape(s) && Entries(s, disk, x) && (dt.Some? ==> s.Fresh(dt.value))
    ensures var (s', r) := Add(s, addr, dt);
      && Apart(s, s')
      && (r.Some? ==> dt.Some? && s'.ent[r.value].addr == addr && s'.ent[r.value].t == dt)
      && (forall t :: t in s'.dev ==> t in s.dev || dt == Some(t))
  {
    if s.free != [] {
      var id := s.free[0];
      assert EntryOk(s.ent[id], s.held[id], id in s.alist, id in s.free, x == Some(id), disk);
    } else if FirstIdle(s.alist, s.ent).Some? {
      var id := FirstIdle(s.alist, s.ent).value;
      assert EntryOk(s.ent[id], s.held[id], id in s.alist, id in s.free, x == Some(id), disk);
    }
  }

  /* ---- References ---- */

  lemma RefKeeps(s: Sys, id: BufId, disk: Disk)
    requires Inv(s, disk) && id < |s.ent| && Addrs(s)[id] != 0
    ensures InvX(Ref(s, id), disk, Some(id))
  {
    assert Open(0);
    var s' := Ref(s, id);
    assert EntryOk(s.ent[id], s.held[id], id in s.alist, id in s.free, false, disk);
    RemoveNoDup(s.alist, id);
    EntriesPoint(s, s', id, disk, None, Some(id));
    AddrsSame(s, s');
    WaitSame(s.ent, s.waits, id, s'.ent[id]);
    DevSame(s.ent, s.dev, id, s'.ent[id]);
    RefPoint(s.ent, id, s'.ent[id]);
  }

  lemma WaitAdd(ent: seq<Entry>, waits: map<Tok, BufId>, id: BufId, tok: Tok)
    requires WaitOk(ent, waits) && id < |ent| && tok !in waits
    ensures WaitOk(ent[id := ent[id].(chain := ent[id].chain + [tok])], waits[tok := id])
  {
    NoDupAppend(ent[id].chain, tok);
  }

  lemma WaitRemove(ent: seq<Entry>, waits: map<Tok, BufId>, id: BufId, tok: Tok, e: Entry)
    requires WaitOk(ent, waits) && id < |ent| && tok in ent[id].chain && e.chain == Remove(ent[id].chain, tok)
    ensures WaitOk(ent[id := e], waits - {tok})
  {
    RemoveNoDup(ent[id].chain, tok);
  }

  lemma WaitClear(ent: seq<Entry>, waits: map<Tok, BufId>, id: BufId, e: Entry)
    requires WaitOk(ent, waits) && id < |ent| && e.chain == []
    ensures WaitOk(ent[id := e], Without(waits, ent[id].chain))
  {
    var ent', w' := ent[id := e], Without(waits, ent[id].chain);
    assert forall w: Tok, i :: 0 <= i < |ent| && i != id ==> (w in ent[i].chain ==> w !in ent[id].chain);
    assert forall w: Tok :: w in w' <==> w in waits && waits[w] != id;
  }

  lemma LogRegister(reg: multiset<Tok>, ab: multiset<Tok>, n: seq<Note>, waits: map<Tok, BufId>, tok: Tok, id: BufId)
    requires LogOk(reg, ab, n, waits) && tok !in waits
    ensures LogOk(reg + multiset{tok}, ab, n, waits[tok := id])
  {
    assert waits[tok := id].Keys == waits.Keys + {tok};
  }

  lemma LogAbort(reg: multiset<Tok>, ab: multiset<Tok>, n: seq<Note>, waits: map<Tok, BufId>, tok: Tok)
    requires LogOk(reg, ab, n, waits) && tok in waits
    ensures LogOk(reg, ab + multiset{tok}, n, waits - {tok})
  {
    assert waits.Keys == (waits - {tok}).Keys + {tok};
  }

  lemma ChainKeeps(s: Sys, id: BufId, tok: Tok, disk: Disk)
    requires InvX(s, disk, Some(id)) && id < |s.ent| && s.ent[id].t.Some? && tok !in s.waits
    ensures Inv(Chain(s, id, tok), disk)
  {
    hide TableOk, WaitOk, DevOk, LogOk;
    assert Open(0);
    var s' := Chain(s, id, tok);
    assert EntryOk(s.ent[id], s.held[id], id in s.alist, id in s.free, true, disk);
    EntriesPoint(s, s', id, disk, Some(id), None);
    AddrsSame(s, s');
    WaitAdd(s.ent, s.waits, id, tok);
    DevSame(s.ent, s.dev, id, s'.ent[id]);
    RefPoint(s.ent, id, s'.ent[id]);
    LogRegister(s.registered, s.aborted, s.notified, s.waits, tok, id);
  }

  /** The caller may give this reference back: while the read is in flight it must name its own
      waiting token (or be the newest reference, which has none). */
  ghost predicate MayDeref(s: Sys, id: BufId, tok: Option<Tok>, x: Option<BufId>) {
    && id < |s.ent| && s.ent[id].refcount > 0 && (x.Some? ==> x == Some(id) && s.ent[id].t.Some?)
    && (tok.Some? <==> s.ent[id].t.Some? && x.None?) && (tok.Some? ==> tok.value in s.ent[id].chain)
  }

  /** An entry is kept on its last release unless it is loaded and failed, or blank. */
  ghost predicate KeepOk(e: Entry, keep: bool) {
    keep <==> e.t.Some? || !e.invalid
  }

  lemma DerefEntries(s: Sys, id: BufId, tok: Option<Tok>, keep: bool, disk: Disk, x: Option<BufId>)
    requires Shape(s) && NoDup(s.free) && NoDup(s.alist) && Entries(s, disk, x)
    requires MayDeref(s, id, tok, x) && KeepOk(s.ent[id], keep) && NoDup(s.ent[id].chain)
    ensures var s' := Deref(s, id, tok, keep); Entries(s', disk, None) && NoDup(s'.free) && NoDup(s'.alist)
  {
    var s' := Deref(s, id, tok, keep);
    assert EntryOk(s.ent[id], s.held[id], id in s.alist, id in s.free, x == Some(id), disk);
    if tok.Some? { RemoveNoDup(s.ent[id].chain, tok.value); }
    RemoveNoDup(s.alist, id);
    NoDupAppend(s.alist, id);
    NoDupAppend(s.free, id);
    EntriesPoint(s, s', id, disk, x, None);
  }

  lemma DerefTable(s: Sys, id: BufId, tok: Option<Tok>, keep: bool)
    requires Shape(s) && TableOk(s.clist, Addrs(s)) && id < |s.ent| && s.ent[id].refcount > 0 && id !in s.free
    ensures var s' := Deref(s, id, tok, keep); Shape(s') && TableOk(s'.clist, Addrs(s'))
  {
    var s' := Deref(s, id, tok, keep);
    AddrsPoint(s, s', id);
    if s.ent[id].refcount == 1 && !keep && s.ent[id].addr != 0 {
      TableRemove(s.clist, Addrs(s), id);
    }
  }

  lemma DerefLog(s: Sys, id: BufId, tok: Option<Tok>, keep: bool, x: Option<BufId>)
    requires Shape(s) && MayDeref(s, id, tok, x) && WaitOk(s.ent, s.waits) && DevOk(s.ent, s.dev)
    requires LogOk(s.registered, s.aborted, s.notified, s.waits)
    ensures var s' := Deref(s, id, tok, keep);
      WaitOk(s'.ent, s'.waits) && DevOk(s'.ent, s'.dev) && LogOk(s'.registered, s'.aborted, s'.notified, s'.waits)
  {
    var s' := Deref(s, id, tok, keep);
    DevSame(s.ent, s.dev, id, s'.ent[id]);
    if tok.Some? {
      WaitRemove(s.ent, s.waits, id, tok.value, s'.ent[id]);
      LogAbort(s.registered, s.aborted, s.notified, s.waits, tok.value);
    } else {
      WaitSame(s.ent, s.waits, id, s'.ent[id]);
    }
  }

  lemma DerefKeeps(s: Sys, id: BufId, tok: Option<Tok>, keep: bool, disk: Disk, x: Option<BufId>)
    requires InvX(s, disk, x) && MayDeref(s, id, tok, x) && KeepOk(s.ent[id], keep)
    ensures Inv(Deref(s, id, tok, keep), disk)
  {
    assert Open(0);
    var s' := Deref(s, id, tok, keep);
    assert EntryOk(s.ent[id], s.held[id], id in s.alist, id in s.free, x == Some(id), disk);
    DerefEntries(s, id, tok, keep, disk, x);
    DerefTable(s, id, tok, keep);
    DerefLog(s, id, tok, keep, x);
    RefPoint(s.ent, id, s'.ent[id]);
  }

  /* ---- Completion and flush ---- */

  lemma WaitsSplit(waits: map<Tok, BufId>, chain: seq<Tok>)
    requires NoDup(chain) && forall w :: w in chain ==> w in waits
    ensures multiset(waits.Keys) == multiset(Without(waits, chain).Keys) + multiset(chain)
  {
    var w', c := Without(waits, chain).Keys, set w | w in chain;
    NoDupMultiset(chain);
    assert waits.Keys == w' + c && w' !! c;
    assert multiset(w' + c) == multiset(w') + multiset(c);
  }

  lemma NotesToks(n: seq<Note>, chain: seq<Tok>, ret: int)
    ensures multiset(NoteToks(n + Notes(chain, ret))) == multiset(NoteToks(n)) + multiset(chain)
  {
    assert NoteToks(n + Notes(chain, ret)) == NoteToks(n) + chain;
  }

  /** Notifying a chain moves its tokens, each once, from the waiting to the notified. */
  lemma LogNotify(s: Sys, id: BufId, ret: int)
    requires WaitOk(s.ent, s.waits) && LogOk(s.registered, s.aborted, s.notified, s.waits) && id < |s.ent|
    ensures LogOk(s.registered, s.aborted, s.notified + Notes(s.ent[id].chain, ret), Without(s.waits, s.ent[id].chain))
  {
    WaitsSplit(s.waits, s.ent[id].chain);
    NotesToks(s.notified, s.ent[id].chain, ret);
  }

  /** On success the device has put the chunk it was asked for into the buffer. */
  ghost predicate DeviceContract(s: Sys, t: Tok, ret: int, disk: Disk)
    requires t in s.dev && s.dev[t].buf < |s.ent|
  {
    ret >= 0 ==> s.ent[s.dev[t].buf].buf == disk(s.dev[t].addr)
  }

  lemma NotifyEntries(s: Sys, t: Tok, ret: int, disk: Disk)
    requires Shape(s) && Entries(s, disk, None) && DevOk(s.ent, s.dev) && t in s.dev
    requires DeviceContract(s, t, ret, disk) && !(s.ent[s.dev[t].buf].refcount == 0 && ret < 0)
    ensures Entries(Complete(s, t, ret), disk, None)
  {
    var id := s.dev[t].buf;
    assert EntryOk(s.ent[id], s.held[id], id in s.alist, id in s.free, false, disk);
    EntriesPoint(s, Complete(s, t, ret), id, disk, None, None);
  }

  lemma CompleteKeeps(s: Sys, t: Tok, ret: int, disk: Disk)
    requires Inv(s, disk) && t in s.dev && DeviceContract(s, t, ret, disk)
    ensures Inv(Complete(s, t, ret), disk)
  {
    assert Open(0);
    var id := s.dev[t].buf;
    assert EntryOk(s.ent[id], s.held[id], id in s.alist, id in s.free, false, disk);
    if s.ent[id].refcount == 0 && ret < 0 {
      DropKeeps(s, s.dev - {t}, id, s.ent[id].(t := None, invalid := true), disk, None);
    } else {
      NotifyKeeps(s, t, ret, disk);
    }
  }

  lemma DevEntry(ent: seq<Entry>, dev: map<Tok, Request>, t: Tok)
    requires DevOk(ent, dev) && t in dev
    ensures dev[t].buf < |ent| && ent[dev[t].buf].t == Some(t)
  {
  }

  lemma NotifyKeeps(s: Sys, t: Tok, ret: int, disk: Disk)
    requires Inv(s, disk) && t in s.dev && DeviceContract(s, t, ret, disk)
    requires !(s.ent[s.dev[t].buf].refcount == 0 && ret < 0)
    ensures Inv(Complete(s, t, ret), disk)
  {
    hide TableOk, WaitOk, LogOk, DevOk, Entries, Referenced, Notes, Without, Addrs;
    assert Open(0);
    var id, s' := s.dev[t].buf, Complete(s, t, ret);
    DevEntry(s.ent, s.dev, t);
    NotifyEntries(s, t, ret, disk);
    AddrsSame(s, s');
    WaitClear(s.ent, s.waits, id, s'.ent[id]);
    DevEnd(s.ent, s.dev, id, s'.ent[id], t);
    LogNotify(s, id, ret);
    RefPoint(s.ent, id, s'.ent[id]);
  }

  lemma FlushFirstKeeps(s: Sys, ret: int, disk: Disk)
    requires Inv(s, disk) && s.alist != []
    ensures Inv(FlushFirst(s, ret), disk)
  {
    assert Open(0);
    var id := s.alist[0];
    assert EntryOk(s.ent[id], s.held[id], id in s.alist, id in s.free, false, disk);
    if s.ent[id].t.None? {
      assert s.(dev := s.dev) == s;
      DropKeeps(s, s.dev, id, s.ent[id], disk, None);
    } else {
      DropKeeps(s, s.dev - {s.ent[id].t.value}, id, s.ent[id].(t := None, invalid := ret < 0), disk, None);
    }
  }

  /* ---- Blank buffers ---- */

  lemma BlankFreshEntries(s: Sys, disk: Disk)
    requires Shape(s) && NoDup(s.free) && Entries(s, disk, None) && s.free != []
    ensures Entries(BlankFresh(s), disk, None) && NoDup(BlankFresh(s).free) && Addrs(BlankFresh(s)) == Addrs(s)
    ensures s.ent[s.free[0]].refcount == 0 && s.ent[s.free[0]].t.None? && s.ent[s.free[0]].chain == []
  {
    var id, s' := s.free[0], BlankFresh(s);
    NoDupHead(s.free);
    assert EntryOk(s.ent[id], s.held[id], id in s.alist, id in s.free, false, disk);
    EntriesPoint(s, s', id, disk, None, None);
    AddrsPoint(s, s', id);
  }

  lemma BlankFreshKeeps(s: Sys, disk: Disk)
    requires Inv(s, disk) && s.free != []
    ensures Inv(BlankFresh(s), disk)
  {
    hide TableOk, WaitOk, LogOk, DevOk, Referenced, Entries, Addrs, NoDup;
    assert Open(0);
    var id, s' := s.free[0], BlankFresh(s);
    BlankFreshEntries(s, disk);
    WaitSame(s.ent, s.waits, id, s'.ent[id]);
    DevSame(s.ent, s.dev, id, s'.ent[id]);
    RefPoint(s.ent, id, s'.ent[id]);
  }

  lemma BlankEvictEntries(s: Sys, id: BufId, disk: Disk)
    requires Shape(s) && NoDup(s.alist) && Entries(s, disk, None) && id in s.alist && s.ent[id].t.None?
    ensures var s' := BlankEvict(s, id);
      Entries(s', disk, None) && NoDup(s'.alist) && Addrs(s') == Addrs(s)[id := 0] && Addrs(s)[id] == s.ent[id].addr != 0
    ensures s.ent[id].refcount == 0 && s.ent[id].chain == []
  {
    var s' := BlankEvict(s, id);
    assert EntryOk(s.ent[id], s.held[id], id in s.alist, id in s.free, false, disk);
    RemoveNoDup(s.alist, id);
    EntriesPoint(s, s', id, disk, None, None);
    AddrsPoint(s, s', id);
  }

  lemma BlankEvictKeeps(s: Sys, id: BufId, disk: Disk)
    requires Inv(s, disk) && id in s.alist && s.ent[id].t.None?
    ensures Inv(BlankEvict(s, id), disk)
  {
    hide WaitOk, LogOk, DevOk, Referenced, Entries, NoDup, TableOk, Addrs;
    assert Open(0);
    var s' := BlankEvict(s, id);
    BlankEvictEntries(s, id, disk);
    TableRemove(s.clist, Addrs(s), id);
    WaitSame(s.ent, s.waits, id, s'.ent[id]);
    DevSame(s.ent, s.dev, id, s'.ent[id]);
    RefPoint(s.ent, id, s'.ent[id]);
  }

  /* ---- shfs_cache_aread ---- */

  /** The tokens the pools hand out from position i on are new and distinct. */
  ghost predicate FreshToks(s: Sys, dts: seq<Option<Tok>>, i: nat) {
    && (forall j :: i <= j < |dts| && dts[j].Some? ==> s.Fresh(dts[j].value))
    && (forall j, k :: 0 <= j < k < |dts| && dts[j].Some? ==> dts[j] != dts[k])
  }

  lemma ReadaheadOneKeeps(s: Sys, a: Chk, i: nat, dts: seq<Option<Tok>>, x: BufId, disk: Disk)
    requires InvX(s, disk, Some(x)) && x < |s.ent| && s.ent[x].refcount > 0
    requires i < |dts| && FreshToks(s, dts, i) && a > 0
    ensures var s1 := ReadaheadOne(s, a, dts[i]).0; InvX(s1, disk, Some(x)) && Apart(s, s1) && FreshToks(s1, dts, i + 1)
  {
    if a < s.volsize {
      if Find(s, a).Some? {
        RelinkKeeps(s, a, disk, Some(x));
      } else {
        AddKeeps(s, a, dts[i], disk, Some(x));
        assert Entries(s, disk, Some(x)) by { assert Open(0); }
        AddApart(s, a, dts[i], disk, Some(x));
      }
    }
  }

  /** The read-ahead of a request never touches the entry the request has just referenced, nor any
      other referenced one. */
  lemma {:induction false} ReadaheadKeeps(s: Sys, addr: Chk, i: nat, dts: seq<Option<Tok>>, x: BufId, disk: Disk)
    requires InvX(s, disk, Some(x)) && x < |s.ent| && s.ent[x].refcount > 0
    requires |dts| == s.readahead + 1 && FreshToks(s, dts, i) && addr > 0
    ensures var s' := Readahead(s, addr, i, dts); InvX(s', disk, Some(x)) && Apart(s, s')
    decreases |dts| - i
  {
    if i <= s.readahead {
      var (s1, more) := ReadaheadOne(s, addr + i, dts[i]);
      ReadaheadOneKeeps(s, addr + i, i, dts, x, disk);
      if more { ReadaheadKeeps(s1, addr, i + 1, dts, x, disk); }
    }
  }

  lemma DeliverKeeps(s: Sys, id: BufId, ct: Option<Tok>, disk: Disk)
    requires InvX(s, disk, Some(id)) && id < |s.ent| && s.ent[id].refcount > 0
    requires ct.Some? ==> ct.value !in s.waits
    ensures Inv(Deliver(s, id, ct).0, disk)
  {
    assert Open(0);
    if s.ent[id].t.None? {
      forall i | 0 <= i < |s.ent|
        ensures EntryOk(s.ent[i], s.held[i], i in s.alist, i in s.free, false, disk)
      {
        assert EntryOk(s.ent[i], s.held[i], i in s.alist, i in s.free, Some(id) == Some(i), disk);
      }
    } else if ct.Some? {
      ChainKeeps(s, id, ct.value, disk);
    } else {
      DerefKeeps(s, id, None, true, disk, Some(id));
    }
  }

  lemma FoundKeeps(s: Sys, addr: Chk, disk: Disk)
    requires Inv(s, disk) && addr > 0 && Find(s, addr).Some?
    ensures var s1 := Relink(s, addr, Find(s, addr).value);
      Inv(s1, disk) && Apart(s, s1) && Addrs(s1)[Find(s, addr).value] == addr
  {
    var s1 := Relink(s, addr, Find(s, addr).value);
    RelinkKeeps(s, addr, disk, None);
    assert Addrs(s)[Find(s, addr).value] == addr by { assert Open(0); FindSpec(s, addr); }
    AddrsSame(s, s1);
  }

  lemma NewKeeps(s: Sys, addr: Chk, dt: Option<Tok>, disk: Disk)
    requires Inv(s, disk) && addr > 0 && (dt.Some? ==> s.Fresh(dt.value)) && Find(s, addr).None?
    ensures var (s1, r) := Add(s, addr, dt);
      && Inv(s1, disk) && Apart(s, s1)
      && (r.Some? ==> Addrs(s1)[r.value] == addr)
      && (forall t :: t in s1.dev ==> t in s.dev || dt == Some(t))
  {
    hide Add;
    AddKeeps(s, addr, dt, disk, None);
    assert Entries(s, disk, None) by { assert Open(0); }
    AddApart(s, addr, dt, disk, None);
    var (s1, r) := Add(s, addr, dt);
    if r.Some? {
      assert EntryOk(s1.ent[r.value], s1.held[r.value], r.value in s1.alist, r.value in s1.free, false, disk) by { assert Open(0); }
    }
  }

  lemma ObtainKeeps(s: Sys, addr: Chk, dt: Option<Tok>, disk: Disk)
    requires Inv(s, disk) && addr > 0 && (dt.Some? ==> s.Fresh(dt.value))
    ensures var (s1, r) := Obtain(s, addr, dt);
      && Inv(s1, disk) && Apart(s, s1)
      && (r.Some? ==> Addrs(s1)[r.value] == addr)
      && (forall t :: t in s1.dev ==> t in s.dev || dt == Some(t))
  {
    hide Add, Relink;
    if Find(s, addr).Some? { FoundKeeps(s, addr, disk); FoundDev(s, addr); } else { NewKeeps(s, addr, dt, disk); }
  }

  lemma FoundDev(s: Sys, addr: Chk)
    requires Shape(s) && Find(s, addr).Some?
    ensures Relink(s, addr, Find(s, addr).value).dev == s.dev
  {
  }

  /** From the entry on: reference, read-ahead, delivery. */
  lemma ServeKeeps(s: Sys, id: BufId, addr: Chk, dts: seq<Option<Tok>>, ct: Option<Tok>, disk: Disk)
    requires Inv(s, disk) && |dts| == s.readahead + 1 && FreshToks(s, dts, 1)
    requires id < |s.ent| && Addrs(s)[id] != 0 && addr > 0 && (ct.Some? ==> ct.value !in s.waits)
    ensures Inv(Deliver(Readahead(Ref(s, id), addr, 1, dts), id, ct).0, disk)
  {
    var s2 := Ref(s, id);
    RefKeeps(s, id, disk);
    ReadaheadKeeps(s2, addr, 1, dts, id, disk);
    DeliverKeeps(Readahead(s2, addr, 1, dts), id, ct, disk);
  }

  lemma AreadKeeps(s: Sys, addr: Chk, dts: seq<Option<Tok>>, ct: Option<Tok>, disk: Disk)
    requires Inv(s, disk) && |dts| == s.readahead + 1 && FreshToks(s, dts, 0)
    requires ct.Some? ==> ct.value !in s.waits
    ensures Inv(Aread(s, addr, dts, ct).0, disk)
  {
    if s.mounted && 0 < addr <= s.volsize {
      var (s1, r) := Obtain(s, addr, dts[0]);
      ObtainKeeps(s, addr, dts[0], disk);
      if r.Some? { ServeKeeps(s1, r.value, addr, dts, ct, disk); }
    }
  }
}
