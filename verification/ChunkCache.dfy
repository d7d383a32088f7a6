/** shfs_cache.c as the program runs it: one object with its entries, counters and linked lists, which
    the operations update in place.  The ghost field st is the state of CacheModel they stand for.  Every
    operation is proved to be the step of the same name there, so what is proved about whole runs holds of
    it; every element unlinked from a list is shown to be on it. */
module ChunkCache {
  import opened Lists
  import opened CacheModel
  import opened CacheProofs
  import opened CacheRuns
  import M = CacheModel
  import D = DList

  /** struct shfs_cache_entry without its links. */
  datatype Cce = Cce(addr: Chk, refcount: nat, invalid: bool, t: Option<Tok>, buf: seq<Byte>)

  function EntryOf(c: Cce, chain: seq<Tok>): Entry {
    Entry(c.addr, c.refcount, c.invalid, c.t, chain, c.buf)
  }

  class ChunkCache {
    const alist: D.DList<nat>          // available entries
    const htable: seq<D.DList<nat>>    // collision lists
    const chains: seq<D.DList<nat>>    // the AIO chain of each entry
    const mounted: bool
    const volsize: Chk
    const readahead: nat
    var cce: seq<Cce>
    var free: seq<BufId>               // the pool
    var nbEntries: int
    var nbRef: int
    var dev: map<Tok, Request>         // what the device knows
    var waits: map<Tok, BufId>         // what the waiting callers know
    ghost const lists: set<D.DList<nat>>
    ghost var st: Sys

    /** All lists are different objects. */
    ghost predicate Apart() {
      && alist in lists
      && (forall h :: 0 <= h < |htable| ==> htable[h] in lists && htable[h] != alist)
      && (forall i :: 0 <= i < |chains| ==> chains[i] in lists && chains[i] != alist)
      && (forall h, i :: 0 <= h < |htable| && 0 <= i < |chains| ==> htable[h] != chains[i])
      && (forall h, k :: 0 <= h < k < |htable| ==> htable[h] != htable[k])
      && (forall i, k :: 0 <= i < k < |chains| ==> chains[i] != chains[k])
    }

    ghost predicate Listed()
      requires Apart()
      reads this, lists
    {
      && alist.Valid() && alist.els == st.alist
      && |htable| == |st.clist| && (forall h :: 0 <= h < |htable| ==> htable[h].Valid() && htable[h].els == st.clist[h])
    }

    ghost predicate Entered()
      requires Apart()
      reads this, lists
    {
      && |cce| == |chains| == |st.ent|
      && (forall i :: 0 <= i < |chains| ==> chains[i].Valid() && st.ent[i] == EntryOf(cce[i], chains[i].els))
    }

    /** The object's fields and lists stand for st. */
    ghost predicate Valid()
      reads this, lists
    {
      && Apart() && Listed() && Entered()
      && free == st.free && nbEntries == st.nbEntries && nbRef == st.nbRef && dev == st.dev && waits == st.waits
      && mounted == st.mounted && volsize == st.volsize && readahead == st.readahead
    }

    constructor (n: nat, htlen: nat, volsize0: Chk, readahead0: nat)
      requires htlen > 0
      ensures Valid() && fresh(lists) && st == Init(n, htlen, volsize0, readahead0)
    {
      hide D.DList.Valid;
      var a := new D.DList<nat>();
      var t := NewLists(htlen);
      var c := NewLists(n);
      alist, htable, chains, lists := a, t, c, {a} + (set l | l in t) + (set l | l in c);
      mounted, volsize, readahead := true, volsize0, readahead0;
      cce, free := seq(n, _ => Cce(0, 0, true, None, [])), seq(n, i => i);
      nbEntries, nbRef, dev, waits := 0, 0, map[], map[];
      st := Init(n, htlen, volsize0, readahead0);
    }

    /* ---- Reading and single updates of the structure ---- */

    function Get(id: BufId): (c: Cce)
      requires Valid() && id < |st.ent|
      reads this, lists
      ensures EntryOf(c, st.ent[id].chain) == st.ent[id]
    {
      cce[id]
    }

    /** shfs_cache_htindex */
    function Slot(addr: Chk): (h: nat)
      requires Valid() && |st.clist| > 0
      reads this, lists
      ensures h == HtIndex(st, addr)
    {
      Idx(addr, |htable|)
    }

    /** The checks of a chunk address. */
    function MayRead(addr: Chk): (b: bool)
      requires Valid()
      reads this, lists
      ensures b <==> Readable(st, addr)
    {
      mounted && addr != 0 && addr <= volsize
    }

    function Waiting(tok: Tok): (b: bool)
      requires Valid()
      reads this, lists
      ensures b <==> tok in st.waits
    {
      tok in waits
    }

    /** The volume does not change. */
    lemma Fixed()
      requires Valid()
      ensures st.mounted == mounted && st.volsize == volsize
    {
    }

    /** The bookkeeping of a reference that a client gets or gives back. */
    method SetRef(id: BufId, n: nat)
      requires Valid() && id < |st.ent|
      modifies this`cce, this`st
      ensures Valid() && st == old(st).(ent := old(st).ent[id := old(st).ent[id].(refcount := n)],
        held := if n > old(st).ent[id].refcount then old(st).held + multiset{id} else old(st).held - multiset{id})
    {
      ghost var up := n > st.ent[id].refcount;
      SetCce(id, cce[id].(refcount := n));
      st := st.(held := if up then st.held + multiset{id} else st.held - multiset{id});
    }

    method AddNbRef(d: int)
      requires Valid()
      modifies this`nbRef, this`st
      ensures Valid() && st == old(st).(nbRef := old(st).nbRef + d)
    {
      nbRef := nbRef + d;
      st := st.(nbRef := nbRef);
    }

    method SetDev(d: map<Tok, Request>)
      requires Valid()
      modifies this`dev, this`st
      ensures Valid() && st == old(st).(dev := d)
    {
      dev := d;
      st := st.(dev := d);
    }

    function Dev(): (d: map<Tok, Request>)
      requires Valid()
      reads this, lists
      ensures d == st.dev
    {
      dev
    }

    method SetCce(id: BufId, c: Cce)
      requires Valid() && id < |st.ent|
      modifies this`cce, this`st
      ensures Valid() && st == old(st).(ent := old(st).ent[id := EntryOf(c, old(st).ent[id].chain)])
    {
      cce := cce[id := c];
      st := st.(ent := st.ent[id := EntryOf(c, st.ent[id].chain)]);
    }

    method AlistAppend(id: BufId)
      requires Valid() && id !in st.alist
      modifies this`st, lists
      ensures Valid() && st == old(st).(alist := old(st).alist + [id])
    {
      alist.Append(id);
      st := st.(alist := alist.els);
    }

    method AlistUnlink(id: BufId)
      requires Valid() && id in st.alist
      modifies this`st, lists
      ensures Valid() && st == old(st).(alist := Remove(old(st).alist, id))
    {
      alist.Unlink(id);
      st := st.(alist := alist.els);
    }

    method AlistTail(id: BufId)
      requires Valid() && id in st.alist
      modifies this`st, lists
      ensures Valid() && st == old(st).(alist := Remove(old(st).alist, id) + [id])
    {
      alist.RelinkTail(id);
      st := st.(alist := alist.els);
    }

    method ClistAppend(h: nat, id: BufId)
      requires Valid() && h < |st.clist| && id !in st.clist[h]
      modifies this`st, lists
      ensures Valid() && st == old(st).(clist := old(st).clist[h := old(st).clist[h] + [id]])
    {
      htable[h].Append(id);
      st := st.(clist := st.clist[h := htable[h].els]);
    }

    method ClistUnlink(h: nat, id: BufId)
      requires Valid() && h < |st.clist| && id in st.clist[h]
      modifies this`st, lists
      ensures Valid() && st == old(st).(clist := old(st).clist[h := Remove(old(st).clist[h], id)])
    {
      htable[h].Unlink(id);
      st := st.(clist := st.clist[h := htable[h].els]);
    }

    method ClistHead(h: nat, id: BufId)
      requires Valid() && h < |st.clist| && id in st.clist[h]
      modifies this`st, lists
      ensures Valid() && st == old(st).(clist := old(st).clist[h := [id] + Remove(old(st).clist[h], id)])
    {
      htable[h].RelinkHead(id);
      st := st.(clist := st.clist[h := htable[h].els]);
    }

    method ChainAppend(id: BufId, tok: Tok)
      requires Valid() && id < |st.ent| && tok !in st.ent[id].chain
      modifies this`waits, this`st, lists
      ensures Valid() && st == Chain(old(st), id, tok)
    {
      chains[id].Append(tok);
      waits := waits[tok := id];
      st := Chain(st, id, tok);
    }

    method ChainRemove(id: BufId, tok: Tok)
      requires Valid() && id < |st.ent| && tok in st.ent[id].chain
      modifies this`st, lists
      ensures Valid() && st == old(st).(ent := old(st).ent[id := old(st).ent[id].(chain := Remove(old(st).ent[id].chain, tok))])
    {
      hide Remove;
      chains[id].Unlink(tok);
      st := st.(ent := st.ent[id := EntryOf(cce[id], chains[id].els)]);
    }

    method Forget(tok: Tok)
      requires Valid()
      modifies this`waits, this`st
      ensures Valid() && st == old(st).(waits := old(st).waits - {tok}, aborted := old(st).aborted + multiset{tok})
    {
      waits := waits - {tok};
      st := st.(waits := waits, aborted := st.aborted + multiset{tok});
    }

    /** The abort of a waiting token. */
    method ChainUnlink(id: BufId, tok: Tok)
      requires Valid() && id < |st.ent| && tok in st.ent[id].chain
      modifies this`waits, this`st, lists
      ensures Valid()
      ensures st == old(st).(ent := old(st).ent[id := old(st).ent[id].(chain := Remove(old(st).ent[id].chain, tok))],
        waits := old(st).waits - {tok}, aborted := old(st).aborted + multiset{tok})
    {
      hide Valid, Remove;
      ChainRemove(id, tok);
      Forget(tok);
    }

    method ChainReset(id: BufId)
      requires Valid() && id < |st.ent|
      modifies this`st, lists
      ensures Valid() && st == old(st).(ent := old(st).ent[id := old(st).ent[id].(chain := [])])
      ensures chains[id].next == old(chains[id].next)
    {
      chains[id].Reset();
      st := st.(ent := st.ent[id := st.ent[id].(chain := [])]);
    }

    /** shfs_cache_pick_cce */
    method Pick() returns (r: Option<BufId>)
      requires Valid() && Shape(st)
      modifies this, lists
      ensures Valid() && (r.None? <==> old(st).free == [])
      ensures r.None? ==> st == old(st)
      ensures r.Some? ==> r.value == old(st).free[0] && r.value < |old(st).ent| && st == old(st).(free := old(st).free[1..], nbEntries := old(st).nbEntries + 1,
        ent := old(st).ent[r.value := Picked(old(st).ent[r.value])])
    {
      if free == [] { return None; }
      var id := free[0];
      ChainReset(id);
      SetCce(id, cce[id].(refcount := 0, invalid := true, t := None));
      free, nbEntries := free[1..], nbEntries + 1;
      st := st.(free := free, nbEntries := nbEntries);
      assert st.ent == old(st).ent[id := st.ent[id]];
      return Some(id);
    }

    /** shfs_cache_put_cce */
    method Put(id: BufId)
      requires Valid()
      modifies this`free, this`nbEntries, this`st
      ensures Valid() && st == old(st).(free := [id] + old(st).free, nbEntries := old(st).nbEntries - 1)
    {
      free, nbEntries := [id] + free, nbEntries - 1;
      st := st.(free := free, nbEntries := nbEntries);
    }

    /** shfs_cache_unlink: off its collision list and off the available list. */
    method Unlink(id: BufId)
      requires Valid() && |st.clist| > 0 && id < |st.ent| && Cached(st, id) && id in st.alist
      modifies this`st, lists
      ensures Valid()
      ensures var h := HtIndex(old(st), old(st).ent[id].addr);
        st == old(st).(clist := old(st).clist[h := Remove(old(st).clist[h], id)], alist := Remove(old(st).alist, id))
    {
      hide Valid;
      ClistUnlink(Slot(Get(id).addr), id);
      AlistUnlink(id);
    }

    /* ---- Lookup and loading ---- */

    /** shfs_cache_find: scans one collision list and moves the hit to its head. */
    method Find(addr: Chk) returns (r: Option<BufId>)
      requires Valid() && Shape(st)
      modifies this`st, lists
      ensures Valid() && r == M.Find(old(st), addr)
      ensures st == if r.Some? then Relink(old(st), addr, r.value) else old(st)
    {
      var h := Slot(addr);
      var l := htable[h];
      ghost var els := st.clist[h];
      var el := l.first;
      ghost var k := 0;
      while el.Some?
        invariant Valid() && st == old(st) && k <= |els| && el == D.At(els, k)
        invariant FindIn(els, st.ent, addr) == FindIn(els[k..], st.ent, addr)
        decreases |els| - k
      {
        assert els[k..][0] == el.value && els[k..][1..] == els[k + 1..];
        if cce[el.value].addr == addr {
          ClistHead(h, el.value);
          return el;
        }
        l.Follow(k);
        el, k := l.next[el.value], k + 1;
      }
      return None;
    }

    /** The eviction scan: the first available entry whose I/O is done. */
    method Victim() returns (r: Option<BufId>)
      requires Valid() && Shape(st)
      ensures r == FirstIdle(st.alist, st.ent)
    {
      var el := alist.first;
      ghost var k := 0;
      while el.Some?
        invariant k <= |alist.els| && el == D.At(alist.els, k)
        invariant FirstIdle(st.alist, st.ent) == FirstIdle(st.alist[k..], st.ent)
        decreases |alist.els| - k
      {
        assert st.alist[k..][0] == el.value && st.alist[k..][1..] == st.alist[k + 1..];
        if cce[el.value].t.None? { return el; }
        alist.Follow(k);
        el, k := alist.next[el.value], k + 1;
      }
      return None;
    }

    /** The second half of shfs_cache_add: entry id, at the tail of the available list and on no
        collision list, starts loading addr, or goes back to the pool if that cannot be set up. */
    method Launch(id: BufId, addr: Chk, dt: Option<Tok>, ghost rest: seq<BufId>)
      requires Valid() && |st.clist| > 0 && id < |st.ent| && st.alist == rest + [id] && id !in rest
      requires forall h :: 0 <= h < |st.clist| ==> id !in st.clist[h]
      modifies this, lists
      ensures Valid()
      ensures dt.None? ==> st == old(st).(ent := old(st).ent[id := old(st).ent[id].(addr := addr)],
        alist := rest, free := [id] + old(st).free, nbEntries := old(st).nbEntries - 1)
      ensures dt.Some? ==> var h := HtIndex(old(st), addr);
        st == old(st).(ent := old(st).ent[id := old(st).ent[id].(addr := addr, t := dt)],
          clist := old(st).clist[h := old(st).clist[h] + [id]], dev := old(st).dev[dt.value := Request(id, addr)])
    {
      hide Valid;
      SetCce(id, Get(id).(addr := addr));
      if dt.None? {
        RemoveLast(rest, id);
        AlistUnlink(id);
        Put(id);
      } else {
        SetCce(id, Get(id).(t := dt));
        SetDev(Dev()[dt.value := Request(id, addr)]);
        ClistAppend(Slot(addr), id);
        assert st.ent == old(st).ent[id := st.ent[id]];
      }
    }

    /** shfs_cache_add; dt is what shfs_aread_chunk answers, tried says whether it was asked. */
    method Add(addr: Chk, dt: Option<Tok>) returns (r: Option<BufId>, tried: bool)
      requires Valid() && AddReady(st)
      modifies this, lists
      ensures Valid() && (st, r) == M.Add(old(st), addr, dt) && (tried <==> !Exhausted(old(st)))
    {
      hide Valid;
      var p := Pick();
      if p.Some? {
        var id := p.value;
        AlistAppend(id);
        Launch(id, addr, dt, old(st).alist);
        assert st.ent == old(st).ent[id := st.ent[id]];
        assert dt.None? ==> st.free == old(st).free;
        return if dt.None? then None else p, true;
      }
      r, tried := AddEvicting(addr, dt);
    }

    method AddEvicting(addr: Chk, dt: Option<Tok>) returns (r: Option<BufId>, tried: bool)
      requires Valid() && AddReady(st) && st.free == []
      modifies this, lists
      ensures Valid() && (st, r) == M.Add(old(st), addr, dt) && (tried <==> !Exhausted(old(st)))
    {
      hide Valid;
      var v := Victim();
      if v.None? { return None, false; }
      var id := v.value;
      var i := Slot(Get(id).addr);
      RemoveNoDup(st.alist, id);
      RemoveNoDup(st.clist[i], id);
      ClistUnlink(i, id);
      AlistTail(id);
      Launch(id, addr, dt, Remove(old(st).alist, id));
      return if dt.None? then None else v, true;
    }

    /** Looks addr up and, if it is not cached, starts loading it. */
    method Obtain(addr: Chk, dt: Option<Tok>) returns (r: Option<BufId>, tried: bool)
      requires Valid() && AddReady(st)
      modifies this, lists
      ensures Valid() && (st, r) == M.Obtain(old(st), addr, dt)
      ensures tried <==> M.Find(old(st), addr).None? && !Exhausted(old(st))
    {
      hide Valid;
      r := Find(addr);
      if r.Some? { return r, false; }
      r, tried := Add(addr, dt);
    }

    /** One round of shfs_cache_readahead. */
    method ReadaheadRound(addr: Chk, dt: Option<Tok>) returns (more: bool)
      requires Valid() && AddReady(st)
      modifies this, lists
      ensures Valid() && (st, more) == ReadaheadOne(old(st), addr, dt)
    {
      hide Valid;
      if addr >= Volsize() { return false; }
      var r, _ := Obtain(addr, dt);
      return r.Some?;
    }

    function Mounted(): (b: bool)
      requires Valid()
      reads this, lists
      ensures b == st.mounted
    {
      mounted
    }

    function Volsize(): (v: Chk)
      requires Valid()
      reads this, lists
      ensures v == st.volsize
    {
      volsize
    }

    /** shfs_cache_readahead. */
    method Readahead(addr: Chk, dts: seq<Option<Tok>>, ghost x: BufId, ghost disk: Disk)
      requires Valid() && Loading(st, addr, 1, dts, x, disk)
      modifies this, lists
      ensures Valid() && st == M.Readahead(old(st), addr, 1, dts)
    {
      hide InvX, ReadaheadOne, FreshToks;
      var i := 1;
      while i <= readahead
        invariant Valid() && 1 <= i <= readahead + 1 && Loading(st, addr, i, dts, x, disk)
        invariant M.Readahead(old(st), addr, 1, dts) == M.Readahead(st, addr, i, dts)
      {
        LoadingStep(st, addr, i, dts, x, disk);
        var more := ReadaheadRound(addr + i, dts[i]);
        if !more { return; }
        i := i + 1;
      }
    }

    /* ---- References ---- */

    /** The common end of the release functions: one reference less; the last one makes the entry
        available or, when keep is false, destroys it. */
    method Unref(id: BufId, tok: Option<Tok>, keep: bool)
      requires Valid() && |st.clist| > 0 && id < |st.ent| && st.ent[id].refcount > 0 && MayUnref(st, id, tok, keep)
      modifies this, lists
      ensures Valid() && st == Deref(old(st), id, tok, keep)
    {
      hide Valid;
      if tok.Some? { ChainUnlink(id, tok.value); }
      SetRef(id, Get(id).refcount - 1);
      assert st.ent == old(st).ent[id := st.ent[id]];
      if Get(id).refcount == 0 { LastRef(id, keep); }
    }

    /** The last reference is gone. */
    method LastRef(id: BufId, keep: bool)
      requires Valid() && |st.clist| > 0 && id < |st.ent| && MayUnref(st, id, None, keep)
      modifies this, lists
      ensures Valid()
      ensures keep ==> st == old(st).(nbRef := old(st).nbRef - 1, alist := old(st).alist + [id])
      ensures var h := HtIndex(old(st), old(st).ent[id].addr);
        !keep ==> st == old(st).(nbRef := old(st).nbRef - 1, free := [id] + old(st).free, nbEntries := old(st).nbEntries - 1,
          clist := if old(st).ent[id].addr != 0 then old(st).clist[h := Remove(old(st).clist[h], id)] else old(st).clist)
    {
      hide Valid;
      AddNbRef(-1);
      if keep {
        AlistAppend(id);
      } else {
        if Get(id).addr != 0 { ClistUnlink(Slot(Get(id).addr), id); }
        Put(id);
      }
    }

    /** The end of shfs_cache_aread: a loading entry comes with the caller's token on its chain. */
    method Deliver(id: BufId, ct: Option<Tok>, ghost disk: Disk) returns (r: AreadResult)
      requires Valid() && InvX(st, disk, Some(id)) && id < |st.ent| && st.ent[id].refcount > 0
      requires ct.Some? ==> ct.value !in st.waits
      modifies this, lists
      ensures Valid() && (st, r) == M.Deliver(old(st), id, ct)
    {
      hide Deref, Valid;
      if Get(id).t.None? { return Hit(id); }
      if ct.Some? {
        assert ct.value !in st.ent[id].chain by { assert Open(0); }
        ChainAppend(id, ct.value);
        return Wait(id, ct.value);
      }
      UnrefReady(st, id, None, true, disk, Some(id));
      Unref(id, None, true);
      return Fail;
    }

    /** The new reference; the first one takes the entry off the available list. */
    method Reference(id: BufId)
      requires Valid() && id < |st.ent| && (st.ent[id].refcount == 0 ==> id in st.alist)
      modifies this, lists
      ensures Valid() && st == Ref(old(st), id)
    {
      hide Valid, Remove;
      var n := Get(id).refcount;
      assert n == st.ent[id].refcount;
      if n == 0 {
        AlistUnlink(id);
        AddNbRef(1);
      }
      assert st.ent == old(st).ent && st.held == old(st).held;
      SetRef(id, n + 1);
    }

    /** From the entry on: reference, read-ahead, delivery. */
    method Serve(id: BufId, addr: Chk, dts: seq<Option<Tok>>, ct: Option<Tok>, ghost disk: Disk) returns (r: AreadResult)
      requires Valid() && Inv(st, disk) && id < |st.ent| && Addrs(st)[id] == addr > 0
      requires |dts| == st.readahead + 1 && FreshToks(st, dts, 1) && (ct.Some? ==> ct.value !in st.waits)
      modifies this, lists
      ensures Valid() && (st, r) == M.Deliver(M.Readahead(Ref(old(st), id), addr, 1, dts), id, ct)
    {
      hide M.Readahead, M.Deliver, InvX, Valid;
      RefLoading(st, id, addr, dts, disk);
      ListsOf(st, id, disk, None);
      Reference(id);
      ReadaheadKeeps(st, addr, 1, dts, id, disk);
      Readahead(addr, dts, id, disk);
      r := Deliver(id, ct, disk);
    }

    /** shfs_cache_aread: dts are the device's answers, ct is the caller's token; hard says that the device
        refuses a request for another reason than a lack of room.  A failure may be tried again (EAGAIN) unless
        the chunk is outside the volume or the device refused it so. */
    method Aread(addr: Chk, dts: seq<Option<Tok>>, ct: Option<Tok>, hard: bool, ghost disk: Disk) returns (r: AreadResult, again: bool)
      requires Valid() && Inv(st, disk) && Enabled(st, DoAread(addr, dts, ct), disk)
      modifies this, lists
      ensures Valid() && (st, r) == M.Aread(old(st), addr, dts, ct)
      ensures Inv(st, disk)
      ensures r.Fail? ==> (again <==> Readable(old(st), addr) && !(hard && SetupFailed(old(st), addr, dts[0])))
    {
      hide M.Readahead, M.Deliver, M.Obtain, InvX, Valid;
      AreadKeeps(st, addr, dts, ct, disk);
      if !MayRead(addr) { return Fail, false; }
      ObtainKeeps(st, addr, dts[0], disk);
      ObtainFails(st, addr, dts[0], disk);
      InvReady(st, disk, None);
      var f, tried := Obtain(addr, dts[0]);
      if f.None? { return Fail, !(hard && tried); }
      r := Serve(f.value, addr, dts, ct, disk);
      again := true;
    }

    /** What the token pool and the device answer to the next request of the cache. */
    method Answers(ghost disk: Disk) returns (dts: seq<Option<Tok>>, ct: Option<Tok>, hard: bool)
      requires Valid()
      ensures forall addr: Chk :: Enabled(st, DoAread(addr, dts, ct), disk)
    {
      dts, ct, hard := *, *, *;
      var ok := |dts| == readahead + 1
        && (forall j :: 0 <= j < |dts| && dts[j].Some? ==> dts[j].value !in dev && dts[j].value !in waits)
        && (forall j, k :: 0 <= j < |dts| && 0 <= k < |dts| && j < k && dts[j].Some? ==> dts[j] != dts[k]);
      if !ok { dts := seq(readahead + 1, _ => None); }
      if ct.Some? && ct.value in waits { ct := None; }
    }

    /** shfs_cache_eblank. */
    method Eblank(ghost disk: Disk) returns (r: Option<BufId>)
      requires Valid() && Inv(st, disk)
      modifies this, lists
      ensures Valid() && (st, r) == M.Eblank(old(st))
      ensures Inv(st, disk)
    {
      hide Valid;
      StepKeeps(st, DoEblank, disk);
      if !Mounted() { return None; }
      r := Pick();
      if r.None? {
        r := Victim();
        if r.None? { return None; }
        ListsOf(st, r.value, disk, None);
        Unlink(r.value);
      }
      BlankRef(st, r.value, disk, old(st));
      Blank(r.value);
      assert st.ent == old(st).ent[r.value := st.ent[r.value]];
    }

    /** The fields of a blank entry. */
    method Blank(id: BufId)
      requires Valid() && id < |st.ent| && st.ent[id].refcount == 0
      modifies this
      ensures Valid() && st == old(st).(ent := old(st).ent[id := Blanked(old(st).ent[id])],
        nbRef := old(st).nbRef + 1, held := old(st).held + multiset{id})
    {
      hide Valid;
      SetRef(id, 1);
      AddNbRef(1);
      SetCce(id, Get(id).(t := None, addr := 0, invalid := true));
      assert st.ent == old(st).ent[id := st.ent[id]];
    }

    /** shfs_cache_release, by a caller that owns a reference without a waiting token. */
    method Release(id: BufId, ghost disk: Disk)
      requires Valid() && Inv(st, disk) && Enabled(st, DoRelease(id), disk)
      modifies this, lists
      ensures Valid() && st == Apply(old(st), DoRelease(id), disk) && Inv(st, disk)
    {
      hide Deref, Valid;
      MayRelease(st, id, None, disk);
      StepKeeps(st, DoRelease(id), disk);
      assert Get(id).refcount != 0 && Get(id).t.None?;  // the BUG_ON checks
      UnrefReady(st, id, None, !st.ent[id].invalid, disk, None);
      Unref(id, None, !Get(id).invalid);
    }

    /** shfs_cache_release_ioabort; tok is the caller's token while it still waits. */
    method ReleaseAbort(id: BufId, tok: Option<Tok>, ghost disk: Disk)
      requires Valid() && Inv(st, disk) && Enabled(st, DoAbort(id, tok), disk)
      modifies this, lists
      ensures Valid() && st == Apply(old(st), DoAbort(id, tok), disk) && Inv(st, disk)
    {
      hide Deref, Valid;
      MayRelease(st, id, tok, disk);
      StepKeeps(st, DoAbort(id, tok), disk);
      assert Get(id).refcount != 0 && !(Get(id).t.Some? && tok.None?) && !(Get(id).t.None? && tok.Some?);
      UnrefReady(st, id, tok, !(st.ent[id].t.None? && st.ent[id].invalid), disk, None);
      Unref(id, tok, !(Get(id).t.None? && Get(id).invalid));
    }

    /* ---- Completion and flush ---- */

    /** _cce_aiocb: the device finished request t with ret. */
    method AioCallback(t: Tok, ret: int, ghost disk: Disk)
      requires Valid() && Inv(st, disk) && Enabled(st, DoComplete(t, ret), disk)
      modifies this, lists
      ensures Valid() && st == Apply(old(st), DoComplete(t, ret), disk) && Inv(st, disk)
    {
      hide Valid, Complete;
      StepKeeps(st, DoComplete(t, ret), disk);
      WaitersAreChain(st, t, disk);
      var id := Dev()[t].buf;
      assert Get(id).t == Some(t) && !(Get(id).refcount == 0 && st.ent[id].chain != []);  // the BUG_ON checks
      UnpooledRead(st, t, disk);
      Finalize(id, t, ret);
    }

    /** The device writes into a buffer it still owns. */
    method DeviceWrite(t: Tok, data: seq<Byte>, ghost disk: Disk)
      requires Valid() && Inv(st, disk) && t in st.dev
      modifies this, lists
      ensures Valid() && st == Apply(old(st), DoScribble(t, data), disk) && Inv(st, disk)
    {
      hide Valid;
      StepKeeps(st, DoScribble(t, data), disk);
      var id := Dev()[t].buf;
      SetCce(id, Get(id).(buf := data));
    }

    method Finalize(id: BufId, t: Tok, ret: int)
      requires Valid() && Shape(st) && t in st.dev && id == st.dev[t].buf < |st.ent|
      requires st.ent[id].refcount == 0 ==> id in st.alist && Cached(st, id)
      modifies this, lists
      ensures Valid() && st == Complete(old(st), t, ret)
    {
      hide Valid;
      SetDev(Dev() - {t});
      SetCce(id, Get(id).(t := None, invalid := ret < 0));
      var c := Get(id);
      if c.refcount == 0 && c.invalid {
        Unlink(id);
        Put(id);
      } else {
        NotifyAll(id, ret);
        assert st.ent == old(st).ent[id := st.ent[id]];
      }
    }

    /** Clears the chain and notifies its tokens. */
    method NotifyAll(id: BufId, ret: int)
      requires Valid() && id < |st.ent|
      modifies this, lists
      ensures Valid() && st == old(st).(ent := old(st).ent[id := old(st).ent[id].(chain := [])],
        waits := Without(old(st).waits, old(st).ent[id].chain), notified := old(st).notified + Notes(old(st).ent[id].chain, ret))
    {
      ghost var chain := st.ent[id].chain;
      var cur := chains[id].first;
      assert cur == D.At(chain, 0) && D.Links(chain, chains[id].next, 1);
      ChainReset(id);
      Notify(id, cur, ret, chain);
    }

    /** The callback loop: every token of the chain is told the result, in order. */
    method Notify(id: BufId, first: Option<Tok>, ret: int, ghost chain: seq<Tok>)
      requires Valid() && id < |st.ent| && first == D.At(chain, 0) && D.Links(chain, chains[id].next, 1)
      modifies this`waits, this`st
      ensures Valid()
      ensures st == old(st).(waits := Without(old(st).waits, chain), notified := old(st).notified + Notes(chain, ret))
    {
      var cur := first;
      ghost var k := 0;
      while cur.Some?
        invariant Valid() && k <= |chain| && cur == D.At(chain, k)
        invariant st == old(st).(waits := Without(old(st).waits, chain[..k]), notified := old(st).notified + Notes(chain[..k], ret))
        decreases |chain| - k
      {
        assert D.Link(chain, chains[id].next, 1, k);
        var w := cur.value;
        var next := chains[id].next[w];
        waits := waits - {w};
        st := st.(waits := waits, notified := st.notified + [Note(w, ret)]);
        cur, k := next, k + 1;
        NotifyOne(old(st).waits, chain, k - 1, ret);
      }
      assert chain[..k] == chain;
    }

    /** shfs_cache_flush_alist: returns every available entry to the pool.  A read in flight into the
        head is waited for; while polling, other reads may complete too (with any result). */
    method Flush(disk: Disk) returns (ghost steps: seq<Step>)
      requires Valid() && Inv(st, disk)
      modifies this, lists
      ensures Valid() && st.alist == [] && st.held == old(st).held
      ensures Runs(old(st), steps, st, disk) && Inv(st, disk)
      ensures forall i :: 0 <= i < |steps| ==> steps[i].DoFlush? || steps[i].DoComplete?
    {
      hide InvX, Runs, Enabled, Apply, Valid;
      steps := [];
      RunsNone(st, disk);
      while First().Some?
        invariant Valid() && Inv(st, disk) && Runs(old(st), steps, st, disk) && st.held == old(st).held
        invariant forall i :: 0 <= i < |steps| ==> steps[i].DoFlush? || steps[i].DoComplete?
        decreases |st.alist|
      {
        var polls: nat, ret: int := *, *;
        ghost var len := |st.alist|;
        FlushReady(st, disk);
        if Get(First().value).t.Some? {
          for _ := 0 to polls
            invariant Valid() && Inv(st, disk) && Runs(old(st), steps, st, disk) && st.held == old(st).held && |st.alist| <= len
            invariant forall i :: 0 <= i < |steps| ==> steps[i].DoFlush? || steps[i].DoComplete?
          {
            steps := PollOther(disk, old(st), steps);
          }
        }
        if First().Some? {
          FlushRuns(old(st), steps, st, ret, disk);
          FlushHead(ret, disk);
          steps := steps + [DoFlush(ret)];
        }
      }
    }

    /** While flush polls the devices, some read may complete, with any result. */
    method PollOther(disk: Disk, ghost s0: Sys, ghost steps: seq<Step>) returns (ghost steps': seq<Step>)
      requires Valid() && Inv(s0, disk) && Inv(st, disk) && Runs(s0, steps, st, disk)
      requires forall i :: 0 <= i < |steps| ==> steps[i].DoFlush? || steps[i].DoComplete?
      modifies this, lists
      ensures Valid() && Inv(st, disk) && Runs(s0, steps', st, disk) && st.held == old(st).held && |st.alist| <= |old(st).alist|
      ensures forall i :: 0 <= i < |steps'| ==> steps'[i].DoFlush? || steps'[i].DoComplete?
    {
      hide Complete, Valid, Runs;
      steps' := steps;
      if Dev() == map[] { return; }
      var t :| t in Dev();
      var ret: int := *;
      if ret >= 0 && Get(Dev()[t].buf).buf != disk(Dev()[t].addr) { ret := -1; }
      RunsAppend(s0, steps, st, DoComplete(t, ret), disk);
      CompletionNotifies(st, t, ret, disk);
      CompleteShrinks(st, t, ret, disk);
      AioCallback(t, ret, disk);
      steps' := steps + [DoComplete(t, ret)];
    }

    function First(): (r: Option<BufId>)
      requires Valid()
      reads this, lists
      ensures r == if st.alist == [] then None else Some(st.alist[0])
    {
      alist.first
    }

    /** One round of the flush loop. */
    method FlushHead(ret: int, ghost disk: Disk)
      requires Valid() && Inv(st, disk) && st.alist != []
      modifies this, lists
      ensures Valid() && st == FlushFirst(old(st), ret) && Inv(st, disk)
      ensures st.held == old(st).held && |st.alist| == |old(st).alist| - 1
    {
      hide InvX, Valid;
      FlushReady(st, disk);
      var id := First().value;
      ListsOf(st, id, disk, None);
      FlushOne(id, ret);
    }

    /** The entry goes back to the pool, after its read. */
    method FlushOne(id: BufId, ret: int)
      requires Valid() && |st.clist| > 0 && st.alist != [] && id == st.alist[0] < |st.ent| && st.ent[id].refcount == 0 && Cached(st, id)
      modifies this, lists
      ensures Valid() && st == FlushFirst(old(st), ret)
    {
      hide Valid;
      if Get(id).t.Some? { Await(id, ret); }
      Unlink(id);
      Put(id);
    }

    /** The wait for the read into an unreferenced buffer; the reference keeps the callback from freeing it. */
    method Await(id: BufId, ret: int)
      requires Valid() && id < |st.ent| && st.ent[id].t.Some? && st.ent[id].refcount == 0
      modifies this, lists
      ensures Valid()
      ensures st == old(st).(dev := old(st).dev - {old(st).ent[id].t.value}, ent := old(st).ent[id := old(st).ent[id].(t := None, invalid := ret < 0)])
    {
      hide Valid;
      SetCce(id, Get(id).(refcount := 1));
      SetDev(Dev() - {Get(id).t.value});
      SetCce(id, Get(id).(t := None, invalid := ret < 0));
      SetCce(id, Get(id).(refcount := 0));
      assert st.ent == old(st).ent[id := st.ent[id]];
    }
  }

  ghost predicate Cached(s: Sys, id: BufId)
    requires |s.clist| > 0 && id < |s.ent|
  {
    id in s.clist[HtIndex(s, s.ent[id].addr)]
  }

  method NewLists(n: nat) returns (r: seq<D.DList<nat>>)
    ensures |r| == n && fresh(set l | l in r) && forall i :: 0 <= i < n ==> r[i].Valid() && r[i].els == []
    ensures forall i, j :: 0 <= i < j < n ==> r[i] != r[j]
  {
    r := [];
    while |r| < n
      invariant |r| <= n && fresh(set l | l in r) && forall i :: 0 <= i < |r| ==> r[i].Valid() && r[i].els == []
      invariant forall i, j :: 0 <= i < j < |r| ==> r[i] != r[j]
      decreases n - |r|
    {
      var l := new D.DList<nat>();
      r := r + [l];
    }
  }

  /** What the links demand of a release: a waiting token is on the chain, an entry that becomes available
      is not on that list yet, one that is destroyed is on its collision list. */
  ghost predicate MayUnref(s: Sys, id: BufId, tok: Option<Tok>, keep: bool)
    requires |s.clist| > 0 && id < |s.ent|
  {
    && (tok.Some? ==> tok.value in s.ent[id].chain)
    && id !in s.alist && (s.ent[id].addr != 0 ==> Cached(s, id))
  }

  lemma UnrefReady(s: Sys, id: BufId, tok: Option<Tok>, keep: bool, disk: Disk, x: Option<BufId>)
    requires InvX(s, disk, x) && id < |s.ent| && s.ent[id].refcount > 0 && (tok.Some? ==> tok.value in s.ent[id].chain)
    ensures MayUnref(s, id, tok, keep)
  {
    ListsOf(s, id, disk, x);
  }

  /** The lists an entry is on. */
  lemma ListsOf(s: Sys, id: BufId, disk: Disk, x: Option<BufId>)
    requires InvX(s, disk, x) && id < |s.ent|
    ensures id in s.alist <==> id !in s.free && s.ent[id].addr != 0 && s.ent[id].refcount == 0
    ensures id in s.free ==> s.ent[id].refcount == 0 && s.ent[id].t.None?
    ensures id !in s.free && s.ent[id].addr != 0 ==> Cached(s, id)
    ensures s.ent[id].addr == 0 ==> s.ent[id].t.None?
    ensures forall h :: 0 <= h < |s.clist| && id in s.clist[h] ==> id !in s.free && h == HtIndex(s, s.ent[id].addr)
    ensures s.ent[id].refcount == 0 ==> s.ent[id].chain == []
  {
    assert Open(0);
    assert EntryOk(s.ent[id], s.held[id], id in s.alist, id in s.free, x == Some(id), disk);
    assert forall h :: 0 <= h < |s.clist| ==> (id in s.clist[h] <==> InBucket(Addrs(s), id, h, |s.clist|));
  }

  /** A buffer the device fills is in the cache, and available unless referenced. */
  lemma UnpooledRead(s: Sys, t: Tok, disk: Disk)
    requires Inv(s, disk) && t in s.dev
    ensures var id := s.dev[t].buf; id < |s.ent| && (s.ent[id].refcount == 0 ==> id in s.alist && Cached(s, id))
  {
    assert StillFilling(s, t, s.dev[t]) by { InFlight(s, t, disk); }
    ListsOf(s, s.dev[t].buf, disk, None);
  }

  /** The buffer eblank hands out was nobody's. */
  lemma BlankRef(s: Sys, id: BufId, disk: Disk, s0: Sys)
    requires Inv(s0, disk) && |s.ent| == |s0.ent| && id < |s.ent| && (id in s0.free || id in s0.alist)
    requires s.ent[id] == s0.ent[id] || s.ent[id] == Picked(s0.ent[id])
    ensures s.ent[id].refcount == 0
  {
    ListsOf(s0, id, disk, None);
  }

  lemma RefLoading(s: Sys, id: BufId, addr: Chk, dts: seq<Option<Tok>>, disk: Disk)
    requires Inv(s, disk) && id < |s.ent| && Addrs(s)[id] == addr > 0 && |dts| == s.readahead + 1 && FreshToks(s, dts, 1)
    ensures Loading(Ref(s, id), addr, 1, dts, id, disk) && Ref(s, id).waits == s.waits
  {
    RefKeeps(s, id, disk);
  }

  lemma NotifyOne(waits: map<Tok, BufId>, chain: seq<Tok>, k: nat, ret: int)
    requires k < |chain|
    ensures Notes(chain[..k + 1], ret) == Notes(chain[..k], ret) + [Note(chain[k], ret)]
    ensures Without(waits, chain[..k + 1]) == Without(waits, chain[..k]) - {chain[k]}
  {
    assert chain[..k + 1] == chain[..k] + [chain[k]];
  }

  lemma RunsNone(s: Sys, disk: Disk)
    requires Inv(s, disk)
    ensures Runs(s, [], s, disk)
  {
  }

  lemma FlushRuns(s0: Sys, steps: seq<Step>, s: Sys, ret: int, disk: Disk)
    requires Inv(s0, disk) && Inv(s, disk) && Runs(s0, steps, s, disk) && s.alist != []
    ensures |s.clist| > 0 && s.alist[0] < |s.ent| && Runs(s0, steps + [DoFlush(ret)], FlushFirst(s, ret), disk)
  {
    RunsAppend(s0, steps, s, DoFlush(ret), disk);
  }

  /** The lists are as shfs_cache_add expects them. */
  ghost predicate AddReady(s: Sys) {
    && Shape(s) && NoDup(s.alist) && (forall h :: 0 <= h < |s.clist| ==> NoDup(s.clist[h]))
    && (forall id :: id in s.free ==> id !in s.alist)
    && (forall id :: id in s.alist ==> id < |s.ent| && Cached(s, id))
    && (forall h, id :: 0 <= h < |s.clist| && id in s.clist[h] ==> id < |s.ent| && id !in s.free && h == HtIndex(s, s.ent[id].addr))
  }

  lemma InvReady(s: Sys, disk: Disk, x: Option<BufId>)
    requires InvX(s, disk, x)
    ensures AddReady(s)
  {
    assert NoDup(s.alist) && (forall h :: 0 <= h < |s.clist| ==> NoDup(s.clist[h])) by { assert Open(0); }
    forall id: BufId | id < |s.ent|
      ensures (id in s.alist ==> id !in s.free && Cached(s, id))
      ensures forall h :: 0 <= h < |s.clist| && id in s.clist[h] ==> id !in s.free && h == HtIndex(s, s.ent[id].addr)
    {
      ListsOf(s, id, disk, x);
    }
  }

  /** Where the read-ahead for a request of chunk addr stands: x, the entry of addr, is referenced. */
  ghost predicate Loading(s: Sys, addr: Chk, i: nat, dts: seq<Option<Tok>>, x: BufId, disk: Disk) {
    && Shape(s) && InvX(s, disk, Some(x)) && x < |s.ent| && s.ent[x].refcount > 0
    && |dts| == s.readahead + 1 && FreshToks(s, dts, i) && addr > 0
  }

  lemma LoadingStep(s: Sys, addr: Chk, i: nat, dts: seq<Option<Tok>>, x: BufId, disk: Disk)
    requires Loading(s, addr, i, dts, x, disk) && i <= s.readahead
    ensures AddReady(s)
    ensures var (s1, more) := ReadaheadOne(s, addr + i, dts[i]);
      && Loading(s1, addr, i + 1, dts, x, disk)
      && M.Readahead(s, addr, i, dts) == if more then M.Readahead(s1, addr, i + 1, dts) else s1
  {
    InvReady(s, disk, Some(x));
    ReadaheadOneKeeps(s, addr + i, i, dts, x, disk);
  }

  lemma FlushReady(s: Sys, disk: Disk)
    requires Inv(s, disk) && s.alist != []
    ensures |s.clist| > 0 && s.alist[0] < |s.ent| && s.ent[s.alist[0]].refcount == 0
    ensures |Remove(s.alist, s.alist[0])| == |s.alist| - 1
    ensures forall ret :: Inv(FlushFirst(s, ret), disk)
  {
    forall ret ensures Inv(FlushFirst(s, ret), disk) { FlushFirstKeeps(s, ret, disk); }
    assert Open(0);
    var id := s.alist[0];
    RemoveNoDup(s.alist, id);
    assert EntryOk(s.ent[id], s.held[id], id in s.alist, id in s.free, false, disk);
  }

  lemma CompleteShrinks(s: Sys, t: Tok, ret: int, disk: Disk)
    requires Inv(s, disk) && t in s.dev
    ensures |Complete(s, t, ret).alist| <= |s.alist|
  {
    assert Open(0);
    RemoveNoDup(s.alist, s.dev[t].buf);
  }
}
